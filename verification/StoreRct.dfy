/** The count of amount-zero outputs that a block carries against the outputs stored. */
module StoreRct {
  import opened Wrappers
  import opened Tables
  import opened ChainTypes
  import opened StoreSpec
  import opened StoreRuns
  import opened StoreRoundTrip
  import opened StoreReach
  import opened StoreRefinement
  import opened StoreLedger

  function ZeroList(db: Store): nat {
    |OutputsOf(db.outputs.byAmount, 0)|
  }

  function RunningTotal(db: Store): nat {
    if db.blocks == [] then 0 else db.blocks[|db.blocks| - 1].cumulativeRct
  }

  /** How many of the first n outputs are filed under amount zero. */
  function StoredZeros(tx: Transaction, n: nat): nat
    requires n <= |tx.vout|
  {
    if n == 0 then 0 else StoredZeros(tx, n - 1) + (if StoredAmount(tx, n - 1) == 0 then 1 else 0)
  }

  lemma {:induction false} AddOutputsGrowZeroList(o: OutputTables, height: nat, hash: Hash, tx: Transaction, n: nat)
    requires n <= |tx.vout| && AddOutputs(o, height, hash, tx, n).Ok?
    ensures |OutputsOf(AddOutputs(o, height, hash, tx, n).value.0.byAmount, 0)|
      == |OutputsOf(o.byAmount, 0)| + StoredZeros(tx, n)
  {
    if n > 0 {
      AddOutputsGrowZeroList(o, height, hash, tx, n - 1);
      var o1 := AddOutputs(o, height, hash, tx, n - 1).value.0;
      var o2 := AddOutput(o1, height, hash, tx, n - 1).value.0;
    }
  }

  /** All outputs of a pseudo-RCT miner transaction, otherwise those of amount zero. */
  lemma {:induction false} StoredZerosClosedForm(tx: Transaction, n: nat)
    requires n <= |tx.vout|
    ensures StoredZeros(tx, n) == if tx.IsPseudoRct() then n else CountZeroAmounts(tx.vout[..n])
  {
    if n > 0 {
      StoredZerosClosedForm(tx, n - 1);
      assert tx.vout[..n][..n - 1] == tx.vout[..n - 1];
    }
  }

  /** How many outputs storing these transactions files under amount zero. */
  function AllStoredZeros(entries: seq<Entry>): nat {
    if entries == [] then 0
    else
      var tx := entries[|entries| - 1].tx;
      AllStoredZeros(entries[..|entries| - 1]) + (if Supported(tx) then StoredZeros(tx, |tx.vout|) else 0)
  }

  lemma {:induction false} AddTransactionsGrowZeroList(db: Store, entries: seq<Entry>)
    requires AddTransactions(db, entries).Ok?
    ensures ZeroList(AddTransactions(db, entries).value) == ZeroList(db) + AllStoredZeros(entries)
    decreases |entries|
  {
    if entries != [] {
      var init, e := entries[..|entries| - 1], entries[|entries| - 1];
      AddTransactionsGrowZeroList(db, init);
      var db1 := AddTransactions(db, init).value;
      if Supported(e.tx) {
        var _, _ := AddSupported(db1, e);
        AddOutputsGrowZeroList(db1.outputs, |db1.blocks|, e.hash, e.tx, |e.tx.vout|);
      } else {
        DroppedTransaction(db1, e);
      }
    }
  }

  function NonZeroAmounts(tx: Transaction): nat {
    |tx.vout| - CountZeroAmounts(tx.vout)
  }

  /** Outputs counted as amount zero but filed under their own amounts: those of a version 2
      miner transaction that does not look like one. */
  function Overcounted(blk: Block): nat {
    if blk.minerTx.None? || blk.minerTx.value.version < V2_RINGCT then 0
    else
      var tx := blk.minerTx.value;
      if Supported(tx) && !tx.IsMiner() then NonZeroAmounts(tx) else 0
  }

  /** Outputs filed under amount zero but not counted: those of listed transactions that look
      like a version 2 miner transaction. */
  function Undercounted(txs: seq<Transaction>): nat {
    if txs == [] then 0
    else
      var tx := txs[|txs| - 1];
      Undercounted(txs[..|txs| - 1]) + (if tx.IsPseudoRct() then NonZeroAmounts(tx) else 0)
  }

  /** Outputs counted but never stored: those of a dropped version 2 miner transaction, and the
      amount-zero ones of dropped listed transactions. */
  function NeverStored(blk: Block, txs: seq<Transaction>): nat {
    (if blk.minerTx.Some? && blk.minerTx.value.version >= V2_RINGCT && !Supported(blk.minerTx.value)
     then |blk.minerTx.value.vout| else 0)
    + ListedNeverStored(txs)
  }

  function ListedNeverStored(txs: seq<Transaction>): nat {
    if txs == [] then 0
    else
      var tx := txs[|txs| - 1];
      ListedNeverStored(txs[..|txs| - 1]) + (if Supported(tx) then 0 else CountZeroAmounts(tx.vout))
  }

  lemma ZerosOf(tx: Transaction)
    ensures StoredZeros(tx, |tx.vout|) == if tx.IsPseudoRct() then |tx.vout| else CountZeroAmounts(tx.vout)
  {
    StoredZerosClosedForm(tx, |tx.vout|);
    assert tx.vout[..|tx.vout|] == tx.vout;
  }

  lemma {:induction false} ListedZeros(txs: seq<Transaction>, entries: seq<Entry>)
    requires |txs| == |entries|
    requires forall i :: 0 <= i < |txs| ==> entries[i].tx == txs[i]
    ensures AllStoredZeros(entries) + ListedNeverStored(txs) == CountRctOutputs(txs) + Undercounted(txs)
    decreases |txs|
  {
    if txs != [] {
      var n := |txs| - 1;
      ListedZeros(txs[..n], entries[..n]);
      ZerosOf(txs[n]);
    }
  }

  lemma {:induction false} AllStoredZerosConcat(a: seq<Entry>, b: seq<Entry>)
    ensures AllStoredZeros(a + b) == AllStoredZeros(a) + AllStoredZeros(b)
    decreases |b|
  {
    if b == [] {
      assert a + b == a;
    } else {
      var init, all := b[..|b| - 1], a + b;
      assert all[..|all| - 1] == a + init;
      AllStoredZerosConcat(a, init);
    }
  }

  /** An output before version 2 has no commitment, so an amount of zero is refused. */
  lemma {:induction false} OldOutputsAreNonZero(o: OutputTables, height: nat, hash: Hash, tx: Transaction, n: nat)
    requires n <= |tx.vout| && tx.version < V2_RINGCT && AddOutputs(o, height, hash, tx, n).Ok?
    ensures StoredZeros(tx, n) == 0
  {
    if n > 0 {
      OldOutputsAreNonZero(o, height, hash, tx, n - 1);
      assert Storable(tx, n - 1);
    }
  }

  lemma MinerZeros(db: Store, blk: Block)
    requires AddTransactions(db, MinerEntry(blk)).Ok?
    ensures AllStoredZeros(MinerEntry(blk)) + Overcounted(blk) + NeverStored(blk, []) == NumRctOuts(blk, [])
  {
    if blk.minerTx.Some? {
      var tx, e := blk.minerTx.value, MinerEntry(blk)[0];
      assert MinerEntry(blk)[..0] == [];
      ZerosOf(tx);
      if Supported(tx) && tx.version < V2_RINGCT {
        var _, _ := AddSupported(db, e);
        OldOutputsAreNonZero(db.outputs, |db.blocks|, e.hash, tx, |tx.vout|);
      }
    }
  }

  lemma EntriesBalance(db: Store, b: Addition)
    requires ShapeOk(b) && AddTransactions(db, b.Listed()).Ok?
    ensures AllStoredZeros(b.Listed()) + Overcounted(b.blk) + NeverStored(b.blk, b.txs)
      == NumRctOuts(b.blk, b.txs) + Undercounted(b.txs)
  {
    var miner, rest := MinerEntry(b.blk), ListedEntries(b.blk, b.txs);
    AddTransactionsSplit(db, miner, rest);
    AllStoredZerosConcat(miner, rest);
    MinerZeros(db, b.blk);
    ListedZeros(b.txs, rest);
  }

  /** The zero list grows by the count handed on, corrected by the three kinds of outputs that
      are counted and filed differently. */
  lemma {:induction false} BlockZeroBalance(db: Store, b: Addition)
    requires AddTo(db, b).Ok?
    ensures ZeroList(AddTo(db, b).value) + Overcounted(b.blk) + NeverStored(b.blk, b.txs)
      == ZeroList(db) + NumRctOuts(b.blk, b.txs) + Undercounted(b.txs)
    ensures RunningTotal(AddTo(db, b).value) == RunningTotal(db) + NumRctOuts(b.blk, b.txs)
  {
    AddToSteps(db, b);
    var db1 := AddTransactions(db, b.Listed()).value;
    AddTransactionsGrowZeroList(db, b.Listed());
    EntriesBalance(db, b);
    AddTransactionsKeepBlocks(db, b.Listed());
    PushKeepsZeroList(db1, b.blk, b.meta, NumRctOuts(b.blk, b.txs));
  }

  lemma PushKeepsZeroList(db: Store, blk: Block, meta: BlockMeta, n: nat)
    requires PushBlock(db, blk, meta, n).Ok?
    ensures ZeroList(PushBlock(db, blk, meta, n).value) == ZeroList(db)
    ensures RunningTotal(PushBlock(db, blk, meta, n).value) == RunningTotal(db) + n
  {
  }

  /** A block's count is the number of amount-zero outputs it stored exactly when the
      corrections cancel. */
  lemma RctCountExactIff(db: Store, b: Addition)
    requires AddTo(db, b).Ok?
    ensures ZeroList(AddTo(db, b).value) - ZeroList(db) == NumRctOuts(b.blk, b.txs)
      <==> Overcounted(b.blk) + NeverStored(b.blk, b.txs) == Undercounted(b.txs)
  {
    BlockZeroBalance(db, b);
  }

  // ----- Runs

  function AllOvercounted(stack: seq<Addition>): nat {
    if stack == [] then 0
    else
      var b := stack[|stack| - 1];
      AllOvercounted(stack[..|stack| - 1]) + Overcounted(b.blk) + NeverStored(b.blk, b.txs)
  }

  function AllUndercounted(stack: seq<Addition>): nat {
    if stack == [] then 0 else AllUndercounted(stack[..|stack| - 1]) + Undercounted(stack[|stack| - 1].txs)
  }

  lemma {:induction false} ReplayRunningTotal(stack: seq<Addition>)
    requires Replay(stack).Ok?
    ensures var db := Replay(stack).value;
      RunningTotal(db) + AllUndercounted(stack) == ZeroList(db) + AllOvercounted(stack)
    decreases |stack|
  {
    if stack != [] {
      ReplayRunningTotal(stack[..|stack| - 1]);
      BlockZeroBalance(Replay(stack[..|stack| - 1]).value, stack[|stack| - 1]);
    }
  }

  /** After a run the running total and the length of the zero list differ by what the stacked
      blocks counted and filed differently, so they agree exactly when that cancels. */
  lemma {:induction false} RunRunningTotalIff(ops: seq<Op>)
    requires TakesOnlyOwn(ops)
    ensures var db, stack := RunDb(ops), RunStack(ops);
      && RunningTotal(db) + AllUndercounted(stack) == ZeroList(db) + AllOvercounted(stack)
      && (RunningTotal(db) == ZeroList(db) <==> AllOvercounted(stack) == AllUndercounted(stack))
  {
    RunRefinesStack(ops);
    ReplayRunningTotal(RunStack(ops));
  }

  /** The shape the network's blocks have: nothing is dropped, the miner transaction looks like
      one, and no listed transaction does. */
  predicate Regular(b: Addition) {
    && (b.blk.minerTx.Some? ==> b.blk.minerTx.value.IsMiner())
    && forall i :: 0 <= i < |b.txs| ==> Supported(b.txs[i]) && !b.txs[i].IsMiner()
  }

  lemma {:induction false} RegularListed(txs: seq<Transaction>)
    requires forall i :: 0 <= i < |txs| ==> Supported(txs[i]) && !txs[i].IsMiner()
    ensures Undercounted(txs) == 0 && ListedNeverStored(txs) == 0
    decreases |txs|
  {
    if txs != [] {
      RegularListed(txs[..|txs| - 1]);
    }
  }

  lemma {:induction false} RegularStack(stack: seq<Addition>)
    requires forall i :: 0 <= i < |stack| ==> Regular(stack[i])
    ensures AllOvercounted(stack) == 0 && AllUndercounted(stack) == 0
    decreases |stack|
  {
    if stack != [] {
      RegularStack(stack[..|stack| - 1]);
      RegularListed(stack[|stack| - 1].txs);
    }
  }

  /** While all blocks in the store are regular, the running total is the length of the zero
      list. */
  lemma {:induction false} RunRunningTotal(ops: seq<Op>)
    requires TakesOnlyOwn(ops)
    requires forall i :: 0 <= i < |RunStack(ops)| ==> Regular(RunStack(ops)[i])
    ensures RunningTotal(RunDb(ops)) == ZeroList(RunDb(ops))
  {
    RunRunningTotalIff(ops);
    RegularStack(RunStack(ops));
  }

  // ----- Every run whatsoever

  /** The outputs filed under amount zero, row by row of the transaction table. */
  function ZerosIn(txs: seq<Row<Transaction>>): nat {
    if txs == [] then 0
    else ZerosIn(txs[..|txs| - 1]) + StoredZeros(txs[|txs| - 1].value, |txs[|txs| - 1].value.vout|)
  }

  predicate ZerosAddUp(db: Store) {
    ZeroList(db) == ZerosIn(db.txs)
  }

  lemma {:induction false} DeleteSize<V>(t: seq<Row<V>>, key: nat)
    requires Get(t, key).Some?
    ensures |Delete(t, key)| == |t| - 1
  {
    if t[|t| - 1].key != key {
      DeleteSize(t[..|t| - 1], key);
    }
  }

  lemma {:induction false} DeleteZeros(txs: seq<Row<Transaction>>, id: nat, tx: Transaction)
    requires Get(txs, id) == Some(tx)
    ensures ZerosIn(Delete(txs, id)) + StoredZeros(tx, |tx.vout|) == ZerosIn(txs)
    decreases |txs|
  {
    var init, last := txs[..|txs| - 1], txs[|txs| - 1];
    if last.key != id {
      DeleteZeros(init, id, tx);
      var less := Delete(init, id);
      assert (less + [last])[..|less|] == less;
    }
  }

  lemma RemoveOutputZeros(o: OutputTables, amount: nat, index: nat)
    requires RemoveOutput(o, amount, index).Ok?
    ensures |OutputsOf(RemoveOutput(o, amount, index).value.byAmount, 0)| + (if amount == 0 then 1 else 0)
      == |OutputsOf(o.byAmount, 0)|
  {
    DeleteSize(OutputsOf(o.byAmount, amount), index);
  }

  lemma {:induction false} RemoveOutputsKeep(o: OutputTables, tx: Transaction, indices: seq<nat>, n: nat,
                                             kept: (OutputTables, nat) -> bool)
    requires n <= |tx.vout| && n <= |indices| && kept(o, n) && RemoveOutputs(o, tx, indices, n).Ok?
    requires forall p: OutputTables, m: nat {:trigger kept(p, m)} :: 0 < m <= n && kept(p, m) ==>
      var r := RemoveOutput(p, StoredAmount(tx, m - 1), indices[m - 1]); r.Ok? ==> kept(r.value, m - 1)
    ensures kept(RemoveOutputs(o, tx, indices, n).value, 0)
    decreases n
  {
    if n > 0 {
      var o1 := RemoveOutput(o, StoredAmount(tx, n - 1), indices[n - 1]).value;
      RemoveOutputsKeep(o1, tx, indices, n - 1, kept);
    }
  }

  lemma {:induction false} RemoveOutputsZeros(o: OutputTables, tx: Transaction, indices: seq<nat>, n: nat)
    requires n <= |tx.vout| && n <= |indices| && RemoveOutputs(o, tx, indices, n).Ok?
    ensures |OutputsOf(RemoveOutputs(o, tx, indices, n).value.byAmount, 0)| + StoredZeros(tx, n)
      == |OutputsOf(o.byAmount, 0)|
  {
    var kept := (p: OutputTables, m: nat) => m <= |tx.vout| &&
      |OutputsOf(p.byAmount, 0)| + StoredZeros(tx, n) == |OutputsOf(o.byAmount, 0)| + StoredZeros(tx, m);
    forall p: OutputTables, m: nat {:trigger kept(p, m)} | 0 < m <= n && kept(p, m)
      ensures var r := RemoveOutput(p, StoredAmount(tx, m - 1), indices[m - 1]); r.Ok? ==> kept(r.value, m - 1)
    {
      if RemoveOutput(p, StoredAmount(tx, m - 1), indices[m - 1]).Ok? {
        RemoveOutputZeros(p, StoredAmount(tx, m - 1), indices[m - 1]);
      }
    }
    RemoveOutputsKeep(o, tx, indices, n, kept);
  }

  lemma RemoveKeepsZeros(db: Store, h: Hash)
    requires ZerosAddUp(db) && RemoveTransaction(db, h).Ok?
    ensures ZerosAddUp(RemoveTransaction(db, h).value)
  {
    var id := db.txIndices[h].txId;
    var tx, indices := GetTx(db, h).value, Get(db.txOutputs, id).value;
    RemoveOutputsZeros(db.outputs, tx, indices, |tx.vout|);
    DeleteZeros(db.txs, id, tx);
  }

  lemma {:induction false} AddKeepsZeros(db: Store, entries: seq<Entry>)
    requires ZerosAddUp(db) && AddTransactions(db, entries).Ok?
    ensures ZerosAddUp(AddTransactions(db, entries).value)
    decreases |entries|
  {
    if entries != [] {
      var init, e := entries[..|entries| - 1], entries[|entries| - 1];
      AddKeepsZeros(db, init);
      AddOneKeepsZeros(AddTransactions(db, init).value, e);
    }
  }

  lemma AddOneKeepsZeros(db: Store, e: Entry)
    requires ZerosAddUp(db) && AddTransaction(db, e).Ok?
    ensures ZerosAddUp(AddTransaction(db, e).value)
  {
    if Supported(e.tx) {
      var _, _ := AddSupported(db, e);
      AddOutputsGrowZeroList(db.outputs, |db.blocks|, e.hash, e.tx, |e.tx.vout|);
      assert (db.txs + [Row(|db.txs|, e.tx)])[..|db.txs|] == db.txs;
    } else {
      DroppedTransaction(db, e);
    }
  }

  lemma PopKeepsZeros(db: Store)
    requires ZerosAddUp(db) && PopBlock(db).Ok?
    ensures ZerosAddUp(PopBlock(db).value.db)
  {
    forall d: Store, h: Hash {:trigger RemoveTransaction(d, h)} | ZerosAddUp(d) && RemoveTransaction(d, h).Ok?
      ensures ZerosAddUp(RemoveTransaction(d, h).value)
    {
      RemoveKeepsZeros(d, h);
    }
    PopInvariant(db, ZerosAddUp);
  }

  /** After every run the zero list has an output for each amount-zero output of the stored
      transactions. */
  lemma {:induction false} RunZeroList(ops: seq<Op>)
    ensures ZeroList(RunDb(ops)) == ZerosIn(RunDb(ops).txs)
    decreases |ops|
  {
    if ops != [] {
      var db := RunDb(ops[..|ops| - 1]);
      RunZeroList(ops[..|ops| - 1]);
      match ops[|ops| - 1]
      case Pop =>
        if PopBlock(db).Ok? {
          PopKeepsZeros(db);
        }
      case Add(b) =>
        AddToSteps(db, b);
        if AddTo(db, b).Ok? {
          AddKeepsZeros(db, b.Listed());
        }
    }
  }

  /** The additions whose blocks are in the store. */
  function BlocksOn(ops: seq<Op>): seq<Addition> {
    if ops == [] then []
    else
      var db, before := RunDb(ops[..|ops| - 1]), BlocksOn(ops[..|ops| - 1]);
      match ops[|ops| - 1]
      case Add(b) => if AddTo(db, b).Ok? then before + [b] else before
      case Pop => if PopBlock(db).Ok? && before != [] then before[..|before| - 1] else before
  }

  /** What was counted with them. */
  function CountedWith(stack: seq<Addition>): nat {
    if stack == [] then 0
    else CountedWith(stack[..|stack| - 1]) + NumRctOuts(stack[|stack| - 1].blk, stack[|stack| - 1].txs)
  }

  predicate Cumulates(blocks: seq<BlockRow>, stack: seq<Addition>) {
    && |blocks| == |stack|
    && forall i :: 0 <= i < |blocks| ==>
         blocks[i].block == stack[i].blk && blocks[i].cumulativeRct == CountedWith(stack[..i + 1])
  }

  lemma CumulatesPush(blocks: seq<BlockRow>, stack: seq<Addition>, row: BlockRow, b: Addition)
    requires Cumulates(blocks, stack) && row.block == b.blk
    requires row.cumulativeRct ==
      (if blocks == [] then 0 else blocks[|blocks| - 1].cumulativeRct) + NumRctOuts(b.blk, b.txs)
    ensures Cumulates(blocks + [row], stack + [b])
  {
    var all := stack + [b];
    assert all[..|stack|] == stack && all[..|all|] == all && stack[..|stack|] == stack;
    forall i | 0 <= i < |all|
      ensures (blocks + [row])[i].block == all[i].blk && (blocks + [row])[i].cumulativeRct == CountedWith(all[..i + 1])
    {
      if i < |stack| {
        assert all[..i + 1] == stack[..i + 1];
      }
    }
  }

  lemma CumulatesPop(blocks: seq<BlockRow>, stack: seq<Addition>)
    requires Cumulates(blocks, stack) && stack != []
    ensures Cumulates(blocks[..|blocks| - 1], stack[..|stack| - 1])
  {
    var less := stack[..|stack| - 1];
    forall i | 0 <= i < |less|
      ensures blocks[i].block == less[i].blk && blocks[i].cumulativeRct == CountedWith(less[..i + 1])
    {
      assert less[..i + 1] == stack[..i + 1];
    }
  }

  lemma AddCumulates(db: Store, stack: seq<Addition>, b: Addition)
    requires Cumulates(db.blocks, stack) && AddTo(db, b).Ok?
    ensures Cumulates(AddTo(db, b).value.blocks, stack + [b])
  {
    AddToSteps(db, b);
    AddTransactionsKeepBlocks(db, b.Listed());
    var row := AddTo(db, b).value.blocks[|db.blocks|];
    assert AddTo(db, b).value.blocks == db.blocks + [row];
    CumulatesPush(db.blocks, stack, row, b);
  }

  lemma {:induction false} RunCumulates(ops: seq<Op>)
    ensures Cumulates(RunDb(ops).blocks, BlocksOn(ops))
    decreases |ops|
  {
    if ops != [] {
      var db, before := RunDb(ops[..|ops| - 1]), BlocksOn(ops[..|ops| - 1]);
      RunCumulates(ops[..|ops| - 1]);
      match ops[|ops| - 1]
      case Add(b) =>
        if AddTo(db, b).Ok? {
          AddCumulates(db, before, b);
        }
      case Pop =>
        if PopBlock(db).Ok? {
          RunConsistent(ops[..|ops| - 1]);
          PopSucceedsIff(db);
          CumulatesPop(db.blocks, before);
        }
    }
  }

  /** After every run the running total is what was counted with the blocks in the store, and
      the zero list is what their rows hold; so the two agree exactly when these sums do. */
  lemma {:induction false} RunTotalsIff(ops: seq<Op>)
    ensures RunningTotal(RunDb(ops)) == CountedWith(BlocksOn(ops))
    ensures RunningTotal(RunDb(ops)) == ZeroList(RunDb(ops)) <==>
      CountedWith(BlocksOn(ops)) == ZerosIn(RunDb(ops).txs)
  {
    RunCumulates(ops);
    RunZeroList(ops);
    assert BlocksOn(ops)[..|BlocksOn(ops)|] == BlocksOn(ops);
  }
}
