/** What holds in every store that any run of additions and pops reaches, and when a pop succeeds there. */
module StoreReach {
  import opened Wrappers
  import opened Tables
  import opened ChainTypes
  import opened StoreSpec
  import opened StoreRuns
  import opened StoreRoundTrip
  import opened StoreAcceptance
  import opened StoreOutputs

  // ----- Blocks

  /** Every block is known by its hash at its height, and no other hash is known. */
  predicate HeightsMatch(db: Store) {
    && (forall i :: 0 <= i < |db.blocks| ==>
          && db.blocks[i].block.id in db.blockHeights
          && db.blockHeights[db.blocks[i].block.id] == i)
    && (forall h :: h in db.blockHeights ==>
          db.blockHeights[h] < |db.blocks| && db.blocks[db.blockHeights[h]].block.id == h)
  }

  lemma PushHeights(db: Store, blk: Block, meta: BlockMeta, n: nat)
    requires HeightsMatch(db) && PushBlock(db, blk, meta, n).Ok?
    ensures HeightsMatch(PushBlock(db, blk, meta, n).value)
  {
    var db' := PushBlock(db, blk, meta, n).value;
    forall i | 0 <= i < |db'.blocks|
      ensures db'.blocks[i].block.id in db'.blockHeights && db'.blockHeights[db'.blocks[i].block.id] == i
    {
      if i < |db.blocks| {
        assert db'.blocks[i] == db.blocks[i];
      }
    }
  }

  lemma TopBlockHeights(db: Store)
    requires HeightsMatch(db) && db.blocks != []
    ensures RemoveTopBlock(db).Ok? && HeightsMatch(RemoveTopBlock(db).value)
  {
    var n := |db.blocks| - 1;
    assert db.blockHeights[db.blocks[n].block.id] == n;
    var db' := RemoveTopBlock(db).value;
    forall i | 0 <= i < |db'.blocks|
      ensures db'.blocks[i].block.id in db'.blockHeights && db'.blockHeights[db'.blocks[i].block.id] == i
    {
      assert db'.blocks[i] == db.blocks[i];
    }
    forall h | h in db'.blockHeights
      ensures db'.blockHeights[h] < |db'.blocks| && db'.blocks[db'.blockHeights[h]].block.id == h
    {
      assert h in db.blockHeights;
    }
  }

  lemma {:induction false} AddTransactionsKeepBlocks(db: Store, entries: seq<Entry>)
    requires AddTransactions(db, entries).Ok?
    ensures AddTransactions(db, entries).value.blocks == db.blocks
    ensures AddTransactions(db, entries).value.blockHeights == db.blockHeights
    decreases |entries|
  {
    if entries != [] {
      AddTransactionsKeepBlocks(db, entries[..|entries| - 1]);
    }
  }

  // ----- When a pop succeeds

  /** The listed transactions can be removed exactly when all are stored and none is listed twice. */
  lemma {:induction false} RemoveListedSucceedsIff(db: Store, hashes: seq<Hash>)
    requires Consistent(db)
    ensures RemoveListed(db, hashes).Ok? <==> NoDuplicates(hashes) && Elements(hashes) <= db.txIndices.Keys
    ensures RemoveListed(db, hashes).Ok? ==>
      var db' := RemoveListed(db, hashes).value.0;
      && Consistent(db')
      && db'.txIndices.Keys == db.txIndices.Keys - Elements(hashes)
      && db'.blocks == db.blocks && db'.blockHeights == db.blockHeights
    decreases |hashes|
  {
    if hashes != [] {
      var init, last := hashes[..|hashes| - 1], hashes[|hashes| - 1];
      assert hashes == init + [last];
      if last in db.txIndices {
        assert OutputsFound(db, last);
        RemoveTransactionSucceedsIff(db, last);
        var db1 := RemoveTransaction(db, last).value;
        RemoveListedSucceedsIff(db1, init);
        RemovableSplit(db.txIndices.Keys, init, last);
      } else {
        assert last in Elements(hashes);
      }
    }
  }

  lemma RemovableSplit(stored: set<Hash>, init: seq<Hash>, last: Hash)
    requires last in stored
    ensures NoDuplicates(init + [last]) && Elements(init + [last]) <= stored <==>
      NoDuplicates(init) && Elements(init) <= stored - {last}
    ensures stored - {last} - Elements(init) == stored - Elements(init + [last])
  {
    var all := init + [last];
    assert Elements(all) == Elements(init) + {last};
    assert forall i :: 0 <= i < |init| ==> all[i] == init[i];
    if NoDuplicates(all) && Elements(all) <= stored {
      forall h | h in init ensures h in stored - {last} {
        var i :| 0 <= i < |init| && init[i] == h;
        assert all[i] != all[|init|];
        assert h in Elements(all);
      }
    }
  }

  /** The hashes under which a pop looks for the block's transactions. */
  function HashesIn(blk: Block): seq<Hash> {
    (if blk.minerTx.Some? then [blk.minerTx.value.id] else []) + blk.txHashes
  }

  /** The block's transactions are all stored, under hashes that are all different. */
  predicate AllStored(db: Store, blk: Block) {
    NoDuplicates(HashesIn(blk)) && Elements(HashesIn(blk)) <= db.txIndices.Keys
  }

  lemma MinerSplit(stored: set<Hash>, miner: Hash, rest: seq<Hash>)
    ensures NoDuplicates([miner] + rest) && Elements([miner] + rest) <= stored <==>
      NoDuplicates(rest) && Elements(rest) <= stored && miner in stored - Elements(rest)
  {
    var all := [miner] + rest;
    assert Elements(all) == {miner} + Elements(rest);
    assert forall i :: 0 <= i < |rest| ==> all[i + 1] == rest[i];
    if NoDuplicates(rest) && miner !in Elements(rest) {
      forall i, j | 0 <= i < j < |all| ensures all[i] != all[j] {
        assert all[j] == rest[j - 1];
      }
    }
    if NoDuplicates(all) {
      forall i, j | 0 <= i < j < |rest| ensures rest[i] != rest[j] {
        assert all[i + 1] != all[j + 1];
      }
      forall h | h in rest ensures h != miner {
        var i :| 0 <= i < |rest| && rest[i] == h;
        assert all[0] != all[i + 1];
      }
    }
  }

  /** A pop succeeds exactly when there is a block and its transactions are all stored; it
      leaves the store consistent whether or not they are the ones that came with the block. */
  lemma {:induction false} PopSucceedsIff(db: Store)
    requires Consistent(db) && HeightsMatch(db)
    ensures PopBlock(db).Ok? <==> db.blocks != [] && AllStored(db, db.blocks[|db.blocks| - 1].block)
    ensures PopBlock(db).Ok? ==>
      var p := PopBlock(db).value;
      && Consistent(p.db) && HeightsMatch(p.db)
      && p.block == db.blocks[|db.blocks| - 1].block
      && p.db.blocks == db.blocks[..|db.blocks| - 1]
      && p.db.txIndices.Keys == db.txIndices.Keys - Elements(HashesIn(p.block))
  {
    if db.blocks != [] {
      TopBlockHeights(db);
      var db1, blk := RemoveTopBlock(db).value, db.blocks[|db.blocks| - 1].block;
      SameTables(db, db1);
      RemoveListedSucceedsIff(db1, blk.txHashes);
      if blk.minerTx.Some? {
        MinerSplit(db.txIndices.Keys, blk.minerTx.value.id, blk.txHashes);
        if RemoveListed(db1, blk.txHashes).Ok? {
          PopMiner(db.txIndices.Keys, RemoveListed(db1, blk.txHashes).value.0, blk);
        }
      } else {
        assert HashesIn(blk) == blk.txHashes;
      }
    }
  }

  lemma PopMiner(stored: set<Hash>, db: Store, blk: Block)
    requires Consistent(db) && blk.minerTx.Some?
    requires db.txIndices.Keys == stored - Elements(blk.txHashes)
    ensures var r := RemoveTransaction(db, blk.minerTx.value.id);
      && (r.Ok? <==> blk.minerTx.value.id in stored - Elements(blk.txHashes))
      && (r.Ok? ==>
            && Consistent(r.value)
            && r.value.txIndices.Keys == stored - Elements(HashesIn(blk))
            && r.value.blocks == db.blocks && r.value.blockHeights == db.blockHeights)
  {
    var id := blk.minerTx.value.id;
    RemoveTransactionSucceedsIff(db, id);
    assert Elements(HashesIn(blk)) == {id} + Elements(blk.txHashes);
  }

  // ----- A pop right after an addition

  /** The hashes of the kept transactions are new and distinct, and join those stored. */
  lemma {:induction false} AddTransactionsHashes(db: Store, entries: seq<Entry>)
    requires AddTransactions(db, entries).Ok?
    ensures Fresh(db.txIndices.Keys, HashesOf(Kept(entries)))
    ensures AddTransactions(db, entries).value.txIndices.Keys == db.txIndices.Keys + Elements(HashesOf(Kept(entries)))
    decreases |entries|
  {
    if entries != [] {
      var init, e := entries[..|entries| - 1], entries[|entries| - 1];
      AddTransactionsHashes(db, init);
      var db1 := AddTransactions(db, init).value;
      if Supported(e.tx) {
        var _, _ := AddSupported(db1, e);
        HashesStep(db.txIndices.Keys, Kept(init), e);
      } else {
        DroppedTransaction(db1, e);
        assert Kept(entries) == Kept(init);
      }
    }
  }

  /** Every dropped transaction is listed under the hash of one that is stored already. */
  predicate DroppedAreStored(stored: set<Hash>, entries: seq<Entry>) {
    forall i :: 0 <= i < |entries| && !Supported(entries[i].tx) ==> entries[i].hash in stored
  }

  lemma {:induction false} KeptIndex(entries: seq<Entry>, h: Hash) returns (i: nat)
    requires h in Elements(HashesOf(Kept(entries)))
    ensures i < |entries| && entries[i].hash == h && Supported(entries[i].tx)
    decreases |entries|
  {
    var n := |entries| - 1;
    var init, e := entries[..n], entries[n];
    if h in Elements(HashesOf(Kept(init))) {
      i := KeptIndex(init, h);
    } else {
      HashesStep({}, Kept(init), e);
      i := n;
    }
  }

  lemma {:induction false} KeptHas(entries: seq<Entry>, i: nat)
    requires i < |entries| && Supported(entries[i].tx)
    ensures entries[i].hash in Elements(HashesOf(Kept(entries)))
    decreases |entries|
  {
    var n := |entries| - 1;
    HashesStep({}, Kept(entries[..n]), entries[n]);
    if i < n {
      KeptHas(entries[..n], i);
      if !Supported(entries[n].tx) {
        assert Kept(entries) == Kept(entries[..n]);
      }
    }
  }

  lemma StoredAfterAddIff(stored: set<Hash>, entries: seq<Entry>)
    requires NoDuplicates(HashesOf(entries))
    ensures Elements(HashesOf(entries)) <= stored + Elements(HashesOf(Kept(entries))) <==>
      DroppedAreStored(stored, entries)
  {
    var all := stored + Elements(HashesOf(Kept(entries)));
    if Elements(HashesOf(entries)) <= all {
      forall i | 0 <= i < |entries| && !Supported(entries[i].tx) ensures entries[i].hash in stored {
        assert HashesOf(entries)[i] in Elements(HashesOf(entries));
        if entries[i].hash in Elements(HashesOf(Kept(entries))) {
          var j := KeptIndex(entries, entries[i].hash);
        }
      }
    }
    if DroppedAreStored(stored, entries) {
      forall h | h in HashesOf(entries) ensures h in all {
        var i :| 0 <= i < |entries| && HashesOf(entries)[i] == h;
        if Supported(entries[i].tx) {
          KeptHas(entries, i);
        }
      }
    }
  }

  lemma HashesListed(blk: Block, txs: seq<Transaction>)
    requires |blk.txHashes| == |txs|
    ensures HashesIn(blk) == HashesOf(Entries(blk, txs))
  {
    var rest := ListedEntries(blk, txs);
    assert HashesOf(MinerEntry(blk) + rest) == HashesOf(MinerEntry(blk)) + HashesOf(rest);
    if blk.minerTx.Some? {
      assert HashesOf(MinerEntry(blk)) == [blk.minerTx.value.id];
    }
  }

  /** The hashes stored after an addition, and its block on top. */
  lemma AddedHashes(db: Store, b: Addition)
    requires AddTo(db, b).Ok?
    ensures ShapeOk(b)
    ensures var db' := AddTo(db, b).value;
      && db'.txIndices.Keys == db.txIndices.Keys + Elements(HashesOf(Kept(b.Listed())))
      && |db'.blocks| == |db.blocks| + 1 && db'.blocks[|db.blocks|].block == b.blk
  {
    AddToSteps(db, b);
    AddTransactionsHashes(db, b.Listed());
    AddTransactionsKeepBlocks(db, b.Listed());
  }

  lemma AllStoredAfterAddIff(db: Store, b: Addition)
    requires AddTo(db, b).Ok?
    ensures AllStored(AddTo(db, b).value, b.blk) <==>
      NoDuplicates(HashesIn(b.blk)) && DroppedAreStored(db.txIndices.Keys, b.Listed())
  {
    AddedHashes(db, b);
    HashesListed(b.blk, b.txs);
    if NoDuplicates(HashesIn(b.blk)) {
      StoredAfterAddIff(db.txIndices.Keys, b.Listed());
    }
  }

  /** A block that was just added can be taken off exactly when its hashes are distinct and every
      dropped transaction in it is listed under the hash of one stored before.  It gives back
      the store exactly when nothing was dropped. */
  lemma {:induction false} PopAfterAddIff(db: Store, b: Addition)
    requires Consistent(db) && HeightsMatch(db) && AddTo(db, b).Ok?
    ensures var r := PopBlock(AddTo(db, b).value);
      && (r.Ok? <==> NoDuplicates(HashesIn(b.blk)) && DroppedAreStored(db.txIndices.Keys, b.Listed()))
      && (r == Ok(Popped(db, b.blk, ReversedTxs(b.txs))) <==> AllSupported(b.Listed()))
  {
    AddedHashes(db, b);
    AddedConsistent(db, b);
    PopSucceedsIff(AddTo(db, b).value);
    AllStoredAfterAddIff(db, b);
    PopUndoesAddIff(db, b.blk, b.meta, b.txs);
  }

  /** In particular, a block with a dropped transaction whose hash is new stays for good. */
  lemma DroppedBlockStays(db: Store, b: Addition)
    requires Consistent(db) && HeightsMatch(db) && AddTo(db, b).Ok?
    requires !AllSupported(b.Listed()) && Fresh(db.txIndices.Keys, HashesOf(b.Listed()))
    ensures PopBlock(AddTo(db, b).value).Err?
  {
    PopAfterAddIff(db, b);
    var i :| 0 <= i < |b.Listed()| && !Supported(b.Listed()[i].tx);
    assert HashesOf(b.Listed())[i] !in db.txIndices.Keys;
  }

  // ----- Every run

  lemma {:induction false} StepConsistent(db: Store, op: Op)
    requires Consistent(db) && HeightsMatch(db)
    ensures Consistent(StepDb(db, op)) && HeightsMatch(StepDb(db, op))
  {
    match op
    case Pop => PopSucceedsIff(db);
    case Add(b) =>
      AddToSteps(db, b);
      if AddTo(db, b).Ok? {
        AddedConsistent(db, b);
      }
  }

  lemma AddedConsistent(db: Store, b: Addition)
    requires Consistent(db) && HeightsMatch(db) && AddTo(db, b).Ok?
    ensures Consistent(AddTo(db, b).value) && HeightsMatch(AddTo(db, b).value)
  {
    AddToSteps(db, b);
    AddTransactionsConsistent(db, b.Listed());
    AddTransactionsKeepBlocks(db, b.Listed());
    var db1 := AddTransactions(db, b.Listed()).value;
    PushHeights(db1, b.blk, b.meta, NumRctOuts(b.blk, b.txs));
    SameTables(db1, AddTo(db, b).value);
  }

  /** After every run whatsoever: each recorded position of a stored transaction leads to its
      output, each stored output has an owner, and each block is at its height. */
  lemma {:induction false} RunConsistent(ops: seq<Op>)
    ensures Consistent(RunDb(ops)) && HeightsMatch(RunDb(ops))
    decreases |ops|
  {
    if ops != [] {
      RunConsistent(ops[..|ops| - 1]);
      StepConsistent(RunDb(ops[..|ops| - 1]), ops[|ops| - 1]);
    } else {
      assert forall a: nat, k: nat :: Owned(EMPTY, a, k);
    }
  }

  /** The record of output j, from the transaction's own fields.  A miner transaction of version
      2 on is filed under amount zero and stored with the identity mask of the amount; any other
      output is filed under its amount and, if that is zero, stored with its own mask. */
  predicate RecordedAs(db: Store, h: Hash, height: nat, tx: Transaction, j: nat, index: nat)
    requires j < |tx.vout|
  {
    var miner := |tx.vin| == 1 && tx.vin[0].Gen? && tx.version >= 2;
    var amount := if miner then 0 else tx.vout[j].amount;
    && amount in db.outputs.byAmount
    && Get(db.outputs.byAmount[amount], index).Some?
    && var record := Get(db.outputs.byAmount[amount], index).value;
       && tx.vout[j].target == KeyTarget(record.pubkey)
       && record.height == height
       && Get(db.outputs.byId, record.outputId) == Some(OutTx(h, j))
       && (tx.version >= 3 ==> record.unlockTime == tx.outputUnlockTimes[j])
       && (tx.version < 3 ==> record.unlockTime == tx.unlockTime)
       && (miner ==> record.commitment == IdentityMask(tx.vout[j].amount))
       && (amount != 0 ==> record.commitment == Absent)
       && (!miner && amount == 0 ==> tx.version >= 2 && record.commitment == RctMask(tx.outPk[j]))
  }

  lemma FoundIsRecorded(db: Store, h: Hash, height: nat, tx: Transaction, j: nat, index: nat)
    requires j < |tx.vout| && FoundAt(db.outputs, h, tx, height, index, j)
    ensures RecordedAs(db, h, height, tx, j, index)
  {
  }

  /** After every run, the record at the position of each output of a stored transaction has that
      output's key, amount, mask and time and the height of its block, and names it back. */
  lemma {:induction false} RunRecords(ops: seq<Op>, h: Hash)
    requires h in RunDb(ops).txIndices
    ensures OutputsFound(RunDb(ops), h)
    ensures var db := RunDb(ops);
      var index := db.txIndices[h];
      var tx, indices := Get(db.txs, index.txId).value, Get(db.txOutputs, index.txId).value;
      forall j :: 0 <= j < |tx.vout| ==> RecordedAs(db, h, index.blockId, tx, j, indices[j])
  {
    var db := RunDb(ops);
    RunConsistent(ops);
    var index := db.txIndices[h];
    var tx, indices := Get(db.txs, index.txId).value, Get(db.txOutputs, index.txId).value;
    forall j | 0 <= j < |tx.vout| ensures RecordedAs(db, h, index.blockId, tx, j, indices[j]) {
      assert FoundAt(db.outputs, h, tx, index.blockId, indices[j], j);
      FoundIsRecorded(db, h, index.blockId, tx, j, indices[j]);
    }
  }

  /** After every run, looking up the unlock time at the recorded position of an output gives
      its own time from version 3 on, and the transaction's time before that. */
  lemma {:induction false} RunUnlockTimes(ops: seq<Op>, h: Hash)
    requires h in RunDb(ops).txIndices
    ensures OutputsFound(RunDb(ops), h)
    ensures var db := RunDb(ops);
      var id := db.txIndices[h].txId;
      var tx := Get(db.txs, id).value;
      forall j :: 0 <= j < |tx.vout| ==>
        OutputUnlockTime(db, StoredAmount(tx, j), Get(db.txOutputs, id).value[j]) ==
          Ok(if tx.version >= V3_PER_OUTPUT_UNLOCK_TIMES then tx.outputUnlockTimes[j] else tx.unlockTime)
  {
    var db := RunDb(ops);
    RunConsistent(ops);
    var index := db.txIndices[h];
    var tx, indices := Get(db.txs, index.txId).value, Get(db.txOutputs, index.txId).value;
    forall j | 0 <= j < |tx.vout|
      ensures OutputUnlockTime(db, StoredAmount(tx, j), indices[j]) == Ok(UnlockTimeOf(tx, j))
    {
      assert FoundAt(db.outputs, h, tx, index.blockId, indices[j], j);
    }
  }

  /** After every run, a pop succeeds exactly when there is a block and all its hashes are
      stored and different, and it takes exactly those off. */
  lemma {:induction false} RunPopsIff(ops: seq<Op>)
    ensures var db := RunDb(ops);
      match PopBlock(db)
      case Err(_) => db.blocks == [] || !AllStored(db, db.blocks[|db.blocks| - 1].block)
      case Ok(p) =>
        && db.blocks != [] && p.block == db.blocks[|db.blocks| - 1].block && AllStored(db, p.block)
        && p.db.blocks == db.blocks[..|db.blocks| - 1]
        && p.db.txIndices.Keys == db.txIndices.Keys - Elements(HashesIn(p.block))
  {
    RunConsistent(ops);
    PopSucceedsIff(RunDb(ops));
  }
}
