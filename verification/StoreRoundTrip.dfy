/** Taking a block off the store undoes adding it, and exactly when it does. */
module StoreRoundTrip {
  import opened Wrappers
  import opened Tables
  import opened ChainTypes
  import opened StoreSpec

  lemma {:induction false} RemoveOutputUndoesAdd(o: OutputTables, height: nat, hash: Hash, tx: Transaction, i: nat)
    requires i < |tx.vout| && Trim(o.byAmount)
    requires AddOutput(o, height, hash, tx, i).Ok?
    ensures var (o', index) := AddOutput(o, height, hash, tx, i).value;
      Trim(o'.byAmount) && RemoveOutput(o', StoredAmount(tx, i), index) == Ok(o)
  {
    var (o', index) := AddOutput(o, height, hash, tx, i).value;
    var amount := StoredAmount(tx, i);
    var rows := OutputsOf(o.byAmount, amount);
    var record := OutputRecord(o, height, tx, i);
    AppendedRow(rows, |rows|, record);
    AppendedRow(o.byId, NextOutputId(o), OutTx(hash, i));
    assert WithOutputs(o'.byAmount, amount, rows) == o.byAmount;
  }

  lemma {:induction false} RemoveOutputsDependsOnPrefix(o: OutputTables, tx: Transaction, s: seq<nat>,
                                                        t: seq<nat>, n: nat)
    requires n <= |tx.vout| && n <= |s| && n <= |t|
    requires forall j :: 0 <= j < n ==> s[j] == t[j]
    ensures RemoveOutputs(o, tx, s, n) == RemoveOutputs(o, tx, t, n)
    decreases n
  {
    if n > 0 {
      var o1 := RemoveOutput(o, StoredAmount(tx, n - 1), s[n - 1]);
      if o1.Ok? {
        RemoveOutputsDependsOnPrefix(o1.value, tx, s, t, n - 1);
      }
    }
  }

  lemma RemoveOutputsStep(o2: OutputTables, o1: OutputTables, tx: Transaction, before: seq<nat>, index: nat, n: nat)
    requires 0 < n <= |tx.vout| && |before| == n - 1
    requires RemoveOutput(o2, StoredAmount(tx, n - 1), index) == Ok(o1)
    ensures RemoveOutputs(o2, tx, before + [index], n) == RemoveOutputs(o1, tx, before, n - 1)
  {
    RemoveOutputsDependsOnPrefix(o1, tx, before + [index], before, n - 1);
  }

  lemma {:induction false} RemoveOutputsUndoesAdds(o: OutputTables, height: nat, hash: Hash, tx: Transaction, n: nat)
    requires n <= |tx.vout| && Trim(o.byAmount)
    requires AddOutputs(o, height, hash, tx, n).Ok?
    ensures var (o', indices) := AddOutputs(o, height, hash, tx, n).value;
      Trim(o'.byAmount) && RemoveOutputs(o', tx, indices, n) == Ok(o)
  {
    if n > 0 {
      var (o1, before) := AddOutputs(o, height, hash, tx, n - 1).value;
      var (o2, index) := AddOutput(o1, height, hash, tx, n - 1).value;
      RemoveOutputsUndoesAdds(o, height, hash, tx, n - 1);
      RemoveOutputUndoesAdd(o1, height, hash, tx, n - 1);
      RemoveOutputsStep(o2, o1, tx, before, index, n);
    }
  }

  /** Spending a supported transaction adds images that were all absent. */
  lemma SpendingIsReversible(spent: set<KeyImage>, tx: Transaction)
    requires Supported(tx) && !SpendTransaction(spent, tx).Rejected?
    ensures SpendTransaction(spent, tx) == Spent(spent + Elements(KeyImages(tx.vin)))
    ensures spent + Elements(KeyImages(tx.vin)) - Elements(KeyImages(tx.vin)) == spent
  {
    if tx.IsMiner() {
      assert KeyImages(tx.vin) == [];
    } else {
      assert tx.vin[..|tx.vin|] == tx.vin;
    }
  }

  function SpentWith(db: Store, e: Entry): set<KeyImage> {
    db.spent + Elements(KeyImages(e.tx.vin))
  }

  lemma AddSupported(db: Store, e: Entry) returns (outputs: OutputTables, indices: seq<nat>)
    requires Supported(e.tx) && AddTransaction(db, e).Ok?
    ensures AddOutputs(db.outputs, |db.blocks|, e.hash, e.tx, |e.tx.vout|) == Ok((outputs, indices))
    ensures AddTransaction(db, e) == Ok(WithTransaction(db, e, SpentWith(db, e), outputs, indices))
    ensures e.hash !in db.txIndices
    ensures db.spent + Elements(KeyImages(e.tx.vin)) - Elements(KeyImages(e.tx.vin)) == db.spent
  {
    SpendingIsReversible(db.spent, e.tx);
    var r := AddOutputs(db.outputs, |db.blocks|, e.hash, e.tx, |e.tx.vout|);
    outputs, indices := r.value.0, r.value.1;
  }

  lemma RemoveDataUndoes(db: Store, e: Entry, outputs: OutputTables, indices: seq<nat>)
    requires e.hash !in db.txIndices && |indices| == |e.tx.vout|
    requires RemoveOutputs(outputs, e.tx, indices, |e.tx.vout|) == Ok(db.outputs)
    ensures GetTx(WithTransaction(db, e, SpentWith(db, e), outputs, indices), e.hash) == Some(e.tx)
    ensures RemoveTransactionData(WithTransaction(db, e, db.spent, outputs, indices), e.hash, e.tx) == Ok(db)
  {
    AppendedRow(db.txs, |db.txs|, e.tx);
    AppendedRow(db.txOutputs, |db.txs|, indices);
    assert WithTransaction(db, e, SpentWith(db, e), outputs, indices).txIndices - {e.hash} == db.txIndices;
  }

  /** Removing a supported transaction right after adding it gives back the store. */
  lemma {:induction false} RemoveTransactionUndoesAdd(db: Store, e: Entry)
    requires Trim(db.outputs.byAmount) && Supported(e.tx)
    requires AddTransaction(db, e).Ok?
    ensures var db' := AddTransaction(db, e).value;
      && Trim(db'.outputs.byAmount)
      && GetTx(db', e.hash) == Some(e.tx)
      && RemoveTransaction(db', e.hash) == Ok(db)
  {
    var outputs, indices := AddSupported(db, e);
    RemoveOutputsUndoesAdds(db.outputs, |db.blocks|, e.hash, e.tx, |e.tx.vout|);
    RemoveDataUndoes(db, e, outputs, indices);
  }

  function HashesOf(entries: seq<Entry>): (r: seq<Hash>)
    ensures |r| == |entries|
    ensures forall i :: 0 <= i < |r| ==> r[i] == entries[i].hash
  {
    seq(|entries|, i requires 0 <= i < |entries| => entries[i].hash)
  }

  /** The transactions of the entries, last one first. */
  function Reversed(entries: seq<Entry>): (r: seq<Transaction>)
    ensures |r| == |entries|
    ensures forall i :: 0 <= i < |r| ==> r[i] == entries[|entries| - 1 - i].tx
  {
    if entries == [] then [] else [entries[|entries| - 1].tx] + Reversed(entries[..|entries| - 1])
  }

  lemma RemoveListedStep(db: Store, hashes: seq<Hash>, tx: Transaction, db1: Store, db2: Store, rest: seq<Transaction>)
    requires hashes != [] && GetTx(db, hashes[|hashes| - 1]) == Some(tx)
    requires RemoveTransaction(db, hashes[|hashes| - 1]) == Ok(db1)
    requires RemoveListed(db1, hashes[..|hashes| - 1]) == Ok((db2, rest))
    ensures RemoveListed(db, hashes) == Ok((db2, [tx] + rest))
  {
  }

  lemma {:induction false} RemoveListedUndoesAdds(db: Store, entries: seq<Entry>)
    requires Trim(db.outputs.byAmount) && AllSupported(entries)
    requires AddTransactions(db, entries).Ok?
    ensures var db' := AddTransactions(db, entries).value;
      && Trim(db'.outputs.byAmount)
      && RemoveListed(db', HashesOf(entries)) == Ok((db, Reversed(entries)))
    decreases |entries|
  {
    if entries != [] {
      var init, last := entries[..|entries| - 1], entries[|entries| - 1];
      assert init + [last] == entries;
      RemoveListedUndoesAdds(db, init);
      UndoLast(db, AddTransactions(db, init).value, init, last);
    }
  }

  lemma UndoLast(db: Store, db1: Store, init: seq<Entry>, last: Entry)
    requires Trim(db1.outputs.byAmount) && Supported(last.tx)
    requires RemoveListed(db1, HashesOf(init)) == Ok((db, Reversed(init)))
    requires AddTransaction(db1, last).Ok?
    ensures var db' := AddTransaction(db1, last).value;
      && Trim(db'.outputs.byAmount)
      && RemoveListed(db', HashesOf(init + [last])) == Ok((db, Reversed(init + [last])))
  {
    var hashes := HashesOf(init + [last]);
    assert hashes[..|init|] == HashesOf(init);
    assert (init + [last])[..|init|] == init;
    RemoveTransactionUndoesAdd(db1, last);
    RemoveListedStep(AddTransaction(db1, last).value, hashes, last.tx, db1, db, Reversed(init));
  }

  lemma {:induction false} AddTransactionsSplit(db: Store, first: seq<Entry>, rest: seq<Entry>)
    ensures AddTransactions(db, first + rest) ==
      var r := AddTransactions(db, first);
      if r.Ok? then AddTransactions(r.value, rest) else r
    decreases |rest|
  {
    if rest == [] {
      assert first + rest == first;
    } else {
      var init, all := rest[..|rest| - 1], first + rest;
      assert all[..|all| - 1] == first + init;
      AddTransactionsSplit(db, first, init);
    }
  }

  predicate AllSupported(entries: seq<Entry>) {
    forall i :: 0 <= i < |entries| ==> Supported(entries[i].tx)
  }

  function ReversedTxs(txs: seq<Transaction>): (r: seq<Transaction>)
    ensures |r| == |txs|
    ensures forall i :: 0 <= i < |r| ==> r[i] == txs[|txs| - 1 - i]
  {
    seq(|txs|, i requires 0 <= i < |txs| => txs[|txs| - 1 - i])
  }

  lemma PopOfPush(db: Store, blk: Block, meta: BlockMeta, n: nat)
    requires PushBlock(db, blk, meta, n).Ok?
    ensures var db' := PushBlock(db, blk, meta, n).value;
      && db'.outputs == db.outputs
      && |db'.blocks| == |db.blocks| + 1 && db'.blocks[|db.blocks|].block == blk
      && RemoveTopBlock(db') == Ok(db)
  {
    var db' := PushBlock(db, blk, meta, n).value;
    assert db'.blocks[..|db.blocks|] == db.blocks;
    assert db'.blockHeights - {blk.id} == db.blockHeights;
  }

  /** The entries after the miner's. */
  function ListedEntries(blk: Block, txs: seq<Transaction>): (r: seq<Entry>)
    requires |blk.txHashes| == |txs|
    ensures Entries(blk, txs) == MinerEntry(blk) + r
    ensures |r| == |txs|
    ensures forall i :: 0 <= i < |r| ==> r[i] == Entry(blk.txHashes[i], txs[i])
    ensures HashesOf(r) == blk.txHashes
    ensures Reversed(r) == ReversedTxs(txs)
    ensures AllSupported(Entries(blk, txs)) ==> AllSupported(MinerEntry(blk)) && AllSupported(r)
  {
    var r := seq(|txs|, i requires 0 <= i < |txs| => Entry(blk.txHashes[i], txs[i]));
    assert forall i :: 0 <= i < |MinerEntry(blk)| ==> MinerEntry(blk)[i] == Entries(blk, txs)[i];
    assert forall i :: 0 <= i < |r| ==> r[i] == Entries(blk, txs)[|MinerEntry(blk)| + i];
    r
  }

  lemma {:induction false} RemoveMinerUndoesAdd(db: Store, blk: Block)
    requires Trim(db.outputs.byAmount) && AllSupported(MinerEntry(blk))
    requires AddTransactions(db, MinerEntry(blk)).Ok?
    ensures var db1 := AddTransactions(db, MinerEntry(blk)).value;
      && Trim(db1.outputs.byAmount)
      && if blk.minerTx.Some? then RemoveTransaction(db1, blk.minerTx.value.id) == Ok(db) else db1 == db
  {
    if blk.minerTx.Some? {
      var e := MinerEntry(blk)[0];
      assert MinerEntry(blk)[..0] == [];
      RemoveTransactionUndoesAdd(db, e);
    }
  }

  /** Popping restores every table and returns the block with its transactions reversed. */
  lemma {:induction false} PopUndoesAdd(db: Store, blk: Block, meta: BlockMeta, txs: seq<Transaction>)
    requires Trim(db.outputs.byAmount)
    requires AddBlock(db, blk, meta, txs).Ok?
    requires AllSupported(Entries(blk, txs))
    ensures Trim(AddBlock(db, blk, meta, txs).value.outputs.byAmount)
    ensures PopBlock(AddBlock(db, blk, meta, txs).value) == Ok(Popped(db, blk, ReversedTxs(txs)))
  {
    var miner, rest := MinerEntry(blk), ListedEntries(blk, txs);
    AddTransactionsSplit(db, miner, rest);
    var db1 := AddTransactions(db, miner).value;
    var db2 := AddTransactions(db1, rest).value;
    RemoveMinerUndoesAdd(db, blk);
    RemoveListedUndoesAdds(db1, rest);
    PopOfPush(db2, blk, meta, NumRctOuts(blk, txs));
  }

  // ----- The converse, by counting stored transactions

  function SupportedCount(entries: seq<Entry>): (n: nat)
    ensures n <= |entries|
    ensures n == |entries| ==> AllSupported(entries)
  {
    if entries == [] then 0
    else SupportedCount(entries[..|entries| - 1]) + (if Supported(entries[|entries| - 1].tx) then 1 else 0)
  }

  /** A transaction with an unsupported input is dropped, the others are stored. */
  lemma {:induction false} AddTransactionsCount(db: Store, entries: seq<Entry>)
    requires AddTransactions(db, entries).Ok?
    ensures |AddTransactions(db, entries).value.txIndices| == |db.txIndices| + SupportedCount(entries)
    decreases |entries|
  {
    if entries != [] {
      var init, e := entries[..|entries| - 1], entries[|entries| - 1];
      AddTransactionsCount(db, init);
      var db1 := AddTransactions(db, init).value;
      if Supported(e.tx) {
        SpendingIsReversible(db1.spent, e.tx);
      } else {
        assert SpendTransaction(db1.spent, e.tx).Aborted?;
      }
    }
  }

  lemma RemoveTransactionCount(db: Store, hash: Hash)
    requires RemoveTransaction(db, hash).Ok?
    ensures |RemoveTransaction(db, hash).value.txIndices| == |db.txIndices| - 1
  {
    var after := RemoveTransaction(db, hash).value.txIndices;
    assert after.Keys == db.txIndices.Keys - {hash};
    assert |after.Keys| == |db.txIndices.Keys| - 1;
  }

  lemma {:induction false} RemoveListedCount(db: Store, hashes: seq<Hash>)
    requires RemoveListed(db, hashes).Ok?
    ensures |RemoveListed(db, hashes).value.0.txIndices| == |db.txIndices| - |hashes|
    decreases |hashes|
  {
    if hashes != [] {
      var hash := hashes[|hashes| - 1];
      RemoveTransactionCount(db, hash);
      RemoveListedCount(RemoveTransaction(db, hash).value, hashes[..|hashes| - 1]);
    }
  }

  lemma PopCount(db: Store)
    requires PopBlock(db).Ok?
    ensures var p := PopBlock(db).value;
      |p.db.txIndices| == |db.txIndices| - |p.block.txHashes| - (if p.block.minerTx.Some? then 1 else 0)
  {
    var p := PopBlock(db).value;
    var db1 := RemoveTopBlock(db).value;
    RemoveListedCount(db1, p.block.txHashes);
    if p.block.minerTx.Some? {
      RemoveTransactionCount(RemoveListed(db1, p.block.txHashes).value.0, p.block.minerTx.value.id);
    }
  }

  /** A block that was added can be taken off again, restoring the store, exactly when no
      transaction in it was dropped for an unsupported input. */
  lemma {:induction false} PopUndoesAddIff(db: Store, blk: Block, meta: BlockMeta, txs: seq<Transaction>)
    requires Trim(db.outputs.byAmount)
    requires AddBlock(db, blk, meta, txs).Ok?
    ensures PopBlock(AddBlock(db, blk, meta, txs).value) == Ok(Popped(db, blk, ReversedTxs(txs)))
      <==> AllSupported(Entries(blk, txs))
  {
    var entries := Entries(blk, txs);
    var db' := AddBlock(db, blk, meta, txs).value;
    if AllSupported(entries) {
      PopUndoesAdd(db, blk, meta, txs);
    } else if PopBlock(db') == Ok(Popped(db, blk, ReversedTxs(txs))) {
      AddTransactionsCount(db, entries);
      assert |db'.txIndices| == |db.txIndices| + SupportedCount(entries);
      PopCount(db');
      assert false;
    }
  }

  // ----- A dropped transaction

  /** A transaction with an unsupported input whose earlier inputs are fresh: only the key
      images change, and every image it names is gone, including ones it never added. */
  lemma DroppedTransaction(db: Store, e: Entry)
    requires !Supported(e.tx)
    ensures AddTransaction(db, e).Ok? <==> Fresh(db.spent, KeyImages(e.tx.vin[..SupportedPrefix(e.tx.vin)]))
    ensures AddTransaction(db, e).Ok? ==>
      AddTransaction(db, e).value == db.(spent := db.spent - Elements(KeyImages(e.tx.vin)))
  {
  }

  lemma {:induction false} KeyImagesConcat(a: seq<TxIn>, b: seq<TxIn>)
    ensures KeyImages(a + b) == KeyImages(a) + KeyImages(b)
    decreases |b|
  {
    if b == [] {
      assert a + b == a;
    } else {
      KeyImagesConcat(a, b[..|b| - 1]);
      assert (a + b)[..|a + b| - 1] == a + b[..|b| - 1];
    }
  }

  /** Dropping a transaction leaves the store as it was exactly when none of the images
      after its first unsupported input was already spent. */
  lemma {:induction false} DroppedLeavesStoreIff(db: Store, e: Entry)
    requires !Supported(e.tx) && AddTransaction(db, e).Ok?
    ensures AddTransaction(db, e) == Ok(db) <==>
      forall k :: k in KeyImages(e.tx.vin[SupportedPrefix(e.tx.vin)..]) ==> k !in db.spent
  {
    var good := SupportedPrefix(e.tx.vin);
    var early, late := KeyImages(e.tx.vin[..good]), KeyImages(e.tx.vin[good..]);
    assert e.tx.vin == e.tx.vin[..good] + e.tx.vin[good..];
    KeyImagesConcat(e.tx.vin[..good], e.tx.vin[good..]);
    DroppedTransaction(db, e);
    DifferenceUnchangedIff(db.spent, early, late);
  }

  lemma DifferenceUnchangedIff(spent: set<KeyImage>, early: seq<KeyImage>, late: seq<KeyImage>)
    requires Fresh(spent, early)
    ensures spent - Elements(early + late) == spent <==> forall k :: k in late ==> k !in spent
  {
    if k :| k in late && k in spent {
      assert k in early + late;
      assert k !in spent - Elements(early + late);
    }
  }
}
