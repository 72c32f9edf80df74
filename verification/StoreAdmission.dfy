/**
 * Exactly which blocks the store accepts after any run, also where a pop took off a
 * transaction of another block and left a gap in a table.
 */
module StoreAdmission {
  import opened Wrappers
  import opened Tables
  import opened ChainTypes
  import opened StoreSpec
  import opened StoreRuns
  import opened StoreRoundTrip
  import opened StoreAcceptance
  import opened StoreReach
  import opened StoreLedger

  /** The next row number is above the last key, which a gap below it prevents. */
  predicate Appendable<V>(t: seq<Row<V>>) {
    CanAppend(t, |t|)
  }

  /** The output list that output i goes to takes another row. */
  predicate ListTakes(o: OutputTables, tx: Transaction, i: nat)
    requires i < |tx.vout|
  {
    Appendable(OutputsOf(o.byAmount, StoredAmount(tx, i)))
  }

  /** Every list that accepted a row still does, and the others are as they were. */
  ghost predicate SameRoom(o: OutputTables, o': OutputTables) {
    forall a: nat :: Appendable(OutputsOf(o'.byAmount, a)) <==> Appendable(OutputsOf(o.byAmount, a))
  }

  lemma AddOutputSucceedsIff(o: OutputTables, height: nat, hash: Hash, tx: Transaction, i: nat)
    requires i < |tx.vout|
    ensures AddOutput(o, height, hash, tx, i).Ok? <==> Storable(tx, i) && ListTakes(o, tx, i)
    ensures AddOutput(o, height, hash, tx, i).Ok? ==> SameRoom(o, AddOutput(o, height, hash, tx, i).value.0)
  {
  }

  lemma SameRoomTwice(o: OutputTables, o1: OutputTables, o2: OutputTables)
    requires SameRoom(o, o1) && SameRoom(o1, o2)
    ensures SameRoom(o, o2)
  {
  }

  /** The first n outputs can be stored, and their lists take them. */
  predicate FirstFit(o: OutputTables, tx: Transaction, n: nat)
    requires n <= |tx.vout|
  {
    forall i :: 0 <= i < n ==> Storable(tx, i) && ListTakes(o, tx, i)
  }

  lemma AddOneFits(o: OutputTables, o1: OutputTables, height: nat, hash: Hash, tx: Transaction, i: nat)
    requires i < |tx.vout| && SameRoom(o, o1)
    ensures AddOutput(o1, height, hash, tx, i).Ok? <==> Storable(tx, i) && ListTakes(o, tx, i)
    ensures AddOutput(o1, height, hash, tx, i).Ok? ==> SameRoom(o, AddOutput(o1, height, hash, tx, i).value.0)
  {
    AddOutputSucceedsIff(o1, height, hash, tx, i);
    if AddOutput(o1, height, hash, tx, i).Ok? {
      SameRoomTwice(o, o1, AddOutput(o1, height, hash, tx, i).value.0);
    }
  }

  lemma FitLast(o: OutputTables, tx: Transaction, n: nat)
    requires 0 < n <= |tx.vout|
    ensures FirstFit(o, tx, n) <==> FirstFit(o, tx, n - 1) && Storable(tx, n - 1) && ListTakes(o, tx, n - 1)
  {
  }

  lemma {:induction false} AddOutputsKeepRoom(o: OutputTables, height: nat, hash: Hash, tx: Transaction, n: nat,
                                              o': OutputTables)
    requires n <= |tx.vout| && AddOutputs(o, height, hash, tx, n).Ok?
    requires o' == AddOutputs(o, height, hash, tx, n).value.0
    ensures SameRoom(o, o')
    decreases n
  {
    if n > 0 {
      AddOutputsUnfold(o, height, hash, tx, n);
      var o1 := AddOutputs(o, height, hash, tx, n - 1).value.0;
      AddOutputsKeepRoom(o, height, hash, tx, n - 1, o1);
      AddOneFits(o, o1, height, hash, tx, n - 1);
    }
  }

  lemma {:induction false} AddOutputsSucceedsIff(o: OutputTables, height: nat, hash: Hash, tx: Transaction, n: nat)
    requires n <= |tx.vout|
    ensures AddOutputs(o, height, hash, tx, n).Ok? <==> FirstFit(o, tx, n)
  {
    if n > 0 {
      AddOutputsUnfold(o, height, hash, tx, n);
      FitLast(o, tx, n);
      AddOutputsSucceedsIff(o, height, hash, tx, n - 1);
      if AddOutputs(o, height, hash, tx, n - 1).Ok? {
        var o1 := AddOutputs(o, height, hash, tx, n - 1).value.0;
        AddOutputsKeepRoom(o, height, hash, tx, n - 1, o1);
        AddOneFits(o, o1, height, hash, tx, n - 1);
      }
    }
  }

  /** Every table takes the rows of a transaction. */
  predicate Room(db: Store, tx: Transaction) {
    && Appendable(db.txs)
    && CanAppend(db.txOutputs, |db.txs|)
    && forall i :: 0 <= i < |tx.vout| ==> ListTakes(db.outputs, tx, i)
  }

  lemma {:induction false} AddTransactionSucceedsIff(db: Store, e: Entry)
    ensures AddTransaction(db, e).Ok? <==> Admissible(db, e) && (Supported(e.tx) ==> Room(db, e.tx))
  {
    if Supported(e.tx) {
      SpendsIffFresh(db.spent, e.tx);
      AddOutputsSucceedsIff(db.outputs, |db.blocks|, e.hash, e.tx, |e.tx.vout|);
    } else {
      DroppedTransaction(db, e);
    }
  }

  /** Adding a transaction changes no table's room for others. */
  lemma AddKeepsRoom(db: Store, e: Entry, tx: Transaction)
    requires AddTransaction(db, e).Ok?
    ensures Room(AddTransaction(db, e).value, tx) <==> Room(db, tx)
  {
    var db' := AddTransaction(db, e).value;
    if Supported(e.tx) {
      var outputs, indices := AddSupported(db, e);
      AddTransactionSucceedsIff(db, e);
      AddOutputsKeepRoom(db.outputs, |db.blocks|, e.hash, e.tx, |e.tx.vout|, outputs);
      assert forall i :: 0 <= i < |tx.vout| ==> (ListTakes(db'.outputs, tx, i) <==> ListTakes(db.outputs, tx, i));
    } else {
      DroppedTransaction(db, e);
    }
  }

  lemma {:induction false} AddAllKeepRoom(db: Store, entries: seq<Entry>, tx: Transaction)
    requires AddTransactions(db, entries).Ok?
    ensures Room(AddTransactions(db, entries).value, tx) <==> Room(db, tx)
    decreases |entries|
  {
    if entries != [] {
      AddAllKeepRoom(db, entries[..|entries| - 1], tx);
      AddKeepsRoom(AddTransactions(db, entries[..|entries| - 1]).value, entries[|entries| - 1], tx);
    }
  }

  predicate RoomForAll(db: Store, kept: seq<Entry>) {
    forall i :: 0 <= i < |kept| ==> Room(db, kept[i].tx)
  }

  lemma RoomStep(db: Store, entries: seq<Entry>)
    requires entries != []
    ensures var init, e := entries[..|entries| - 1], entries[|entries| - 1];
      RoomForAll(db, Kept(entries)) <==> RoomForAll(db, Kept(init)) && (Supported(e.tx) ==> Room(db, e.tx))
  {
    var kept, e := Kept(entries[..|entries| - 1]), entries[|entries| - 1];
    if Supported(e.tx) {
      var all := kept + [e];
      assert forall i :: 0 <= i < |kept| ==> all[i] == kept[i];
      assert all[|kept|] == e;
    } else {
      assert Kept(entries) == kept;
    }
  }

  /** A list of transactions is accepted exactly when it is admissible and there is room. */
  lemma {:induction false} AddTransactionsSucceedsIff(db: Store, entries: seq<Entry>)
    ensures AddTransactions(db, entries).Ok? <==> EntriesAdmissible(db, entries) && RoomForAll(db, Kept(entries))
    decreases |entries|
  {
    if entries != [] {
      var init, e := entries[..|entries| - 1], entries[|entries| - 1];
      AddTransactionsSucceedsIff(db, init);
      RoomStep(db, entries);
      match AddTransactions(db, init)
      case Err(_) =>
        if EntriesAdmissible(db, entries) {
          AdmissiblePrefix(db, entries);
        }
      case Ok(db1) =>
        AddTransactionsImages(db, init);
        AddTransactionsHashes(db, init);
        AdmissibleStep(db, entries, db1);
        AddTransactionSucceedsIff(db1, e);
        AddAllKeepRoom(db, init, e.tx);
    }
  }

  /** The block is new and its parent is the top block. */
  predicate TopAccepts(db: Store, blk: Block) {
    && (forall i :: 0 <= i < |db.blocks| ==> db.blocks[i].block.id != blk.id)
    && (db.blocks != [] ==> db.blocks[|db.blocks| - 1].block.id == blk.prevId)
  }

  lemma PushSucceedsIff(db: Store, blk: Block, meta: BlockMeta, n: nat)
    requires HeightsMatch(db)
    ensures PushBlock(db, blk, meta, n).Ok? <==> TopAccepts(db, blk)
  {
    if blk.id in db.blockHeights {
      assert db.blocks[db.blockHeights[blk.id]].block.id == blk.id;
    }
  }

  /** What a block is refused with: a known hash comes first, then an unknown parent, then a
      parent that is not the top block. */
  lemma WhyNotOnTop(db: Store, blk: Block, meta: BlockMeta, n: nat)
    requires HeightsMatch(db)
    ensures var known := exists i :: 0 <= i < |db.blocks| && db.blocks[i].block.id == blk.id;
      var orphan := db.blocks != [] && forall i :: 0 <= i < |db.blocks| ==> db.blocks[i].block.id != blk.prevId;
      var r := PushBlock(db, blk, meta, n);
      if known then r == Err(BlockExists)
      else if orphan then r == Err(DbError)
      else if db.blocks != [] && db.blocks[|db.blocks| - 1].block.id != blk.prevId then r == Err(BlockParentDne)
      else r.Ok?
  {
    if blk.id in db.blockHeights {
      assert db.blocks[db.blockHeights[blk.id]].block.id == blk.id;
    }
    if blk.prevId in db.blockHeights {
      assert db.blocks[db.blockHeights[blk.prevId]].block.id == blk.prevId;
    }
  }

  /** What an addition must satisfy in a store with any rows. */
  predicate TakesBlock(db: Store, b: Addition) {
    && ShapeOk(b)
    && EntriesAdmissible(db, b.Listed())
    && RoomForAll(db, Kept(b.Listed()))
    && TopAccepts(db, b.blk)
  }

  lemma AddsIff(db: Store, b: Addition)
    requires HeightsMatch(db)
    ensures AddTo(db, b).Ok? <==> TakesBlock(db, b)
  {
    AddToSteps(db, b);
    AddTransactionsSucceedsIff(db, b.Listed());
    match AddTransactions(db, b.Listed())
    case Err(_) =>
    case Ok(db1) =>
      AddTransactionsKeepBlocks(db, b.Listed());
      PushSucceedsIff(db1, b.blk, b.meta, NumRctOuts(b.blk, b.txs));
  }

  /** After every run whatsoever, an addition is accepted exactly when the block has the right
      shape, is new and has the top block as parent, its transactions are admissible and the
      tables have room for those that are stored. */
  lemma {:induction false} RunAddsIff(ops: seq<Op>, b: Addition)
    ensures AddTo(RunDb(ops), b).Ok? <==> TakesBlock(RunDb(ops), b)
  {
    RunConsistent(ops);
    AddsIff(RunDb(ops), b);
  }
}
