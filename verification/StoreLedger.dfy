/**
 * What adds up over the rows of the transaction table in every run whatsoever, also where a
 * pop takes off transactions of other blocks.
 */
module StoreLedger {
  import opened Wrappers
  import opened Tables
  import opened ChainTypes
  import opened StoreSpec
  import opened StoreRuns
  import opened StoreRoundTrip
  import opened StoreAcceptance
  import opened StoreSpent

  /** What every removal of a transaction keeps, a pop keeps. */
  lemma {:induction false} RemoveListedInvariant(db: Store, hashes: seq<Hash>, kept: Store -> bool)
    requires kept(db) && RemoveListed(db, hashes).Ok?
    requires forall d: Store, h: Hash {:trigger RemoveTransaction(d, h)} ::
      kept(d) && RemoveTransaction(d, h).Ok? ==> kept(RemoveTransaction(d, h).value)
    ensures kept(RemoveListed(db, hashes).value.0)
    decreases |hashes|
  {
    if hashes != [] {
      var db1 := RemoveTransaction(db, hashes[|hashes| - 1]).value;
      RemoveListedInvariant(db1, hashes[..|hashes| - 1], kept);
    }
  }

  lemma {:induction false} PopInvariant(db: Store, kept: Store -> bool)
    requires PopBlock(db).Ok? && kept(RemoveTopBlock(db).value)
    requires forall d: Store, h: Hash {:trigger RemoveTransaction(d, h)} ::
      kept(d) && RemoveTransaction(d, h).Ok? ==> kept(RemoveTransaction(d, h).value)
    ensures kept(PopBlock(db).value.db)
  {
    var db1, blk := RemoveTopBlock(db).value, db.blocks[|db.blocks| - 1].block;
    RemoveListedInvariant(db1, blk.txHashes, kept);
  }

  // ----- Key images

  /** The key images of the stored transactions, row by row. */
  function ImagesIn(txs: seq<Row<Transaction>>): seq<KeyImage> {
    if txs == [] then [] else ImagesIn(txs[..|txs| - 1]) + KeyImages(txs[|txs| - 1].value.vin)
  }

  /** What an accepted list does to the spent images and to those of the rows. */
  lemma {:induction false} AddTransactionsImages(db: Store, entries: seq<Entry>)
    requires AddTransactions(db, entries).Ok?
    ensures Spendable(db.spent, entries)
    ensures AddTransactions(db, entries).value.spent == SpentAfter(db.spent, entries)
    ensures ImagesIn(AddTransactions(db, entries).value.txs) == ImagesIn(db.txs) + ImagesOf(Kept(entries))
    decreases |entries|
  {
    if entries == [] {
      assert ImagesIn(db.txs) + [] == ImagesIn(db.txs);
    } else {
      var init, e := entries[..|entries| - 1], entries[|entries| - 1];
      MoreImages(ImagesIn(db.txs), entries);
      AddTransactionsImages(db, init);
      AddTransactionImages(AddTransactions(db, init).value, e);
    }
  }

  lemma AddTransactionImages(db: Store, e: Entry)
    requires AddTransaction(db, e).Ok?
    ensures Fresh(db.spent, NeededImages(e.tx))
    ensures AddTransaction(db, e).value.spent == SpentAfterOne(db.spent, e.tx)
    ensures ImagesIn(AddTransaction(db, e).value.txs) ==
      if Supported(e.tx) then ImagesIn(db.txs) + KeyImages(e.tx.vin) else ImagesIn(db.txs)
  {
    if Supported(e.tx) {
      SpendsIffFresh(db.spent, e.tx);
      var _, _ := AddSupported(db, e);
      assert (db.txs + [Row(|db.txs|, e.tx)])[..|db.txs|] == db.txs;
    } else {
      DroppedTransaction(db, e);
    }
  }

  /** Deleting a row takes its images out of the list. */
  lemma {:induction false} DeleteImages(txs: seq<Row<Transaction>>, id: nat, tx: Transaction)
    returns (before: seq<KeyImage>, after: seq<KeyImage>)
    requires Get(txs, id) == Some(tx)
    ensures ImagesIn(txs) == before + KeyImages(tx.vin) + after
    ensures ImagesIn(Delete(txs, id)) == before + after
    decreases |txs|
  {
    var init, last := txs[..|txs| - 1], txs[|txs| - 1];
    if last.key == id {
      before, after := ImagesIn(init), [];
      assert before + [] == before;
      assert before + KeyImages(tx.vin) + [] == before + KeyImages(tx.vin);
    } else {
      var rest;
      before, rest := DeleteImages(init, id, tx);
      after := rest + KeyImages(last.value.vin);
      var less := Delete(init, id);
      assert (less + [last])[..|less|] == less;
      assert before + KeyImages(tx.vin) + rest + KeyImages(last.value.vin) == before + KeyImages(tx.vin) + after;
      assert before + rest + KeyImages(last.value.vin) == before + after;
    }
  }

  lemma CutOut<T>(a: seq<T>, b: seq<T>, c: seq<T>)
    requires NoDuplicates(a + b + c)
    ensures NoDuplicates(a + c) && Elements(a + b + c) - Elements(b) == Elements(a + c)
  {
    var all, less := a + b + c, a + c;
    assert forall i :: 0 <= i < |less| ==> less[i] == all[if i < |a| then i else i + |b|];
    assert forall i :: 0 <= i < |b| ==> b[i] == all[|a| + i];
    forall x | x in less ensures x in all && x !in b {
      var i :| 0 <= i < |less| && less[i] == x;
      assert all[if i < |a| then i else i + |b|] == x;
    }
    forall x | x in all && x !in b ensures x in less {
    }
  }

  predicate Union(db: Store) {
    DisjointUnion(db.spent, ImagesIn(db.txs))
  }

  predicate NoImageTwice(db: Store) {
    NoDuplicates(ImagesIn(db.txs))
  }

  /** Removing a transaction keeps both, whichever block it came with. */
  lemma RemoveKeepsImages(db: Store, h: Hash)
    requires RemoveTransaction(db, h).Ok?
    ensures Union(db) ==> Union(RemoveTransaction(db, h).value)
    ensures NoImageTwice(db) ==> NoImageTwice(RemoveTransaction(db, h).value)
  {
    var tx := GetTx(db, h).value;
    var before, after := DeleteImages(db.txs, db.txIndices[h].txId, tx);
    if NoImageTwice(db) {
      CutOut(before, KeyImages(tx.vin), after);
    }
  }

  lemma PopKeepsImages(db: Store)
    requires PopBlock(db).Ok?
    ensures Union(db) ==> Union(PopBlock(db).value.db)
    ensures NoImageTwice(db) ==> NoImageTwice(PopBlock(db).value.db)
  {
    forall d: Store, h: Hash {:trigger RemoveTransaction(d, h)} | RemoveTransaction(d, h).Ok?
      ensures Union(d) ==> Union(RemoveTransaction(d, h).value)
      ensures NoImageTwice(d) ==> NoImageTwice(RemoveTransaction(d, h).value)
    {
      RemoveKeepsImages(d, h);
    }
    if Union(db) {
      PopInvariant(db, Union);
    }
    if NoImageTwice(db) {
      PopInvariant(db, NoImageTwice);
    }
  }

  /** The addition goes through and drops a transaction that names a spent image. */
  ghost predicate LosesImage(db: Store, b: Addition) {
    AddTo(db, b).Ok? && !DropsCleanly(db.spent, b.Listed())
  }

  /** The addition goes through and stores an image of a stored transaction, or one twice. */
  predicate RepeatsImage(db: Store, b: Addition) {
    AddTo(db, b).Ok? && !Fresh(Elements(ImagesIn(db.txs)), ImagesOf(Kept(b.Listed())))
  }

  lemma StepKeepsUnionIff(db: Store, op: Op)
    requires Union(db)
    ensures Union(StepDb(db, op)) <==> !(op.Add? && LosesImage(db, op.b))
  {
    match op
    case Pop =>
      if PopBlock(db).Ok? {
        PopKeepsImages(db);
      }
    case Add(b) =>
      if AddTo(db, b).Ok? {
        AddToSteps(db, b);
        AddTransactionsImages(db, b.Listed());
        DisjointUnionIff(db.spent, ImagesIn(db.txs), b.Listed());
      }
  }

  lemma StepRepeatsIff(db: Store, op: Op)
    requires NoImageTwice(db)
    ensures NoImageTwice(StepDb(db, op)) <==> !(op.Add? && RepeatsImage(db, op.b))
  {
    match op
    case Pop =>
      if PopBlock(db).Ok? {
        PopKeepsImages(db);
      }
    case Add(b) =>
      if AddTo(db, b).Ok? {
        AddToSteps(db, b);
        AddTransactionsImages(db, b.Listed());
        var images := ImagesIn(db.txs);
        FreshSplit({}, images, ImagesOf(Kept(b.Listed())));
        assert {} + Elements(images) == Elements(images);
      }
  }

  /** The first i operations leave a store with the property. */
  predicate After(ops: seq<Op>, i: nat, good: Store -> bool)
    requires i <= |ops|
  {
    good(RunDb(ops[..i]))
  }

  /** Operation i, from where it is made, breaks the property. */
  ghost predicate BreaksAt(ops: seq<Op>, i: nat, breaks: (Store, Addition) -> bool)
    requires i < |ops|
  {
    ops[i].Add? && breaks(RunDb(ops[..i]), ops[i].b)
  }

  lemma RunIffStep(ops: seq<Op>, good: Store -> bool, breaks: (Store, Addition) -> bool, i: nat)
    requires i < |ops|
    requires forall db: Store, op: Op {:trigger StepDb(db, op)} ::
      good(db) ==> (good(StepDb(db, op)) <==> !(op.Add? && breaks(db, op.b)))
    ensures After(ops, i, good) ==> (After(ops, i + 1, good) <==> !BreaksAt(ops, i, breaks))
  {
    assert ops[..i + 1][..i] == ops[..i];
    assert RunDb(ops[..i + 1]) == StepDb(RunDb(ops[..i]), ops[i]);
  }

  ghost predicate AllAlong(ops: seq<Op>, n: nat, good: Store -> bool)
    requires n <= |ops|
  {
    forall i: nat :: i <= n ==> After(ops, i, good)
  }

  ghost predicate NeverBroken(ops: seq<Op>, n: nat, breaks: (Store, Addition) -> bool)
    requires n <= |ops|
  {
    forall i: nat :: i < n ==> !BreaksAt(ops, i, breaks)
  }

  lemma OneMore(ops: seq<Op>, n: nat, good: Store -> bool, breaks: (Store, Addition) -> bool)
    requires 0 < n <= |ops|
    ensures AllAlong(ops, n, good) <==> AllAlong(ops, n - 1, good) && After(ops, n, good)
    ensures NeverBroken(ops, n, breaks) <==> NeverBroken(ops, n - 1, breaks) && !BreaksAt(ops, n - 1, breaks)
  {
  }

  /** A property that exactly the breaking additions break holds all along a run exactly when
      none of its additions breaks it. */
  lemma {:induction false} RunIff(ops: seq<Op>, good: Store -> bool, breaks: (Store, Addition) -> bool, n: nat)
    requires n <= |ops| && good(EMPTY)
    requires forall db: Store, op: Op {:trigger StepDb(db, op)} ::
      good(db) ==> (good(StepDb(db, op)) <==> !(op.Add? && breaks(db, op.b)))
    ensures AllAlong(ops, n, good) <==> NeverBroken(ops, n, breaks)
    decreases n
  {
    if n > 0 {
      RunIff(ops, good, breaks, n - 1);
      OneMore(ops, n, good, breaks);
      RunIffStep(ops, good, breaks, n - 1);
    } else {
      assert ops[..0] == [];
    }
  }

  /** Along every run, the spent images are the disjoint union of the images of the stored
      transactions exactly as long as no addition drops a transaction that names a spent one. */
  lemma {:induction false} RunUnionIff(ops: seq<Op>)
    ensures AllAlong(ops, |ops|, Union) <==> NeverBroken(ops, |ops|, LosesImage)
  {
    forall db: Store, op: Op {:trigger StepDb(db, op)} | Union(db)
      ensures Union(StepDb(db, op)) <==> !(op.Add? && LosesImage(db, op.b))
    {
      StepKeepsUnionIff(db, op);
    }
    RunIff(ops, Union, LosesImage, |ops|);
  }

  /** Along every run, no image is in two stored transactions exactly as long as no addition
      stores an image of a stored transaction. */
  lemma {:induction false} RunNoImageTwiceIff(ops: seq<Op>)
    ensures AllAlong(ops, |ops|, NoImageTwice) <==> NeverBroken(ops, |ops|, RepeatsImage)
  {
    forall db: Store, op: Op {:trigger StepDb(db, op)} | NoImageTwice(db)
      ensures NoImageTwice(StepDb(db, op)) <==> !(op.Add? && RepeatsImage(db, op.b))
    {
      StepRepeatsIff(db, op);
    }
    RunIff(ops, NoImageTwice, RepeatsImage, |ops|);
  }
}
