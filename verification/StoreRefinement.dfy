/**
 * The store is a stack of blocks.  Next to a run of the store runs a plain stack whose
 * additions are decided by looking at the stacked blocks only, and which keeps a block for
 * good once a transaction of it was dropped.  The two agree exactly as long as no pop takes
 * off a transaction that did not come with the block.
 */
module StoreRefinement {
  import opened Wrappers
  import opened Tables
  import opened ChainTypes
  import opened StoreSpec
  import opened StoreRuns
  import opened StoreRoundTrip
  import opened StoreAcceptance
  import opened StoreSpent
  import opened StoreOutputs
  import opened StoreReach

  // ----- The stack

  /** Everything listed in the stacked blocks, dropped or not. */
  function AllEntries(stack: seq<Addition>): seq<Entry> {
    if stack == [] then [] else AllEntries(stack[..|stack| - 1]) + stack[|stack| - 1].Listed()
  }

  /** What is stored of it. */
  function Stored(stack: seq<Addition>): seq<Entry> {
    Kept(AllEntries(stack))
  }

  /** For each stored entry, the height of the block it came in. */
  function StoredHeights(stack: seq<Addition>): (r: seq<nat>)
    ensures |r| == |Stored(stack)|
  {
    if stack == [] then []
    else
      var init, b := stack[..|stack| - 1], stack[|stack| - 1];
      KeptConcat(AllEntries(init), b.Listed());
      StoredHeights(init) + seq(|Kept(b.Listed())|, _ => |stack| - 1)
  }

  /** The spent images, playing all entries through. */
  function SpentBy(stack: seq<Addition>): set<KeyImage> {
    SpentAfter({}, AllEntries(stack))
  }

  /** A new block whose parent is the top of the stack. */
  predicate GoesOnTop(stack: seq<Addition>, b: Addition) {
    && (forall i :: 0 <= i < |stack| ==> stack[i].blk.id != b.blk.id)
    && (stack != [] ==> b.blk.prevId == stack[|stack| - 1].blk.id)
  }

  /** What a block must satisfy to go on top of the stack. */
  predicate Accepts(stack: seq<Addition>, b: Addition) {
    && ShapeOk(b)
    && Fresh(Elements(HashesOf(Stored(stack))), HashesOf(Kept(b.Listed())))
    && Spendable(SpentBy(stack), b.Listed())
    && EntriesStorable(Kept(b.Listed()))
    && GoesOnTop(stack, b)
  }

  predicate ValidStack(stack: seq<Addition>) {
    stack != [] ==> ValidStack(stack[..|stack| - 1]) && Accepts(stack[..|stack| - 1], stack[|stack| - 1])
  }

  /** The store that a stack stands for: its blocks added in order to an empty store. */
  function Replay(stack: seq<Addition>): Result<Store, Error> {
    if stack == [] then Ok(EMPTY)
    else
      var db :- Replay(stack[..|stack| - 1]);
      AddTo(db, stack[|stack| - 1])
  }

  // ----- What a replayed store holds

  predicate BlocksMatch(db: Store, stack: seq<Addition>) {
    && |db.blocks| == |stack|
    && (forall i :: 0 <= i < |stack| ==> db.blocks[i].block == stack[i].blk && db.blocks[i].meta == stack[i].meta)
    && (forall i :: 0 <= i < |stack| ==> stack[i].blk.id in db.blockHeights && db.blockHeights[stack[i].blk.id] == i)
    && (forall h :: h in db.blockHeights ==> db.blockHeights[h] < |stack| && stack[db.blockHeights[h]].blk.id == h)
  }

  predicate RowsMatch(txs: seq<Row<Transaction>>, entries: seq<Entry>) {
    && |txs| == |entries|
    && forall i :: 0 <= i < |entries| ==> txs[i].value == entries[i].tx
  }

  predicate IndicesMatch(txIndices: map<Hash, TxIndex>, entries: seq<Entry>, heights: seq<nat>)
    requires |heights| == |entries|
  {
    forall i :: 0 <= i < |entries| ==>
      && entries[i].hash in txIndices
      && txIndices[entries[i].hash] == TxIndex(i, entries[i].tx.unlockTime, heights[i])
  }

  predicate HashesMatch(hashes: set<Hash>, entries: seq<Entry>) {
    && hashes == Elements(HashesOf(entries))
    && NoDuplicates(HashesOf(entries))
  }

  predicate Matches(db: Store, stack: seq<Addition>) {
    && DenseStore(db)
    && BlocksMatch(db, stack)
    && RowsMatch(db.txs, Stored(stack))
    && IndicesMatch(db.txIndices, Stored(stack), StoredHeights(stack))
    && HashesMatch(db.txIndices.Keys, Stored(stack))
    && db.spent == SpentBy(stack)
    && Spendable({}, AllEntries(stack))
  }

  lemma PushAcceptsIff(db: Store, stack: seq<Addition>, b: Addition, n: nat)
    requires BlocksMatch(db, stack)
    ensures PushBlock(db, b.blk, b.meta, n).Ok? <==> GoesOnTop(stack, b)
    ensures PushBlock(db, b.blk, b.meta, n).Ok? ==> BlocksMatch(PushBlock(db, b.blk, b.meta, n).value, stack + [b])
  {
    if b.blk.id in db.blockHeights {
      assert stack[db.blockHeights[b.blk.id]].blk.id == b.blk.id;
    }
  }

  lemma RowsExtend(db: Store, entries: seq<Entry>, more: seq<Entry>, db': Store)
    requires RowsMatch(db.txs, entries) && AllStoredAfter(db, more, db')
    ensures RowsMatch(db'.txs, entries + more)
  {
    forall i | 0 <= i < |entries + more| ensures db'.txs[i].value == (entries + more)[i].tx {
      if i >= |entries| {
        assert db'.txs[|db.txs| + (i - |entries|)].value == more[i - |entries|].tx;
      }
    }
  }

  lemma IndicesExtend(db: Store, entries: seq<Entry>, heights: seq<nat>, more: seq<Entry>, db': Store)
    requires |heights| == |entries| == |db.txs| && IndicesMatch(db.txIndices, entries, heights)
    requires AllIndexedAfter(db, more, db')
    ensures IndicesMatch(db'.txIndices, entries + more, heights + seq(|more|, _ => |db.blocks|))
  {
    var all, at := entries + more, heights + seq(|more|, _ => |db.blocks|);
    forall i | 0 <= i < |all|
      ensures all[i].hash in db'.txIndices && db'.txIndices[all[i].hash] == TxIndex(i, all[i].tx.unlockTime, at[i])
    {
      if i >= |entries| {
        assert all[i] == more[i - |entries|];
      } else {
        assert all[i] == entries[i];
      }
    }
  }

  lemma HashesExtend(hashes: set<Hash>, entries: seq<Entry>, more: seq<Entry>)
    requires HashesMatch(hashes, entries) && Fresh(hashes, HashesOf(more))
    ensures HashesMatch(hashes + Elements(HashesOf(more)), entries + more)
  {
    assert HashesOf(entries + more) == HashesOf(entries) + HashesOf(more);
    ElementsConcat(HashesOf(entries), HashesOf(more));
    assert {} + hashes == hashes;
    FreshSplit({}, HashesOf(entries), HashesOf(more));
  }

  lemma StackPush(stack: seq<Addition>, b: Addition)
    ensures AllEntries(stack + [b]) == AllEntries(stack) + b.Listed()
    ensures Stored(stack + [b]) == Stored(stack) + Kept(b.Listed())
    ensures StoredHeights(stack + [b]) == StoredHeights(stack) + seq(|Kept(b.Listed())|, _ => |stack|)
    ensures SpentBy(stack + [b]) == SpentAfter(SpentBy(stack), b.Listed())
  {
    assert (stack + [b])[..|stack|] == stack;
    KeptConcat(AllEntries(stack), b.Listed());
    SpentConcat({}, AllEntries(stack), b.Listed());
  }

  lemma MatchesExtend(db: Store, stack: seq<Addition>, b: Addition, db1: Store, db': Store)
    requires Matches(db, stack) && EntriesAdmissible(db, b.Listed())
    requires DenseStore(db1) && db1.spent == SpentAfter(db.spent, b.Listed())
    requires AllStoredAfter(db, Kept(b.Listed()), db1) && AllIndexedAfter(db, Kept(b.Listed()), db1)
    requires db' == db1.(blocks := db'.blocks, blockHeights := db'.blockHeights)
    requires BlocksMatch(db', stack + [b])
    ensures Matches(db', stack + [b])
  {
    var stored, added := Stored(stack), Kept(b.Listed());
    StackPush(stack, b);
    RowsExtend(db, stored, added, db1);
    IndicesExtend(db, stored, StoredHeights(stack), added, db1);
    HashesExtend(db.txIndices.Keys, stored, added);
    SpentConcat({}, AllEntries(stack), b.Listed());
  }

  lemma AcceptsIffAdmissible(db: Store, stack: seq<Addition>, b: Addition)
    requires Matches(db, stack) && ShapeOk(b)
    ensures Accepts(stack, b) <==> EntriesAdmissible(db, b.Listed()) && GoesOnTop(stack, b)
  {
  }

  lemma AddStoredBlock(db: Store, stack: seq<Addition>, b: Addition, db1: Store)
    requires Matches(db, stack) && EntriesAdmissible(db, b.Listed())
    requires DenseStore(db1) && db1.spent == SpentAfter(db.spent, b.Listed())
    requires AllStoredAfter(db, Kept(b.Listed()), db1) && AllIndexedAfter(db, Kept(b.Listed()), db1)
    ensures var r := PushBlock(db1, b.blk, b.meta, NumRctOuts(b.blk, b.txs));
      && (r.Ok? <==> GoesOnTop(stack, b))
      && (r.Ok? ==> Matches(r.value, stack + [b]))
  {
    var n := NumRctOuts(b.blk, b.txs);
    PushAcceptsIff(db1, stack, b, n);
    match PushBlock(db1, b.blk, b.meta, n)
    case Err(_) =>
    case Ok(db') => MatchesExtend(db, stack, b, db1, db');
  }

  /** A store that matches a stack accepts a block exactly when the stack does. */
  lemma {:induction false} AddAcceptsIff(db: Store, stack: seq<Addition>, b: Addition)
    requires Matches(db, stack)
    ensures AddTo(db, b).Ok? <==> Accepts(stack, b)
    ensures AddTo(db, b).Ok? ==> Matches(AddTo(db, b).value, stack + [b])
  {
    AddToSteps(db, b);
    if ShapeOk(b) {
      AcceptsIffAdmissible(db, stack, b);
      AddTransactionsAcceptsIff(db, b.Listed());
      match AddTransactions(db, b.Listed())
      case Err(_) =>
      case Ok(db1) => AddStoredBlock(db, stack, b, db1);
    }
  }

  /** A stack can be replayed exactly when it is valid, and the store then matches it. */
  lemma {:induction false} ReplayMatches(stack: seq<Addition>)
    ensures Replay(stack).Ok? <==> ValidStack(stack)
    ensures Replay(stack).Ok? ==> Matches(Replay(stack).value, stack)
    decreases |stack|
  {
    if stack != [] {
      var init, b := stack[..|stack| - 1], stack[|stack| - 1];
      assert init + [b] == stack;
      ReplayMatches(init);
      if Replay(init).Ok? {
        AddAcceptsIff(Replay(init).value, init, b);
      }
    }
  }

  lemma {:induction false} ReplayConsistent(stack: seq<Addition>)
    requires Replay(stack).Ok?
    ensures Consistent(Replay(stack).value) && HeightsMatch(Replay(stack).value)
    decreases |stack|
  {
    if stack == [] {
      RunConsistent([]);
    } else {
      ReplayConsistent(stack[..|stack| - 1]);
      AddedConsistent(Replay(stack[..|stack| - 1]).value, stack[|stack| - 1]);
    }
  }

  // ----- Popping a replayed store

  /** A transaction of the top block was dropped, yet all its hashes are those of stored
      transactions, and different: a pop takes off transactions of other blocks. */
  predicate TakesOthers(stack: seq<Addition>) {
    && stack != []
    && var top := stack[|stack| - 1];
       && !AllSupported(top.Listed())
       && NoDuplicates(HashesIn(top.blk))
       && Elements(HashesIn(top.blk)) <= Elements(HashesOf(Stored(stack)))
  }

  /** Popping a replayed store restores what was there before the top block if nothing of it
      was dropped, and otherwise fails exactly unless it takes off others. */
  lemma {:induction false} PopReplayed(stack: seq<Addition>)
    requires Replay(stack).Ok?
    ensures stack == [] ==> PopBlock(Replay(stack).value) == Err(BlockDne)
    ensures stack != [] && AllSupported(stack[|stack| - 1].Listed()) ==>
      var init, top := stack[..|stack| - 1], stack[|stack| - 1];
      && Replay(init).Ok?
      && PopBlock(Replay(stack).value) == Ok(Popped(Replay(init).value, top.blk, ReversedTxs(top.txs)))
    ensures stack != [] && !AllSupported(stack[|stack| - 1].Listed()) ==>
      (PopBlock(Replay(stack).value).Ok? <==> TakesOthers(stack))
  {
    if stack != [] {
      var init, b := stack[..|stack| - 1], stack[|stack| - 1];
      ReplayMatches(init);
      if AllSupported(b.Listed()) {
        PopUndoesAdd(Replay(init).value, b.blk, b.meta, b.txs);
      } else {
        PopOfDropped(stack);
      }
    }
  }

  lemma PopOfDropped(stack: seq<Addition>)
    requires stack != [] && Replay(stack).Ok? && !AllSupported(stack[|stack| - 1].Listed())
    ensures var r := PopBlock(Replay(stack).value);
      && (r.Ok? <==> TakesOthers(stack))
      && (r.Ok? ==> r.value.db.txIndices.Keys < Replay(stack).value.txIndices.Keys)
  {
    var db := Replay(stack).value;
    ReplayMatches(stack);
    ReplayConsistent(stack);
    PopSucceedsIff(db);
    assert db.blocks[|stack| - 1].block == stack[|stack| - 1].blk;
    SomethingListed(stack[|stack| - 1]);
  }

  lemma SomethingListed(b: Addition)
    requires !AllSupported(b.Listed())
    ensures Elements(HashesIn(b.blk)) != {}
  {
    assert HashesIn(b.blk) != [];
    assert HashesIn(b.blk)[0] in Elements(HashesIn(b.blk));
  }

  // ----- Runs

  function StepStack(stack: seq<Addition>, op: Op): seq<Addition> {
    match op
    case Add(b) => if Accepts(stack, b) then stack + [b] else stack
    case Pop =>
      if stack == [] || !AllSupported(stack[|stack| - 1].Listed()) then stack else stack[..|stack| - 1]
  }

  function RunStack(ops: seq<Op>): seq<Addition> {
    if ops == [] then [] else StepStack(RunStack(ops[..|ops| - 1]), ops[|ops| - 1])
  }

  /** Operation i is a pop that takes off transactions of other blocks. */
  predicate TakesOthersAt(ops: seq<Op>, i: nat)
    requires i < |ops|
  {
    ops[i] == Pop && TakesOthers(RunStack(ops[..i]))
  }

  ghost predicate TakesOnlyOwn(ops: seq<Op>) {
    forall i: nat :: i < |ops| ==> !TakesOthersAt(ops, i)
  }

  lemma SameAt(ops: seq<Op>, n: nat, i: nat)
    requires i < n <= |ops|
    ensures TakesOthersAt(ops[..n], i) == TakesOthersAt(ops, i)
  {
    assert ops[..n][..i] == ops[..i];
  }

  lemma OwnPrefix(ops: seq<Op>, n: nat)
    requires n <= |ops| && TakesOnlyOwn(ops)
    ensures TakesOnlyOwn(ops[..n])
  {
    forall i: nat | i < n ensures !TakesOthersAt(ops[..n], i) {
      SameAt(ops, n, i);
    }
  }

  lemma ReplayPush(stack: seq<Addition>, b: Addition)
    ensures Replay(stack + [b]) == if Replay(stack).Ok? then AddTo(Replay(stack).value, b) else Replay(stack)
  {
    assert (stack + [b])[..|stack|] == stack;
  }

  lemma AddStepRefines(stack: seq<Addition>, db: Store, b: Addition)
    requires Replay(stack) == Ok(db)
    ensures Replay(StepStack(stack, Add(b))) == Ok(StepDb(db, Add(b)))
  {
    ReplayPush(stack, b);
    ReplayMatches(stack);
    AddAcceptsIff(db, stack, b);
    assert StepStack(stack, Add(b)) == if AddTo(db, b).Ok? then stack + [b] else stack;
  }

  lemma PopStepRefines(stack: seq<Addition>, db: Store)
    requires Replay(stack) == Ok(db)
    ensures Replay(StepStack(stack, Pop)) == Ok(StepDb(db, Pop)) <==> !TakesOthers(stack)
  {
    PopReplayed(stack);
    if stack != [] && !AllSupported(stack[|stack| - 1].Listed()) {
      PopOfDropped(stack);
    }
  }

  lemma StepRefines(stack: seq<Addition>, db: Store, op: Op)
    requires Replay(stack) == Ok(db) && !(op == Pop && TakesOthers(stack))
    ensures Replay(StepStack(stack, op)) == Ok(StepDb(db, op))
  {
    match op
    case Add(b) => AddStepRefines(stack, db, b);
    case Pop => PopStepRefines(stack, db);
  }

  /** Over every run in which no pop takes off others, the store is the replay of the stack,
      table for table. */
  lemma {:induction false} RunRefinesStack(ops: seq<Op>)
    requires TakesOnlyOwn(ops)
    ensures Replay(RunStack(ops)) == Ok(RunDb(ops))
    decreases |ops|
  {
    if ops != [] {
      var n := |ops| - 1;
      OwnPrefix(ops, n);
      RunRefinesStack(ops[..n]);
      assert !TakesOthersAt(ops, n);
      StepRefines(RunStack(ops[..n]), RunDb(ops[..n]), ops[n]);
    }
  }

  /** After the first i operations the store is the replay of the stack. */
  predicate AgreesAt(ops: seq<Op>, i: nat)
    requires i <= |ops|
  {
    Replay(RunStack(ops[..i])) == Ok(RunDb(ops[..i]))
  }

  /** The store is the replay of the stack all along a run exactly when no pop of it takes off
      transactions of other blocks. */
  lemma {:induction false} RunRefinesStackIff(ops: seq<Op>)
    ensures TakesOnlyOwn(ops) <==> forall i: nat :: i <= |ops| ==> AgreesAt(ops, i)
  {
    if TakesOnlyOwn(ops) {
      forall i: nat | i <= |ops| ensures AgreesAt(ops, i) {
        OwnPrefix(ops, i);
        RunRefinesStack(ops[..i]);
      }
    } else {
      var i: nat :| i < |ops| && TakesOthersAt(ops, i);
      if AgreesAt(ops, i) {
        DisagreesAfter(ops, i);
      }
    }
  }

  lemma RunsStep(ops: seq<Op>, i: nat)
    requires i < |ops|
    ensures RunDb(ops[..i + 1]) == StepDb(RunDb(ops[..i]), ops[i])
    ensures RunStack(ops[..i + 1]) == StepStack(RunStack(ops[..i]), ops[i])
  {
    assert ops[..i + 1][..i] == ops[..i];
  }

  lemma DisagreesAfter(ops: seq<Op>, i: nat)
    requires i < |ops| && TakesOthersAt(ops, i) && AgreesAt(ops, i)
    ensures !AgreesAt(ops, i + 1)
  {
    PopStepRefines(RunStack(ops[..i]), RunDb(ops[..i]));
    RunsStep(ops, i);
  }

  /** The store keeps no trace of how it got to its stack: reorganisations that end on the same
      blocks end on the same store. */
  lemma {:induction false} SameStackSameStore(a: seq<Op>, b: seq<Op>)
    requires TakesOnlyOwn(a) && TakesOnlyOwn(b) && RunStack(a) == RunStack(b)
    ensures RunDb(a) == RunDb(b)
  {
    RunRefinesStack(a);
    RunRefinesStack(b);
  }

  /** The store after such a run holds exactly the stack's blocks and the transactions of the
      stack that were not dropped. */
  lemma {:induction false} RunMatchesStack(ops: seq<Op>)
    requires TakesOnlyOwn(ops)
    ensures Matches(RunDb(ops), RunStack(ops))
  {
    RunRefinesStack(ops);
    ReplayMatches(RunStack(ops));
  }

  /** Its spent images are the disjoint union of the stored transactions' images exactly when
      no dropped transaction named an image that was spent at that point. */
  lemma {:induction false} RunSpentIff(ops: seq<Op>)
    requires TakesOnlyOwn(ops)
    ensures DisjointUnion(RunDb(ops).spent, ImagesOf(Stored(RunStack(ops)))) <==>
      DropsCleanly({}, AllEntries(RunStack(ops)))
  {
    RunMatchesStack(ops);
    DisjointUnionIff({}, [], AllEntries(RunStack(ops)));
    assert [] + ImagesOf(Stored(RunStack(ops))) == ImagesOf(Stored(RunStack(ops)));
  }

  /** After such a run an addition is accepted exactly when the stack accepts it. */
  lemma {:induction false} RunAcceptsIff(ops: seq<Op>, b: Addition)
    requires TakesOnlyOwn(ops)
    ensures AddTo(RunDb(ops), b).Ok? <==> Accepts(RunStack(ops), b)
  {
    RunMatchesStack(ops);
    AddAcceptsIff(RunDb(ops), RunStack(ops), b);
  }

  /** After such a run a pop succeeds exactly when there is a block and either nothing of it was
      dropped or it takes off others; in the first case it returns the block's transactions
      reversed and leaves the replay of what lies below. */
  lemma {:induction false} RunPops(ops: seq<Op>)
    requires TakesOnlyOwn(ops)
    ensures var r, stack := PopBlock(RunDb(ops)), RunStack(ops);
      && (r.Ok? <==> stack != [] && (AllSupported(stack[|stack| - 1].Listed()) || TakesOthers(stack)))
      && (r.Ok? && !TakesOthers(stack) ==>
            && r.value.block == stack[|stack| - 1].blk
            && r.value.txs == ReversedTxs(stack[|stack| - 1].txs)
            && Replay(stack[..|stack| - 1]) == Ok(r.value.db))
  {
    RunRefinesStack(ops);
    PopReplayed(RunStack(ops));
  }

  // ----- Hashes that tell

  /** The hash of each listed transaction tells whether the transaction is supported, as it
      does when it is computed from the transaction. */
  ghost predicate HashTells(entries: seq<Entry>, tells: Hash -> bool) {
    forall e :: e in entries ==> (Supported(e.tx) <==> tells(e.hash))
  }

  lemma {:induction false} KeptAreSupported(entries: seq<Entry>, e: Entry)
    requires e in Kept(entries)
    ensures e in entries && Supported(e.tx)
    decreases |entries|
  {
    var init, last := entries[..|entries| - 1], entries[|entries| - 1];
    if e in Kept(init) {
      KeptAreSupported(init, e);
    }
  }

  lemma TellingTakesOnlyOwn(stack: seq<Addition>, tells: Hash -> bool)
    requires Replay(stack).Ok? && HashTells(AllEntries(stack), tells)
    ensures !TakesOthers(stack)
  {
    if TakesOthers(stack) {
      var top := stack[|stack| - 1];
      var i :| 0 <= i < |top.Listed()| && !Supported(top.Listed()[i].tx);
      var e := top.Listed()[i];
      assert e in AllEntries(stack);
      ListedHash(top, i);
      var f := StoredUnder(stack, e.hash);
      KeptAreSupported(AllEntries(stack), f);
    }
  }

  lemma ListedHash(b: Addition, i: nat)
    requires i < |b.Listed()|
    ensures b.Listed()[i].hash in Elements(HashesIn(b.blk))
  {
    if b.blk.minerTx.Some? && i == 0 {
      assert HashesIn(b.blk)[0] == b.blk.minerTx.value.id;
    } else {
      var j := i - |MinerEntry(b.blk)|;
      assert b.Listed()[i] == Entry(b.blk.txHashes[j], b.txs[j]);
      assert b.blk.txHashes[j] in HashesIn(b.blk);
    }
  }

  lemma StoredUnder(stack: seq<Addition>, h: Hash) returns (f: Entry)
    requires h in Elements(HashesOf(Stored(stack)))
    ensures f in Stored(stack) && f.hash == h
  {
    var i :| 0 <= i < |HashesOf(Stored(stack))| && HashesOf(Stored(stack))[i] == h;
    f := Stored(stack)[i];
  }

  lemma StepTells(stack: seq<Addition>, op: Op, tells: Hash -> bool)
    requires HashTells(AllEntries(stack), tells) && (op.Add? ==> HashTells(op.b.Listed(), tells))
    ensures HashTells(AllEntries(StepStack(stack, op)), tells)
  {
    match op
    case Add(b) => StackPush(stack, b);
    case Pop =>
  }

  /** When hashes tell, no pop takes off others, so all of the above applies. */
  lemma {:induction false} TellingRun(ops: seq<Op>, tells: Hash -> bool)
    requires forall i :: 0 <= i < |ops| && ops[i].Add? ==> HashTells(ops[i].b.Listed(), tells)
    ensures TakesOnlyOwn(ops) && HashTells(AllEntries(RunStack(ops)), tells)
    decreases |ops|
  {
    if ops != [] {
      var n := |ops| - 1;
      TellingRun(ops[..n], tells);
      RunRefinesStack(ops[..n]);
      TellingTakesOnlyOwn(RunStack(ops[..n]), tells);
      StepTells(RunStack(ops[..n]), ops[n], tells);
      OwnSnoc(ops);
    }
  }

  lemma OwnSnoc(ops: seq<Op>)
    requires ops != [] && TakesOnlyOwn(ops[..|ops| - 1]) && !TakesOthersAt(ops, |ops| - 1)
    ensures TakesOnlyOwn(ops)
  {
    forall i: nat | i < |ops| ensures !TakesOthersAt(ops, i) {
      if i < |ops| - 1 {
        SameAt(ops, |ops| - 1, i);
      }
    }
  }
}
