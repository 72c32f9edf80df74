/**
 * The spent images against the images of the stored transactions.  A dropped transaction takes
 * every image it names off the spent set, so the two can come apart.
 */
module StoreSpent {
  import opened ChainTypes
  import opened StoreSpec
  import opened StoreAcceptance

  /** Exactly these images are spent, and none of them twice. */
  predicate DisjointUnion(spent: set<KeyImage>, images: seq<KeyImage>) {
    spent == Elements(images) && NoDuplicates(images)
  }

  /** The spent images that dropping e takes off. */
  function LostTo(spent: set<KeyImage>, e: Entry): set<KeyImage> {
    if Supported(e.tx) then {} else spent * Elements(KeyImages(e.tx.vin))
  }

  /** No dropped transaction names an image that is spent when its turn comes. */
  ghost predicate DropsCleanly(spent: set<KeyImage>, entries: seq<Entry>) {
    forall i: nat :: i < |entries| ==> LosesNothing(spent, entries, i)
  }

  predicate LosesNothing(spent: set<KeyImage>, entries: seq<Entry>, i: nat)
    requires i < |entries|
  {
    LostTo(SpentAfter(spent, entries[..i]), entries[i]) == {}
  }

  /** How many images were lost on the way. */
  function Lost(spent: set<KeyImage>, entries: seq<Entry>): nat {
    if entries == [] then 0
    else
      var init, e := entries[..|entries| - 1], entries[|entries| - 1];
      Lost(spent, init) + |LostTo(SpentAfter(spent, init), e)|
  }

  lemma CleanLast(spent: set<KeyImage>, entries: seq<Entry>)
    requires entries != []
    ensures DropsCleanly(spent, entries) <==>
      DropsCleanly(spent, entries[..|entries| - 1]) && LosesNothing(spent, entries, |entries| - 1)
  {
    var n := |entries| - 1;
    forall i: nat | i < n ensures LosesNothing(spent, entries[..n], i) == LosesNothing(spent, entries, i) {
      assert entries[..n][..i] == entries[..i];
    }
  }

  lemma LostLast(spent: set<KeyImage>, entries: seq<Entry>)
    requires entries != []
    ensures Lost(spent, entries) == 0 <==>
      Lost(spent, entries[..|entries| - 1]) == 0 && LosesNothing(spent, entries, |entries| - 1)
  {
  }

  lemma {:induction false} NothingLostIff(spent: set<KeyImage>, entries: seq<Entry>)
    ensures Lost(spent, entries) == 0 <==> DropsCleanly(spent, entries)
    decreases |entries|
  {
    if entries != [] {
      NothingLostIff(spent, entries[..|entries| - 1]);
      CleanLast(spent, entries);
      LostLast(spent, entries);
    }
  }

  lemma {:induction false} DistinctSize<T>(s: seq<T>)
    requires NoDuplicates(s)
    ensures |Elements(s)| == |s|
    decreases |s|
  {
    if s != [] {
      var init, last := s[..|s| - 1], s[|s| - 1];
      DistinctSize(init);
      assert Elements(s) == Elements(init) + {last};
      assert last !in init;
    }
  }

  lemma SpentCountStep(spent: set<KeyImage>, e: Entry)
    requires Fresh(spent, NeededImages(e.tx))
    ensures |SpentAfterOne(spent, e.tx)| + |LostTo(spent, e)|
      == |spent| + (if Supported(e.tx) then |KeyImages(e.tx.vin)| else 0)
  {
    var images := KeyImages(e.tx.vin);
    if Supported(e.tx) {
      DistinctSize(images);
      assert spent !! Elements(images);
    } else {
      assert (spent - Elements(images)) + (spent * Elements(images)) == spent;
    }
  }

  /** Images spent and images lost together are those spent before and those of the stored
      transactions, counted with multiplicity. */
  lemma {:induction false} SpentCount(spent: set<KeyImage>, entries: seq<Entry>)
    requires Spendable(spent, entries)
    ensures |SpentAfter(spent, entries)| + Lost(spent, entries) == |spent| + |ImagesOf(Kept(entries))|
    decreases |entries|
  {
    if entries != [] {
      var init, e := entries[..|entries| - 1], entries[|entries| - 1];
      SpentCount(spent, init);
      SpentCountStep(SpentAfter(spent, init), e);
      KeptImages(entries);
    }
  }

  lemma KeptImages(entries: seq<Entry>)
    requires entries != []
    ensures var init, e := entries[..|entries| - 1], entries[|entries| - 1];
      ImagesOf(Kept(entries)) ==
        if Supported(e.tx) then ImagesOf(Kept(init)) + KeyImages(e.tx.vin) else ImagesOf(Kept(init))
  {
    var kept, e := Kept(entries[..|entries| - 1]), entries[|entries| - 1];
    if Supported(e.tx) {
      assert (kept + [e])[..|kept|] == kept;
    } else {
      assert Kept(entries) == kept;
    }
  }

  lemma DisjointStep(spent: set<KeyImage>, images: seq<KeyImage>, e: Entry)
    requires DisjointUnion(spent, images) && Fresh(spent, NeededImages(e.tx)) && LostTo(spent, e) == {}
    ensures DisjointUnion(SpentAfterOne(spent, e.tx), if Supported(e.tx) then images + KeyImages(e.tx.vin) else images)
  {
    var more := KeyImages(e.tx.vin);
    if Supported(e.tx) {
      ElementsConcat(images, more);
      assert {} + Elements(images) == Elements(images);
      FreshSplit({}, images, more);
    } else {
      forall k | k in spent ensures k !in Elements(more) {
        assert k !in LostTo(spent, e);
      }
      assert spent - Elements(more) == spent;
    }
  }

  lemma {:induction false} CleanIsDisjoint(spent: set<KeyImage>, images: seq<KeyImage>, entries: seq<Entry>)
    requires DisjointUnion(spent, images) && Spendable(spent, entries) && Lost(spent, entries) == 0
    ensures DisjointUnion(SpentAfter(spent, entries), images + ImagesOf(Kept(entries)))
    decreases |entries|
  {
    if entries == [] {
      assert images + [] == images;
    } else {
      var init, e := entries[..|entries| - 1], entries[|entries| - 1];
      MoreImages(images, entries);
      LostLast(spent, entries);
      CleanIsDisjoint(spent, images, init);
      DisjointStep(SpentAfter(spent, init), images + ImagesOf(Kept(init)), e);
    }
  }

  /** One more transaction adds its images at the end, if it is stored. */
  lemma MoreImages(images: seq<KeyImage>, entries: seq<Entry>)
    requires entries != []
    ensures var before, e := images + ImagesOf(Kept(entries[..|entries| - 1])), entries[|entries| - 1];
      images + ImagesOf(Kept(entries)) == if Supported(e.tx) then before + KeyImages(e.tx.vin) else before
  {
    var before, more := ImagesOf(Kept(entries[..|entries| - 1])), KeyImages(entries[|entries| - 1].tx.vin);
    KeptImages(entries);
    Regroup(images, before, more);
  }

  lemma Regroup<T>(a: seq<T>, b: seq<T>, c: seq<T>)
    ensures a + (b + c) == a + b + c
  {
  }

  /** Where the spent images were the disjoint union of the stored ones, they still are after a
      list exactly when no dropped transaction of it named an image spent at that point. */
  lemma {:induction false} DisjointUnionIff(spent: set<KeyImage>, images: seq<KeyImage>, entries: seq<Entry>)
    requires DisjointUnion(spent, images) && Spendable(spent, entries)
    ensures DisjointUnion(SpentAfter(spent, entries), images + ImagesOf(Kept(entries))) <==>
      DropsCleanly(spent, entries)
  {
    NothingLostIff(spent, entries);
    if Lost(spent, entries) == 0 {
      CleanIsDisjoint(spent, images, entries);
    } else if DisjointUnion(SpentAfter(spent, entries), images + ImagesOf(Kept(entries))) {
      SpentCount(spent, entries);
      DistinctSize(images);
      DistinctSize(images + ImagesOf(Kept(entries)));
      assert false;
    }
  }
}
