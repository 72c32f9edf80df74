/** The third connection of a mesh of seven nodes, worked out by hand. */
module QuorumThirdPass {
  import opened QuorumGraph

  /** The first two passes connect 0 to 1 and 1 to 2. */
  const TWO: Edges := {(0, 1), (1, 2)}

  function With(k: int, l: int): Edges {
    TWO + {(k, l)}
  }

  /** The pairs with a path of at most two hops. */
  function Reached(e: Edges): set<(int, int)> {
    set i, j | 0 <= i < 7 && i < j < 7 && Paths(e, 7, i, j) > 0 :: (i, j)
  }

  lemma LeftAndReached(e: Edges)
    ensures |PairsWithin(e, 7, 0)| + |Reached(e)| == 21
  {
    PairsSize(7);
    assert PairsWithin(e, 7, 0) + Reached(e) == PairsUpTo(7);
    assert PairsWithin(e, 7, 0) * Reached(e) == {};
  }

  /** A path is a direct connection or goes through a common neighbour. */
  lemma PathMeans(e: Edges, i: int, j: int)
    ensures Paths(e, 7, i, j) > 0 <==> Adjacent(e, i, j) || exists m :: m in Common(e, 7, i, j)
  {
    if m :| m in Common(e, 7, i, j) {
      assert Common(e, 7, i, j) != {};
    }
  }

  /** The connections at the two ends. */
  lemma EndsOf(i: int, j: int)
    ensures |Outgoing(TWO, 7, i)| == if i == 0 || i == 1 then 1 else 0
    ensures |Incoming(TWO, 7, j)| == if j == 1 || j == 2 then 1 else 0
  {
    assert Outgoing(TWO, 7, i) == if i == 0 then {1} else if i == 1 then {2} else {};
    assert Incoming(TWO, 7, j) == if j == 1 then {0} else if j == 2 then {1} else {};
  }

  function Ordered(k: int, l: int): (int, int) {
    if k < l then (k, l) else (l, k)
  }

  /** All that a connection between free ends can reach. */
  function ReachedAtMost(k: int, l: int): set<(int, int)> {
    {(0, 1), (1, 2), (0, 2), Ordered(k, l)} + (if k == 2 && l == 0 then {} else if k == 2 then {(1, l)}
                                                else if l == 0 then {(1, k)} else {})
  }

  predicate FreeEnds(k: int, l: int) {
    2 <= k < 7 && 0 <= l < 7 && l != 1 && l != 2 && k != l
  }

  lemma AdjacentMeans(k: int, l: int, a: int, b: int)
    ensures Adjacent(With(k, l), a, b) <==>
      || (a, b) == (0, 1) || (a, b) == (1, 0) || (a, b) == (1, 2) || (a, b) == (2, 1)
      || (a, b) == (k, l) || (a, b) == (l, k)
  {
  }

  lemma ReachedWithin(k: int, l: int)
    requires FreeEnds(k, l)
    ensures Reached(With(k, l)) <= ReachedAtMost(k, l)
  {
    forall i, j | (i, j) in Reached(With(k, l)) ensures (i, j) in ReachedAtMost(k, l) {
      PathMeans(With(k, l), i, j);
      AdjacentMeans(k, l, i, j);
      if !Adjacent(With(k, l), i, j) {
        var m :| m in Common(With(k, l), 7, i, j);
        AdjacentMeans(k, l, i, m);
        AdjacentMeans(k, l, m, j);
      }
    }
  }

  lemma AtMostFive(k: int, l: int)
    requires FreeEnds(k, l)
    ensures |Reached(With(k, l))| <= 5
    ensures k == 2 && l == 0 ==> |Reached(With(k, l))| <= 3
  {
    ReachedWithin(k, l);
    SmallSet((0, 1), (1, 2), (0, 2), Ordered(k, l), if k == 2 then (1, l) else (1, k));
    var five := {(0, 1), (1, 2), (0, 2), Ordered(k, l), if k == 2 then (1, l) else (1, k)};
    if k == 2 && l == 0 {
      assert ReachedAtMost(k, l) == {(0, 1), (1, 2), (0, 2)};
      PairSubset(Reached(With(k, l)), {(0, 1), (1, 2), (0, 2)});
    } else {
      assert ReachedAtMost(k, l) <= five;
      PairSubset(Reached(With(k, l)), five);
    }
  }

  lemma SmallSet<T>(a: T, b: T, c: T, d: T, e: T)
    ensures |{a, b, c, d, e}| <= 5
  {
  }

  lemma PairSubset(a: set<(int, int)>, b: set<(int, int)>)
    requires a <= b
    ensures |a| <= |b|
  {
    assert b == a + (b - a);
  }

  lemma FiveReached()
    ensures |Reached(With(2, 3))| == 5
  {
    var e := With(2, 3);
    AtMostFive(2, 3);
    forall i, j | (i, j) in {(0, 1), (1, 2), (2, 3), (0, 2), (1, 3)} ensures (i, j) in Reached(e) {
      PathMeans(e, i, j);
      if (i, j) == (0, 2) {
        assert 1 in Common(e, 7, 0, 2);
      } else if (i, j) == (1, 3) {
        assert 2 in Common(e, 7, 1, 3);
      }
    }
    PairSubset({(0, 1), (1, 2), (2, 3), (0, 2), (1, 3)}, Reached(e));
  }

  /** The third pass connects 2 to 3: only then are as few as sixteen pairs left without a path,
      at free ends, and no earlier connection does as well. */
  lemma ThirdConnection()
    ensures Best(TWO, 7, 0, 2, 3)
    ensures |PairsWithin(TWO + {(2, 3)}, 7, 0)| == 16
  {
    LeftAndReached(With(2, 3));
    FiveReached();
    EndsOf(2, 3);
    forall k, l | Candidate(TWO, 7, k, l)
      ensures var ends, left := |Outgoing(TWO, 7, k)| + |Incoming(TWO, 7, l)|, |PairsWithin(TWO + {(k, l)}, 7, 0)|;
        ends > 0 || (left >= 16 && (k < 2 || (k == 2 && l < 3) ==> left > 16))
    {
      EndsOf(k, l);
      if k != 0 && k != 1 && l != 1 && l != 2 {
        LeftAndReached(With(k, l));
        AtMostFive(k, l);
      }
    }
    BestMeans(TWO, 7, 0, 2, 3);
  }
}
