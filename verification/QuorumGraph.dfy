/** Paths of at most two hops in a graph of directed connections, used in both directions. */
module QuorumGraph {

  type Edges = set<(int, int)>

  predicate InRange(n: nat, i: int) {
    0 <= i < n
  }

  predicate Adjacent(e: Edges, i: int, j: int) {
    (i, j) in e || (j, i) in e
  }

  /** No node connects to itself, and no pair is connected both ways. */
  ghost predicate WellFormed(e: Edges, n: nat) {
    forall i, j :: (i, j) in e ==> InRange(n, i) && InRange(n, j) && i != j && (j, i) !in e
  }

  function Nodes(n: nat): set<int> {
    set m | 0 <= m < n && InRange(n, m)
  }

  function Neighbours(e: Edges, n: nat, j: int): set<int> {
    set m | 0 <= m < n && m != j && Adjacent(e, m, j)
  }

  function Common(e: Edges, n: nat, i: int, j: int): set<int> {
    set m | 0 <= m < n && m != i && m != j && Adjacent(e, m, i) && Adjacent(e, m, j)
  }

  /** The direct connection, if there is one, and one path per common neighbour. */
  function Paths(e: Edges, n: nat, i: int, j: int): nat {
    |Common(e, n, i, j)| + (if Adjacent(e, i, j) then 1 else 0)
  }

  lemma PathsSymmetric(e: Edges, n: nat, i: int, j: int)
    ensures Paths(e, n, i, j) == Paths(e, n, j, i)
  {
    assert Common(e, n, i, j) == Common(e, n, j, i);
  }

  lemma SubsetSize(a: set<int>, b: set<int>)
    requires a <= b
    ensures |a| <= |b|
  {
    assert |b| == |a| + |b - a| by {
      assert a + (b - a) == b;
    }
  }

  /** Connecting more nodes takes no path away. */
  lemma PathsMonotone(e: Edges, e': Edges, n: nat, i: int, j: int)
    requires e <= e'
    ensures Paths(e, n, i, j) <= Paths(e', n, i, j)
  {
    SubsetSize(Common(e, n, i, j), Common(e', n, i, j));
  }

  lemma {:induction false} NodesSize(n: nat)
    ensures |Nodes(n)| == n
  {
    if n > 0 {
      NodesSize(n - 1);
      assert Nodes(n) == Nodes(n - 1) + {n - 1};
    }
  }

  lemma OthersSize(n: nat, i: int, j: int)
    requires InRange(n, i) && InRange(n, j) && i != j
    ensures |Nodes(n) - {i, j}| == n - 2
  {
    NodesSize(n);
    assert Nodes(n) == (Nodes(n) - {i, j}) + {i, j};
    assert |{i, j}| == 2;
  }

  /** No pair has more than n - 1 paths, and every pair has that many once all are connected. */
  lemma PathsBound(e: Edges, n: nat, i: int, j: int)
    requires InRange(n, i) && InRange(n, j) && i != j
    ensures Paths(e, n, i, j) <= n - 1
    ensures (forall k, l :: InRange(n, k) && InRange(n, l) && k != l ==> Adjacent(e, k, l)) ==>
      Paths(e, n, i, j) == n - 1
  {
    OthersSize(n, i, j);
    SubsetSize(Common(e, n, i, j), Nodes(n) - {i, j});
    if forall k, l :: InRange(n, k) && InRange(n, l) && k != l ==> Adjacent(e, k, l) {
      assert Common(e, n, i, j) == Nodes(n) - {i, j};
    }
  }

  // ----- The least connected pairs

  ghost predicate AllPathsAtLeast(e: Edges, n: nat, t: nat) {
    forall i, j :: 0 <= i < j < n ==> Paths(e, n, i, j) >= t
  }

  /** The fewest paths between any two nodes. */
  ghost predicate IsMinPaths(e: Edges, n: nat, m: nat) {
    && AllPathsAtLeast(e, n, m)
    && exists i, j :: 0 <= i < j < n && Paths(e, n, i, j) == m
  }

  lemma MinPathsMonotone(e: Edges, e': Edges, n: nat, m: nat, m': nat)
    requires e <= e' && AllPathsAtLeast(e, n, m) && IsMinPaths(e', n, m')
    ensures m <= m'
  {
    var i, j :| 0 <= i < j < n && Paths(e', n, i, j) == m';
    PathsMonotone(e, e', n, i, j);
  }

  lemma NoPathsAtFirst(n: nat)
    requires n >= 2
    ensures IsMinPaths({}, n, 0)
  {
    assert Common({}, n, 0, 1) == {};
    assert Paths({}, n, 0, 1) == 0;
  }

  function PairsUpTo(n: nat): set<(int, int)> {
    set i, j | 0 <= i < n && i < j < n :: (i, j)
  }

  /** The pairs with at most t paths. */
  function PairsWithin(e: Edges, n: nat, t: nat): set<(int, int)> {
    set i, j | 0 <= i < n && i < j < n && Paths(e, n, i, j) <= t :: (i, j)
  }

  // ----- What a finished mesh withstands

  /** Two nodes outside `removed` still connected directly or through a third node outside it. */
  ghost predicate Connected(e: Edges, n: nat, removed: set<int>, i: int, j: int) {
    Adjacent(e, i, j) || exists m :: InRange(n, m) && m !in removed && Adjacent(e, i, m) && Adjacent(e, m, j)
  }

  /** Every two nodes that are left are connected within two hops. */
  ghost predicate Survives(e: Edges, n: nat, removed: set<int>) {
    forall i, j ::
      InRange(n, i) && InRange(n, j) && i != j && i !in removed && j !in removed ==> Connected(e, n, removed, i, j)
  }

  /** With t paths between every two nodes, the graph survives the loss of fewer than t nodes. */
  lemma FaultTolerance(e: Edges, n: nat, t: nat, removed: set<int>)
    requires AllPathsAtLeast(e, n, t) && |removed| < t
    ensures Survives(e, n, removed)
  {
    forall i, j | InRange(n, i) && InRange(n, j) && i != j && i !in removed && j !in removed
      ensures Connected(e, n, removed, i, j)
    {
      PathsSymmetric(e, n, i, j);
      assert Paths(e, n, i, j) >= t by {
        if i < j {
          assert Paths(e, n, i, j) >= t;
        } else {
          assert Paths(e, n, j, i) >= t;
        }
      }
      if !Adjacent(e, i, j) {
        var common := Common(e, n, i, j);
        if common <= removed {
          SubsetSize(common, removed);
        }
        var m :| m in common && m !in removed;
        assert InRange(n, m) && Adjacent(e, i, m) && Adjacent(e, m, j);
      }
    }
  }

  lemma Degrees(e: Edges, n: nat, t: nat)
    requires AllPathsAtLeast(e, n, t) && n >= 2
    ensures forall j :: InRange(n, j) ==> |Neighbours(e, n, j)| >= t
  {
    forall j | InRange(n, j) ensures |Neighbours(e, n, j)| >= t {
      var i := if j == 0 then 1 else 0;
      PathsSymmetric(e, n, i, j);
      assert Paths(e, n, i, j) >= t by {
        if i < j {
          assert Paths(e, n, i, j) >= t;
        } else {
          assert Paths(e, n, j, i) >= t;
        }
      }
      var via := Common(e, n, i, j) + (if Adjacent(e, i, j) then {i} else {});
      assert |via| == Paths(e, n, i, j);
      SubsetSize(via, Neighbours(e, n, j));
    }
  }

  // ----- The greedy choice

  /** A connection that may still be made. */
  predicate Candidate(e: Edges, n: nat, i: int, j: int) {
    InRange(n, i) && InRange(n, j) && i != j && !Adjacent(e, i, j)
  }

  function Outgoing(e: Edges, n: nat, i: int): set<int> {
    set k | 0 <= k < n && (i, k) in e
  }

  function Incoming(e: Edges, n: nat, j: int): set<int> {
    set k | 0 <= k < n && (k, j) in e
  }

  /** Connections at the two ends, and pairs left at or below the minimum. */
  datatype Score = Score(ends: nat, left: nat) {
    predicate Less(other: Score) {
      ends < other.ends || (ends == other.ends && left < other.left)
    }
  }

  function ScoreOf(e: Edges, n: nat, t: nat, i: int, j: int): Score {
    Score(|Outgoing(e, n, i)| + 1 + |Incoming(e, n, j)| + 1, |PairsWithin(e + {(i, j)}, n, t)|)
  }

  /** Row by row, left to right. */
  predicate Precedes(k: int, l: int, i: int, j: int) {
    k < i || (k == i && l < j)
  }

  ghost predicate BestBefore(e: Edges, n: nat, t: nat, i: int, j: int, rowEnd: int, colEnd: int) {
    && Candidate(e, n, i, j)
    && (forall k, l :: Candidate(e, n, k, l) && Precedes(k, l, rowEnd, colEnd) ==>
          !ScoreOf(e, n, t, k, l).Less(ScoreOf(e, n, t, i, j)))
    && (forall k, l :: Candidate(e, n, k, l) && Precedes(k, l, i, j) ==>
          ScoreOf(e, n, t, i, j).Less(ScoreOf(e, n, t, k, l)))
  }

  /** The first of the candidates with the least score. */
  ghost predicate Best(e: Edges, n: nat, t: nat, i: int, j: int) {
    BestBefore(e, n, t, i, j, n, 0)
  }

  /** No connection that may be made has fewer connections at its two ends, outgoing at the one
      and incoming at the other; none with as many leaves fewer pairs with at most t paths; and
      every earlier one, row by row, is strictly worse. */
  ghost predicate FewestEndsThenPairs(e: Edges, n: nat, t: nat, i: int, j: int) {
    && Candidate(e, n, i, j)
    && var ends, left := |Outgoing(e, n, i)| + |Incoming(e, n, j)|, |PairsWithin(e + {(i, j)}, n, t)|;
       forall k, l :: Candidate(e, n, k, l) ==>
         var ends', left' := |Outgoing(e, n, k)| + |Incoming(e, n, l)|, |PairsWithin(e + {(k, l)}, n, t)|;
         && ends <= ends'
         && (ends == ends' ==> left <= left')
         && (k < i || (k == i && l < j) ==> ends < ends' || left < left')
  }

  lemma BestMeans(e: Edges, n: nat, t: nat, i: int, j: int)
    ensures Best(e, n, t, i, j) <==> FewestEndsThenPairs(e, n, t, i, j)
  {
    if Best(e, n, t, i, j) {
      forall k, l | Candidate(e, n, k, l)
        ensures !ScoreOf(e, n, t, k, l).Less(ScoreOf(e, n, t, i, j))
        ensures Precedes(k, l, i, j) ==> ScoreOf(e, n, t, i, j).Less(ScoreOf(e, n, t, k, l))
      {
        assert Precedes(k, l, n, 0);
      }
    }
  }

  /** Every candidate beats the value the search starts from. */
  lemma CandidateBeatsStart(e: Edges, n: nat, t: nat, i: int, j: int, left: nat)
    requires WellFormed(e, n) && Candidate(e, n, i, j)
    ensures ScoreOf(e, n, t, i, j).Less(Score(n + n, left))
  {
    OthersSize(n, i, j);
    SubsetSize(Outgoing(e, n, i), Nodes(n) - {i, j});
    SubsetSize(Incoming(e, n, j), Nodes(n) - {i, j});
  }

  // ----- Termination

  function Unconnected(e: Edges, n: nat): set<(int, int)> {
    set i, j | 0 <= i < n && i < j < n && !Adjacent(e, i, j) :: (i, j)
  }

  function Column(k: nat, column: int): set<(int, int)> {
    set i | 0 <= i < k && InRange(k, i) :: (i, column)
  }

  lemma {:induction false} ColumnSize(k: nat, column: int)
    ensures |Column(k, column)| == k
  {
    if k > 0 {
      ColumnSize(k - 1, column);
      assert Column(k, column) == Column(k - 1, column) + {(k - 1, column)};
    }
  }

  lemma PairsStep(n: nat)
    requires n > 0
    ensures |PairsUpTo(n)| == |PairsUpTo(n - 1)| + n - 1
  {
    var before, column := PairsUpTo(n - 1), Column(n - 1, n - 1);
    assert PairsUpTo(n) == before + column;
    assert before !! column;
    ColumnSize(n - 1, n - 1);
  }

  lemma {:induction false} PairsSize(n: nat)
    ensures 2 * |PairsUpTo(n)| == n * (n - 1)
  {
    if n > 0 {
      PairsSize(n - 1);
      PairsStep(n);
    } else {
      assert PairsUpTo(0) == {};
    }
  }

  /** Making a candidate connection uses up exactly one unconnected pair and keeps the graph
      well formed. */
  lemma ConnectUsesOnePair(e: Edges, n: nat, i: int, j: int)
    requires WellFormed(e, n) && Candidate(e, n, i, j)
    ensures WellFormed(e + {(i, j)}, n)
    ensures |Unconnected(e + {(i, j)}, n)| == |Unconnected(e, n)| - 1
  {
    var pair := if i < j then (i, j) else (j, i);
    UnconnectedAfter(e, n, i, j, pair);
    assert pair in Unconnected(e, n);
  }

  lemma UnconnectedAfter(e: Edges, n: nat, i: int, j: int, pair: (int, int))
    requires pair == (i, j) || pair == (j, i)
    requires pair.0 < pair.1
    ensures Unconnected(e + {(i, j)}, n) == Unconnected(e, n) - {pair}
  {
    forall k, l ensures (k, l) in Unconnected(e + {(i, j)}, n) <==> (k, l) in Unconnected(e, n) - {pair} {
      if 0 <= k < l < n {
        assert Adjacent(e + {(i, j)}, k, l) <==> Adjacent(e, k, l) || (k, l) == pair;
      }
    }
  }

  /** While some pair has fewer than n - 1 paths, some connection may still be made. */
  lemma CandidateExists(e: Edges, n: nat, i: int, j: int)
    requires InRange(n, i) && InRange(n, j) && i != j && Paths(e, n, i, j) < n - 1
    ensures exists k, l :: Candidate(e, n, k, l)
  {
    if forall k, l :: InRange(n, k) && InRange(n, l) && k != l ==> Adjacent(e, k, l) {
      PathsBound(e, n, i, j);
    } else {
      var k, l :| InRange(n, k) && InRange(n, l) && k != l && !Adjacent(e, k, l);
      assert Candidate(e, n, k, l);
    }
  }

  function MinConnections(n: nat): nat {
    if n <= 10 then 4 else 2
  }

  /** The target is in reach of some graph exactly from five nodes on. */
  lemma TargetReachableIff(n: nat)
    requires n >= 2
    ensures (exists e: Edges :: AllPathsAtLeast(e, n, MinConnections(n))) <==> n >= 5
  {
    if e: Edges :| AllPathsAtLeast(e, n, MinConnections(n)) {
      PathsBound(e, n, 0, 1);
      assert Paths(e, n, 0, 1) >= MinConnections(n);
    }
    if n >= 5 {
      var all := PairsUpTo(n);
      forall i, j | 0 <= i < j < n ensures Paths(all, n, i, j) >= MinConnections(n) {
        assert forall k, l :: InRange(n, k) && InRange(n, l) && k != l ==> Adjacent(all, k, l);
        PathsBound(all, n, i, j);
      }
      assert AllPathsAtLeast(all, n, MinConnections(n));
    }
  }
}
