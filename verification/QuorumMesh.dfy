/** The greedy construction of a quorum mesh, in place on its connection matrix. */
module QuorumMesh {
  import opened Wrappers
  import opened QuorumGraph

  /** The pairs before (row, col), counted row by row, with at most t paths. */
  ghost function WithinBefore(e: Edges, n: nat, t: nat, row: int, col: int): set<(int, int)> {
    set i, j | 0 <= i < n && i < j < n && Precedes(i, j, row, col) && Paths(e, n, i, j) <= t :: (i, j)
  }

  lemma WithinBeforeStep(e: Edges, n: nat, t: nat, row: int, col: int)
    requires 0 <= row < col < n
    ensures |WithinBefore(e, n, t, row, col + 1)|
      == |WithinBefore(e, n, t, row, col)| + (if Paths(e, n, row, col) <= t then 1 else 0)
  {
    var before, after := WithinBefore(e, n, t, row, col), WithinBefore(e, n, t, row, col + 1);
    var extra := if Paths(e, n, row, col) <= t then {(row, col)} else {};
    forall i, j ensures (i, j) in after <==> (i, j) in before + extra {
      assert Precedes(i, j, row, col + 1) <==> Precedes(i, j, row, col) || (i, j) == (row, col);
    }
    assert after == before + extra;
    assert (row, col) !in before;
  }

  /** The number of pairs with at most t paths whose first node is below `rows`. */
  ghost function CountInRows(e: Edges, n: nat, t: nat, rows: int): nat {
    |set i, j | 0 <= i < n && i < j < n && i < rows && Paths(e, n, i, j) <= t :: (i, j)|
  }

  lemma RowEnds(e: Edges, n: nat, t: nat, row: int)
    requires 0 <= row < n
    ensures |WithinBefore(e, n, t, row, row + 1)| == CountInRows(e, n, t, row)
    ensures |WithinBefore(e, n, t, row, n)| == CountInRows(e, n, t, row + 1)
  {
    var before := set i, j | 0 <= i < n && i < j < n && i < row && Paths(e, n, i, j) <= t :: (i, j);
    var after := set i, j | 0 <= i < n && i < j < n && i < row + 1 && Paths(e, n, i, j) <= t :: (i, j);
    assert WithinBefore(e, n, t, row, row + 1) == before;
    assert WithinBefore(e, n, t, row, n) == after;
  }

  lemma CountEnds(e: Edges, n: nat, t: nat)
    ensures CountInRows(e, n, t, 0) == 0
    ensures CountInRows(e, n, t, n) == |PairsWithin(e, n, t)|
  {
    var none := set i, j | 0 <= i < n && i < j < n && i < 0 && Paths(e, n, i, j) <= t :: (i, j);
    var all := set i, j | 0 <= i < n && i < j < n && i < n && Paths(e, n, i, j) <= t :: (i, j);
    assert none == {};
    assert all == PairsWithin(e, n, t);
  }

  /** The nodes that give a path from i to j: i itself when adjacent, and the common neighbours. */
  lemma PathsBySteps(e: Edges, n: nat, i: int, j: int, steps: set<int>)
    requires InRange(n, i) && i != j
    requires forall m :: m in steps <==> InRange(n, m) && m != j && Adjacent(e, m, j) && (m == i || Adjacent(e, m, i))
    ensures |steps| == Paths(e, n, i, j)
  {
    if Adjacent(e, i, j) {
      assert steps == Common(e, n, i, j) + {i};
    } else {
      assert steps == Common(e, n, i, j);
    }
  }

  /** The best connection found so far, with its score. */
  datatype Trial = Trial(i: int, j: int, score: Score)

  /** All candidates before (row, col) were tried: either there was none and the trial is the
      placeholder (0, 0), or the trial is the first best of them. */
  ghost predicate Scanned(e: Edges, n: nat, t: nat, start: nat, best: Trial, row: int, col: int) {
    || (&& best == Trial(0, 0, Score(n + n, start))
        && forall k, l :: Candidate(e, n, k, l) ==> !Precedes(k, l, row, col))
    || (&& best.score == ScoreOf(e, n, t, best.i, best.j)
        && BestBefore(e, n, t, best.i, best.j, row, col))
  }

  lemma ScanSkip(e: Edges, n: nat, t: nat, start: nat, best: Trial, row: int, col: int)
    requires Scanned(e, n, t, start, best, row, col) && !Candidate(e, n, row, col)
    ensures Scanned(e, n, t, start, best, row, col + 1)
  {
    assert forall k, l :: Precedes(k, l, row, col + 1) <==> Precedes(k, l, row, col) || (k, l) == (row, col);
  }

  lemma PrecedesNext(row: int, col: int, k: int, l: int)
    ensures Precedes(k, l, row, col + 1) <==> Precedes(k, l, row, col) || (k == row && l == col)
  {
  }

  lemma LessThanRest(a: Score, b: Score, c: Score)
    requires a.Less(b) && !c.Less(b)
    ensures a.Less(c) && !c.Less(a)
  {
  }

  lemma ScanBetter(e: Edges, n: nat, t: nat, start: nat, best: Trial, row: int, col: int)
    requires WellFormed(e, n) && Scanned(e, n, t, start, best, row, col) && Candidate(e, n, row, col)
    requires ScoreOf(e, n, t, row, col).Less(best.score)
    ensures Scanned(e, n, t, start, Trial(row, col, ScoreOf(e, n, t, row, col)), row, col + 1)
  {
    var c := ScoreOf(e, n, t, row, col);
    forall k, l | Candidate(e, n, k, l) && Precedes(k, l, row, col)
      ensures c.Less(ScoreOf(e, n, t, k, l)) && !ScoreOf(e, n, t, k, l).Less(c)
    {
      LessThanRest(c, best.score, ScoreOf(e, n, t, k, l));
    }
    forall k, l | Candidate(e, n, k, l) && Precedes(k, l, row, col + 1) ensures !ScoreOf(e, n, t, k, l).Less(c) {
      PrecedesNext(row, col, k, l);
    }
    assert BestBefore(e, n, t, row, col, row, col + 1);
  }

  lemma ScanNoBetter(e: Edges, n: nat, t: nat, start: nat, best: Trial, row: int, col: int)
    requires WellFormed(e, n) && Scanned(e, n, t, start, best, row, col) && Candidate(e, n, row, col)
    requires !ScoreOf(e, n, t, row, col).Less(best.score)
    ensures Scanned(e, n, t, start, best, row, col + 1)
  {
    CandidateBeatsStart(e, n, t, row, col, start);
    assert BestBefore(e, n, t, best.i, best.j, row, col);
    forall k, l | Candidate(e, n, k, l) && Precedes(k, l, row, col + 1)
      ensures !ScoreOf(e, n, t, k, l).Less(ScoreOf(e, n, t, best.i, best.j))
    {
      PrecedesNext(row, col, k, l);
    }
    assert BestBefore(e, n, t, best.i, best.j, row, col + 1);
  }

  lemma ScanNextRow(e: Edges, n: nat, t: nat, start: nat, best: Trial, row: int)
    requires Scanned(e, n, t, start, best, row, n)
    ensures Scanned(e, n, t, start, best, row + 1, 0)
  {
  }

  class Mesh {
    const nodes: nat
    const conns: array2<int>

    ghost predicate Valid()
      reads conns
    {
      && conns.Length0 == nodes
      && conns.Length1 == nodes
      && forall i, j :: 0 <= i < nodes && 0 <= j < nodes ==> conns[i, j] == 0 || conns[i, j] == 1
    }

    ghost function Connections(): (e: Edges)
      requires Valid()
      reads conns
      ensures forall i, j :: (i, j) in e <==> 0 <= i < nodes && 0 <= j < nodes && conns[i, j] == 1
    {
      set i, j | 0 <= i < nodes && 0 <= j < nodes && conns[i, j] == 1 :: (i, j)
    }

    constructor (n: nat)
      ensures nodes == n && fresh(conns)
      ensures Valid() && Connections() == {}
    {
      nodes := n;
      conns := new int[n, n]((i, j) => 0);
    }

    method AreAdjacent(i: int, j: int) returns (yes: bool)
      requires Valid() && InRange(nodes, i) && InRange(nodes, j)
      ensures yes <==> Adjacent(Connections(), i, j)
    {
      yes := conns[i, j] > 0 || conns[j, i] > 0;
    }

    method NeighboursOf(j: int) returns (list: seq<int>)
      requires Valid() && InRange(nodes, j)
      ensures forall k, l :: 0 <= k < l < |list| ==> list[k] < list[l]
      ensures forall m :: m in list <==> InRange(nodes, m) && m != j && Adjacent(Connections(), m, j)
    {
      list := [];
      for r := 0 to j
        invariant forall k, l :: 0 <= k < l < |list| ==> list[k] < list[l]
        invariant forall k :: 0 <= k < |list| ==> list[k] < r
        invariant forall m :: m in list <==> 0 <= m < r && Adjacent(Connections(), m, j)
      {
        var adjacent := AreAdjacent(r, j);
        if adjacent {
          list := list + [r];
        }
      }
      for c := j + 1 to nodes
        invariant forall k, l :: 0 <= k < l < |list| ==> list[k] < list[l]
        invariant forall k :: 0 <= k < |list| ==> list[k] < c
        invariant forall m :: m in list <==> 0 <= m < c && m != j && Adjacent(Connections(), m, j)
      {
        var adjacent := AreAdjacent(c, j);
        if adjacent {
          list := list + [c];
        }
      }
    }

    method CountPathsWithinTwo(a: int, b: int) returns (paths: nat)
      requires Valid() && InRange(nodes, a) && InRange(nodes, b) && a != b
      ensures paths == Paths(Connections(), nodes, a, b)
    {
      var i, j := a, b;
      if i > j {
        i, j := j, i;
        PathsSymmetric(Connections(), nodes, a, b);
      }
      paths := 0;
      var neighbours := NeighboursOf(j);
      ghost var steps: set<int> := {};
      for k := 0 to |neighbours|
        invariant paths == |steps|
        invariant forall m :: m in steps <==> m in neighbours[..k] && (m == i || Adjacent(Connections(), m, i))
      {
        var n := neighbours[k];
        var adjacent := AreAdjacent(n, i);
        assert n !in neighbours[..k];
        assert neighbours[..k + 1] == neighbours[..k] + [n];
        if n == i || adjacent {
          paths := paths + 1;
          steps := steps + {n};
        }
      }
      assert neighbours[..|neighbours|] == neighbours;
      PathsBySteps(Connections(), nodes, i, j, steps);
    }

    /** The fewest paths among the pairs before (row, col), nothing when there is none. */
    static ghost predicate LeastBefore(e: Edges, n: nat, m: Option<nat>, row: int, col: int) {
      match m
      case None => forall k, l :: 0 <= k < l < n ==> !Precedes(k, l, row, col)
      case Some(least) =>
        && (exists k, l :: 0 <= k < l < n && Paths(e, n, k, l) == least)
        && forall k, l :: 0 <= k < l < n && Precedes(k, l, row, col) ==> Paths(e, n, k, l) >= least
    }

    /** Nothing when there is no pair of nodes. */
    method MinWithinTwo() returns (m: Option<nat>)
      requires Valid()
      ensures m.None? <==> nodes < 2
      ensures m.Some? ==> IsMinPaths(Connections(), nodes, m.value)
    {
      m := None;
      ghost var e := Connections();
      for i := 0 to nodes
        invariant LeastBefore(e, nodes, m, i, i + 1)
      {
        for j := i + 1 to nodes
          invariant LeastBefore(e, nodes, m, i, j)
        {
          var c := CountPathsWithinTwo(i, j);
          LeastStep(e, nodes, m, c, i, j);
          if m.None? || c < m.value {
            m := Some(c);
          }
        }
        LeastNextRow(e, nodes, m, i, i + 1, i + 2);
      }
      if nodes >= 2 {
        assert Precedes(0, 1, nodes, nodes + 1);
      }
    }

    static lemma LeastNextRow(e: Edges, n: nat, m: Option<nat>, row: int, next: int, col: int)
      requires LeastBefore(e, n, m, row, n) && next == row + 1 && col == row + 2
      ensures LeastBefore(e, n, m, next, col)
    {
      match m
      case None =>
        forall k, l | 0 <= k < l < n ensures !Precedes(k, l, next, col) {
          assert !Precedes(k, l, row, n);
        }
      case Some(least) =>
        forall k, l | 0 <= k < l < n && Precedes(k, l, next, col) ensures Paths(e, n, k, l) >= least {
          assert Precedes(k, l, row, n);
        }
    }

    static lemma LeastStep(e: Edges, n: nat, m: Option<nat>, c: nat, row: int, col: int)
      requires LeastBefore(e, n, m, row, col) && 0 <= row < col < n && c == Paths(e, n, row, col)
      ensures LeastBefore(e, n, if m.None? || c < m.value then Some(c) else m, row, col + 1)
    {
      assert forall k, l :: Precedes(k, l, row, col + 1) <==> Precedes(k, l, row, col) || (k, l) == (row, col);
    }

    method CountNotWithinTwo(minPaths: nat) returns (c: nat)
      requires Valid()
      ensures c == |PairsWithin(Connections(), nodes, minPaths)|
    {
      c := 0;
      CountEnds(Connections(), nodes, minPaths);
      for i := 0 to nodes
        invariant c == CountInRows(Connections(), nodes, minPaths, i)
      {
        c := CountRowNotWithinTwo(i, minPaths, c);
      }
    }

    /** Counts on through one row. */
    method CountRowNotWithinTwo(i: int, minPaths: nat, before: nat) returns (c: nat)
      requires Valid() && InRange(nodes, i)
      requires before == CountInRows(Connections(), nodes, minPaths, i)
      ensures c == CountInRows(Connections(), nodes, minPaths, i + 1)
    {
      c := before;
      RowEnds(Connections(), nodes, minPaths, i);
      for j := i + 1 to nodes
        invariant c == |WithinBefore(Connections(), nodes, minPaths, i, j)|
      {
        var paths := CountPathsWithinTwo(i, j);
        WithinBeforeStep(Connections(), nodes, minPaths, i, j);
        if paths <= minPaths {
          c := c + 1;
        }
      }
    }

    method CountOutgoing(i: int) returns (sum: nat)
      requires Valid() && InRange(nodes, i)
      ensures sum == |Outgoing(Connections(), nodes, i)|
    {
      sum := 0;
      ghost var seen: set<int> := {};
      for j := 0 to nodes
        invariant sum == |seen|
        invariant forall k :: k in seen <==> 0 <= k < j && (i, k) in Connections()
      {
        if conns[i, j] == 1 {
          seen := seen + {j};
        }
        sum := sum + conns[i, j];
      }
      assert seen == Outgoing(Connections(), nodes, i);
    }

    method CountIncoming(j: int) returns (sum: nat)
      requires Valid() && InRange(nodes, j)
      ensures sum == |Incoming(Connections(), nodes, j)|
    {
      sum := 0;
      ghost var seen: set<int> := {};
      for k := 0 to nodes
        invariant sum == |seen|
        invariant forall i :: i in seen <==> 0 <= i < k && (i, j) in Connections()
      {
        if conns[k, j] == 1 {
          seen := seen + {k};
        }
        sum := sum + conns[k, j];
      }
      assert seen == Incoming(Connections(), nodes, j);
    }

    method Connect(i: int, j: int)
      requires Valid() && InRange(nodes, i) && InRange(nodes, j)
      modifies conns
      ensures Valid() && Connections() == old(Connections()) + {(i, j)}
    {
      conns[i, j] := 1;
    }

    method Disconnect(i: int, j: int)
      requires Valid() && InRange(nodes, i) && InRange(nodes, j)
      modifies conns
      ensures Valid() && Connections() == old(Connections()) - {(i, j)}
    {
      conns[i, j] := 0;
    }

    /** Makes the connection, counts what it leaves, and takes it back. */
    method Try(i: int, j: int, minPaths: nat) returns (left: nat)
      requires Valid() && Candidate(Connections(), nodes, i, j)
      modifies conns
      ensures Valid() && Connections() == old(Connections())
      ensures left == |PairsWithin(old(Connections()) + {(i, j)}, nodes, minPaths)|
    {
      Connect(i, j);
      left := CountNotWithinTwo(minPaths);
      Disconnect(i, j);
      assert old(Connections()) + {(i, j)} - {(i, j)} == old(Connections());
    }

    /** Tries one connection, if it is a candidate, against the best so far. */
    method Consider(i: int, j: int, outgoing: nat, minPaths: nat, start: nat, before: Trial) returns (best: Trial)
      requires Valid() && WellFormed(Connections(), nodes) && InRange(nodes, i) && InRange(nodes, j)
      requires outgoing == |Outgoing(Connections(), nodes, i)|
      requires Scanned(Connections(), nodes, minPaths, start, before, i, j)
      modifies conns
      ensures Valid() && Connections() == old(Connections())
      ensures Scanned(Connections(), nodes, minPaths, start, best, i, j + 1)
    {
      ghost var e := Connections();
      best := before;
      var incoming := CountIncoming(j);
      var adjacent := AreAdjacent(i, j);
      if i == j || adjacent {
        ScanSkip(e, nodes, minPaths, start, best, i, j);
        return;
      }
      var left := Try(i, j, minPaths);
      var c := Score(outgoing + 1 + incoming + 1, left);
      assert c == ScoreOf(e, nodes, minPaths, i, j);
      if c.Less(best.score) {
        ScanBetter(e, nodes, minPaths, start, best, i, j);
        best := Trial(i, j, c);
      } else {
        ScanNoBetter(e, nodes, minPaths, start, best, i, j);
      }
    }

    /** Tries the candidates of one row. */
    method ScanRow(i: int, minPaths: nat, start: nat, before: Trial) returns (best: Trial)
      requires Valid() && WellFormed(Connections(), nodes) && InRange(nodes, i)
      requires Scanned(Connections(), nodes, minPaths, start, before, i, 0)
      modifies conns
      ensures Valid() && Connections() == old(Connections())
      ensures Scanned(Connections(), nodes, minPaths, start, best, i + 1, 0)
    {
      ghost var e := Connections();
      best := before;
      var outgoing := CountOutgoing(i);
      for j := 0 to nodes
        invariant Valid() && Connections() == e
        invariant Scanned(e, nodes, minPaths, start, best, i, j)
      {
        best := Consider(i, j, outgoing, minPaths, start, best);
      }
      ScanNextRow(e, nodes, minPaths, start, best, i);
    }

    /** The first best candidate; (0, 0) would only be left over if there were none. */
    method ChooseBest(minPaths: nat) returns (bi: int, bj: int)
      requires Valid() && WellFormed(Connections(), nodes)
      modifies conns
      ensures Valid() && Connections() == old(Connections())
      ensures (exists k, l :: Candidate(Connections(), nodes, k, l)) ==>
        && Best(Connections(), nodes, minPaths, bi, bj)
        && FewestEndsThenPairs(Connections(), nodes, minPaths, bi, bj)
    {
      ghost var e := Connections();
      var start := CountNotWithinTwo(minPaths);
      var best := Trial(0, 0, Score(nodes + nodes, start));
      for i := 0 to nodes
        invariant Valid() && Connections() == e
        invariant Scanned(e, nodes, minPaths, start, best, i, 0)
      {
        best := ScanRow(i, minPaths, start, best);
      }
      bi, bj := best.i, best.j;
      BestMeans(e, nodes, minPaths, bi, bj);
    }

    /** Makes the best connection. */
    method Improve(minPaths: nat) returns (c: (int, int), least: nat)
      requires nodes >= 5 && Valid() && WellFormed(Connections(), nodes)
      requires IsMinPaths(Connections(), nodes, minPaths) && minPaths < MinConnections(nodes)
      modifies conns
      ensures Valid() && WellFormed(Connections(), nodes)
      ensures Best(old(Connections()), nodes, minPaths, c.0, c.1)
      ensures Connections() == old(Connections()) + {c}
      ensures |Unconnected(Connections(), nodes)| == |Unconnected(old(Connections()), nodes)| - 1
      ensures IsMinPaths(Connections(), nodes, least)
    {
      MoreToConnect(Connections(), nodes, minPaths);
      var bi, bj := ChooseBest(minPaths);
      ConnectUsesOnePair(Connections(), nodes, bi, bj);
      Connect(bi, bj);
      var m := MinWithinTwo();
      c, least := (bi, bj), m.value;
    }

    /** Connects until every two nodes have the required number of paths. */
    method ConnectAll() returns (chosen: seq<(int, int)>, minima: seq<nat>)
      requires nodes >= 5 && Valid() && Connections() == {}
      modifies conns
      ensures Valid() && WellFormed(Connections(), nodes)
      ensures GreedyRun(nodes, chosen, minima)
      ensures Connections() == EdgesOf(chosen)
      ensures AllPathsAtLeast(Connections(), nodes, MinConnections(nodes))
    {
      var target := MinConnections(nodes);
      var minPaths: nat := 0;
      chosen, minima := [], [0];
      StartOfRun(nodes);
      while minPaths < target
        invariant Valid() && WellFormed(Connections(), nodes)
        invariant Connections() == EdgesOf(chosen)
        invariant GreedyRun(nodes, chosen, minima) && minima[|chosen|] == minPaths
        invariant IsMinPaths(Connections(), nodes, minPaths)
        decreases |Unconnected(Connections(), nodes)|
      {
        var c, least := Improve(minPaths);
        GreedyStep(nodes, chosen, minima, c, least);
        chosen, minima, minPaths := chosen + [c], minima + [least], least;
      }
    }

    /** The finished mesh: fewer nodes than the required number of connections can drop out, and
        any two others still reach each other within two hops. */
    method Build() returns (chosen: seq<(int, int)>, minima: seq<nat>)
      requires nodes >= 5 && Valid() && Connections() == {}
      modifies conns
      ensures Valid() && WellFormed(Connections(), nodes)
      ensures GreedyRun(nodes, chosen, minima) && Connections() == EdgesOf(chosen)
      ensures |chosen| <= nodes * (nodes - 1) / 2
      ensures var required := if nodes <= 10 then 4 else 2;
        && (forall removed: set<int> :: |removed| < required ==> Survives(Connections(), nodes, removed))
        && (forall j :: InRange(nodes, j) ==> |Neighbours(Connections(), nodes, j)| >= required)
    {
      chosen, minima := ConnectAll();
      RunLength(nodes, chosen, minima);
      FinishedMeshIsFaultTolerant(nodes, Connections());
    }
  }

  lemma MoreToConnect(e: Edges, n: nat, m: nat)
    requires n >= 5 && m < MinConnections(n) && IsMinPaths(e, n, m)
    ensures exists k, l :: Candidate(e, n, k, l)
  {
    var i, j :| 0 <= i < j < n && Paths(e, n, i, j) == m;
    CandidateExists(e, n, i, j);
  }

  // ----- The run as a whole

  ghost function EdgesOf(chosen: seq<(int, int)>): Edges {
    set c | c in chosen
  }

  /** One pass: the connection is the best one for the graph before it, and the minimum after
      it is no lower. */
  ghost predicate GreedyPass(n: nat, before: seq<(int, int)>, m: nat, c: (int, int), m': nat) {
    && m < MinConnections(n)
    && Best(EdgesOf(before), n, m, c.0, c.1)
    && IsMinPaths(EdgesOf(before) + {c}, n, m')
    && m <= m'
  }

  /** The passes from an empty graph, with the minimum before, between and after them. */
  ghost predicate GreedyRun(n: nat, chosen: seq<(int, int)>, minima: seq<nat>) {
    && |minima| == |chosen| + 1
    && minima[0] == 0
    && forall k :: 0 <= k < |chosen| ==> GreedyPass(n, chosen[..k], minima[k], chosen[k], minima[k + 1])
  }

  lemma StartOfRun(n: nat)
    requires n >= 2
    ensures Unconnected({}, n) == PairsUpTo(n)
    ensures EdgesOf([]) == {} && WellFormed({}, n) && IsMinPaths({}, n, 0) && GreedyRun(n, [], [0])
  {
    NoPathsAtFirst(n);
  }

  lemma EdgesSnoc(chosen: seq<(int, int)>, k: nat)
    requires k < |chosen|
    ensures EdgesOf(chosen[..k + 1]) == EdgesOf(chosen[..k]) + {chosen[k]}
  {
    assert chosen[..k + 1] == chosen[..k] + [chosen[k]];
  }

  lemma PassUsesPair(n: nat, chosen: seq<(int, int)>, minima: seq<nat>, k: nat)
    requires GreedyRun(n, chosen, minima) && k < |chosen| && WellFormed(EdgesOf(chosen[..k]), n)
    ensures WellFormed(EdgesOf(chosen[..k + 1]), n)
    ensures |Unconnected(EdgesOf(chosen[..k + 1]), n)| == |Unconnected(EdgesOf(chosen[..k]), n)| - 1
  {
    assert GreedyPass(n, chosen[..k], minima[k], chosen[k], minima[k + 1]);
    ConnectUsesOnePair(EdgesOf(chosen[..k]), n, chosen[k].0, chosen[k].1);
    EdgesSnoc(chosen, k);
  }

  /** Each pass uses up one pair. */
  lemma {:induction false} PairsUsedUp(n: nat, chosen: seq<(int, int)>, minima: seq<nat>, k: nat)
    requires n >= 2 && GreedyRun(n, chosen, minima) && k <= |chosen|
    ensures WellFormed(EdgesOf(chosen[..k]), n)
    ensures k + |Unconnected(EdgesOf(chosen[..k]), n)| == |PairsUpTo(n)|
  {
    if k == 0 {
      StartOfRun(n);
      assert chosen[..0] == [];
    } else {
      PairsUsedUp(n, chosen, minima, k - 1);
      PassUsesPair(n, chosen, minima, k - 1);
    }
  }

  /** A run makes at most n(n-1)/2 connections. */
  lemma {:induction false} RunLength(n: nat, chosen: seq<(int, int)>, minima: seq<nat>)
    requires n >= 2 && GreedyRun(n, chosen, minima)
    ensures |chosen| <= n * (n - 1) / 2
  {
    PairsUsedUp(n, chosen, minima, |chosen|);
    PairsSize(n);
  }

  lemma GreedyStep(n: nat, chosen: seq<(int, int)>, minima: seq<nat>, c: (int, int), least: nat)
    requires GreedyRun(n, chosen, minima) && minima[|chosen|] < MinConnections(n)
    requires IsMinPaths(EdgesOf(chosen), n, minima[|chosen|])
    requires Best(EdgesOf(chosen), n, minima[|chosen|], c.0, c.1)
    requires IsMinPaths(EdgesOf(chosen) + {c}, n, least)
    ensures GreedyRun(n, chosen + [c], minima + [least])
    ensures EdgesOf(chosen + [c]) == EdgesOf(chosen) + {c}
  {
    var chosen', minima' := chosen + [c], minima + [least];
    MinPathsMonotone(EdgesOf(chosen), EdgesOf(chosen) + {c}, n, minima[|chosen|], least);
    forall k | 0 <= k < |chosen'| ensures GreedyPass(n, chosen'[..k], minima'[k], chosen'[k], minima'[k + 1]) {
      assert chosen'[..k] == chosen[..k];
      if k < |chosen| {
        assert GreedyPass(n, chosen[..k], minima[k], chosen[k], minima[k + 1]);
      } else {
        assert chosen[..k] == chosen;
      }
    }
  }

  /** Where a finished run leaves the quorum: any fewer than the required number of nodes can
      drop out, and any two others still reach each other within two hops. */
  lemma {:induction false} FinishedMeshIsFaultTolerant(n: nat, e: Edges)
    requires n >= 5 && AllPathsAtLeast(e, n, MinConnections(n))
    ensures forall removed: set<int> :: |removed| < MinConnections(n) ==> Survives(e, n, removed)
    ensures forall j :: InRange(n, j) ==> |Neighbours(e, n, j)| >= MinConnections(n)
  {
    forall removed: set<int> | |removed| < MinConnections(n) ensures Survives(e, n, removed) {
      FaultTolerance(e, n, MinConnections(n), removed);
    }
    Degrees(e, n, MinConnections(n));
  }
}
