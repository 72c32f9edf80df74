/**
 * The window of recent timestamps and cumulative difficulties, kept from one height to the
 * next or rebuilt from the chain, and the caller that remembers the height it is good for.
 */
module DifficultyWindow {

  const DIFFICULTY_WINDOW: nat := 59
  const MIN_CHAIN_HEIGHT: nat := 2

  function BlocksCount(beforeHf16: bool): nat {
    if beforeHf16 then DIFFICULTY_WINDOW + 2 else DIFFICULTY_WINDOW + 1
  }

  datatype BlockStat = BlockStat(timestamp: nat, difficulty: nat)

  datatype Vectors = Vectors(timestamps: seq<nat>, difficulties: seq<nat>)

  /** Both vectors, read off the same blocks. */
  function VectorsOf(blocks: seq<BlockStat>): (v: Vectors)
    ensures |v.timestamps| == |v.difficulties| == |blocks|
    ensures forall i :: 0 <= i < |blocks| ==>
      v.timestamps[i] == blocks[i].timestamp && v.difficulties[i] == blocks[i].difficulty
  {
    Vectors(seq(|blocks|, i requires 0 <= i < |blocks| => blocks[i].timestamp),
            seq(|blocks|, i requires 0 <= i < |blocks| => blocks[i].difficulty))
  }

  function StartHeight(height: nat, count: nat): nat {
    var start := if height < count then 0 else height - count;
    if start < 1 then 1 else start
  }

  /** The blocks a window at `height` consists of: the last `count` below it, genesis excluded. */
  function Window(chain: seq<BlockStat>, height: nat, count: nat): seq<BlockStat>
    requires height <= |chain| && count > 0
  {
    if height == 0 then [] else chain[StartHeight(height, count)..height]
  }

  function LastOf(s: seq<nat>, n: nat): seq<nat> {
    if |s| <= n then s else s[|s| - n..]
  }

  /** Whether the update keeps what it was given. */
  predicate Reuses(height: nat, cached: nat, count: nat, v: Vectors) {
    cached != 0 && height - cached == 1 && |v.timestamps| <= count && |v.difficulties| <= count
  }

  /** The vectors before the top block goes in: those given, or the blocks from scratch. */
  function Kept(chain: seq<BlockStat>, height: nat, cached: nat, count: nat, v: Vectors): Vectors
    requires MIN_CHAIN_HEIGHT <= height <= |chain| && count > 0
  {
    if Reuses(height, cached, count, v) then v
    else VectorsOf(chain[StartHeight(height, count)..height - 1])
  }

  /** Pushes a block onto both vectors and drops the oldest entries beyond `count`. */
  function Appended(v: Vectors, top: BlockStat, count: nat): Vectors {
    Vectors(LastOf(v.timestamps + [top.timestamp], count), LastOf(v.difficulties + [top.difficulty], count))
  }

  function Fill(chain: seq<BlockStat>, height: nat, cached: nat, count: nat, v: Vectors): Vectors
    requires height <= |chain| && count > 0
  {
    if height < MIN_CHAIN_HEIGHT then v
    else Appended(Kept(chain, height, cached, count, v), chain[height - 1], count)
  }

  /** What the caller must hand in for the kept vectors to be worth keeping. */
  predicate Usable(chain: seq<BlockStat>, height: nat, cached: nat, count: nat, v: Vectors)
    requires cached <= |chain| && count > 0
  {
    cached != 0 && height == cached + 1 ==> v == VectorsOf(Window(chain, cached, count))
  }

  lemma VectorsDrop(blocks: seq<BlockStat>, cut: nat)
    requires cut <= |blocks|
    ensures VectorsOf(blocks[cut..]).timestamps == VectorsOf(blocks).timestamps[cut..]
    ensures VectorsOf(blocks[cut..]).difficulties == VectorsOf(blocks).difficulties[cut..]
  {
  }

  lemma TrimmedSlice(chain: seq<BlockStat>, from: nat, height: nat, count: nat, start: nat)
    requires from < height <= |chain| && count > 0
    requires start == if height - from <= count then from else height - count
    ensures var all, w := VectorsOf(chain[from..height]), VectorsOf(chain[start..height]);
      LastOf(all.timestamps, count) == w.timestamps && LastOf(all.difficulties, count) == w.difficulties
  {
    if height - from > count {
      var blocks, cut := chain[from..height], start - from;
      assert blocks[cut..] == chain[start..height];
      VectorsDrop(blocks, cut);
    }
  }

  /** Pushing the top block after blocks from..height-1 and trimming to the last `count`. */
  lemma PushAndTrim(chain: seq<BlockStat>, from: nat, height: nat, count: nat)
    requires from < height <= |chain| && count > 0
    ensures var start := if height - from <= count then from else height - count;
      Appended(VectorsOf(chain[from..height - 1]), chain[height - 1], count) == VectorsOf(chain[start..height])
  {
    var start := if height - from <= count then from else height - count;
    var v, top, all := VectorsOf(chain[from..height - 1]), chain[height - 1], VectorsOf(chain[from..height]);
    VectorsSnoc(chain, from, height - 1);
    assert all.timestamps == v.timestamps + [top.timestamp];
    assert all.difficulties == v.difficulties + [top.difficulty];
    TrimmedSlice(chain, from, height, count, start);
  }

  /** Kept or rebuilt, the result is the window, also where the count changes in between. */
  lemma FillIsWindow(chain: seq<BlockStat>, height: nat, cached: nat, before16: bool, before16Last: bool, v: Vectors)
    requires MIN_CHAIN_HEIGHT <= height <= |chain| && cached <= |chain|
    requires Usable(chain, height, cached, BlocksCount(before16Last), v)
    ensures Fill(chain, height, cached, BlocksCount(before16), v)
      == VectorsOf(Window(chain, height, BlocksCount(before16)))
  {
    var count := BlocksCount(before16);
    if Reuses(height, cached, count, v) {
      PushAndTrim(chain, StartHeight(cached, BlocksCount(before16Last)), height, count);
    } else {
      PushAndTrim(chain, StartHeight(height, count), height, count);
    }
  }

  // ----- The window in numbers

  /** How many blocks a window at this height has: all above genesis, but at most 61 before hard
      fork 16 and at most 60 from it on. */
  function Entries(height: nat, beforeHf16: bool): nat
    requires height >= 1
  {
    var most := if beforeHf16 then 61 else 60;
    if height - 1 < most then height - 1 else most
  }

  /** The entries are those of the blocks just below the height, oldest first. */
  predicate HoldsLast(v: Vectors, chain: seq<BlockStat>, height: nat, size: nat)
    requires size <= height <= |chain|
  {
    && |v.timestamps| == |v.difficulties| == size
    && (forall i :: 0 <= i < size ==> v.timestamps[i] == chain[height - size + i].timestamp)
    && (forall i :: 0 <= i < size ==> v.difficulties[i] == chain[height - size + i].difficulty)
  }

  lemma WindowInNumbers(chain: seq<BlockStat>, height: nat, before16: bool)
    requires 1 <= height <= |chain|
    ensures Window(chain, height, BlocksCount(before16)) == chain[height - Entries(height, before16)..height]
  {
  }

  lemma EntriesAt(chain: seq<BlockStat>, height: nat, size: nat)
    requires size <= height <= |chain|
    ensures HoldsLast(VectorsOf(chain[height - size..height]), chain, height, size)
  {
    var blocks := chain[height - size..height];
    assert forall i :: 0 <= i < size ==> blocks[i] == chain[height - size + i];
  }

  lemma SameEntries(v: Vectors, u: Vectors, chain: seq<BlockStat>, height: nat, size: nat)
    requires size <= height <= |chain| && HoldsLast(v, chain, height, size) && HoldsLast(u, chain, height, size)
    ensures v == u
  {
    assert v.timestamps == u.timestamps;
    assert v.difficulties == u.difficulties;
  }

  lemma {:induction false} WindowHoldsLast(chain: seq<BlockStat>, height: nat, before16: bool, v: Vectors)
    requires 1 <= height <= |chain|
    ensures v == VectorsOf(Window(chain, height, BlocksCount(before16))) <==>
      HoldsLast(v, chain, height, Entries(height, before16))
  {
    var size := Entries(height, before16);
    WindowInNumbers(chain, height, before16);
    EntriesAt(chain, height, size);
    if HoldsLast(v, chain, height, size) {
      SameEntries(v, VectorsOf(chain[height - size..height]), chain, height, size);
    }
  }

  /** Kept or rebuilt, an update at a height above genesis leaves the entries of the last 61 or
      60 blocks. */
  lemma {:induction false} FillHoldsLast(chain: seq<BlockStat>, height: nat, cached: nat, before16: bool,
                                         before16Last: bool, v: Vectors)
    requires MIN_CHAIN_HEIGHT <= height <= |chain| && cached <= |chain|
    requires cached != 0 && height == cached + 1 ==> HoldsLast(v, chain, cached, Entries(cached, before16Last))
    ensures HoldsLast(Fill(chain, height, cached, BlocksCount(before16), v), chain, height, Entries(height, before16))
  {
    if cached != 0 {
      WindowHoldsLast(chain, cached, before16Last, v);
    }
    FillIsWindow(chain, height, cached, before16, before16Last, v);
    WindowHoldsLast(chain, height, before16, Fill(chain, height, cached, BlocksCount(before16), v));
  }

  // ----- Every run of the caller

  /** `height` is the chain height of the last update, or zero when the caller discarded it. */
  datatype Caller = Caller(chain: seq<BlockStat>, v: Vectors, height: nat)

  datatype Op =
    | Extend(block: BlockStat)
    | PopOne
    | Query

  /** `hf16` says at which heights hard fork 16 is in force. */
  function Step(s: Caller, op: Op, hf16: nat -> bool): Caller {
    match op
    case Extend(b) => s.(chain := s.chain + [b])
    case PopOne =>
      // the genesis block is never taken off
      if |s.chain| > 1 then s.(chain := s.chain[..|s.chain| - 1], height := 0) else s.(height := 0)
    case Query =>
      var h := |s.chain|;
      s.(v := Fill(s.chain, h, s.height, BlocksCount(!hf16(h)), s.v), height := h)
  }

  function Start(genesis: BlockStat): Caller {
    Caller([genesis], Vectors([], []), 0)
  }

  function Run(genesis: BlockStat, ops: seq<Op>, hf16: nat -> bool): (s: Caller)
    ensures |s.chain| >= 1
  {
    if ops == [] then Start(genesis)
    else Step(Run(genesis, ops[..|ops| - 1], hf16), ops[|ops| - 1], hf16)
  }

  /** The vectors are the window at the remembered height. */
  predicate Remembers(s: Caller, hf16: nat -> bool) {
    s.height != 0 ==>
      && s.height <= |s.chain|
      && s.v == VectorsOf(Window(s.chain, s.height, BlocksCount(!hf16(s.height))))
  }

  /** The vectors are the window rebuilt from scratch. */
  predicate UpToDate(s: Caller, hf16: nat -> bool)
    requires |s.chain| >= 1
  {
    s.v == VectorsOf(Window(s.chain, |s.chain|, BlocksCount(!hf16(|s.chain|))))
  }

  /** The chain's length after the operations, which do not depend on the vectors. */
  function LengthAfter(ops: seq<Op>): (n: nat)
    ensures n >= 1
  {
    if ops == [] then 1
    else
      var n := LengthAfter(ops[..|ops| - 1]);
      match ops[|ops| - 1]
      case Extend(_) => n + 1
      case PopOne => if n > 1 then n - 1 else n
      case Query => n
  }

  lemma {:induction false} RunLength(genesis: BlockStat, ops: seq<Op>, hf16: nat -> bool)
    ensures |Run(genesis, ops, hf16).chain| == LengthAfter(ops)
    decreases |ops|
  {
    if ops != [] {
      RunLength(genesis, ops[..|ops| - 1], hf16);
    }
  }

  /** Operation i is a query and blocks above genesis are there. */
  predicate QueryAbove(ops: seq<Op>, i: nat) {
    i < |ops| && ops[i] == Query && LengthAfter(ops[..i]) >= MIN_CHAIN_HEIGHT
  }

  /** Operation j is a query with only the genesis block there. */
  predicate QueryAtGenesis(ops: seq<Op>, j: nat) {
    j < |ops| && ops[j] == Query && LengthAfter(ops[..j]) < MIN_CHAIN_HEIGHT
  }

  /** The caller never asks at genesis once it has asked above it. */
  ghost predicate NeverBackToGenesis(ops: seq<Op>) {
    forall i: nat, j: nat :: i < j && QueryAbove(ops, i) ==> !QueryAtGenesis(ops, j)
  }

  /** The vectors stay empty exactly until the first query above genesis. */
  lemma {:induction false} EmptyIff(genesis: BlockStat, ops: seq<Op>, hf16: nat -> bool)
    ensures Run(genesis, ops, hf16).v == Vectors([], []) <==> forall i: nat :: !QueryAbove(ops, i)
    decreases |ops|
  {
    if ops != [] {
      var n := |ops| - 1;
      var s := Run(genesis, ops[..n], hf16);
      EmptyIff(genesis, ops[..n], hf16);
      RunLength(genesis, ops[..n], hf16);
      forall i: nat | i < n ensures QueryAbove(ops, i) == QueryAbove(ops[..n], i) {
        assert ops[..n][..i] == ops[..i];
      }
      if QueryAbove(ops, n) {
        assert |Step(s, Query, hf16).v.timestamps| > 0;
      }
    }
  }

  lemma WindowBelow(chain: seq<BlockStat>, b: BlockStat, height: nat, count: nat)
    requires 0 < height <= |chain| && count > 0
    ensures Window(chain + [b], height, count) == Window(chain, height, count)
  {
    var start := StartHeight(height, count);
    assert (chain + [b])[start..height] == chain[start..height];
  }

  lemma StepRemembers(s: Caller, op: Op, hf16: nat -> bool)
    requires |s.chain| >= 1 && Remembers(s, hf16)
    requires op == Query && |s.chain| < MIN_CHAIN_HEIGHT ==> s.v == Vectors([], [])
    ensures Remembers(Step(s, op, hf16), hf16)
  {
    match op
    case Extend(b) =>
      if s.height != 0 {
        WindowBelow(s.chain, b, s.height, BlocksCount(!hf16(s.height)));
      }
    case PopOne =>
    case Query =>
      if |s.chain| >= MIN_CHAIN_HEIGHT {
        FillIsWindow(s.chain, |s.chain|, s.height, !hf16(|s.chain|), !hf16(s.height), s.v);
      } else {
        assert Window(s.chain, 1, BlocksCount(!hf16(1))) == [];
      }
  }

  /** What was asked of a run was asked of its beginning. */
  lemma PrefixOfRun(ops: seq<Op>, n: nat)
    requires n <= |ops| && NeverBackToGenesis(ops)
    ensures NeverBackToGenesis(ops[..n])
  {
    forall i: nat, j: nat | i < j && QueryAbove(ops[..n], i) ensures !QueryAtGenesis(ops[..n], j) {
      if j < n {
        assert ops[..n][..i] == ops[..i] && ops[..n][..j] == ops[..j];
        assert QueryAbove(ops, i);
        assert !QueryAtGenesis(ops, j);
      }
    }
  }

  /** A query at genesis comes before any query above it, so it finds nothing. */
  lemma GenesisFindsNothing(genesis: BlockStat, ops: seq<Op>, hf16: nat -> bool)
    requires ops != [] && NeverBackToGenesis(ops)
    ensures QueryAtGenesis(ops, |ops| - 1) ==> Run(genesis, ops[..|ops| - 1], hf16).v == Vectors([], [])
  {
    var n := |ops| - 1;
    if QueryAtGenesis(ops, n) {
      EmptyIff(genesis, ops[..n], hf16);
      forall i: nat ensures !QueryAbove(ops[..n], i) {
        if i < n {
          assert ops[..n][..i] == ops[..i];
          assert QueryAbove(ops, i) == QueryAbove(ops[..n], i);
        }
      }
    }
  }

  lemma {:induction false} RunRemembers(genesis: BlockStat, ops: seq<Op>, hf16: nat -> bool)
    requires NeverBackToGenesis(ops)
    ensures Remembers(Run(genesis, ops, hf16), hf16)
    decreases |ops|
  {
    if ops != [] {
      var n := |ops| - 1;
      PrefixOfRun(ops, n);
      RunRemembers(genesis, ops[..n], hf16);
      RunLength(genesis, ops[..n], hf16);
      GenesisFindsNothing(genesis, ops, hf16);
      StepRemembers(Run(genesis, ops[..n], hf16), ops[n], hf16);
    }
  }

  /** Over every such run, each query ends with the window rebuilt from scratch. */
  lemma {:induction false} QueryIsFresh(genesis: BlockStat, ops: seq<Op>, hf16: nat -> bool)
    requires ops != [] && ops[|ops| - 1] == Query && NeverBackToGenesis(ops)
    ensures UpToDate(Run(genesis, ops, hf16), hf16)
  {
    RunRemembers(genesis, ops, hf16);
  }

  /** Being up to date in numbers. */
  lemma UpToDateMeans(s: Caller, hf16: nat -> bool)
    requires |s.chain| >= 1
    ensures UpToDate(s, hf16) <==>
      HoldsLast(s.v, s.chain, |s.chain|, Entries(|s.chain|, !hf16(|s.chain|)))
  {
    WindowHoldsLast(s.chain, |s.chain|, !hf16(|s.chain|), s.v);
  }

  /** Every query of a run gives the window rebuilt from scratch exactly when the caller never
      asks at genesis once it has asked above it. */
  lemma {:induction false} EveryQueryIsFreshIff(genesis: BlockStat, ops: seq<Op>, hf16: nat -> bool)
    ensures NeverBackToGenesis(ops) <==>
      forall j :: 0 <= j < |ops| && ops[j] == Query ==> UpToDate(Run(genesis, ops[..j + 1], hf16), hf16)
  {
    if NeverBackToGenesis(ops) {
      forall j | 0 <= j < |ops| && ops[j] == Query ensures UpToDate(Run(genesis, ops[..j + 1], hf16), hf16) {
        PrefixOfRun(ops, j + 1);
        QueryIsFresh(genesis, ops[..j + 1], hf16);
      }
    } else {
      var i: nat, j: nat :| i < j && QueryAbove(ops, i) && QueryAtGenesis(ops, j);
      StaleAtGenesis(genesis, ops, i, j, hf16);
    }
  }

  /** A query at genesis after one above it still shows blocks that are gone. */
  lemma StaleAtGenesis(genesis: BlockStat, ops: seq<Op>, i: nat, j: nat, hf16: nat -> bool)
    requires i < j && QueryAbove(ops, i) && QueryAtGenesis(ops, j)
    ensures !UpToDate(Run(genesis, ops[..j + 1], hf16), hf16)
  {
    var before := ops[..j];
    assert QueryAbove(before, i) by {
      assert before[..i] == ops[..i];
    }
    EmptyIff(genesis, before, hf16);
    RunLength(genesis, before, hf16);
    StaleQuery(Run(genesis, before, hf16), hf16);
    RunSnoc(genesis, before, Query, hf16);
    assert ops[..j + 1] == before + [Query];
  }

  lemma StaleQuery(s: Caller, hf16: nat -> bool)
    requires |s.chain| == 1 && s.v != Vectors([], [])
    ensures !UpToDate(Step(s, Query, hf16), hf16)
  {
    assert Window(s.chain, 1, BlocksCount(!hf16(1))) == [];
  }

  // ----- Exactly which queries are stale

  /** What the kinds of the operations tell: the chain's length, the remembered height, the size
      of the vectors, and how many entries at their front are of blocks that are gone. */
  datatype Tally = Tally(length: nat, cached: nat, size: nat, stale: nat)

  function Count(hf16: nat -> bool, height: nat): nat {
    BlocksCount(!hf16(height))
  }

  function TallyQuery(t: Tally, count: nat): Tally {
    if t.length < MIN_CHAIN_HEIGHT then t.(cached := t.length, stale := t.size)
    else if t.cached != 0 && t.length == t.cached + 1 && t.size <= count then
      // kept: one entry goes in, and one comes out when the vectors are full
      if t.size < count then t.(cached := t.length, size := t.size + 1)
      else t.(cached := t.length, stale := if t.stale > 0 then t.stale - 1 else 0)
    else Tally(t.length, t.length, if t.length - 1 < count then t.length - 1 else count, 0)
  }

  function TallyStep(t: Tally, op: Op, hf16: nat -> bool): Tally {
    match op
    case Extend(_) => t.(length := t.length + 1)
    case PopOne => t.(length := if t.length > 1 then t.length - 1 else t.length, cached := 0)
    case Query => TallyQuery(t, Count(hf16, t.length))
  }

  function TallyOf(ops: seq<Op>, hf16: nat -> bool): Tally {
    if ops == [] then Tally(1, 0, 0, 0)
    else TallyStep(TallyOf(ops[..|ops| - 1], hf16), ops[|ops| - 1], hf16)
  }

  /** Behind the stale entries come all blocks above genesis; without any, the vectors are the
      window. */
  predicate Holds(chain: seq<BlockStat>, v: Vectors, t: Tally, count: nat)
    requires 1 <= t.cached <= |chain| && count > 0
  {
    if t.stale == 0 then v == VectorsOf(Window(chain, t.cached, count))
    else
      && t.size == t.stale + t.cached - 1
      && |v.timestamps| == |v.difficulties| == t.size
      && Vectors(v.timestamps[t.stale..], v.difficulties[t.stale..]) == VectorsOf(chain[1..t.cached])
  }

  predicate Tracks(s: Caller, t: Tally, hf16: nat -> bool) {
    && |s.chain| == t.length >= 1
    && s.height == t.cached
    && |s.v.timestamps| == |s.v.difficulties| == t.size
    && (t.cached != 0 ==> t.cached <= t.length && Holds(s.chain, s.v, t, Count(hf16, t.cached)))
  }

  lemma HoldsBelow(chain: seq<BlockStat>, b: BlockStat, v: Vectors, t: Tally, count: nat)
    requires 1 <= t.cached <= |chain| && count > 0 && Holds(chain, v, t, count)
    ensures Holds(chain + [b], v, t, count)
  {
    WindowBelow(chain, b, t.cached, count);
    assert (chain + [b])[1..t.cached] == chain[1..t.cached];
  }

  /** The window's size. */
  lemma WindowSize(chain: seq<BlockStat>, height: nat, count: nat)
    requires 1 <= height <= |chain| && count > 0
    ensures |Window(chain, height, count)| == if height - 1 < count then height - 1 else count
  {
  }

  lemma AppendDrop(s: seq<nat>, x: nat, stale: nat)
    requires stale <= |s|
    ensures (s + [x])[stale..] == s[stale..] + [x]
  {
  }

  lemma LastDrop(s: seq<nat>, n: nat, stale: nat)
    requires |s| == n + 1 && 1 <= stale <= |s|
    ensures LastOf(s, n)[stale - 1..] == s[stale..]
  {
  }

  /** Keeping stale vectors that are not full. */
  lemma KeepStale(chain: seq<BlockStat>, v: Vectors, t: Tally, count: nat, last: nat)
    requires t.stale > 0 && 1 <= t.cached < |chain| && last > 0 && t.size < count && Holds(chain, v, t, last)
    ensures Holds(chain, Appended(v, chain[t.cached], count), t.(cached := t.cached + 1, size := t.size + 1), count)
  {
    var top := chain[t.cached];
    AppendDrop(v.timestamps, top.timestamp, t.stale);
    AppendDrop(v.difficulties, top.difficulty, t.stale);
    VectorsSnoc(chain, 1, t.cached);
  }

  /** Keeping stale vectors that are full pushes the oldest entry out, and the last stale one
      leaves the window. */
  lemma KeepFull(chain: seq<BlockStat>, v: Vectors, t: Tally, count: nat, last: nat)
    requires t.stale > 0 && 1 <= t.cached < |chain| && last > 0 && t.size == count > 0 && Holds(chain, v, t, last)
    ensures Holds(chain, Appended(v, chain[t.cached], count), t.(cached := t.cached + 1, stale := t.stale - 1), count)
  {
    var top, w := chain[t.cached], Appended(v, chain[t.cached], count);
    AppendDrop(v.timestamps, top.timestamp, t.stale);
    AppendDrop(v.difficulties, top.difficulty, t.stale);
    LastDrop(v.timestamps + [top.timestamp], count, t.stale);
    LastDrop(v.difficulties + [top.difficulty], count, t.stale);
    VectorsSnoc(chain, 1, t.cached);
    if t.stale == 1 {
      assert w.timestamps[0..] == w.timestamps && w.difficulties[0..] == w.difficulties;
      assert StartHeight(t.cached + 1, count) == 1;
    }
  }

  lemma QueryTracks(s: Caller, t: Tally, hf16: nat -> bool)
    requires Tracks(s, t, hf16)
    ensures Tracks(Step(s, Query, hf16), TallyStep(t, Query, hf16), hf16)
  {
    var count := Count(hf16, t.length);
    if t.length < MIN_CHAIN_HEIGHT {
      QueryAtGenesisTracks(s, t, hf16);
    } else if Reuses(t.length, t.cached, count, s.v) {
      QueryKeepsTracks(s, t, hf16, count);
    } else {
      QueryFresh(s, t, hf16, count);
    }
  }

  lemma QueryAtGenesisTracks(s: Caller, t: Tally, hf16: nat -> bool)
    requires Tracks(s, t, hf16) && t.length == 1
    ensures Tracks(Step(s, Query, hf16), TallyStep(t, Query, hf16), hf16)
  {
    assert s.chain[1..1] == [];
    assert Window(s.chain, 1, Count(hf16, 1)) == [];
    if t.size > 0 {
      assert s.v.timestamps[t.size..] == [] && s.v.difficulties[t.size..] == [];
    } else {
      assert s.v == Vectors([], []);
    }
  }

  lemma QueryFresh(s: Caller, t: Tally, hf16: nat -> bool, count: nat)
    requires Tracks(s, t, hf16) && t.length >= MIN_CHAIN_HEIGHT && count == Count(hf16, t.length)
    requires !Reuses(t.length, t.cached, count, s.v)
    ensures Tracks(Step(s, Query, hf16), TallyStep(t, Query, hf16), hf16)
  {
    PushAndTrim(s.chain, StartHeight(t.length, count), t.length, count);
    WindowSize(s.chain, t.length, count);
  }

  lemma QueryKeepsTracks(s: Caller, t: Tally, hf16: nat -> bool, count: nat)
    requires Tracks(s, t, hf16) && t.length >= MIN_CHAIN_HEIGHT && count == Count(hf16, t.length)
    requires Reuses(t.length, t.cached, count, s.v)
    ensures Tracks(Step(s, Query, hf16), TallyStep(t, Query, hf16), hf16)
  {
    if t.stale == 0 {
      KeepFresh(s, t, hf16, count);
    } else if t.size < count {
      KeepStale(s.chain, s.v, t, count, Count(hf16, t.cached));
    } else {
      KeepFull(s.chain, s.v, t, count, Count(hf16, t.cached));
    }
  }

  lemma KeepFresh(s: Caller, t: Tally, hf16: nat -> bool, count: nat)
    requires Tracks(s, t, hf16) && t.length >= MIN_CHAIN_HEIGHT && count == Count(hf16, t.length)
    requires Reuses(t.length, t.cached, count, s.v) && t.stale == 0
    ensures Tracks(Step(s, Query, hf16), TallyStep(t, Query, hf16), hf16)
  {
    WindowSize(s.chain, t.length, count);
    WindowSize(s.chain, t.cached, Count(hf16, t.cached));
    FillIsWindow(s.chain, t.length, t.cached, !hf16(t.length), !hf16(t.cached), s.v);
  }

  lemma {:induction false} RunTracks(genesis: BlockStat, ops: seq<Op>, hf16: nat -> bool)
    ensures Tracks(Run(genesis, ops, hf16), TallyOf(ops, hf16), hf16)
    decreases |ops|
  {
    if ops != [] {
      var s, t := Run(genesis, ops[..|ops| - 1], hf16), TallyOf(ops[..|ops| - 1], hf16);
      RunTracks(genesis, ops[..|ops| - 1], hf16);
      match ops[|ops| - 1]
      case PopOne =>
      case Query => QueryTracks(s, t, hf16);
      case Extend(b) =>
        if t.cached != 0 {
          HoldsBelow(s.chain, b, s.v, t, Count(hf16, t.cached));
        }
    }
  }

  /** Over every run, a query gives the window rebuilt from scratch exactly when the kinds of
      the operations leave no stale entry: a query at genesis makes all entries stale, the first
      query above it after a pop or a skipped height rebuilds them, and a full window pushes one
      out with each query. */
  lemma {:induction false} QueryIsFreshIff(genesis: BlockStat, ops: seq<Op>, hf16: nat -> bool)
    requires ops != [] && ops[|ops| - 1] == Query
    ensures UpToDate(Run(genesis, ops, hf16), hf16) <==> TallyOf(ops, hf16).stale == 0
  {
    var s, t := Run(genesis, ops, hf16), TallyOf(ops, hf16);
    RunTracks(genesis, ops, hf16);
    if t.stale > 0 {
      WindowSize(s.chain, t.length, Count(hf16, t.length));
    }
  }

  /** With one block above genesis and a remembered height of one, the result is right exactly
      when the vectors were empty or too long to keep. */
  lemma {:induction false} LeftoversIff(chain: seq<BlockStat>, count: nat, v: Vectors)
    requires |chain| == 2 && count > 1
    ensures Fill(chain, 2, 1, count, v) == VectorsOf(Window(chain, 2, count))
      <==> v == Vectors([], []) || |v.timestamps| > count || |v.difficulties| > count
  {
    var w := VectorsOf(Window(chain, 2, count));
    if Reuses(2, 1, count, v) {
      if v.timestamps == [] && v.difficulties == [] {
        PushAndTrim(chain, 1, 2, count);
      } else {
        var r := Fill(chain, 2, 1, count, v);
        assert |r.timestamps| != 1 || |r.difficulties| != 1;
      }
    } else {
      PushAndTrim(chain, 1, 2, count);
    }
  }

  /** A chain taken back to its genesis block and queried there keeps the old branch's block
      in the window of the new branch. */
  lemma {:induction false} LeftoversHappen(genesis: BlockStat, a: BlockStat, b: BlockStat, hf16: nat -> bool)
    ensures var s := Run(genesis, [Extend(a), Query, PopOne, Query, Extend(b), Query], hf16);
      && s.chain == [genesis, b]
      && s.v == VectorsOf([a, b])
  {
    var half := [Extend(a), Query, PopOne];
    BackToGenesis(genesis, a, hf16);
    RunSnoc(genesis, half, Query, hf16);
    RunSnoc(genesis, half + [Query], Extend(b), hf16);
    assert Run(genesis, half + [Query] + [Extend(b)], hf16) == Caller([genesis, b], VectorsOf([a]), 1);
    RunSnoc(genesis, half + [Query] + [Extend(b)], Query, hf16);
    LeftoverQuery(genesis, a, b, hf16);
    assert half + [Query] + [Extend(b)] + [Query] == [Extend(a), Query, PopOne, Query, Extend(b), Query];
  }

  lemma BackToGenesis(genesis: BlockStat, a: BlockStat, hf16: nat -> bool)
    ensures Run(genesis, [Extend(a), Query, PopOne], hf16) == Caller([genesis], VectorsOf([a]), 0)
  {
    var o1 := [] + [Extend(a)];
    RunSnoc(genesis, [], Extend(a), hf16);
    FirstStep(genesis, a, hf16);
    RunSnoc(genesis, o1, Query, hf16);
    FirstQuery(genesis, a, hf16);
    RunSnoc(genesis, o1 + [Query], PopOne, hf16);
    PopStep(genesis, a, VectorsOf([a]), hf16);
    assert o1 + [Query] + [PopOne] == [Extend(a), Query, PopOne];
  }

  lemma FirstStep(genesis: BlockStat, a: BlockStat, hf16: nat -> bool)
    ensures Step(Run(genesis, [], hf16), Extend(a), hf16) == Caller([genesis, a], Vectors([], []), 0)
  {
    assert [genesis] + [a] == [genesis, a];
  }

  lemma PopStep(genesis: BlockStat, a: BlockStat, v: Vectors, hf16: nat -> bool)
    ensures Step(Caller([genesis, a], v, 2), PopOne, hf16) == Caller([genesis], v, 0)
  {
    assert [genesis, a][..1] == [genesis];
  }

  lemma FirstQuery(genesis: BlockStat, a: BlockStat, hf16: nat -> bool)
    ensures Step(Caller([genesis, a], Vectors([], []), 0), Query, hf16) == Caller([genesis, a], VectorsOf([a]), 2)
  {
    PushAndTrim([genesis, a], 1, 2, BlocksCount(!hf16(2)));
    assert [genesis, a][1..2] == [a];
  }

  lemma LeftoverQuery(genesis: BlockStat, a: BlockStat, b: BlockStat, hf16: nat -> bool)
    ensures Step(Caller([genesis, b], VectorsOf([a]), 1), Query, hf16).v == VectorsOf([a, b])
  {
    PushAndTrim([a, a, b], 1, 3, BlocksCount(!hf16(2)));
    assert [a, a, b][1..2] == [a] && [a, a, b][1..3] == [a, b];
  }

  lemma RunSnoc(genesis: BlockStat, ops: seq<Op>, op: Op, hf16: nat -> bool)
    ensures Run(genesis, ops + [op], hf16) == Step(Run(genesis, ops, hf16), op, hf16)
  {
    assert (ops + [op])[..|ops|] == ops;
  }

  // ----- The update in place

  class Cache {
    var timestamps: seq<nat>
    var difficulties: seq<nat>

    function Contents(): Vectors
      reads this
    {
      Vectors(timestamps, difficulties)
    }

    method AddTimestampAndDifficulty(count: nat, timestamp: nat, difficulty: nat)
      modifies this
      ensures Contents() == Appended(old(Contents()), BlockStat(timestamp, difficulty), count)
    {
      timestamps := Trimmed(timestamps + [timestamp], count);
      difficulties := Trimmed(difficulties + [difficulty], count);
    }

    /** Erases the oldest entry until at most `count` are left. */
    static method Trimmed(s: seq<nat>, count: nat) returns (r: seq<nat>)
      ensures r == LastOf(s, count)
    {
      r := s;
      while |r| > count
        invariant |r| <= |s| && r == s[|s| - |r|..]
        invariant |r| < |s| ==> |r| >= count
      {
        assert s[|s| - |r|..][1..] == s[|s| - |r| + 1..];
        r := r[1..];
      }
    }

    /** Starts over with the blocks from `start` to below `end`. */
    method Rebuild(chain: seq<BlockStat>, start: nat, end: nat)
      requires start <= end <= |chain|
      modifies this
      ensures Contents() == VectorsOf(chain[start..end])
    {
      timestamps, difficulties := [], [];
      for h := start to end
        invariant Contents() == VectorsOf(chain[start..h])
      {
        VectorsSnoc(chain, start, h);
        timestamps := timestamps + [chain[h].timestamp];
        difficulties := difficulties + [chain[h].difficulty];
      }
    }

    method FillForPow(chain: seq<BlockStat>, height: nat, cached: nat, hf16: nat -> bool)
      requires height <= |chain|
      modifies this
      ensures Contents() == Fill(chain, height, cached, BlocksCount(!hf16(height)), old(Contents()))
      ensures height < 2 ==> Contents() == old(Contents())
      ensures height >= 2 && (cached == 0 || height != cached + 1) ==>
        HoldsLast(Contents(), chain, height, Entries(height, !hf16(height)))
    {
      if height < MIN_CHAIN_HEIGHT {
        return;
      }
      if cached == 0 || height != cached + 1 {
        FillHoldsLast(chain, height, 0, !hf16(height), false, Contents());
        assert !Reuses(height, cached, BlocksCount(!hf16(height)), Contents());
      }
      FillFrom(chain, height, cached, BlocksCount(!hf16(height)));
    }

    method FillFrom(chain: seq<BlockStat>, height: nat, cached: nat, count: nat)
      requires MIN_CHAIN_HEIGHT <= height <= |chain| && count > 1
      modifies this
      ensures Contents() == Fill(chain, height, cached, count, old(Contents()))
    {
      if cached == 0 || height - cached != 1 || |timestamps| > count || |difficulties| > count {
        var start := height - (if height < count then height else count);
        if start < 1 {
          start := 1;
        }
        Rebuild(chain, start, height - 1);
      }
      assert Contents() == Kept(chain, height, cached, count, old(Contents()));
      AddTimestampAndDifficulty(count, chain[height - 1].timestamp, chain[height - 1].difficulty);
    }
  }

  lemma VectorsSnoc(chain: seq<BlockStat>, start: nat, h: nat)
    requires start <= h < |chain|
    ensures var v, w := VectorsOf(chain[start..h]), VectorsOf(chain[start..h + 1]);
      w == Vectors(v.timestamps + [chain[h].timestamp], v.difficulties + [chain[h].difficulty])
  {
    var v, w := VectorsOf(chain[start..h]), VectorsOf(chain[start..h + 1]);
    assert w.timestamps == v.timestamps + [chain[h].timestamp];
    assert w.difficulties == v.difficulties + [chain[h].difficulty];
  }
}
