/** Which checkpoint is final at a height, by definition and as the store works it out. */
module CheckpointSpec {
  import opened Wrappers

  /** A checkpoint read back from the database is a service node one when it has signatures. */
  datatype Checkpoint = Checkpoint(height: nat, blockHash: nat, signatures: nat) {
    predicate Hardcoded() {
      signatures == 0
    }
  }

  const MAX_HEIGHT: nat := 0xFFFF_FFFF_FFFF_FFFF

  /** The table: one checkpoint per height. */
  type Rows = map<nat, Checkpoint>

  predicate Valid(m: Rows) {
    forall h :: h in m ==> m[h].height == h && h <= MAX_HEIGHT
  }

  // ----- Walking the table

  /** The row a search downwards from `h` meets first. */
  function AtOrBelow(m: Rows, h: nat): (r: Option<nat>)
    ensures r.Some? ==> r.value in m && r.value <= h && forall j :: j in m && j <= h ==> j <= r.value
    ensures r.None? ==> forall j :: j in m ==> j > h
  {
    if h in m then Some(h) else if h == 0 then None else AtOrBelow(m, h - 1)
  }

  /** The row a search upwards from `h` meets first. */
  function AtOrAbove(m: Rows, h: nat): (r: Option<nat>)
    ensures r.Some? ==> r.value in m && h <= r.value <= MAX_HEIGHT && forall j :: j in m && j >= h ==> j >= r.value
    ensures r.None? ==> forall j :: j in m && j >= h ==> j > MAX_HEIGHT
    decreases if h <= MAX_HEIGHT then MAX_HEIGHT + 1 - h else 0
  {
    if h > MAX_HEIGHT then None else if h in m then Some(h) else AtOrAbove(m, h + 1)
  }

  function Clamp(height: nat, low: nat, high: nat): nat {
    if height < low then low else if height > high then high else height
  }

  /** At most `limit` rows from `from` down to `goal`. */
  function Down(m: Rows, from: nat, goal: nat, limit: nat): seq<Checkpoint>
    decreases limit, 0
  {
    if limit == 0 then []
    else match AtOrBelow(m, from)
      case None => []
      case Some(k) =>
        if k < goal then []
        else [m[k]] + DownBelow(m, k, goal, limit - 1)
  }

  /** The same, starting under row k. */
  function DownBelow(m: Rows, k: nat, goal: nat, limit: nat): seq<Checkpoint>
    decreases limit, 1
  {
    if k == 0 then [] else Down(m, k - 1, goal, limit)
  }

  /** At most `limit` rows from `from` up to `goal`. */
  function Up(m: Rows, from: nat, goal: nat, limit: nat): seq<Checkpoint>
    decreases limit
  {
    if limit == 0 then []
    else match AtOrAbove(m, from)
      case None => []
      case Some(k) => if k > goal then [] else [m[k]] + Up(m, k + 1, goal, limit - 1)
  }

  /** The rows from `start` to `end`, downwards when `start` is the higher one, after both
      ends were moved inside the table. */
  function Range(m: Rows, start: nat, end: nat, limit: nat): seq<Checkpoint> {
    match (AtOrAbove(m, 0), AtOrBelow(m, MAX_HEIGHT))
    case (Some(bottom), Some(top)) =>
      var from, goal := Clamp(start, bottom, top), Clamp(end, bottom, top);
      if from > goal then Down(m, from, goal, limit) else Up(m, from, goal, limit)
    case _ => []
  }

  // ----- What a range is

  function HeightsOf(r: seq<Checkpoint>): set<nat> {
    set i | 0 <= i < |r| :: r[i].height
  }

  /** Rows of the table between the two heights. */
  predicate RowsBetween(m: Rows, low: nat, high: nat, r: seq<Checkpoint>) {
    forall i :: 0 <= i < |r| ==> low <= r[i].height <= high && r[i].height in m && m[r[i].height] == r[i]
  }

  predicate Rising(r: seq<Checkpoint>) {
    forall i, j :: 0 <= i < j < |r| ==> r[i].height < r[j].height
  }

  predicate Falling(r: seq<Checkpoint>) {
    forall i, j :: 0 <= i < j < |r| ==> r[i].height > r[j].height
  }

  /** The first `limit` rows from low up to high: what is missing lies above all that were taken,
      and then there are `limit` of those. */
  ghost predicate FirstUpwards(m: Rows, low: nat, high: nat, limit: nat, r: seq<Checkpoint>) {
    && |r| <= limit
    && RowsBetween(m, low, high, r)
    && Rising(r)
    && forall h: nat :: h in m && low <= h <= high && h !in HeightsOf(r) ==>
         |r| == limit && forall i :: 0 <= i < |r| ==> r[i].height < h
  }

  /** The same from high down to low. */
  ghost predicate FirstDownwards(m: Rows, high: nat, low: nat, limit: nat, r: seq<Checkpoint>) {
    && |r| <= limit
    && RowsBetween(m, low, high, r)
    && Falling(r)
    && forall h: nat :: h in m && low <= h <= high && h !in HeightsOf(r) ==>
         |r| == limit && forall i :: 0 <= i < |r| ==> r[i].height > h
  }

  lemma HeightsCons(c: Checkpoint, r: seq<Checkpoint>)
    ensures HeightsOf([c] + r) == {c.height} + HeightsOf(r)
  {
    var all := [c] + r;
    assert all[0] == c;
    assert forall i :: 0 <= i < |r| ==> all[i + 1] == r[i];
    assert forall i :: 0 < i < |all| ==> all[i] == r[i - 1];
  }

  lemma UpwardsCons(m: Rows, low: nat, high: nat, limit: nat, k: nat, r: seq<Checkpoint>)
    requires Valid(m) && limit > 0 && k in m && low <= k <= high
    requires forall h :: h in m && low <= h ==> k <= h
    requires FirstUpwards(m, k + 1, high, limit - 1, r)
    ensures FirstUpwards(m, low, high, limit, [m[k]] + r)
  {
    var all := [m[k]] + r;
    HeightsCons(m[k], r);
    assert forall i :: 0 < i < |all| ==> all[i] == r[i - 1];
    assert all[0] == m[k];
  }

  lemma DownwardsCons(m: Rows, high: nat, low: nat, limit: nat, k: nat, r: seq<Checkpoint>)
    requires Valid(m) && limit > 0 && k in m && low <= k <= high
    requires forall h :: h in m && h <= high ==> h <= k
    requires if k == 0 then r == [] else FirstDownwards(m, k - 1, low, limit - 1, r)
    ensures FirstDownwards(m, high, low, limit, [m[k]] + r)
  {
    var all := [m[k]] + r;
    HeightsCons(m[k], r);
    assert forall i :: 0 < i < |all| ==> all[i] == r[i - 1];
    assert all[0] == m[k];
  }

  lemma {:induction false} UpIsFirst(m: Rows, low: nat, high: nat, limit: nat)
    requires Valid(m)
    ensures FirstUpwards(m, low, high, limit, Up(m, low, high, limit))
    decreases limit
  {
    if limit > 0 {
      var first := AtOrAbove(m, low);
      if first.Some? && first.value <= high {
        UpIsFirst(m, first.value + 1, high, limit - 1);
        UpwardsCons(m, low, high, limit, first.value, Up(m, first.value + 1, high, limit - 1));
      }
    }
  }

  lemma {:induction false} DownIsFirst(m: Rows, high: nat, low: nat, limit: nat)
    requires Valid(m)
    ensures FirstDownwards(m, high, low, limit, Down(m, high, low, limit))
    decreases limit
  {
    if limit > 0 {
      var first := AtOrBelow(m, high);
      if first.Some? && first.value >= low {
        var k := first.value;
        if k > 0 {
          DownIsFirst(m, k - 1, low, limit - 1);
        }
        DownwardsCons(m, high, low, limit, k, DownBelow(m, k, low, limit - 1));
      }
    }
  }

  function Inside(height: nat, bottom: nat, top: nat): nat {
    if height <= bottom then bottom else if height >= top then top else height
  }

  /** For every start, end and limit: both ends are moved inside the table, and the range has the
      first `limit` rows from the one to the other, in order and without gaps. */
  lemma {:induction false} RangeMeans(m: Rows, start: nat, end: nat, limit: nat, bottom: nat, top: nat)
    requires Valid(m) && bottom in m && top in m && forall h :: h in m ==> bottom <= h <= top
    ensures var from, goal := Inside(start, bottom, top), Inside(end, bottom, top);
      if from > goal then FirstDownwards(m, from, goal, limit, Range(m, start, end, limit))
      else FirstUpwards(m, from, goal, limit, Range(m, start, end, limit))
  {
    var from, goal := Inside(start, bottom, top), Inside(end, bottom, top);
    RangeWalk(m, start, end, limit, bottom, top);
    if from > goal {
      DownIsFirst(m, from, goal, limit);
    } else {
      UpIsFirst(m, from, goal, limit);
    }
  }

  lemma RangeWalk(m: Rows, start: nat, end: nat, limit: nat, bottom: nat, top: nat)
    requires Valid(m) && bottom in m && top in m && forall h :: h in m ==> bottom <= h <= top
    ensures var from, goal := Inside(start, bottom, top), Inside(end, bottom, top);
      Range(m, start, end, limit) == if from > goal then Down(m, from, goal, limit) else Up(m, from, goal, limit)
  {
    assert AtOrAbove(m, 0) == Some(bottom) && AtOrBelow(m, MAX_HEIGHT) == Some(top);
    assert Inside(start, bottom, top) == Clamp(start, bottom, top);
    assert Inside(end, bottom, top) == Clamp(end, bottom, top);
  }

  const CHECKPOINTS_FOR_FINALITY: nat := 2

  /** The rule applied to the rows found from a height down to zero. */
  function Answer(found: seq<Checkpoint>): Option<Checkpoint> {
    if found == [] then None
    else if found[0].Hardcoded() then Some(found[0])
    else if |found| == CHECKPOINTS_FOR_FINALITY then Some(found[1])
    else None
  }

  /** What the rule comes to: it looks at the two rows at or below the height, or at the
      lowest row when there is none. */
  function Immutable(m: Rows, height: nat): Option<Checkpoint> {
    match AtOrBelow(m, height)
    case None => LowestIfHardcoded(m)
    case Some(k) =>
      if m[k].Hardcoded() then Some(m[k]) else Predecessor(m, k)
  }

  function Predecessor(m: Rows, k: nat): Option<Checkpoint> {
    if k == 0 then None
    else match AtOrBelow(m, k - 1)
      case None => None
      case Some(j) => Some(m[j])
  }

  function LowestIfHardcoded(m: Rows): Option<Checkpoint> {
    match AtOrAbove(m, 0)
    case None => None
    case Some(b) => if m[b].Hardcoded() then Some(m[b]) else None
  }

  // ----- The definition

  /** Hard-coded, or followed by another checkpoint no higher than `height`. */
  ghost predicate Final(m: Rows, height: nat, h: nat) {
    && h in m
    && h <= height
    && (m[h].Hardcoded() || exists d :: d in m && h < d <= height)
  }

  ghost predicate Highest(m: Rows, height: nat, best: nat) {
    Final(m, height, best) && forall h: nat :: Final(m, height, h) ==> h <= best
  }

  /** The answer is the highest final checkpoint, and there is none when nothing is final. */
  ghost predicate Correct(m: Rows, height: nat, answer: Option<Checkpoint>) {
    match answer
    case None => forall h: nat :: h in m ==> !Final(m, height, h)
    case Some(best) => Highest(m, height, best.height) && best == m[best.height]
  }

  lemma RangeCases(m: Rows, height: nat, bottom: nat, top: nat)
    requires AtOrAbove(m, 0) == Some(bottom) && AtOrBelow(m, MAX_HEIGHT) == Some(top)
    ensures var from := Clamp(height, bottom, top);
      Range(m, height, 0, 2) == if from > bottom then Down(m, from, bottom, 2) else Up(m, from, bottom, 2)
  {
    assert Clamp(0, bottom, top) == bottom;
  }

  lemma ClampKeepsFirst(m: Rows, height: nat, bottom: nat, top: nat)
    requires Valid(m) && AtOrAbove(m, 0) == Some(bottom) && AtOrBelow(m, MAX_HEIGHT) == Some(top)
    ensures height >= bottom ==> AtOrBelow(m, Clamp(height, bottom, top)) == AtOrBelow(m, height)
    ensures height < bottom ==> AtOrBelow(m, height).None?
  {
  }

  /** The two rows at or below the height, or the lowest row when there is none. */
  lemma RangeDownToZero(m: Rows, height: nat, bottom: nat)
    requires Valid(m) && AtOrAbove(m, 0) == Some(bottom)
    ensures Range(m, height, 0, 2) ==
      match AtOrBelow(m, height)
      case None => [m[bottom]]
      case Some(k) => [m[k]] + OneBelow(m, k)
  {
    var top := AtOrBelow(m, MAX_HEIGHT).value;
    var from := Clamp(height, bottom, top);
    RangeCases(m, height, bottom, top);
    ClampKeepsFirst(m, height, bottom, top);
    if from > bottom {
      DownTwo(m, from, bottom);
    } else {
      UpTwo(m, bottom);
      NothingUnderBottom(m, bottom);
    }
  }

  lemma NothingUnderBottom(m: Rows, bottom: nat)
    requires AtOrAbove(m, 0) == Some(bottom)
    ensures AtOrBelow(m, bottom) == Some(bottom) && OneBelow(m, bottom) == []
  {
  }

  lemma RangeGivesImmutable(m: Rows, height: nat)
    requires Valid(m)
    ensures Answer(Range(m, height, 0, CHECKPOINTS_FOR_FINALITY)) == Immutable(m, height)
  {
    match AtOrAbove(m, 0)
    case None =>
      assert AtOrBelow(m, height).None?;
    case Some(bottom) =>
      RangeDownToZero(m, height, bottom);
  }

  function OneBelow(m: Rows, k: nat): seq<Checkpoint> {
    match Predecessor(m, k)
    case None => []
    case Some(c) => [c]
  }

  lemma DownOne(m: Rows, k: nat, bottom: nat)
    requires AtOrAbove(m, 0) == Some(bottom)
    ensures DownBelow(m, k, bottom, 1) == OneBelow(m, k)
  {
  }

  lemma DownTwo(m: Rows, from: nat, bottom: nat)
    requires AtOrAbove(m, 0) == Some(bottom) && bottom <= from
    ensures AtOrBelow(m, from).Some?
    ensures var k := AtOrBelow(m, from).value;
      Down(m, from, bottom, 2) == [m[k]] + OneBelow(m, k)
  {
    DownOne(m, AtOrBelow(m, from).value, bottom);
  }

  lemma UpTwo(m: Rows, bottom: nat)
    requires AtOrAbove(m, 0) == Some(bottom)
    ensures Up(m, bottom, bottom, 2) == [m[bottom]]
  {
    assert AtOrAbove(m, bottom) == Some(bottom);
    assert Up(m, bottom + 1, bottom, 1) == [];
  }

  /** The height lies below every row and the lowest row is hard-coded. */
  predicate AnswersTooHigh(m: Rows, height: nat) {
    AtOrBelow(m, height).None? && AtOrAbove(m, 0).Some? && m[AtOrAbove(m, 0).value].Hardcoded()
  }

  /** The store's answer is the definition's exactly outside that case. */
  lemma ImmutableCorrectIff(m: Rows, height: nat)
    requires Valid(m)
    ensures Correct(m, height, Immutable(m, height)) <==> !AnswersTooHigh(m, height)
  {
    match AtOrBelow(m, height)
    case None =>
    case Some(k) =>
      if !m[k].Hardcoded() && k > 0 && AtOrBelow(m, k - 1).Some? {
        assert Final(m, height, AtOrBelow(m, k - 1).value);
      }
  }

  /** One hard-coded checkpoint at height 5 is the answer at height 3. */
  lemma AnswersTooHighHappens()
    ensures var m: Rows := map[5 := Checkpoint(5, 0, 0)];
      Valid(m) && Immutable(m, 3) == Some(m[5]) && !Correct(m, 3, Immutable(m, 3))
  {
    var m: Rows := map[5 := Checkpoint(5, 0, 0)];
    ImmutableCorrectIff(m, 3);
  }

  /** A row with another one, or itself hard-coded, no higher than `height` bounds the answer. */
  lemma AnswerAtLeast(m: Rows, height: nat, h: nat)
    requires Valid(m) && Final(m, height, h)
    ensures Immutable(m, height).Some? && Immutable(m, height).value.height >= h
  {
    var k := AtOrBelow(m, height).value;
    if !m[k].Hardcoded() {
      assert h < k;
      assert AtOrBelow(m, k - 1).Some?;
    }
  }

  /** The answer neither disappears nor goes down as the height grows. */
  lemma ImmutableGrowsWithHeight(m: Rows, low: nat, high: nat)
    requires Valid(m) && low <= high && Immutable(m, low).Some?
    ensures Immutable(m, high).Some?
    ensures Immutable(m, low).value.height <= Immutable(m, high).value.height
  {
    var h := Immutable(m, low).value.height;
    ImmutableCorrectIff(m, low);
    if h <= high {
      assert Final(m, high, h);
      AnswerAtLeast(m, high, h);
    }
  }

  // ----- Putting and removing rows

  function Put(m: Rows, c: Checkpoint): Rows {
    m[c.height := c]
  }

  function Remove(m: Rows, height: nat): Rows {
    m - {height}
  }

  /** The put is harmless: it does not turn a hard-coded topmost checkpoint into a service node
      one, and where the answer lies above the height, it goes no lower than that answer. */
  predicate PutKeepsAnswer(m: Rows, c: Checkpoint, height: nat) {
    match AtOrBelow(m, height)
    case Some(k) => c.height == k && m[k].Hardcoded() ==> c.Hardcoded()
    case None =>
      match AtOrAbove(m, 0)
      case None => true
      case Some(bottom) => c.height >= bottom && (c.height == bottom ==> c.Hardcoded())
  }

  /** Putting a checkpoint neither takes the answer away nor lowers it, exactly then. */
  lemma ImmutableGrowsWithPutIff(m: Rows, c: Checkpoint, height: nat)
    requires Valid(m) && c.height <= MAX_HEIGHT && Immutable(m, height).Some?
    ensures PutKeepsAnswer(m, c, height) <==>
      && Immutable(Put(m, c), height).Some?
      && Immutable(m, height).value.height <= Immutable(Put(m, c), height).value.height
  {
    match AtOrBelow(m, height)
    case None => PutBelowAnswer(m, c, height);
    case Some(k) =>
      if PutKeepsAnswer(m, c, height) {
        var best := Immutable(m, height).value.height;
        FinalAfterPut(m, c, height, best);
        AnswerAtLeast(Put(m, c), height, best);
      } else {
        TopRow(Put(m, c), height, k);
      }
  }

  lemma TopRow(m: Rows, height: nat, k: nat)
    requires k in m && k <= height && forall j :: j in m && j <= height ==> j <= k
    ensures AtOrBelow(m, height) == Some(k)
  {
    assert AtOrBelow(m, height).Some?;
  }

  lemma FinalAfterPut(m: Rows, c: Checkpoint, height: nat, best: nat)
    requires Valid(m) && AtOrBelow(m, height).Some? && PutKeepsAnswer(m, c, height)
    requires Immutable(m, height).Some? && Immutable(m, height).value.height == best
    ensures Final(Put(m, c), height, best)
  {
    var k := AtOrBelow(m, height).value;
    assert k in Put(m, c);
    if best != k {
      assert best < k <= height;
    }
  }

  /** Below the lowest row, the answer is that row, if it is hard-coded. */
  lemma PutBelowAnswer(m: Rows, c: Checkpoint, height: nat)
    requires Valid(m) && c.height <= MAX_HEIGHT && Immutable(m, height).Some? && AtOrBelow(m, height).None?
    ensures PutKeepsAnswer(m, c, height) <==>
      && Immutable(Put(m, c), height).Some?
      && Immutable(m, height).value.height <= Immutable(Put(m, c), height).value.height
  {
    var bottom := AtOrAbove(m, 0).value;
    if c.height <= height {
      TopRow(Put(m, c), height, c.height);
    } else {
      LowestAfterPut(m, c, bottom);
    }
  }

  lemma LowestAfterPut(m: Rows, c: Checkpoint, bottom: nat)
    requires AtOrAbove(m, 0) == Some(bottom) && c.height <= MAX_HEIGHT
    ensures AtOrAbove(Put(m, c), 0) == Some(if c.height < bottom then c.height else bottom)
  {
    var m' := Put(m, c);
    assert c.height in m' && bottom in m';
    assert AtOrAbove(m', 0).Some?;
  }

  /** Putting a checkpoint below a lone hard-coded one takes the too-high answer away. */
  lemma PutCanTakeAwayTooHighAnswer()
    ensures var m: Rows, c := map[5 := Checkpoint(5, 0, 0)], Checkpoint(2, 0, 7);
      Valid(m) && c.height !in m && Immutable(m, 3).Some? && Immutable(Put(m, c), 3).None?
  {
    var m: Rows, c := map[5 := Checkpoint(5, 0, 0)], Checkpoint(2, 0, 7);
  }

  // ----- Culling

  const CHECKPOINT_INTERVAL: nat := 4
  const STORE_PERSISTENTLY_INTERVAL: nat := 60
  const HF12_CHECKPOINTING: nat := 12

  /** Only rows below `end` were removed. */
  ghost predicate OnlyRemovedBelow(m: Rows, m': Rows, end: nat) {
    && (forall h :: h in m' ==> h in m && m'[h] == m[h])
    && (forall h :: h in m && h >= end ==> h in m')
  }

  /** Removing rows below the answer at one height changes no answer from that height on. */
  lemma CullingKeepsImmutable(m: Rows, m': Rows, low: nat, high: nat)
    requires Valid(m) && Valid(m') && low <= high && Immutable(m, low).Some?
    requires OnlyRemovedBelow(m, m', Immutable(m, low).value.height)
    ensures Immutable(m', high) == Immutable(m, high)
  {
    match AtOrBelow(m, low)
    case None =>
      assert m' == m;
    case Some(_) =>
      SameAnswer(m, m', Immutable(m, low).value.height, high);
  }

  /** The rows from `end` on settle the answer when there are two of them, or when the one at
      `end` is hard-coded. */
  lemma SameAnswer(m: Rows, m': Rows, end: nat, high: nat)
    requires OnlyRemovedBelow(m, m', end) && end in m && end <= high
    requires m[end].Hardcoded() || AtOrBelow(m, high) != Some(end)
    ensures Immutable(m', high) == Immutable(m, high)
  {
    SameAtOrBelow(m, m', end, high);
    var k := AtOrBelow(m, high).value;
    assert k in m' && m'[k] == m[k];
    if k > end {
      SamePredecessor(m, m', end, k);
    }
  }

  lemma SamePredecessor(m: Rows, m': Rows, end: nat, k: nat)
    requires OnlyRemovedBelow(m, m', end) && end in m && end < k
    ensures Predecessor(m', k) == Predecessor(m, k)
  {
    SameAtOrBelow(m, m', end, k - 1);
  }

  lemma SameAtOrBelow(m: Rows, m': Rows, end: nat, h: nat)
    requires OnlyRemovedBelow(m, m', end) && end in m && end <= h
    ensures AtOrBelow(m', h) == AtOrBelow(m, h)
  {
    assert end in m';
    var k := AtOrBelow(m, h).value;
    assert k in m' && AtOrBelow(m', h).value in m;
  }

  /** Removes the checkpoint at every fourth height from `from` to below `end`, keeping the
      multiples of sixty. */
  function Cull(m: Rows, from: nat, end: nat): Rows
    decreases if from < end then end - from else 0
  {
    if from >= end then m
    else Cull(if from % STORE_PERSISTENTLY_INTERVAL != 0 then Remove(m, from) else m, from + CHECKPOINT_INTERVAL, end)
  }

  function CullStop(from: nat, end: nat): nat
    decreases if from < end then end - from else 0
  {
    if from >= end then from else CullStop(from + CHECKPOINT_INTERVAL, end)
  }

  /** Culling reaches up to the immutable checkpoint at `height`. */
  function CullEnd(m: Rows, height: nat): nat {
    var r := Immutable(m, height);
    if r.Some? then r.value.height else 0
  }

  /** Culling looks back one interval of persistent checkpoints, from a multiple of four, but
      not to where it has been before. */
  function CullStart(lastCull: nat, end: nat): nat {
    var back := if end < STORE_PERSISTENTLY_INTERVAL then 0 else end - STORE_PERSISTENTLY_INTERVAL;
    var start := if back % CHECKPOINT_INTERVAL > 0
                 then back + (CHECKPOINT_INTERVAL - back % CHECKPOINT_INTERVAL) else back;
    if lastCull < start then start else lastCull
  }

  function AfterCull(m: Rows, lastCull: nat, height: nat): Rows {
    var end := CullEnd(m, height);
    Cull(m, CullStart(lastCull, end), end)
  }

  lemma {:induction false} CullRemoves(m: Rows, from: nat, end: nat)
    ensures OnlyRemovedBelow(m, Cull(m, from, end), end)
    ensures forall h :: h in m && h % STORE_PERSISTENTLY_INTERVAL == 0 ==> h in Cull(m, from, end)
    decreases if from < end then end - from else 0
  {
    if from < end {
      CullRemoves(if from % STORE_PERSISTENTLY_INTERVAL != 0 then Remove(m, from) else m,
                  from + CHECKPOINT_INTERVAL, end);
    }
  }

  /** Culling changes no answer from the block's height on, and keeps every checkpoint at a
      multiple of sixty and everything from the immutable one up. */
  lemma {:induction false} CullKeepsAnswers(m: Rows, lastCull: nat, height: nat)
    requires Valid(m)
    ensures var culled := AfterCull(m, lastCull, height);
      && OnlyRemovedBelow(m, culled, CullEnd(m, height))
      && (forall h :: h in m && h % STORE_PERSISTENTLY_INTERVAL == 0 ==> h in culled)
      && (forall h :: h >= height ==> Immutable(culled, h) == Immutable(m, h))
  {
    var end := CullEnd(m, height);
    var culled := AfterCull(m, lastCull, height);
    CullRemoves(m, CullStart(lastCull, end), end);
    if Immutable(m, height).Some? {
      forall h | h >= height ensures Immutable(culled, h) == Immutable(m, h) {
        CullingKeepsImmutable(m, culled, height, h);
      }
    } else {
      assert culled == m;
    }
  }

  /** The table after a block was added at `height`: nothing changes before checkpointing or
      in the first sixty blocks. */
  function AfterBlock(m: Rows, lastCull: nat, height: nat, majorVersion: nat, checkpoint: Option<Checkpoint>): Rows {
    if height < STORE_PERSISTENTLY_INTERVAL || majorVersion < HF12_CHECKPOINTING then m
    else
      var culled := AfterCull(m, lastCull, height + 1);
      if checkpoint.Some? then Put(culled, checkpoint.value) else culled
  }

  function LastCullAfter(m: Rows, lastCull: nat, height: nat, majorVersion: nat): nat {
    if height < STORE_PERSISTENTLY_INTERVAL || majorVersion < HF12_CHECKPOINTING then lastCull
    else
      var end := CullEnd(m, height + 1);
      CullStop(CullStart(lastCull, end), end)
  }

  // ----- Which rows go

  /** The heights culled: every fourth from `from` to below `end`, except multiples of sixty. */
  predicate Culled(from: nat, end: nat, h: nat) {
    from <= h < end && (h - from) % 4 == 0 && h % 60 != 0
  }

  lemma CulledStep(from: nat, end: nat, h: nat)
    requires from < end
    ensures Culled(from, end, h) <==> (h == from && h % 60 != 0) || Culled(from + 4, end, h)
  {
    if from + 4 <= h {
      assert (h - from) % 4 == (h - (from + 4)) % 4;
    }
  }

  /** Exactly the rows at those heights go. */
  lemma {:induction false} CullMeans(m: Rows, from: nat, end: nat, h: nat)
    ensures h in Cull(m, from, end) <==> h in m && !Culled(from, end, h)
    ensures h in Cull(m, from, end) ==> Cull(m, from, end)[h] == m[h]
    decreases if from < end then end - from else 0
  {
    if from < end {
      CulledStep(from, end, h);
      CullMeans(if from % STORE_PERSISTENTLY_INTERVAL != 0 then Remove(m, from) else m,
                from + CHECKPOINT_INTERVAL, end, h);
    }
  }

  /** Where culling starts: at the first multiple of four among the sixty heights below the end,
      or where it stopped before. */
  function FirstCulled(lastCull: nat, end: nat): nat {
    var start := if end < 60 then 0 else (end - 60 + 3) / 4 * 4;
    if lastCull < start then start else lastCull
  }

  lemma CullStartMeans(lastCull: nat, end: nat)
    ensures CullStart(lastCull, end) == FirstCulled(lastCull, end)
  {
  }

  lemma {:induction false} CullStopMeans(from: nat, end: nat)
    ensures CullStop(from, end) == if from >= end then from else from + (end - from + 3) / 4 * 4
    decreases if from < end then end - from else 0
  {
    if from < end {
      CullStopMeans(from + CHECKPOINT_INTERVAL, end);
    }
  }

  /** Which rows there are after a block from height sixty and hard fork twelve on: its own
      checkpoint, and the others except those culled up to the checkpoint that is immutable one
      height above the block.  Before that nothing changes. */
  lemma {:induction false} AfterBlockMeans(m: Rows, lastCull: nat, height: nat, majorVersion: nat,
                                           checkpoint: Option<Checkpoint>, h: nat)
    ensures var after := AfterBlock(m, lastCull, height, majorVersion, checkpoint);
      if height < 60 || majorVersion < 12 then after == m
      else
        var final := Immutable(m, height + 1);
        var end := if final.Some? then final.value.height else 0;
        if checkpoint.Some? && h == checkpoint.value.height then h in after && after[h] == checkpoint.value
        else
          && (h in after <==> h in m && !Culled(FirstCulled(lastCull, end), end, h))
          && (h in after ==> after[h] == m[h])
  {
    var end := CullEnd(m, height + 1);
    CullStartMeans(lastCull, end);
    CullMeans(m, CullStart(lastCull, end), end, h);
  }

  /** Where culling will go on after such a block: at the first of those heights not below the
      end. */
  lemma LastCullMeans(m: Rows, lastCull: nat, height: nat, majorVersion: nat)
    ensures var after := LastCullAfter(m, lastCull, height, majorVersion);
      if height < 60 || majorVersion < 12 then after == lastCull
      else
        var final := Immutable(m, height + 1);
        var end := if final.Some? then final.value.height else 0;
        var from := FirstCulled(lastCull, end);
        after == if from >= end then from else from + (end - from + 3) / 4 * 4
  {
    var end := CullEnd(m, height + 1);
    CullStartMeans(lastCull, end);
    CullStopMeans(CullStart(lastCull, end), end);
  }

  // ----- Every run of added blocks

  datatype BlockAdded = BlockAdded(height: nat, majorVersion: nat, checkpoint: Option<Checkpoint>)

  datatype State = State(rows: Rows, lastCull: nat)

  function Step(s: State, b: BlockAdded): State {
    State(AfterBlock(s.rows, s.lastCull, b.height, b.majorVersion, b.checkpoint),
          LastCullAfter(s.rows, s.lastCull, b.height, b.majorVersion))
  }

  /** The states between the blocks of a run, which may start anywhere. */
  predicate IsRun(states: seq<State>, blocks: seq<BlockAdded>) {
    && |states| == |blocks| + 1
    && Valid(states[0].rows)
    && (forall i :: 0 <= i < |blocks| ==> InBounds(blocks[i]))
    && (forall i :: 0 <= i < |blocks| ==> states[i + 1] == Step(states[i], blocks[i]))
  }

  /** A later answer is there if the earlier one was, and not below it. */
  predicate NotBelow(earlier: Option<Checkpoint>, later: Option<Checkpoint>) {
    earlier.Some? ==> later.Some? && earlier.value.height <= later.value.height
  }

  /** The block's own checkpoint, if one is recorded, goes into the culled table harmlessly. */
  predicate Harmless(s: State, b: BlockAdded) {
    b.height >= STORE_PERSISTENTLY_INTERVAL && b.majorVersion >= HF12_CHECKPOINTING && b.checkpoint.Some?
    && Immutable(s.rows, b.height + 1).Some? ==>
      PutKeepsAnswer(AfterCull(s.rows, s.lastCull, b.height + 1), b.checkpoint.value, b.height + 1)
  }

  predicate InBounds(b: BlockAdded) {
    b.checkpoint.Some? ==> b.checkpoint.value.height <= MAX_HEIGHT
  }

  lemma CulledAnswer(m: Rows, lastCull: nat, height: nat)
    requires Valid(m)
    ensures Valid(AfterCull(m, lastCull, height))
    ensures Immutable(AfterCull(m, lastCull, height), height) == Immutable(m, height)
  {
    CullKeepsAnswers(m, lastCull, height);
  }

  lemma PutNotBelowIff(m: Rows, c: Checkpoint, height: nat)
    requires Valid(m) && c.height <= MAX_HEIGHT
    ensures Valid(Put(m, c))
    ensures NotBelow(Immutable(m, height), Immutable(Put(m, c), height)) <==>
      Immutable(m, height).None? || PutKeepsAnswer(m, c, height)
  {
    if Immutable(m, height).Some? {
      ImmutableGrowsWithPutIff(m, c, height);
    }
  }

  lemma NotBelowItself(r: Option<Checkpoint>)
    ensures NotBelow(r, r)
  {
  }

  lemma BlockIgnored(s: State, b: BlockAdded)
    requires b.height < STORE_PERSISTENTLY_INTERVAL || b.majorVersion < HF12_CHECKPOINTING
    ensures Step(s, b).rows == s.rows && Harmless(s, b)
  {
  }

  lemma BlockRecorded(s: State, b: BlockAdded, culled: Rows)
    requires b.height >= STORE_PERSISTENTLY_INTERVAL && b.majorVersion >= HF12_CHECKPOINTING
    requires culled == AfterCull(s.rows, s.lastCull, b.height + 1)
    ensures Step(s, b).rows == if b.checkpoint.Some? then Put(culled, b.checkpoint.value) else culled
  {
  }

  lemma HarmlessRecorded(s: State, b: BlockAdded, culled: Rows)
    requires b.height >= STORE_PERSISTENTLY_INTERVAL && b.majorVersion >= HF12_CHECKPOINTING
    requires culled == AfterCull(s.rows, s.lastCull, b.height + 1)
    ensures Harmless(s, b) <==>
      b.checkpoint.None? || Immutable(s.rows, b.height + 1).None?
      || PutKeepsAnswer(culled, b.checkpoint.value, b.height + 1)
  {
  }

  /** A block does not lower the answer at the height it makes exactly when its checkpoint is
      harmless. */
  lemma {:induction false} BlockKeepsAnswerIff(s: State, b: BlockAdded)
    requires Valid(s.rows) && InBounds(b)
    ensures Valid(Step(s, b).rows)
    ensures NotBelow(Immutable(s.rows, b.height + 1), Immutable(Step(s, b).rows, b.height + 1)) <==> Harmless(s, b)
  {
    var h := b.height + 1;
    if b.height < STORE_PERSISTENTLY_INTERVAL || b.majorVersion < HF12_CHECKPOINTING {
      BlockIgnored(s, b);
      NotBelowItself(Immutable(s.rows, h));
    } else {
      var culled := AfterCull(s.rows, s.lastCull, h);
      BlockRecorded(s, b, culled);
      HarmlessRecorded(s, b, culled);
      CulledAnswer(s.rows, s.lastCull, h);
      if b.checkpoint.Some? {
        PutNotBelowIff(culled, b.checkpoint.value, h);
      } else {
        NotBelowItself(Immutable(s.rows, h));
      }
    }
  }

  lemma {:induction false} RunValid(states: seq<State>, blocks: seq<BlockAdded>, i: nat)
    requires IsRun(states, blocks) && i < |states|
    ensures Valid(states[i].rows)
  {
    if i > 0 {
      RunValid(states, blocks, i - 1);
      BlockKeepsAnswerIff(states[i - 1], blocks[i - 1]);
    }
  }

  /** Block i leaves the answer at the height it makes no lower than it found it. */
  predicate KeepsAnswerAt(states: seq<State>, blocks: seq<BlockAdded>, i: nat)
    requires IsRun(states, blocks) && i < |blocks|
  {
    var h := blocks[i].height + 1;
    NotBelow(Immutable(states[i].rows, h), Immutable(states[i + 1].rows, h))
  }

  /** Over every run, no block lowers the answer exactly when every checkpoint is harmless. */
  lemma {:induction false} RunKeepsAnswersIff(states: seq<State>, blocks: seq<BlockAdded>)
    requires IsRun(states, blocks)
    ensures (forall i: nat :: i < |blocks| ==> KeepsAnswerAt(states, blocks, i)) <==>
      (forall i: nat :: i < |blocks| ==> Harmless(states[i], blocks[i]))
  {
    forall i: nat | i < |blocks| ensures KeepsAnswerAt(states, blocks, i) <==> Harmless(states[i], blocks[i]) {
      RunValid(states, blocks, i);
      BlockKeepsAnswerIff(states[i], blocks[i]);
    }
  }

  lemma NotBelowTwice(a: Option<Checkpoint>, b: Option<Checkpoint>, c: Option<Checkpoint>)
    requires NotBelow(a, b) && NotBelow(b, c)
    ensures NotBelow(a, c)
  {
  }

  /** A harmless block at no lower a height. */
  lemma AnswerStep(s: State, b: BlockAdded, low: nat)
    requires Valid(s.rows) && InBounds(b) && Harmless(s, b) && low <= b.height + 1
    ensures NotBelow(Immutable(s.rows, low), Immutable(Step(s, b).rows, b.height + 1))
  {
    BlockKeepsAnswerIff(s, b);
    HigherNotBelow(s.rows, low, b.height + 1);
    NotBelowTwice(Immutable(s.rows, low), Immutable(s.rows, b.height + 1), Immutable(Step(s, b).rows, b.height + 1));
  }

  lemma HigherNotBelow(m: Rows, low: nat, high: nat)
    requires Valid(m) && low <= high
    ensures NotBelow(Immutable(m, low), Immutable(m, high))
  {
    if Immutable(m, low).Some? {
      ImmutableGrowsWithHeight(m, low, high);
    }
  }

  /** The answer at the chain height after the first n blocks. */
  function AnswerAfter(states: seq<State>, blocks: seq<BlockAdded>, n: nat): Option<Checkpoint>
    requires IsRun(states, blocks) && 0 < n <= |blocks|
  {
    Immutable(states[n].rows, blocks[n - 1].height + 1)
  }

  lemma AnswerAfterStep(states: seq<State>, blocks: seq<BlockAdded>, n: nat)
    requires IsRun(states, blocks) && 0 < n < |blocks|
    requires Harmless(states[n], blocks[n]) && blocks[n - 1].height <= blocks[n].height
    ensures NotBelow(AnswerAfter(states, blocks, n), AnswerAfter(states, blocks, n + 1))
  {
    RunValid(states, blocks, n);
    AnswerStep(states[n], blocks[n], blocks[n - 1].height + 1);
  }

  lemma {:induction false} NeverBelow(answers: seq<Option<Checkpoint>>, m: nat, n: nat)
    requires m <= n < |answers|
    requires forall i :: 0 <= i < |answers| - 1 ==> NotBelow(answers[i], answers[i + 1])
    ensures NotBelow(answers[m], answers[n])
    decreases n
  {
    if m < n {
      NeverBelow(answers, m, n - 1);
      assert NotBelow(answers[n - 1], answers[n - 1 + 1]);
      NotBelowTwice(answers[m], answers[n - 1], answers[n]);
    }
  }

  /** The answers after each block. */
  function Answers(states: seq<State>, blocks: seq<BlockAdded>): (r: seq<Option<Checkpoint>>)
    requires IsRun(states, blocks)
    ensures |r| == |blocks|
  {
    seq(|blocks|, i requires 0 <= i < |blocks| && IsRun(states, blocks) => AnswerAfter(states, blocks, i + 1))
  }

  /** At rising heights and with harmless checkpoints, the immutable height never falls and
      never disappears along the run. */
  lemma {:induction false} RunAnswersRise(states: seq<State>, blocks: seq<BlockAdded>, m: nat, n: nat)
    requires IsRun(states, blocks) && m <= n < |blocks|
    requires forall i, j :: 0 <= i < j < |blocks| ==> blocks[i].height <= blocks[j].height
    requires forall i: nat :: i < |blocks| ==> Harmless(states[i], blocks[i])
    ensures NotBelow(Answers(states, blocks)[m], Answers(states, blocks)[n])
  {
    var answers := Answers(states, blocks);
    forall i | 0 <= i < |answers| - 1 ensures NotBelow(answers[i], answers[i + 1]) {
      AnswerAfterStep(states, blocks, i + 1);
    }
    NeverBelow(answers, m, n);
  }

  /** A service node checkpoint recorded over a hard-coded one takes the answer away. */
  lemma RecordingCanTakeAnswerAway()
    ensures var s := State(map[60 := Checkpoint(60, 0, 0)], 0);
      var b := BlockAdded(60, HF12_CHECKPOINTING, Some(Checkpoint(60, 0, 7)));
      && IsRun([s, Step(s, b)], [b])
      && !Harmless(s, b)
      && !KeepsAnswerAt([s, Step(s, b)], [b], 0)
  {
    var s := State(map[60 := Checkpoint(60, 0, 0)], 0);
    var b := BlockAdded(60, HF12_CHECKPOINTING, Some(Checkpoint(60, 0, 7)));
    var culled := AfterCull(s.rows, s.lastCull, 61);
    TopRow(s.rows, 61, 60);
    CullKeepsAnswers(s.rows, s.lastCull, 61);
    assert 60 in culled;
    TopRow(culled, 61, 60);
    HarmlessRecorded(s, b, culled);
    BlockKeepsAnswerIff(s, b);
  }
}
