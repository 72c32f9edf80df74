/** The checkpoint table walked by height and cursor, and the checkpoint rules built on it. */
module Checkpoints {
  import opened Wrappers
  import opened CheckpointSpec

  const GET_ALL_CHECKPOINTS: nat := 0
  const MAX_COUNT: nat := 0xFFFF_FFFF_FFFF_FFFF

  class Table {
    var rows: Rows
    /** The height up to which old checkpoints were culled. */
    var lastCull: nat
    /** The highest immutable height ever seen. */
    var immutableHeight: nat

    constructor ()
      ensures rows == map[] && lastCull == 0 && immutableHeight == 0
    {
      rows, lastCull, immutableHeight := map[], 0, 0;
    }

    /** The first row met going down, one height at a time. */
    method FirstDown(from: nat, goal: nat) returns (k: Option<nat>)
      requires goal <= from
      ensures k == var r := AtOrBelow(rows, from); if r.Some? && r.value >= goal then r else None
    {
      var height := from;
      while height != goal
        invariant goal <= height <= from
        invariant AtOrBelow(rows, from) == AtOrBelow(rows, height)
        decreases height - goal
      {
        if height in rows {
          return Some(height);
        }
        height := height - 1;
      }
      k := if goal in rows then Some(goal) else None;
    }

    /** The first row met going up, one height at a time. */
    method FirstUp(from: nat, goal: nat) returns (k: Option<nat>)
      requires from <= goal <= MAX_HEIGHT
      ensures k == var r := AtOrAbove(rows, from); if r.Some? && r.value <= goal then r else None
    {
      var height := from;
      while height != goal
        invariant from <= height <= goal
        invariant AtOrAbove(rows, from) == AtOrAbove(rows, height)
        decreases goal - height
      {
        if height in rows {
          return Some(height);
        }
        height := height + 1;
      }
      k := if goal in rows then Some(goal) else None;
    }

    /** Moves the cursor down from row k to the start of the table, taking the rows in range. */
    method CollectDown(k: nat, goal: nat, limit: nat) returns (result: seq<Checkpoint>)
      requires k in rows && goal <= k && limit > 0
      ensures result == Down(rows, k, goal, limit)
    {
      result := [rows[k]];
      var cursor: nat := k;
      while |result| < limit
        invariant 0 < |result| <= limit && cursor <= k
        invariant Down(rows, k, goal, limit) == result + DownBelow(rows, cursor, goal, limit - |result|)
        decreases cursor
      {
        var prev := if cursor == 0 then None else AtOrBelow(rows, cursor - 1);
        if prev.None? {
          break;
        }
        cursor := prev.value;
        if cursor >= goal && cursor <= k {
          result := result + [rows[cursor]];
        } else {
          NothingBelow(rows, cursor, goal, limit - |result|);
        }
      }
    }

    /** Moves the cursor up from row k to the end of the table, taking the rows in range. */
    method CollectUp(k: nat, goal: nat, limit: nat) returns (result: seq<Checkpoint>)
      requires Valid(rows) && k in rows && k <= goal && limit > 0
      ensures result == Up(rows, k, goal, limit)
    {
      result := [rows[k]];
      var cursor: nat := k;
      while |result| < limit
        invariant 0 < |result| <= limit && k <= cursor && cursor in rows
        invariant Up(rows, k, goal, limit) == result + Up(rows, cursor + 1, goal, limit - |result|)
        decreases MAX_HEIGHT - cursor
      {
        var next := AtOrAbove(rows, cursor + 1);
        if next.None? {
          break;
        }
        cursor := next.value;
        if cursor >= k && cursor <= goal {
          result := result + [rows[cursor]];
        } else {
          NothingAbove(rows, cursor, goal, limit - |result|);
        }
      }
    }

    /** A count of zero asks for every checkpoint. */
    method GetCheckpointsRange(start: nat, end: nat, count: nat) returns (result: seq<Checkpoint>)
      requires Valid(rows)
      ensures result == Range(rows, start, end, if count == GET_ALL_CHECKPOINTS then MAX_COUNT else count)
    {
      result := [];
      var bottom, top := AtOrAbove(rows, 0), AtOrBelow(rows, MAX_HEIGHT);
      if bottom.None? || top.None? {
        return;
      }
      var limit := if count == GET_ALL_CHECKPOINTS then MAX_COUNT else count;
      var from, goal := Clamp(start, bottom.value, top.value), Clamp(end, bottom.value, top.value);
      if from > goal {
        var k := FirstDown(from, goal);
        DownFromFirst(rows, from, goal, limit);
        if k.Some? {
          result := CollectDown(k.value, goal, limit);
        }
      } else {
        var k := FirstUp(from, goal);
        UpFromFirst(rows, from, goal, limit);
        if k.Some? {
          result := CollectUp(k.value, goal, limit);
        }
      }
    }

    method GetImmutableCheckpoint(height: nat) returns (r: Option<Checkpoint>)
      requires Valid(rows)
      ensures r == Immutable(rows, height)
      ensures Correct(rows, height, r) <==> !AnswersTooHigh(rows, height)
    {
      ImmutableCorrectIff(rows, height);
      RangeGivesImmutable(rows, height);
      var checkpoints := GetCheckpointsRange(height, 0, CHECKPOINTS_FOR_FINALITY);
      if checkpoints == [] {
        return None;
      }
      if !checkpoints[0].Hardcoded() {
        if |checkpoints| == CHECKPOINTS_FOR_FINALITY {
          return Some(checkpoints[1]);
        }
        return None;
      }
      r := Some(checkpoints[0]);
    }

    /** Culls below the immutable checkpoint, then records the block's own checkpoint. */
    method BlockAdd(height: nat, majorVersion: nat, checkpoint: Option<Checkpoint>)
      requires Valid(rows) && (checkpoint.Some? ==> checkpoint.value.height <= MAX_HEIGHT)
      modifies this`rows, this`lastCull
      ensures rows == AfterBlock(old(rows), old(lastCull), height, majorVersion, checkpoint)
      ensures Valid(rows)
      ensures lastCull == LastCullAfter(old(rows), old(lastCull), height, majorVersion)
    {
      if height < STORE_PERSISTENTLY_INTERVAL || majorVersion < HF12_CHECKPOINTING {
        return;
      }
      CullBelowImmutable(height + 1);
      if checkpoint.Some? {
        rows := Put(rows, checkpoint.value);
      }
    }

    method CullBelowImmutable(height: nat)
      requires Valid(rows)
      modifies this`rows, this`lastCull
      ensures Valid(rows) && rows == AfterCull(old(rows), old(lastCull), height)
      ensures var end := CullEnd(old(rows), height);
        lastCull == CullStop(CullStart(old(lastCull), end), end)
    {
      var immutable := GetImmutableCheckpoint(height);
      var end := if immutable.Some? then immutable.value.height else 0;
      lastCull := CullStart(lastCull, end);
      CullTo(end);
    }

    method CullTo(end: nat)
      requires Valid(rows)
      modifies this`rows, this`lastCull
      ensures Valid(rows) && rows == Cull(old(rows), old(lastCull), end)
      ensures lastCull == CullStop(old(lastCull), end)
    {
      while lastCull < end
        invariant Valid(rows)
        invariant Cull(old(rows), old(lastCull), end) == Cull(rows, lastCull, end)
        invariant CullStop(old(lastCull), end) == CullStop(lastCull, end)
        decreases end - lastCull
      {
        if lastCull % STORE_PERSISTENTLY_INTERVAL != 0 {
          rows := Remove(rows, lastCull);
        }
        lastCull := lastCull + CHECKPOINT_INTERVAL;
      }
    }

    /** Height zero is refused, and with no checkpoint at or below the chain height any other
        block is allowed.  Otherwise a block is refused exactly when a final checkpoint, now or
        at an earlier call, is at or above it.  `serviceNode` says that the answer found now is
        a service node checkpoint. */
    method IsAlternativeBlockAllowed(chainHeight: nat, blockHeight: nat) returns (allowed: bool, serviceNode: bool)
      requires Valid(rows)
      modifies this`immutableHeight
      ensures blockHeight == 0 ==> !allowed
      ensures blockHeight > 0 && AtOrBelow(rows, chainHeight).None? ==> allowed
      ensures blockHeight == 0 || AtOrBelow(rows, chainHeight).None? ==>
        !serviceNode && immutableHeight == old(immutableHeight)
      ensures blockHeight > 0 && AtOrBelow(rows, chainHeight).Some? ==>
        && (allowed <==>
              && blockHeight > old(immutableHeight)
              && forall h: nat :: Final(rows, chainHeight, h) ==> h < blockHeight)
        && (serviceNode <==> exists h: nat :: Highest(rows, chainHeight, h) && !rows[h].Hardcoded())
        && immutableHeight >= old(immutableHeight)
        && (forall h: nat :: Final(rows, chainHeight, h) ==> h <= immutableHeight)
        && (immutableHeight == old(immutableHeight) || Final(rows, chainHeight, immutableHeight))
    {
      allowed, serviceNode := false, false;
      if blockHeight == 0 {
        return;
      }
      var first := GetCheckpointsRange(0, chainHeight, 1);
      FirstOfRange(rows, chainHeight);
      if first == [] || chainHeight < first[0].height {
        return true, false;
      }
      var immutable := GetImmutableCheckpoint(chainHeight);
      assert Correct(rows, chainHeight, immutable);
      var height := 0;
      if immutable.Some? {
        height := immutable.value.height;
        assert Highest(rows, chainHeight, height);
        serviceNode := !immutable.value.Hardcoded();
      }
      if immutableHeight < height {
        immutableHeight := height;
      }
      allowed := blockHeight > immutableHeight;
    }
  }

  lemma DownFromFirst(m: Rows, from: nat, goal: nat, limit: nat)
    ensures Down(m, from, goal, limit) ==
      match AtOrBelow(m, from)
      case None => []
      case Some(k) => if k < goal then [] else Down(m, k, goal, limit)
  {
  }

  lemma UpFromFirst(m: Rows, from: nat, goal: nat, limit: nat)
    ensures Up(m, from, goal, limit) ==
      match AtOrAbove(m, from)
      case None => []
      case Some(k) => if k > goal then [] else Up(m, k, goal, limit)
  {
    if AtOrAbove(m, from).Some? {
      assert AtOrAbove(m, AtOrAbove(m, from).value) == AtOrAbove(m, from);
    }
  }

  lemma NothingBelow(m: Rows, cursor: nat, goal: nat, limit: nat)
    requires cursor in m && cursor < goal
    ensures Down(m, cursor, goal, limit) == [] && DownBelow(m, cursor, goal, limit) == []
  {
  }

  lemma NothingAbove(m: Rows, cursor: nat, goal: nat, limit: nat)
    requires cursor in m && cursor > goal
    ensures Up(m, cursor, goal, limit) == [] && Up(m, cursor + 1, goal, limit) == []
  {
  }

  lemma FirstOfRange(m: Rows, height: nat)
    requires Valid(m)
    ensures Range(m, 0, height, 1) ==
      match AtOrAbove(m, 0)
      case None => []
      case Some(bottom) => [m[bottom]]
  {
    if m != map[] {
      var any :| any in m;
      assert AtOrBelow(m, MAX_HEIGHT).Some?;
    }
  }
}
