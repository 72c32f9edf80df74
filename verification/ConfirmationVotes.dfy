/**
 * The simulated votes on a state change: successive quorums confirm it, deny it or fail to
 * produce a block, until one score dominates the other or, in one variant, time runs out.
 * The random draws are inputs, and doubles are reals.
 */
module ConfirmationVotes {
  const V: nat := 11
  const V_REQ: nat := 7
  const V_DISRUPT: nat := V - V_REQ + 1
  const BLOCK_LIMIT: nat := 30

  /** Whether the leader is the adversary's, and how many of the eleven validators are. */
  datatype RawDraw = Draw(leader: bool, validators: nat)
  type Draw = d: RawDraw | d.validators <= V witness Draw(false, 0)

  /** The three programs: a misled minority with a block limit, an adversary among the nodes
      with whole scores, and the same with scores that shrink in backup rounds. */
  datatype Variant = Rpc | SentWhole | SentDiminishing

  datatype Vote = Confirm | Deny | NoBlock

  function VoteOf(v: Variant, d: Draw): Vote {
    if d.leader && d.validators >= V_REQ then Confirm
    else if v.Rpc? then (if !d.leader && V - d.validators >= V_REQ then Deny else NoBlock)
    else (if d.validators >= V_DISRUPT then NoBlock else Deny)
  }

  /** `round` counts the failed quorums since the last block. */
  datatype Poll = Poll(confirm: real, deny: real, blocks: nat, round: nat)

  const START: Poll := Poll(1.0, 0.0, 1, 0)

  function Weight(v: Variant, round: nat): (w: real)
    ensures 0.0 < w <= 1.0
  {
    if v.SentWhole? then 1.0 else 1.0 / (1 + round) as real
  }

  predicate Contested(s: Poll) {
    || (-5.0 < s.confirm - s.deny < 5.0)
    || (s.confirm < 2.0 * s.deny && s.deny < 2.0 * s.confirm)
  }

  predicate Active(v: Variant, s: Poll) {
    (v.Rpc? ==> s.blocks <= BLOCK_LIMIT) && Contested(s)
  }

  function Step(v: Variant, s: Poll, d: Draw): Poll {
    match VoteOf(v, d)
    case Confirm => Poll(s.confirm + Weight(v, s.round), s.deny, s.blocks + 1, 0)
    case Deny => Poll(s.confirm, s.deny + Weight(v, s.round), s.blocks + 1, 0)
    case NoBlock => s.(round := s.round + 1)
  }

  function After(v: Variant, draws: seq<Draw>): Poll {
    if draws == [] then START else Step(v, After(v, draws[..|draws| - 1]), draws[|draws| - 1])
  }

  /** The loop takes all these draws. */
  predicate Runs(v: Variant, draws: seq<Draw>) {
    draws != [] ==> Runs(v, draws[..|draws| - 1]) && Active(v, After(v, draws[..|draws| - 1]))
  }

  /** The loop takes these draws and then stops. */
  predicate Finished(v: Variant, draws: seq<Draw>) {
    Runs(v, draws) && !Active(v, After(v, draws))
  }

  function Count(v: Variant, draws: seq<Draw>, vote: Vote): nat {
    if draws == [] then 0
    else Count(v, draws[..|draws| - 1], vote) + (if VoteOf(v, draws[|draws| - 1]) == vote then 1 else 0)
  }

  datatype Outcome = Success | Failure | LimitReached

  function OutcomeOf(v: Variant, s: Poll): Outcome {
    if v.Rpc? && s.blocks > BLOCK_LIMIT then LimitReached
    else if s.confirm > s.deny then Success
    else Failure
  }

  // ----- What a draw does

  /** A quorum confirms with the leader and seven validators.  Against it, with at most four of
      eleven validators, a misled network denies if the leader is honest too, and an adversary
      among the nodes cannot keep the honest ones from denying.  Otherwise there is no block. */
  lemma VoteMeans(v: Variant, d: Draw)
    ensures VoteOf(v, d) == Confirm <==> d.leader && d.validators >= 7
    ensures VoteOf(v, d) == Deny <==> d.validators <= 4 && (v == Rpc ==> !d.leader)
  {
  }

  lemma {:induction false} FailuresCount(v: Variant, before: seq<Draw>, fails: seq<Draw>)
    requires forall i :: 0 <= i < |fails| ==> VoteOf(v, fails[i]) == NoBlock
    ensures After(v, before + fails) == After(v, before).(round := After(v, before).round + |fails|)
    decreases |fails|
  {
    if fails == [] {
      assert before + fails == before;
    } else {
      var init := fails[..|fails| - 1];
      assert (before + fails)[..|before + fails| - 1] == before + init;
      FailuresCount(v, before, init);
    }
  }

  lemma FreshRound(v: Variant, draws: seq<Draw>)
    requires draws == [] || VoteOf(v, draws[|draws| - 1]) != NoBlock
    ensures After(v, draws).round == 0
  {
  }

  /** A block after r failed quorums adds to one score only: one point with whole scores, and
      otherwise a share of which 1 + r make a point. */
  lemma {:induction false} BlockAfterFailures(v: Variant, before: seq<Draw>, fails: seq<Draw>, d: Draw)
    returns (gain: real)
    requires before == [] || VoteOf(v, before[|before| - 1]) != NoBlock
    requires forall i :: 0 <= i < |fails| ==> VoteOf(v, fails[i]) == NoBlock
    requires VoteOf(v, d) != NoBlock
    ensures if v == SentWhole then gain == 1.0 else gain * (1 + |fails|) as real == 1.0
    ensures var s, s' := After(v, before), After(v, before + fails + [d]);
      && s'.blocks == s.blocks + 1 && s'.round == 0
      && s'.confirm == (if VoteOf(v, d) == Confirm then s.confirm + gain else s.confirm)
      && s'.deny == (if VoteOf(v, d) == Confirm then s.deny else s.deny + gain)
  {
    VoteAfterFailures(v, before, fails, d);
    OneVote(v, After(v, before).(round := |fails|), d);
    gain := Weight(v, |fails|);
    WeightShares(v, |fails|);
  }

  lemma VoteAfterFailures(v: Variant, before: seq<Draw>, fails: seq<Draw>, d: Draw)
    requires before == [] || VoteOf(v, before[|before| - 1]) != NoBlock
    requires forall i :: 0 <= i < |fails| ==> VoteOf(v, fails[i]) == NoBlock
    ensures After(v, before + fails + [d]) == Step(v, After(v, before).(round := |fails|), d)
  {
    FreshRound(v, before);
    FailuresCount(v, before, fails);
    assert (before + fails + [d])[..|before + fails|] == before + fails;
  }

  lemma OneVote(v: Variant, s: Poll, d: Draw)
    requires VoteOf(v, d) != NoBlock
    ensures var s', w := Step(v, s, d), Weight(v, s.round);
      && s'.blocks == s.blocks + 1 && s'.round == 0
      && s'.confirm == (if VoteOf(v, d) == Confirm then s.confirm + w else s.confirm)
      && s'.deny == (if VoteOf(v, d) == Confirm then s.deny else s.deny + w)
  {
  }

  lemma WeightShares(v: Variant, r: nat)
    ensures if v == SentWhole then Weight(v, r) == 1.0 else Weight(v, r) * (1 + r) as real == 1.0
  {
  }

  // ----- Invariants of every run

  /** Scores start at one and zero, each block adds at most one point to one of them, and the
      block count counts the votes. */
  lemma {:induction false} ScoresAndBlocks(v: Variant, draws: seq<Draw>)
    ensures var s := After(v, draws);
      && 1.0 <= s.confirm <= 1.0 + Count(v, draws, Confirm) as real
      && 0.0 <= s.deny <= Count(v, draws, Deny) as real
      && s.blocks == 1 + Count(v, draws, Confirm) + Count(v, draws, Deny)
      && s.confirm + s.deny <= s.blocks as real
    decreases |draws|
  {
    if draws != [] {
      ScoresAndBlocks(v, draws[..|draws| - 1]);
    }
  }

  /** With whole scores the scores are the vote counts. */
  lemma {:induction false} WholeScores(draws: seq<Draw>)
    ensures var s := After(SentWhole, draws);
      && s.confirm == (1 + Count(SentWhole, draws, Confirm)) as real
      && s.deny == Count(SentWhole, draws, Deny) as real
    decreases |draws|
  {
    if draws != [] {
      WholeScores(draws[..|draws| - 1]);
    }
  }

  // ----- Where a run stops

  function Max(a: real, b: real): real {
    if a < b then b else a
  }

  /** The score that dominates `lesser`: five more and twice as much. */
  function Boundary(lesser: real): real {
    Max(lesser + 5.0, 2.0 * lesser)
  }

  /** A poll that is settled has one score at or past its boundary. */
  lemma SettledIffDominated(s: Poll)
    requires s.confirm >= 1.0 && s.deny >= 0.0
    ensures !Contested(s) <==> s.confirm >= Boundary(s.deny) || s.deny >= Boundary(s.confirm)
  {
  }

  /** The step that settles a poll moves the winning score across its boundary by less than
      its own weight. */
  lemma SettlingStep(v: Variant, s: Poll, d: Draw)
    requires s.confirm >= 1.0 && s.deny >= 0.0 && Contested(s)
    requires !Contested(Step(v, s, d))
    ensures var s' := Step(v, s, d);
      if s'.confirm > s'.deny
      then VoteOf(v, d) == Confirm && Boundary(s'.deny) <= s'.confirm < Boundary(s'.deny) + Weight(v, s.round)
      else VoteOf(v, d) == Deny && Boundary(s'.confirm) <= s'.deny < Boundary(s'.confirm) + Weight(v, s.round)
  {
    SettledIffDominated(s);
    SettledIffDominated(Step(v, s, d));
  }

  /** In every finished run that the limit did not end, the winner is past its boundary by
      less than one point. */
  lemma {:induction false} OvershootBelowOne(v: Variant, draws: seq<Draw>)
    requires Finished(v, draws) && OutcomeOf(v, After(v, draws)) != LimitReached
    ensures var s := After(v, draws);
      if s.confirm > s.deny then Boundary(s.deny) <= s.confirm < Boundary(s.deny) + 1.0
      else Boundary(s.confirm) <= s.deny < Boundary(s.confirm) + 1.0
  {
    assert draws != [];
    var before, d := draws[..|draws| - 1], draws[|draws| - 1];
    ScoresAndBlocks(v, before);
    SettlingStep(v, After(v, before), d);
  }

  /** With whole scores every finished run stops exactly on the boundary. */
  lemma {:induction false} WholeStopsOnBoundary(draws: seq<Draw>)
    requires Finished(SentWhole, draws)
    ensures var s := After(SentWhole, draws);
      if s.confirm > s.deny then s.confirm == Boundary(s.deny) else s.deny == Boundary(s.confirm)
  {
    OvershootBelowOne(SentWhole, draws);
    WholeScores(draws);
    var yes, no := 1 + Count(SentWhole, draws, Confirm), Count(SentWhole, draws, Deny);
    WholeBoundary(yes, no);
    WholeBoundary(no, yes);
  }

  lemma WholeBoundary(winner: nat, lesser: nat)
    ensures Boundary(lesser as real) <= winner as real < Boundary(lesser as real) + 1.0
      ==> winner as real == Boundary(lesser as real)
  {
    assert lesser as real + 5.0 == (lesser + 5) as real;
    assert 2.0 * lesser as real == (lesser + lesser) as real;
    if lesser < 5 {
      NoIntegerBetween(lesser + 5, winner);
    } else {
      NoIntegerBetween(lesser + lesser, winner);
    }
  }

  lemma NoIntegerBetween(b: nat, w: nat)
    ensures b as real <= w as real < b as real + 1.0 ==> w == b
  {
    assert b as real + 1.0 == (b + 1) as real;
  }

  // ----- The bounded variant

  /** No run goes past the block limit by more than one block. */
  lemma {:induction false} BlocksBounded(draws: seq<Draw>)
    requires Runs(Rpc, draws)
    ensures After(Rpc, draws).blocks <= BLOCK_LIMIT + 1
    ensures After(Rpc, draws).confirm + After(Rpc, draws).deny <= After(Rpc, draws).blocks as real <= 31.0
  {
    ScoresAndBlocks(Rpc, draws);
    if draws != [] {
      ScoresAndBlocks(Rpc, draws[..|draws| - 1]);
    }
  }

  /** A success takes at least four confirming blocks after the first and a failure at least
      six denying ones; in both the winner has five points more and twice as many. */
  lemma {:induction false} WhatAnOutcomeTakes(v: Variant, draws: seq<Draw>)
    requires Finished(v, draws)
    ensures var s := After(v, draws);
      match OutcomeOf(v, s)
      case Success =>
        s.confirm >= s.deny + 5.0 && s.confirm >= 2.0 * s.deny && Count(v, draws, Confirm) >= 4
      case Failure =>
        s.deny >= s.confirm + 5.0 && s.deny >= 2.0 * s.confirm && Count(v, draws, Deny) >= 6
      case LimitReached => s.blocks == BLOCK_LIMIT + 1
    ensures OutcomeOf(v, After(v, draws)) == LimitReached <==> v == Rpc && After(v, draws).blocks == 31
  {
    ScoresAndBlocks(v, draws);
    SettledIffDominated(After(v, draws));
    if v.Rpc? {
      BlocksBounded(draws);
    }
  }

  lemma {:induction false} CountMeansDraw(v: Variant, draws: seq<Draw>, vote: Vote)
    requires Count(v, draws, vote) > 0
    ensures exists i :: 0 <= i < |draws| && VoteOf(v, draws[i]) == vote
    decreases |draws|
  {
    var n := |draws| - 1;
    if VoteOf(v, draws[n]) != vote {
      CountMeansDraw(v, draws[..n], vote);
      var i :| 0 <= i < n && VoteOf(v, draws[..n][i]) == vote;
      assert draws[i] == draws[..n][i];
    }
  }

  /** Without a quorum of his own, leader and seven validators, the adversary never succeeds. */
  lemma {:induction false} SuccessNeedsOwnedQuorum(v: Variant, draws: seq<Draw>)
    requires Finished(v, draws) && OutcomeOf(v, After(v, draws)) == Success
    ensures exists i :: 0 <= i < |draws| && draws[i].leader && draws[i].validators >= V_REQ
  {
    WhatAnOutcomeTakes(v, draws);
    CountMeansDraw(v, draws, Confirm);
    var i :| 0 <= i < |draws| && VoteOf(v, draws[i]) == Confirm;
  }

  /** When every quorum confirms, four blocks after the first settle it, whatever the variant. */
  lemma {:induction false} UnanimousTakesFiveBlocks(v: Variant, draws: seq<Draw>)
    requires Finished(v, draws) && forall i :: 0 <= i < |draws| ==> VoteOf(v, draws[i]) == Confirm
    ensures |draws| == 4 && After(v, draws) == Poll(5.0, 0.0, 5, 0)
  {
    UnanimousScores(v, draws);
    if |draws| > 0 {
      UnanimousScores(v, draws[..|draws| - 1]);
    }
  }

  lemma {:induction false} UnanimousScores(v: Variant, draws: seq<Draw>)
    requires forall i :: 0 <= i < |draws| ==> VoteOf(v, draws[i]) == Confirm
    ensures After(v, draws) == Poll(1.0 + |draws| as real, 0.0, 1 + |draws|, 0)
    decreases |draws|
  {
    if draws != [] {
      UnanimousScores(v, draws[..|draws| - 1]);
    }
  }

  // ----- The loops

  /** What a block after so many failed quorums is worth. */
  method Points(v: Variant, round: nat) returns (points: real)
    ensures points == Weight(v, round)
  {
    points := 1.0;
    if !v.SentWhole? {
      points := 1.0 / (1 + round) as real;
    }
  }

  /** Runs one poll on the draws from `from` on; `done` unless they ran out first. */
  method RunPoll(v: Variant, draws: seq<Draw>, from: nat) returns (s: Poll, next: nat, done: bool)
    requires from <= |draws|
    ensures from <= next <= |draws|
    ensures s == After(v, draws[from..next]) && Runs(v, draws[from..next])
    ensures done <==> Finished(v, draws[from..next])
    ensures !done ==> next == |draws|
  {
    var confirm, deny := 1.0, 0.0;
    var blocks, round := 1, 0;
    next := from;
    while
      && next < |draws|
      && (v.Rpc? ==> blocks <= BLOCK_LIMIT)
      && (-5.0 < confirm - deny < 5.0 || (confirm < 2.0 * deny && deny < 2.0 * confirm))
      invariant from <= next <= |draws|
      invariant Poll(confirm, deny, blocks, round) == After(v, draws[from..next]) && Runs(v, draws[from..next])
    {
      var d := draws[next];
      assert draws[from..next + 1][..next - from] == draws[from..next];
      if d.leader && d.validators >= V_REQ {
        var points := Points(v, round);
        confirm := confirm + points;
        blocks, round := blocks + 1, 0;
      } else if if v.Rpc? then !d.leader && V - d.validators >= V_REQ else d.validators < V_DISRUPT {
        var points := Points(v, round);
        deny := deny + points;
        blocks, round := blocks + 1, 0;
      } else {
        round := round + 1;
      }
      next := next + 1;
    }
    s := Poll(confirm, deny, blocks, round);
    done := !Active(v, s);
  }

  datatype Tally = Tally(successes: nat, failures: nat, limitFails: nat)

  /** The polls that a list of draws splits into, one after the other. */
  predicate Polls(v: Variant, runs: seq<seq<Draw>>) {
    forall i :: 0 <= i < |runs| ==> Finished(v, runs[i])
  }

  function Concat(runs: seq<seq<Draw>>): seq<Draw> {
    if runs == [] then [] else Concat(runs[..|runs| - 1]) + runs[|runs| - 1]
  }

  function Outcomes(v: Variant, runs: seq<seq<Draw>>, o: Outcome): nat {
    if runs == [] then 0
    else Outcomes(v, runs[..|runs| - 1], o) + (if OutcomeOf(v, After(v, runs[|runs| - 1])) == o then 1 else 0)
  }

  lemma {:induction false} OutcomesPartition(v: Variant, runs: seq<seq<Draw>>)
    ensures Outcomes(v, runs, Success) + Outcomes(v, runs, Failure) + Outcomes(v, runs, LimitReached) == |runs|
    ensures !v.Rpc? ==> Outcomes(v, runs, LimitReached) == 0
    decreases |runs|
  {
    if runs != [] {
      OutcomesPartition(v, runs[..|runs| - 1]);
    }
  }

  lemma OnePollMore(v: Variant, runs: seq<seq<Draw>>, run: seq<Draw>, o: Outcome)
    ensures Outcomes(v, runs + [run], o) == Outcomes(v, runs, o) + (if OutcomeOf(v, After(v, run)) == o then 1 else 0)
    ensures Concat(runs + [run]) == Concat(runs) + run
    ensures Polls(v, runs) && Finished(v, run) ==> Polls(v, runs + [run])
  {
    assert (runs + [run])[..|runs|] == runs;
  }

  /** Runs n polls one after the other and tallies them; `done` unless the draws ran out. */
  method RunSims(v: Variant, n: nat, draws: seq<Draw>) returns (t: Tally, runs: seq<seq<Draw>>, done: bool)
    ensures Polls(v, runs) && Concat(runs) <= draws
    ensures t == Tally(Outcomes(v, runs, Success), Outcomes(v, runs, Failure), Outcomes(v, runs, LimitReached))
    ensures done <==> |runs| == n
    ensures done ==> t.successes + t.failures + t.limitFails == n
    ensures |runs| <= n
  {
    t, runs, done := Tally(0, 0, 0), [], true;
    var at := 0;
    for i := 0 to n
      invariant |runs| == i && Polls(v, runs)
      invariant at <= |draws| && Concat(runs) == draws[..at]
      invariant t == Tally(Outcomes(v, runs, Success), Outcomes(v, runs, Failure), Outcomes(v, runs, LimitReached))
    {
      var s, next, finished := RunPoll(v, draws, at);
      if !finished {
        return t, runs, false;
      }
      var run := draws[at..next];
      assert draws[..next] == draws[..at] + run;
      OnePollMore(v, runs, run, Success);
      OnePollMore(v, runs, run, Failure);
      OnePollMore(v, runs, run, LimitReached);
      runs := runs + [run];
      if v.Rpc? && s.blocks > BLOCK_LIMIT {
        t := t.(limitFails := t.limitFails + 1);
      } else if s.confirm > s.deny {
        t := t.(successes := t.successes + 1);
      } else {
        t := t.(failures := t.failures + 1);
      }
      at := next;
    }
    OutcomesPartition(v, runs);
  }
}
