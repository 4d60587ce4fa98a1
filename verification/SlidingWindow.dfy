/** The sliding-window limiter: one Lua script over a sorted set whose scores are
    request times. Clock readings are Unix times, so never negative. */
module SlidingWindow {
  import opened Prelude
  import opened WindowLimits

  /** A sorted-set member: the text the script makes of the time and a random
      suffix. Two requests may draw the same text, even at different times: Lua
      prints the time with limited precision. */
  type Member = nat

  /** The stored key: each member's score, and the key's expiry. */
  datatype Zset = Zset(scores: map<Member, real>, until: real)

  function MemberOf(call: Call): Member {
    call.tag
  }

  /** What Redis still holds under the key at time `now`. */
  function Live(key: Option<Zset>, now: real): map<Member, real> {
    if key.None? || now >= key.value.until then map[] else key.value.scores
  }

  function Trimmed(scores: map<Member, real>, upTo: real): map<Member, real> {
    map m | m in scores && !(0.0 <= scores[m] <= upTo) :: scores[m]
  }

  /** The key after one evaluation of the script. Adding a member that is there
      already moves its score. */
  function Stored(span: int, key: Option<Zset>, call: Call): Zset {
    Zset(Trimmed(Live(key, call.at), call.at - span as real)[MemberOf(call) := call.at], call.at + span as real)
  }

  /** The script's four Redis commands on one key. */
  class Script {
    var key: Option<Zset>

    constructor ()
      ensures key == None
    {
      key := None;
    }

    method Eval(call: Call, span: int) returns (count: nat, over: bool)
      modifies this
      ensures key == Some(Stored(span, old(key), call))
      ensures count == |Stored(span, old(key), call).scores| && over == (count > call.limit)
    {
      var scores := Live(key, call.at);
      scores := Trimmed(scores, call.at - span as real);   // zremrangebyscore
      scores := scores[MemberOf(call) := call.at];         // zadd
      count := |scores|;                                   // zcard
      key := Some(Zset(scores, call.at + span as real));   // expire
      over := count > call.limit;
    }
  }

  // ----- histories -----

  ghost predicate Timed(calls: seq<Call>) {
    Clocked(calls) && forall i :: 0 <= i < |calls| ==> calls[i].at >= 0.0
  }

  ghost function KeyAfter(span: int, calls: seq<Call>): Option<Zset> {
    if calls == [] then None
    else Some(Stored(span, KeyAfter(span, calls[..|calls| - 1]), calls[|calls| - 1]))
  }

  /** The reference: a log of every attempt, never trimmed or expired. These are
      its members among the first `n` calls that are later than `cutoff`. */
  ghost function LogMembers(calls: seq<Call>, n: nat, cutoff: real): set<Member>
    requires n <= |calls|
  {
    if n == 0 then {}
    else LogMembers(calls, n - 1, cutoff) + if calls[n - 1].at > cutoff then {MemberOf(calls[n - 1])} else {}
  }

  /** The log as call `i` sees it: the last `span` seconds, and the call itself. */
  ghost function LogWindow(span: int, calls: seq<Call>, i: nat): set<Member>
    requires i < |calls|
  {
    LogMembers(calls, i, calls[i].at - span as real) + {MemberOf(calls[i])}
  }

  /** The log's members with the times of their last attempts. */
  ghost function LogScores(calls: seq<Call>, n: nat, cutoff: real): map<Member, real>
    requires n <= |calls|
  {
    if n == 0 then map[]
    else if calls[n - 1].at > cutoff then LogScores(calls, n - 1, cutoff)[MemberOf(calls[n - 1]) := calls[n - 1].at]
    else LogScores(calls, n - 1, cutoff)
  }

  ghost function WindowScores(span: int, calls: seq<Call>, i: nat): map<Member, real>
    requires i < |calls|
  {
    LogScores(calls, i, calls[i].at - span as real)[MemberOf(calls[i]) := calls[i].at]
  }

  lemma {:induction false} ScoredAreLogged(calls: seq<Call>, n: nat, cutoff: real)
    requires n <= |calls|
    ensures LogScores(calls, n, cutoff).Keys == LogMembers(calls, n, cutoff)
  {
    if n > 0 {
      ScoredAreLogged(calls, n - 1, cutoff);
    }
  }

  lemma {:induction false} ScoresArePast(calls: seq<Call>, n: nat, cutoff: real, now: real)
    requires Timed(calls) && n <= |calls| && forall k :: 0 <= k < n ==> calls[k].at <= now
    ensures forall m :: m in LogScores(calls, n, cutoff) ==> 0.0 <= LogScores(calls, n, cutoff)[m] <= now
  {
    if n > 0 {
      ScoresArePast(calls, n - 1, cutoff, now);
    }
  }

  /** Trimming the log at a later cutoff is reading it at that cutoff. */
  lemma {:induction false} TrimIsLaterCutoff(calls: seq<Call>, n: nat, cutoff: real, later: real)
    requires Timed(calls) && n <= |calls| && cutoff <= later
    ensures Trimmed(LogScores(calls, n, cutoff), later) == LogScores(calls, n, later)
  {
    if n > 0 {
      if calls[n - 1].at > later {
        TrimIsLaterCutoff(calls, n - 1, cutoff, later);
      } else {
        assert forall k :: 0 <= k < n ==> calls[k].at <= calls[n - 1].at;
        ScoresArePast(calls, n, cutoff, later);
        NothingAfterCutoff(calls, n, later);
      }
    }
  }

  /** Nothing in the log is later than a cutoff that no attempt exceeds. */
  lemma {:induction false} NothingAfterCutoff(calls: seq<Call>, n: nat, cutoff: real)
    requires n <= |calls| && forall k :: 0 <= k < n ==> calls[k].at <= cutoff
    ensures LogScores(calls, n, cutoff) == map[]
  {
    if n > 0 {
      NothingAfterCutoff(calls, n - 1, cutoff);
    }
  }

  /** Reading the previous call's window at this call's cutoff gives this call's log. */
  lemma TrimPreviousWindow(span: int, calls: seq<Call>, i: nat)
    requires Timed(calls) && 0 < i < |calls|
    ensures Trimmed(WindowScores(span, calls, i - 1), calls[i].at - span as real)
         == LogScores(calls, i, calls[i].at - span as real)
  {
    var before, now := calls[i - 1].at - span as real, calls[i].at - span as real;
    assert calls[i - 1].at <= calls[i].at;
    if calls[i - 1].at > now {
      TrimIsLaterCutoff(calls, i - 1, before, now);
    } else {
      assert forall k :: 0 <= k < i ==> calls[k].at <= calls[i - 1].at;
      ScoresArePast(calls, i - 1, before, now);
      NothingAfterCutoff(calls, i, now);
    }
  }

  /** Once the key has expired, the log has nothing left inside the window either. */
  lemma ExpiredMeansEmpty(span: int, calls: seq<Call>, i: nat)
    requires Timed(calls) && 0 < i < |calls| && calls[i].at >= calls[i - 1].at + span as real
    ensures LogScores(calls, i, calls[i].at - span as real) == map[]
  {
    forall k | 0 <= k < i ensures calls[k].at <= calls[i].at - span as real {
      assert calls[k].at <= calls[i - 1].at;
    }
    NothingAfterCutoff(calls, i, calls[i].at - span as real);
  }

  lemma KeyStep(span: int, calls: seq<Call>, i: nat)
    requires i < |calls|
    ensures KeyAfter(span, calls[..i + 1]) == Some(Stored(span, KeyAfter(span, calls[..i]), calls[i]))
  {
    assert calls[..i + 1][..i] == calls[..i];
  }

  /** What is left of the previous window after EXPIRE and trimming is the log. */
  lemma TrimLivePart(span: int, calls: seq<Call>, i: nat)
    requires Timed(calls) && 0 < i < |calls|
    ensures var key := Some(Zset(WindowScores(span, calls, i - 1), calls[i - 1].at + span as real));
            var cutoff := calls[i].at - span as real;
            Trimmed(Live(key, calls[i].at), cutoff) == LogScores(calls, i, cutoff)
  {
    if calls[i].at >= calls[i - 1].at + span as real {
      ExpiredMeansEmpty(span, calls, i);
    } else {
      TrimPreviousWindow(span, calls, i);
    }
  }

  /** Trimming by score and the key's EXPIRE never change an answer: the stored
      set is the full attempt log restricted to the window. */
  lemma {:induction false} ExpiryIsInvisible(span: int, calls: seq<Call>, i: nat)
    requires Timed(calls) && i < |calls|
    ensures KeyAfter(span, calls[..i + 1]) == Some(Zset(WindowScores(span, calls, i), calls[i].at + span as real))
  {
    KeyStep(span, calls, i);
    if i == 0 {
      assert calls[..0] == [];
    } else {
      ExpiryIsInvisible(span, calls, i - 1);
      TrimLivePart(span, calls, i);
    }
  }

  ghost predicate SlidingAllowed(span: int, calls: seq<Call>, i: nat)
    requires i < |calls|
  {
    |Stored(span, KeyAfter(span, calls[..i]), calls[i]).scores| <= calls[i].limit
  }

  /** The decision, read off the attempt log. */
  lemma AllowedByLog(span: int, calls: seq<Call>, i: nat)
    requires Timed(calls) && i < |calls|
    ensures SlidingAllowed(span, calls, i) <==> |LogWindow(span, calls, i)| <= calls[i].limit
  {
    ExpiryIsInvisible(span, calls, i);
    KeyStep(span, calls, i);
    ScoredAreLogged(calls, i, calls[i].at - span as real);
    assert WindowScores(span, calls, i).Keys == LogWindow(span, calls, i);
    assert |WindowScores(span, calls, i)| == |WindowScores(span, calls, i).Keys|;
  }

  /** A half-open span of one window length, open on either side. */
  ghost predicate InHalfOpen(span: int, from: real, at: real, closedLeft: bool) {
    if closedLeft then from <= at < from + span as real else from < at <= from + span as real
  }

  ghost predicate Counts(span: int, calls: seq<Call>, i: nat, limit: int, from: real, closedLeft: bool)
    requires i < |calls|
  {
    SlidingAllowed(span, calls, i) && calls[i].limit <= limit && InHalfOpen(span, from, calls[i].at, closedLeft)
  }

  /** Which calls count: one flag per call. */
  ghost function Picks(span: int, calls: seq<Call>, limit: int, from: real, closedLeft: bool): seq<bool> {
    seq(|calls|, i requires 0 <= i < |calls| => Counts(span, calls, i, limit, from, closedLeft))
  }

  ghost function Picked(pick: seq<bool>, n: nat): nat
    requires n <= |pick|
  {
    if n == 0 then 0 else Picked(pick, n - 1) + if pick[n - 1] then 1 else 0
  }

  /** Requests admitted in the span under a limit of at most `limit`. */
  ghost function AdmittedInSlidingSpan(span: int, calls: seq<Call>, limit: int, from: real, closedLeft: bool): nat {
    Picked(Picks(span, calls, limit, from, closedLeft), |calls|)
  }

  /** The distinct members of the picked calls. */
  ghost function PickedMembers(calls: seq<Call>, pick: seq<bool>, n: nat): set<Member>
    requires n <= |calls| == |pick|
  {
    if n == 0 then {}
    else if pick[n - 1] then PickedMembers(calls, pick, n - 1) + {MemberOf(calls[n - 1])}
    else PickedMembers(calls, pick, n - 1)
  }

  ghost predicate AllAfter(calls: seq<Call>, pick: seq<bool>, n: nat, cutoff: real)
    requires n <= |calls| == |pick|
  {
    forall k :: 0 <= k < n && pick[k] ==> calls[k].at > cutoff
  }

  lemma {:induction false} PickedIsInLog(calls: seq<Call>, pick: seq<bool>, n: nat, cutoff: real)
    requires n <= |calls| == |pick| && AllAfter(calls, pick, n, cutoff)
    ensures PickedMembers(calls, pick, n) <= LogMembers(calls, n, cutoff)
  {
    if n > 0 {
      PickedIsInLog(calls, pick, n - 1, cutoff);
    }
  }

  /** Call `i` sees every earlier picked call in its log window, which holds at
      most `limit` members. */
  ghost predicate SeesPicked(span: int, calls: seq<Call>, pick: seq<bool>, i: nat, limit: int)
    requires i < |calls| == |pick|
  {
    |LogWindow(span, calls, i)| <= limit && AllAfter(calls, pick, i, calls[i].at - span as real)
  }

  lemma PickedInWindow(span: int, calls: seq<Call>, pick: seq<bool>, i: nat, limit: int)
    requires i < |calls| == |pick| && pick[i] && SeesPicked(span, calls, pick, i, limit)
    ensures |PickedMembers(calls, pick, i + 1)| <= limit
  {
    PickedIsInLog(calls, pick, i, calls[i].at - span as real);
    assert PickedMembers(calls, pick, i + 1) <= LogWindow(span, calls, i);
    SubsetSize(PickedMembers(calls, pick, i + 1), LogWindow(span, calls, i));
  }

  /** If that holds of every picked call, so many members are picked at most. */
  lemma {:induction false} PickedAtMost(span: int, calls: seq<Call>, pick: seq<bool>, n: nat, limit: int)
    requires n <= |calls| == |pick|
    requires forall i :: 0 <= i < n && pick[i] ==> SeesPicked(span, calls, pick, i, limit)
    ensures |PickedMembers(calls, pick, n)| <= Max(0, limit)
  {
    if n > 0 {
      if pick[n - 1] {
        PickedInWindow(span, calls, pick, n - 1, limit);
      } else {
        PickedAtMost(span, calls, pick, n - 1, limit);
      }
    }
  }

  /** Without any assumption on the random suffixes: at most `limit` distinct
      members are admitted in a half-open span of one window length. */
  lemma AtMostLimitMembers(span: int, calls: seq<Call>, limit: int, from: real, closedLeft: bool)
    requires Timed(calls)
    ensures |PickedMembers(calls, Picks(span, calls, limit, from, closedLeft), |calls|)| <= Max(0, limit)
  {
    var pick := Picks(span, calls, limit, from, closedLeft);
    forall i | 0 <= i < |calls| && pick[i]
      ensures SeesPicked(span, calls, pick, i, limit)
    {
      AllowedByLog(span, calls, i);
      forall k | 0 <= k < i && pick[k] ensures calls[k].at > calls[i].at - span as real {
        assert Counts(span, calls, k, limit, from, closedLeft);
      }
    }
    PickedAtMost(span, calls, pick, |calls|, limit);
  }

  ghost predicate DistinctMembers(calls: seq<Call>) {
    forall i, j :: 0 <= i < j < |calls| ==> MemberOf(calls[i]) != MemberOf(calls[j])
  }

  lemma {:induction false} NotPickedYet(calls: seq<Call>, pick: seq<bool>, n: nat, m: Member)
    requires n <= |calls| == |pick| && forall k :: 0 <= k < n ==> MemberOf(calls[k]) != m
    ensures m !in PickedMembers(calls, pick, n)
  {
    if n > 0 {
      NotPickedYet(calls, pick, n - 1, m);
    }
  }

  lemma AddNew(rest: set<Member>, m: Member)
    requires m !in rest
    ensures |rest + {m}| == |rest| + 1
  {
  }

  lemma {:induction false} RequestsAreMembers(calls: seq<Call>, pick: seq<bool>, n: nat)
    requires n <= |calls| == |pick| && DistinctMembers(calls)
    ensures Picked(pick, n) == |PickedMembers(calls, pick, n)|
  {
    if n > 0 {
      RequestsAreMembers(calls, pick, n - 1);
      var m := MemberOf(calls[n - 1]);
      NotPickedYet(calls, pick, n - 1, m);
      AddNew(PickedMembers(calls, pick, n - 1), m);
    }
  }

  /** With distinct members, at most `limit` requests pass in every half-open
      span of one window length. */
  lemma AtMostLimitPerSpan(span: int, calls: seq<Call>, limit: int, from: real, closedLeft: bool)
    requires Timed(calls) && DistinctMembers(calls)
    ensures AdmittedInSlidingSpan(span, calls, limit, from, closedLeft) <= Max(0, limit)
  {
    RequestsAreMembers(calls, Picks(span, calls, limit, from, closedLeft), |calls|);
    AtMostLimitMembers(span, calls, limit, from, closedLeft);
  }

  /** Two requests that draw the same member, at one instant or at two, both pass
      under a limit of one: distinctness is needed. */
  lemma SharedMemberPassesTwice(first: real, second: real)
    requires 0.0 <= first <= second < 60.0
    ensures exists calls: seq<Call> ::
              Timed(calls) && |calls| == 2 && calls[0].at == first && calls[1].at == second
              && AdmittedInSlidingSpan(60, calls, 1, 0.0, true) == 2
  {
    var calls := [Call(first, 1, 7), Call(second, 1, 7)];
    var cutoff := second - 60.0;
    assert LogMembers(calls, 0, first - 60.0) == {} && LogMembers(calls, 0, cutoff) == {};
    assert LogMembers(calls, 1, cutoff) == {7};
    assert LogWindow(60, calls, 0) == {7} && LogWindow(60, calls, 1) == {7};
    AllowedByLog(60, calls, 0);
    AllowedByLog(60, calls, 1);
    var pick := Picks(60, calls, 1, 0.0, true);
    assert pick == [true, true];
    assert Picked(pick, 1) == 1 && Picked(pick, 2) == 2;
    assert AdmittedInSlidingSpan(60, calls, 1, 0.0, true) == 2;
  }
}
