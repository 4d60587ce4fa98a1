/** The in-process circuit breaker. The class mirrors the source's object; the
    theorems quantify over every history of calls with a nondecreasing clock. */
module CircuitBreaker {
  import opened Prelude

  datatype Phase = Closed | Open | HalfOpen

  datatype Settings = Settings(failureThreshold: int, recoveryTimeout: real)

  datatype View = View(phase: Phase, failureCount: nat, openedAt: real, probeStartedAt: Option<real>)

  const FRESH := View(Closed, 0, 0.0, None)

  /** A call made on the breaker, with the clock reading at that moment. */
  datatype Call = Ask(at: real) | Success(at: real) | Failure(at: real)

  // ----- one call -----

  predicate Refuses(cfg: Settings, v: View, now: real) {
    match v.phase
    case Closed => false
    case Open => now - v.openedAt < cfg.recoveryTimeout
    case HalfOpen => v.probeStartedAt.Some? && now - v.probeStartedAt.value < cfg.recoveryTimeout
  }

  function After(cfg: Settings, v: View, call: Call): View {
    match call
    case Ask(now) =>
      if v.phase.Closed? || Refuses(cfg, v, now) then v
      else v.(phase := HalfOpen, probeStartedAt := Some(now))
    case Success(_) =>
      if v.phase.HalfOpen? then v.(failureCount := 0, probeStartedAt := None, phase := Closed)
      else v.(failureCount := 0)
    case Failure(now) =>
      var count := v.failureCount + 1;
      if v.phase.HalfOpen? || count >= cfg.failureThreshold
      then View(Open, count, now, None)
      else v.(failureCount := count)
  }

  class Breaker {
    const cfg: Settings
    var state: Phase
    var failureCount: nat
    var openedAt: real
    var probeStartedAt: Option<real>

    constructor (cfg: Settings)
      ensures this.cfg == cfg && Current() == FRESH
    {
      this.cfg := cfg;
      state, failureCount, openedAt, probeStartedAt := Closed, 0, 0.0, None;
    }

    ghost function Current(): View
      reads this
    {
      View(state, failureCount, openedAt, probeStartedAt)
    }

    method IsOpen(now: real) returns (open: bool)
      modifies this
      ensures Current() == After(cfg, old(Current()), Ask(now))
      ensures open == Refuses(cfg, old(Current()), now)
    {
      if state == Closed {
        return false;
      }
      if state == Open {
        if now - openedAt < cfg.recoveryTimeout {
          return true;
        }
        state := HalfOpen;
      } else if probeStartedAt.Some? && now - probeStartedAt.value < cfg.recoveryTimeout {
        return true;
      }
      probeStartedAt := Some(now);
      return false;
    }

    method RecordSuccess(ghost now: real)
      modifies this
      ensures Current() == After(cfg, old(Current()), Success(now))
    {
      failureCount := 0;
      if state == HalfOpen {
        probeStartedAt := None;
        state := Closed;
      }
    }

    method RecordFailure(now: real)
      modifies this
      ensures Current() == After(cfg, old(Current()), Failure(now))
    {
      failureCount := failureCount + 1;
      if state == HalfOpen || failureCount >= cfg.failureThreshold {
        openedAt := now;
        probeStartedAt := None;
        state := Open;
      }
    }
  }

  // ----- every history of calls -----

  ghost function Run(cfg: Settings, calls: seq<Call>): View {
    if calls == [] then FRESH
    else After(cfg, Run(cfg, calls[..|calls| - 1]), calls[|calls| - 1])
  }

  ghost predicate Clocked(calls: seq<Call>) {
    forall i, j :: 0 <= i <= j < |calls| ==> calls[i].at <= calls[j].at
  }

  /** The view just before call `i`. */
  ghost function Before(cfg: Settings, calls: seq<Call>, i: nat): View
    requires i <= |calls|
  {
    Run(cfg, calls[..i])
  }

  lemma BeforeStep(cfg: Settings, calls: seq<Call>, i: nat)
    requires i < |calls|
    ensures Before(cfg, calls, i + 1) == After(cfg, Before(cfg, calls, i), calls[i])
  {
    assert calls[..i + 1][..i] == calls[..i];
  }

  /** Failures after the last success, read off the history alone. */
  ghost function FailuresSinceSuccess(calls: seq<Call>): nat {
    if calls == [] then 0
    else match calls[|calls| - 1]
      case Success(_) => 0
      case Failure(_) => 1 + FailuresSinceSuccess(calls[..|calls| - 1])
      case Ask(_) => FailuresSinceSuccess(calls[..|calls| - 1])
  }

  lemma {:induction false} CountsFailuresSinceSuccess(cfg: Settings, calls: seq<Call>)
    ensures Run(cfg, calls).failureCount == FailuresSinceSuccess(calls)
  {
    if calls != [] {
      CountsFailuresSinceSuccess(cfg, calls[..|calls| - 1]);
    }
  }

  lemma {:induction false} ProbeExactlyWhenHalfOpen(cfg: Settings, calls: seq<Call>)
    ensures Run(cfg, calls).probeStartedAt.Some? <==> Run(cfg, calls).phase.HalfOpen?
  {
    if calls != [] {
      ProbeExactlyWhenHalfOpen(cfg, calls[..|calls| - 1]);
    }
  }

  lemma {:induction false} ClosedIsBelowThreshold(cfg: Settings, calls: seq<Call>)
    requires cfg.failureThreshold > 0
    ensures Run(cfg, calls).phase.Closed? ==> Run(cfg, calls).failureCount < cfg.failureThreshold
  {
    if calls != [] {
      ClosedIsBelowThreshold(cfg, calls[..|calls| - 1]);
    }
  }

  /** "Closed means below the threshold" holds of every history exactly when the
      threshold is positive. */
  lemma ClosedBelowThresholdIffPositive(cfg: Settings)
    ensures (forall calls: seq<Call> ::
               Run(cfg, calls).phase.Closed? ==> Run(cfg, calls).failureCount < cfg.failureThreshold)
       <==> cfg.failureThreshold > 0
  {
    if cfg.failureThreshold > 0 {
      forall calls: seq<Call>
        ensures Run(cfg, calls).phase.Closed? ==> Run(cfg, calls).failureCount < cfg.failureThreshold
      {
        ClosedIsBelowThreshold(cfg, calls);
      }
    } else {
      assert Run(cfg, []) == FRESH;
    }
  }

  /** The last moment that holds admissions back while the breaker is not closed. */
  ghost function HoldFrom(v: View): real
    requires !v.phase.Closed? && (v.phase.HalfOpen? ==> v.probeStartedAt.Some?)
  {
    if v.phase.Open? then v.openedAt else v.probeStartedAt.value
  }

  /** A call is let through although the breaker is not closed: a probe. */
  ghost predicate Admitted(cfg: Settings, calls: seq<Call>, i: nat)
    requires i < |calls|
  {
    var v := Before(cfg, calls, i);
    !v.phase.Closed? && calls[i].Ask? && !Refuses(cfg, v, calls[i].at)
  }

  /** No view between calls `lo` and `hi` is closed. */
  ghost predicate Episode(cfg: Settings, calls: seq<Call>, lo: nat, hi: nat) {
    lo <= hi <= |calls| && forall k :: lo <= k <= hi ==> !Before(cfg, calls, k).phase.Closed?
  }

  // ----- the phase, read off the history -----

  ghost predicate OnlyAsks(calls: seq<Call>, lo: nat, hi: nat) {
    hi <= |calls| && forall j :: lo <= j < hi ==> calls[j].Ask?
  }

  /** Call `k` let a probe out, and no result has been recorded since. */
  ghost predicate ProbeFrom(cfg: Settings, calls: seq<Call>, k: nat, i: nat) {
    k < i <= |calls| && Admitted(cfg, calls, k) && OnlyAsks(calls, k + 1, i)
  }

  ghost predicate ProbeOut(cfg: Settings, calls: seq<Call>, i: nat) {
    exists k: nat :: ProbeFrom(cfg, calls, k, i)
  }

  /** A failure that opens the breaker: the probe's, or one that makes the failures
      without a success between them reach the threshold. */
  ghost predicate OpensAt(cfg: Settings, calls: seq<Call>, k: nat)
    requires k < |calls|
  {
    calls[k].Failure? && (ProbeOut(cfg, calls, k) || FailuresSinceSuccess(calls[..k + 1]) >= cfg.failureThreshold)
  }

  /** A success that closes it: one recorded while a probe is out. */
  ghost predicate ClosesAt(cfg: Settings, calls: seq<Call>, k: nat)
    requires k < |calls|
  {
    calls[k].Success? && ProbeOut(cfg, calls, k)
  }

  /** The breaker was new or closed at `lo`, and nothing has opened it since. */
  ghost predicate ClosedFrom(cfg: Settings, calls: seq<Call>, lo: nat, i: nat) {
    && lo <= i <= |calls| && (lo == 0 || ClosesAt(cfg, calls, lo - 1))
    && forall j: nat :: lo <= j < i ==> !OpensAt(cfg, calls, j)
  }

  /** Call `k` opened it, and neither another opening nor a probe has followed. */
  ghost predicate OpenFrom(cfg: Settings, calls: seq<Call>, k: nat, i: nat) {
    && k < i <= |calls| && OpensAt(cfg, calls, k)
    && forall j: nat :: k < j < i ==> !OpensAt(cfg, calls, j) && !Admitted(cfg, calls, j)
  }

  lemma {:induction false} HalfOpenMeansProbe(cfg: Settings, calls: seq<Call>, i: nat) returns (k: nat)
    requires i <= |calls| && Before(cfg, calls, i).phase.HalfOpen?
    ensures ProbeFrom(cfg, calls, k, i) && Admitted(cfg, calls, k)
    ensures ProbeLast(cfg, calls, k, i) && Before(cfg, calls, i).probeStartedAt == Some(calls[k].at)
  {
    assert calls[..0] == [];
    BeforeStep(cfg, calls, i - 1);
    if Admitted(cfg, calls, i - 1) {
      k := i - 1;
    } else {
      k := HalfOpenMeansProbe(cfg, calls, i - 1);
    }
  }

  /** No later probe has been let out. */
  ghost predicate ProbeLast(cfg: Settings, calls: seq<Call>, k: nat, i: nat) {
    i <= |calls| && forall j: nat :: k < j < i ==> !Admitted(cfg, calls, j)
  }

  lemma {:induction false} ProbeMeansHalfOpen(cfg: Settings, calls: seq<Call>, k: nat, i: nat)
    requires ProbeFrom(cfg, calls, k, i)
    ensures Before(cfg, calls, i).phase.HalfOpen?
  {
    BeforeStep(cfg, calls, i - 1);
    if k < i - 1 {
      ProbeMeansHalfOpen(cfg, calls, k, i - 1);
    }
  }

  /** The breaker is half-open exactly while a probe is out. */
  lemma HalfOpenExactly(cfg: Settings, calls: seq<Call>, i: nat)
    requires i <= |calls|
    ensures Before(cfg, calls, i).phase.HalfOpen? <==> ProbeOut(cfg, calls, i)
  {
    if Before(cfg, calls, i).phase.HalfOpen? {
      var k := HalfOpenMeansProbe(cfg, calls, i);
    }
    if ProbeOut(cfg, calls, i) {
      var k: nat :| ProbeFrom(cfg, calls, k, i);
      ProbeMeansHalfOpen(cfg, calls, k, i);
    }
  }

  /** What one call does to the phase, in the history's terms. */
  lemma PhaseStep(cfg: Settings, calls: seq<Call>, i: nat)
    requires i < |calls|
    ensures var before, after := Before(cfg, calls, i), Before(cfg, calls, i + 1);
            && (OpensAt(cfg, calls, i) ==> after.phase.Open? && after.openedAt == calls[i].at)
            && (ClosesAt(cfg, calls, i) ==> after.phase.Closed?)
            && (Admitted(cfg, calls, i) ==> after.phase.HalfOpen?)
            && (!OpensAt(cfg, calls, i) && !ClosesAt(cfg, calls, i) && !Admitted(cfg, calls, i) ==>
                  after.phase == before.phase && after.openedAt == before.openedAt)
            && (before.phase.Closed? ==> !Admitted(cfg, calls, i) && !ClosesAt(cfg, calls, i))
            && (before.phase.Open? ==> !ClosesAt(cfg, calls, i))
  {
    BeforeStep(cfg, calls, i);
    HalfOpenExactly(cfg, calls, i);
    CountsFailuresSinceSuccess(cfg, calls[..i + 1]);
  }

  lemma {:induction false} PhaseHasCause(cfg: Settings, calls: seq<Call>, i: nat) returns (k: nat)
    requires i <= |calls|
    ensures Before(cfg, calls, i).phase.Closed? ==> ClosedFrom(cfg, calls, k, i)
    ensures Before(cfg, calls, i).phase.Open? ==>
              OpenFrom(cfg, calls, k, i) && Before(cfg, calls, i).openedAt == calls[k].at
  {
    if i == 0 {
      assert calls[..0] == [];
      k := 0;
    } else {
      var earlier := PhaseHasCause(cfg, calls, i - 1);
      PhaseStep(cfg, calls, i - 1);
      HalfOpenExactly(cfg, calls, i - 1);
      if OpensAt(cfg, calls, i - 1) {
        k := i - 1;
      } else if ClosesAt(cfg, calls, i - 1) {
        k := i;
      } else {
        k := earlier;
      }
    }
  }

  lemma {:induction false} CauseMeansClosed(cfg: Settings, calls: seq<Call>, lo: nat, i: nat)
    requires ClosedFrom(cfg, calls, lo, i)
    ensures Before(cfg, calls, i).phase.Closed?
    decreases i
  {
    if i == lo {
      if lo == 0 {
        assert calls[..0] == [];
      } else {
        PhaseStep(cfg, calls, lo - 1);
      }
    } else {
      CauseMeansClosed(cfg, calls, lo, i - 1);
      PhaseStep(cfg, calls, i - 1);
    }
  }

  lemma {:induction false} CauseMeansOpen(cfg: Settings, calls: seq<Call>, k: nat, i: nat)
    requires OpenFrom(cfg, calls, k, i)
    ensures Before(cfg, calls, i).phase.Open?
    decreases i
  {
    PhaseStep(cfg, calls, i - 1);
    if k < i - 1 {
      CauseMeansOpen(cfg, calls, k, i - 1);
    }
  }

  /** The breaker is closed exactly when it was new or a success closed it, recorded
      while a probe was out, and since then neither a probe failed nor did the
      failures without a success between them reach the threshold. It is open
      exactly when such a failure opened it and no probe has been let out since. */
  lemma PhaseExactly(cfg: Settings, calls: seq<Call>, i: nat)
    requires i <= |calls|
    ensures Before(cfg, calls, i).phase.Closed? <==> exists lo: nat :: ClosedFrom(cfg, calls, lo, i)
    ensures Before(cfg, calls, i).phase.Open? <==> exists k: nat :: OpenFrom(cfg, calls, k, i)
  {
    var cause := PhaseHasCause(cfg, calls, i);
    forall lo: nat | ClosedFrom(cfg, calls, lo, i) ensures Before(cfg, calls, i).phase.Closed? {
      CauseMeansClosed(cfg, calls, lo, i);
    }
    forall k: nat | OpenFrom(cfg, calls, k, i) ensures Before(cfg, calls, i).phase.Open? {
      CauseMeansOpen(cfg, calls, k, i);
    }
  }

  /** What a caller is told at call `i`: let through while nothing has opened the
      breaker since it was new or closed, and otherwise exactly when a full recovery
      timeout has passed since the opening, or since the last probe that is out. */
  lemma AnswersExactly(cfg: Settings, calls: seq<Call>, i: nat)
    requires i < |calls| && calls[i].Ask?
    ensures forall lo: nat :: ClosedFrom(cfg, calls, lo, i) ==> !Refuses(cfg, Before(cfg, calls, i), calls[i].at)
    ensures forall k: nat :: OpenFrom(cfg, calls, k, i) ==>
              (Refuses(cfg, Before(cfg, calls, i), calls[i].at) <==> calls[i].at < calls[k].at + cfg.recoveryTimeout)
    ensures forall k: nat :: ProbeFrom(cfg, calls, k, i) && ProbeLast(cfg, calls, k, i) ==>
              (Refuses(cfg, Before(cfg, calls, i), calls[i].at) <==> calls[i].at < calls[k].at + cfg.recoveryTimeout)
  {
    PhaseExactly(cfg, calls, i);
    forall k: nat | OpenFrom(cfg, calls, k, i)
      ensures Refuses(cfg, Before(cfg, calls, i), calls[i].at) <==> calls[i].at < calls[k].at + cfg.recoveryTimeout
    {
      var cause := PhaseHasCause(cfg, calls, i);
      assert k == cause;
    }
    forall k: nat | ProbeFrom(cfg, calls, k, i) && ProbeLast(cfg, calls, k, i)
      ensures Refuses(cfg, Before(cfg, calls, i), calls[i].at) <==> calls[i].at < calls[k].at + cfg.recoveryTimeout
    {
      ProbeMeansHalfOpen(cfg, calls, k, i);
      var last := HalfOpenMeansProbe(cfg, calls, i);
      assert k == last;
    }
  }

  lemma {:induction false} HoldIsPast(cfg: Settings, calls: seq<Call>, i: nat)
    requires Clocked(calls) && 0 < i <= |calls| && !Before(cfg, calls, i).phase.Closed?
    ensures Before(cfg, calls, i).phase.HalfOpen? ==> Before(cfg, calls, i).probeStartedAt.Some?
    ensures HoldFrom(Before(cfg, calls, i)) <= calls[i - 1].at
  {
    ProbeExactlyWhenHalfOpen(cfg, calls[..i]);
    BeforeStep(cfg, calls, i - 1);
    var v := Before(cfg, calls, i - 1);
    ProbeExactlyWhenHalfOpen(cfg, calls[..i - 1]);
    assert i == 1 ==> calls[..i - 1] == [];
    if !v.phase.Closed? {
      HoldIsPast(cfg, calls, i - 1);
      assert calls[i - 2].at <= calls[i - 1].at;
    }
  }

  /** Within an episode the hold only moves forward. */
  lemma {:induction false} HoldAdvances(cfg: Settings, calls: seq<Call>, lo: nat, hi: nat)
    requires Clocked(calls) && 0 < lo && Episode(cfg, calls, lo, hi)
    ensures Before(cfg, calls, lo).phase.HalfOpen? ==> Before(cfg, calls, lo).probeStartedAt.Some?
    ensures Before(cfg, calls, hi).phase.HalfOpen? ==> Before(cfg, calls, hi).probeStartedAt.Some?
    ensures HoldFrom(Before(cfg, calls, lo)) <= HoldFrom(Before(cfg, calls, hi))
    decreases hi
  {
    HoldIsPast(cfg, calls, lo);
    if lo < hi {
      HoldAdvances(cfg, calls, lo, hi - 1);
      HoldIsPast(cfg, calls, hi - 1);
      HoldIsPast(cfg, calls, hi);
      BeforeStep(cfg, calls, hi - 1);
      assert calls[hi - 2].at <= calls[hi - 1].at;
    }
  }

  /** While not closed, a call is let through exactly when a full recovery
      timeout has passed since the last opening or probe: a lost probe is
      replaced, and never sooner. */
  lemma ProbesExactlyAfterTimeout(cfg: Settings, calls: seq<Call>, i: nat)
    requires Clocked(calls) && i < |calls| && calls[i].Ask? && !Before(cfg, calls, i).phase.Closed?
    ensures Before(cfg, calls, i).phase.HalfOpen? ==> Before(cfg, calls, i).probeStartedAt.Some?
    ensures Admitted(cfg, calls, i) <==> calls[i].at >= HoldFrom(Before(cfg, calls, i)) + cfg.recoveryTimeout
  {
    ProbeExactlyWhenHalfOpen(cfg, calls[..i]);
  }

  /** Two probes of one episode are at least a recovery timeout apart. */
  lemma ProbesAreSpaced(cfg: Settings, calls: seq<Call>, i: nat, j: nat)
    requires Clocked(calls) && i < j < |calls| && Episode(cfg, calls, i, j)
    requires Admitted(cfg, calls, i) && Admitted(cfg, calls, j)
    ensures calls[j].at >= calls[i].at + cfg.recoveryTimeout
  {
    BeforeStep(cfg, calls, i);
    assert Episode(cfg, calls, i + 1, j);
    HoldAdvances(cfg, calls, i + 1, j);
  }

  ghost predicate ProbeIn(cfg: Settings, calls: seq<Call>, i: nat, from: real, length: real)
    requires i < |calls|
  {
    Admitted(cfg, calls, i) && from <= calls[i].at <= from + length
  }

  /** Probes among calls `lo..hi` whose time falls in `[from, from + length]`. */
  ghost function ProbeCount(cfg: Settings, calls: seq<Call>, lo: nat, hi: nat, from: real, length: real): nat
    requires lo <= hi <= |calls|
    decreases hi
  {
    if lo == hi then 0
    else
      var earlier := ProbeCount(cfg, calls, lo, hi - 1, from, length);
      if ProbeIn(cfg, calls, hi - 1, from, length) then earlier + 1 else earlier
  }

  ghost function Times(n: nat, r: real): real {
    if n == 0 then 0.0 else Times(n - 1, r) + r
  }

  lemma {:induction false} TimesIsProduct(n: nat, r: real)
    ensures Times(n, r) == (n as real) * r
  {
    if n > 0 {
      TimesIsProduct(n - 1, r);
      assert (n as real) * r == ((n - 1) as real) * r + r;
    }
  }

  lemma DivideOut(x: real, r: real, length: real)
    requires r > 0.0 && x * r <= length
    ensures x <= length / r
  {
    var q := length / r;
    assert q * r == length;
  }

  lemma TimesFloor(n: nat, r: real, length: real)
    requires r > 0.0 && Times(n, r) <= length
    ensures n <= (length / r).Floor
  {
    TimesIsProduct(n, r);
    DivideOut(n as real, r, length);
  }

  lemma {:induction false} ProbesFit(cfg: Settings, calls: seq<Call>, lo: nat, hi: nat, from: real, length: real)
    returns (last: nat)
    requires Clocked(calls) && Episode(cfg, calls, lo, hi)
    ensures ProbeCount(cfg, calls, lo, hi, from, length) > 0 ==>
              && lo <= last < hi
              && ProbeIn(cfg, calls, last, from, length)
              && Times(ProbeCount(cfg, calls, lo, hi, from, length) - 1, cfg.recoveryTimeout) <= calls[last].at - from
    decreases hi
  {
    last := lo;
    if lo < hi {
      assert Episode(cfg, calls, lo, hi - 1);
      last := ProbesFit(cfg, calls, lo, hi - 1, from, length);
      var n := ProbeCount(cfg, calls, lo, hi - 1, from, length);
      if ProbeIn(cfg, calls, hi - 1, from, length) {
        if n > 0 {
          assert Episode(cfg, calls, last, hi - 1);
          ProbesAreSpaced(cfg, calls, last, hi - 1);
        }
        last := hi - 1;
      }
    }
  }

  /** A span of length L admits at most 1 + floor(L / recoveryTimeout) probes of
      one episode. */
  lemma ProbesPerSpan(cfg: Settings, calls: seq<Call>, lo: nat, hi: nat, from: real, length: real)
    requires Clocked(calls) && Episode(cfg, calls, lo, hi)
    requires cfg.recoveryTimeout > 0.0 && length >= 0.0
    ensures ProbeCount(cfg, calls, lo, hi, from, length) <= 1 + (length / cfg.recoveryTimeout).Floor
  {
    var last := ProbesFit(cfg, calls, lo, hi, from, length);
    var n := ProbeCount(cfg, calls, lo, hi, from, length);
    if n > 0 {
      TimesFloor(n - 1, cfg.recoveryTimeout, length);
    }
  }
}
