/** The limiter over several windows and both stores. A run is any interleaving
    of single-window checks by any number of requests and processes, under any
    pattern of Redis failures. Redis is shared; each process has its own memory
    fallback; one limiter uses one algorithm. */
module RateLimiter {
  import opened Prelude
  import opened KeyText
  import opened WindowLimits
  import opened SlidingWindow

  datatype Algorithm = FixedWindow | SlidingWindows

  datatype FailMode = FailOpen | FailClosed

  /** What became of the Redis call: answered; executed but the answer was lost;
      or never executed (no client, or no connection). */
  datatype Reply = Answered | AnswerLost | Unreachable

  /** One `_check_window` call. */
  datatype Check = Check(process: nat, request: nat, key: string, span: int, call: Call, mode: FailMode, reply: Reply)

  datatype Setup = Setup(algorithm: Algorithm, fallback: bool, cleanupThreshold: nat)

  /** `f"{key}:{window_seconds}s"` */
  function WindowKey(key: string, span: int): string {
    key + [':'] + (Decimal(span) + "s")
  }

  /** Distinct (key, window) pairs never share a counter. */
  lemma WindowKeyInjective(key: string, span: int, key': string, span': int)
    requires WindowKey(key, span) == WindowKey(key', span')
    ensures key == key' && span == span'
  {
    DecimalHasNoColon(span);
    DecimalHasNoColon(span');
    var x, y := Decimal(span) + "s", Decimal(span') + "s";
    assert forall i :: 0 <= i < |x| ==> x[i] != ':';
    assert forall i :: 0 <= i < |y| ==> y[i] != ':';
    LastPartUnique(key, x, key', y, ':');
    assert Decimal(span) == x[..|x| - 1] && Decimal(span') == y[..|y| - 1];
    DecimalInjective(span, span');
  }

  datatype Store = Redis | Memory(process: nat)

  /** The check executes on the store (and may still not learn the answer). */
  predicate Executes(setup: Setup, c: Check, store: Store) {
    match store
    case Redis => !c.reply.Unreachable?
    case Memory(p) => !c.reply.Answered? && c.mode.FailOpen? && setup.fallback && c.process == p
  }

  /** The check takes its answer from the store. */
  predicate Asks(setup: Setup, c: Check, store: Store) {
    Executes(setup, c, store) && (store.Redis? ==> c.reply.Answered?)
  }

  /** The calls a store has executed under one window key, in order. */
  ghost function History(setup: Setup, run: seq<Check>, store: Store, wk: string): seq<Call> {
    if run == [] then []
    else
      var earlier := History(setup, run[..|run| - 1], store, wk);
      var c := run[|run| - 1];
      if Executes(setup, c, store) && WindowKey(c.key, c.span) == wk
      then earlier + [c.call] else earlier
  }

  /** Would the store let `call` through after `history`? */
  ghost predicate StoreAllows(setup: Setup, store: Store, span: int, history: seq<Call>, call: Call) {
    var calls := history + [call];
    if store.Memory? then Allowed(Fallback, span as real, calls, |history|)
    else match setup.algorithm
      case FixedWindow => Allowed(RedisFixed, span as real, calls, |history|)
      case SlidingWindows => SlidingAllowed(span, calls, |history|)
  }

  /** The answer of check `i`. */
  ghost predicate Passes(setup: Setup, run: seq<Check>, i: nat)
    requires i < |run|
  {
    var c := run[i];
    var wk := WindowKey(c.key, c.span);
    if c.reply.Answered? then StoreAllows(setup, Redis, c.span, History(setup, run[..i], Redis, wk), c.call)
    else if c.mode.FailClosed? then false
    else if setup.fallback then
      StoreAllows(setup, Memory(c.process), c.span, History(setup, run[..i], Memory(c.process), wk), c.call)
    else true
  }

  ghost predicate ClockedRun(run: seq<Check>) {
    forall i, j :: 0 <= i <= j < |run| ==> run[i].call.at <= run[j].call.at
  }

  /** Without an answer from Redis the fail mode decides: CLOSED refuses, and OPEN
      without a fallback lets every request through. */
  lemma UnansweredPasses(setup: Setup, run: seq<Check>, i: nat)
    requires i < |run| && !run[i].reply.Answered?
    ensures run[i].mode.FailClosed? ==> !Passes(setup, run, i)
    ensures run[i].mode.FailOpen? && !setup.fallback ==> Passes(setup, run, i)
  {
  }

  // ----- histories inherit the clock and the members of the run -----

  ghost predicate FromRun(history: seq<Call>, run: seq<Check>) {
    forall k :: 0 <= k < |history| ==> exists i :: 0 <= i < |run| && run[i].call == history[k]
  }

  lemma {:induction false} HistoryFromRun(setup: Setup, run: seq<Check>, store: Store, wk: string)
    ensures FromRun(History(setup, run, store, wk), run)
  {
    if run != [] {
      var shorter := run[..|run| - 1];
      HistoryFromRun(setup, shorter, store, wk);
      var h, h' := History(setup, shorter, store, wk), History(setup, run, store, wk);
      forall k | 0 <= k < |h'| ensures exists i :: 0 <= i < |run| && run[i].call == h'[k] {
        if k < |h| {
          var i :| 0 <= i < |shorter| && shorter[i].call == h[k];
          assert run[i].call == h'[k];
        } else {
          assert run[|run| - 1].call == h'[k];
        }
      }
    }
  }

  lemma {:induction false} HistoryClocked(setup: Setup, run: seq<Check>, store: Store, wk: string)
    requires ClockedRun(run)
    ensures Clocked(History(setup, run, store, wk))
  {
    if run != [] {
      var shorter := run[..|run| - 1];
      HistoryClocked(setup, shorter, store, wk);
      HistoryFromRun(setup, shorter, store, wk);
      var h := History(setup, shorter, store, wk);
      forall k | 0 <= k < |h| ensures h[k].at <= run[|run| - 1].call.at {
        var i :| 0 <= i < |shorter| && shorter[i].call == h[k];
        assert run[i].call.at <= run[|run| - 1].call.at;
      }
    }
  }

  // ----- counting -----

  /** The window under study: its key, length, limit, and a span of one length. */
  datatype Focus = Focus(key: string, span: int, limit: int, from: real)

  ghost predicate InFocus(f: Focus, c: Check) {
    c.key == f.key && c.span == f.span && c.call.limit <= f.limit && InHalfOpen(f.span, f.from, c.call.at, true)
  }

  /** Checks of the focus that the given store let through. */
  ghost function PassedBy(setup: Setup, run: seq<Check>, n: nat, store: Store, f: Focus): nat
    requires n <= |run|
  {
    if n == 0 then 0
    else
      var earlier := PassedBy(setup, run, n - 1, store, f);
      var c := run[n - 1];
      if InFocus(f, c) && Passes(setup, run, n - 1) && Asks(setup, c, store)
      then earlier + 1 else earlier
  }

  /** What a store admits in the span, given the calls it executed. */
  ghost function StoreAdmits(setup: Setup, store: Store, calls: seq<Call>, f: Focus): nat {
    if store.Memory? then AdmittedInSpan(Fallback, f.span as real, calls, |calls|, f.limit, f.from)
    else match setup.algorithm
      case FixedWindow => AdmittedInSpan(RedisFixed, f.span as real, calls, |calls|, f.limit, f.from)
      case SlidingWindows => AdmittedInSlidingSpan(f.span, calls, f.limit, f.from, true)
  }

  lemma {:induction false} AdmittedPrefix(
      kind: Kind, span: real, calls: seq<Call>, last: Call, n: nat, limit: int, from: real)
    requires n <= |calls|
    ensures AdmittedInSpan(kind, span, calls + [last], n, limit, from)
         == AdmittedInSpan(kind, span, calls, n, limit, from)
  {
    if n > 0 {
      AdmittedPrefix(kind, span, calls, last, n - 1, limit, from);
      assert (calls + [last])[..n - 1] == calls[..n - 1];
    }
  }

  lemma {:induction false} PickedPrefix(pick: seq<bool>, longer: seq<bool>, n: nat)
    requires n <= |pick| <= |longer| && pick == longer[..|pick|]
    ensures Picked(pick, n) == Picked(longer, n)
  {
    if n > 0 {
      PickedPrefix(pick, longer, n - 1);
    }
  }

  lemma SlidingPrefix(span: int, calls: seq<Call>, last: Call, limit: int, from: real)
    ensures AdmittedInSlidingSpan(span, calls + [last], limit, from, true)
         == AdmittedInSlidingSpan(span, calls, limit, from, true)
          + if Counts(span, calls + [last], |calls|, limit, from, true) then 1 else 0
  {
    var longer := calls + [last];
    var pick, picks := Picks(span, calls, limit, from, true), Picks(span, longer, limit, from, true);
    forall i | 0 <= i < |calls| ensures pick[i] == picks[i] {
      assert longer[..i] == calls[..i];
    }
    PickedPrefix(pick, picks, |calls|);
  }

  /** One more executed call adds to the count exactly when it passes. */
  lemma StoreAdmitsStep(setup: Setup, store: Store, calls: seq<Call>, last: Call, f: Focus)
    ensures StoreAdmits(setup, store, calls, f) <= StoreAdmits(setup, store, calls + [last], f)
    ensures StoreAllows(setup, store, f.span, calls, last) && last.limit <= f.limit
            && InHalfOpen(f.span, f.from, last.at, true)
        ==> StoreAdmits(setup, store, calls + [last], f) == StoreAdmits(setup, store, calls, f) + 1
  {
    var kind := if store.Memory? then Fallback else RedisFixed;
    AdmittedPrefix(kind, f.span as real, calls, last, |calls|, f.limit, f.from);
    SlidingPrefix(f.span, calls, last, f.limit, f.from);
  }

  /** The run's count for a store is bounded by what that store admits. */
  lemma {:induction false} PassedIsAdmitted(setup: Setup, run: seq<Check>, n: nat, store: Store, f: Focus)
    requires n <= |run|
    ensures PassedBy(setup, run, n, store, f)
         <= StoreAdmits(setup, store, History(setup, run[..n], store, WindowKey(f.key, f.span)), f)
  {
    if n > 0 {
      var c, wk := run[n - 1], WindowKey(f.key, f.span);
      PassedIsAdmitted(setup, run, n - 1, store, f);
      assert run[..n][..n - 1] == run[..n - 1];
      StoreAdmitsStep(setup, store, History(setup, run[..n - 1], store, wk), c.call, f);
    }
  }

  /** The most each store admits in a span of one window length. */
  function RedisBound(setup: Setup, limit: int): nat {
    match setup.algorithm
    case FixedWindow => 2 * Cap(RedisFixed, limit)
    case SlidingWindows => Max(0, limit)
  }

  function MemoryBound(limit: int): nat {
    2 * Cap(Fallback, limit)
  }

  /** What a bound needs of the calls the store executed under the focused key, and
      of no others: a clock that does not run backwards and, for the sliding window,
      members that differ. */
  ghost predicate Sane(setup: Setup, run: seq<Check>, store: Store, key: string, span: int) {
    var h := History(setup, run, store, WindowKey(key, span));
    Clocked(h) && (store.Redis? && setup.algorithm.SlidingWindows? ==> Timed(h) && DistinctMembers(h))
  }

  lemma StoreBound(setup: Setup, run: seq<Check>, store: Store, f: Focus)
    requires Sane(setup, run, store, f.key, f.span)
    ensures StoreAdmits(setup, store, History(setup, run, store, WindowKey(f.key, f.span)), f)
         <= if store.Memory? then MemoryBound(f.limit) else RedisBound(setup, f.limit)
  {
    var h := History(setup, run, store, WindowKey(f.key, f.span));
    if store.Memory? {
      AtMostTwiceCapPerSpan(Fallback, f.span as real, h, f.limit, f.from);
    } else if setup.algorithm.FixedWindow? {
      AtMostTwiceCapPerSpan(RedisFixed, f.span as real, h, f.limit, f.from);
    } else {
      AtMostLimitPerSpan(f.span, h, f.limit, f.from, true);
    }
  }

  // ----- whole requests -----

  /** Request `r` had a check of the focused window let through. */
  ghost predicate RequestPassed(setup: Setup, run: seq<Check>, n: nat, f: Focus, r: nat)
    requires n <= |run|
  {
    exists i :: 0 <= i < n && run[i].request == r && InFocus(f, run[i]) && Passes(setup, run, i)
  }

  /** Every check takes its answer from some store, or is refused: nothing fails
      open without a fallback. */
  ghost predicate Guarded(setup: Setup, run: seq<Check>, processes: nat) {
    forall i :: 0 <= i < |run| ==>
      run[i].process < processes && (run[i].mode.FailClosed? || run[i].reply.Answered? || setup.fallback)
  }

  /** Checks of the focus let through by the first `processes` memory stores. */
  ghost function PassedByMemories(setup: Setup, run: seq<Check>, n: nat, processes: nat, f: Focus): nat
    requires n <= |run|
  {
    if processes == 0 then 0
    else PassedByMemories(setup, run, n, processes - 1, f) + PassedBy(setup, run, n, Memory(processes - 1), f)
  }

  /** One more check adds to the sum if it asks one of these memories and passes. */
  lemma {:induction false} MemoriesStep(setup: Setup, run: seq<Check>, n: nat, processes: nat, f: Focus)
    requires 0 < n <= |run|
    ensures PassedByMemories(setup, run, n - 1, processes, f) <= PassedByMemories(setup, run, n, processes, f)
    ensures InFocus(f, run[n - 1]) && Passes(setup, run, n - 1) && run[n - 1].process < processes
            && Asks(setup, run[n - 1], Memory(run[n - 1].process))
        ==> PassedByMemories(setup, run, n - 1, processes, f) + 1 <= PassedByMemories(setup, run, n, processes, f)
  {
    if processes > 0 {
      MemoriesStep(setup, run, n, processes - 1, f);
    }
  }

  /** All checks of the focus let through, by whatever store. */
  ghost function PassedByAll(setup: Setup, run: seq<Check>, n: nat, processes: nat, f: Focus): nat
    requires n <= |run|
  {
    PassedBy(setup, run, n, Redis, f) + PassedByMemories(setup, run, n, processes, f)
  }

  lemma AllStep(setup: Setup, run: seq<Check>, n: nat, processes: nat, f: Focus)
    requires 0 < n <= |run| && Guarded(setup, run, processes)
    ensures PassedByAll(setup, run, n - 1, processes, f) <= PassedByAll(setup, run, n, processes, f)
    ensures InFocus(f, run[n - 1]) && Passes(setup, run, n - 1)
        ==> PassedByAll(setup, run, n - 1, processes, f) + 1 <= PassedByAll(setup, run, n, processes, f)
  {
    MemoriesStep(setup, run, n, processes, f);
    var c := run[n - 1];
    assert Passes(setup, run, n - 1) ==> Asks(setup, c, Redis) || Asks(setup, c, Memory(c.process));
  }

  /** The checks of the focus that passed, one flag per check. */
  ghost function Hits(setup: Setup, run: seq<Check>, f: Focus): seq<bool> {
    seq(|run|, i requires 0 <= i < |run| => InFocus(f, run[i]) && Passes(setup, run, i))
  }

  lemma {:induction false} HitsAtMostTotals(hits: seq<bool>, totals: seq<nat>, n: nat)
    requires n <= |hits| < |totals|
    requires forall i :: 0 <= i < |hits| ==> totals[i + 1] >= totals[i] + if hits[i] then 1 else 0
    ensures Picked(hits, n) <= totals[n]
  {
    if n > 0 {
      HitsAtMostTotals(hits, totals, n - 1);
      assert totals[n - 1 + 1] >= totals[n - 1];
    }
  }

  ghost predicate HitBy(hits: seq<bool>, owner: seq<nat>, n: nat, r: nat)
    requires n <= |hits| == |owner|
  {
    exists i :: 0 <= i < n && hits[i] && owner[i] == r
  }

  /** Distinct requests own distinct checks. */
  lemma {:induction false} OwnersAtMostHits(hits: seq<bool>, owner: seq<nat>, n: nat, requests: set<nat>)
    requires n <= |hits| == |owner|
    requires forall r :: r in requests ==> HitBy(hits, owner, n, r)
    ensures |requests| <= Picked(hits, n)
  {
    if n == 0 {
      assert requests == {};
    } else {
      var others := if hits[n - 1] then requests - {owner[n - 1]} else requests;
      forall r | r in others ensures HitBy(hits, owner, n - 1, r) {
        assert HitBy(hits, owner, n, r);
      }
      OwnersAtMostHits(hits, owner, n - 1, others);
    }
  }

  lemma RequestsAtMostChecks(setup: Setup, run: seq<Check>, processes: nat, f: Focus, requests: set<nat>)
    requires Guarded(setup, run, processes)
    requires forall r :: r in requests ==> RequestPassed(setup, run, |run|, f, r)
    ensures |requests| <= PassedByAll(setup, run, |run|, processes, f)
  {
    var hits := Hits(setup, run, f);
    var owner := seq(|run|, i requires 0 <= i < |run| => run[i].request);
    forall r | r in requests ensures HitBy(hits, owner, |run|, r) {
      var i :| 0 <= i < |run| && run[i].request == r && InFocus(f, run[i]) && Passes(setup, run, i);
      assert hits[i] && owner[i] == r;
    }
    OwnersAtMostHits(hits, owner, |run|, requests);
    var totals := seq(|run| + 1, i requires 0 <= i <= |run| => PassedByAll(setup, run, i, processes, f));
    forall i | 0 <= i < |hits| ensures totals[i + 1] >= totals[i] + if hits[i] then 1 else 0 {
      AllStep(setup, run, i + 1, processes, f);
    }
    HitsAtMostTotals(hits, totals, |run|);
  }

  lemma {:induction false} ClosedNeedsNoMemory(setup: Setup, run: seq<Check>, n: nat, f: Focus, p: nat)
    requires n <= |run| && forall i :: 0 <= i < |run| ==> run[i].mode.FailClosed?
    ensures PassedBy(setup, run, n, Memory(p), f) == 0
  {
    if n > 0 {
      ClosedNeedsNoMemory(setup, run, n - 1, f, p);
    }
  }

  lemma {:induction false} ClosedNeedsNoMemories(setup: Setup, run: seq<Check>, processes: nat, f: Focus)
    requires forall i :: 0 <= i < |run| ==> run[i].mode.FailClosed?
    ensures PassedByMemories(setup, run, |run|, processes, f) == 0
  {
    if processes > 0 {
      ClosedNeedsNoMemories(setup, run, processes - 1, f);
      ClosedNeedsNoMemory(setup, run, |run|, f, processes - 1);
    }
  }

  lemma {:induction false} AllProcessesBelow(run: seq<Check>) returns (processes: nat)
    ensures forall i :: 0 <= i < |run| ==> run[i].process < processes
  {
    processes := 0;
    if run != [] {
      processes := AllProcessesBelow(run[..|run| - 1]);
      processes := Max(processes, run[|run| - 1].process + 1);
    }
  }

  /** With fail mode CLOSED, under every pattern of Redis failures and any number
      of processes, the requests that pass a window obey its bound. */
  lemma FailClosedBound(setup: Setup, run: seq<Check>, f: Focus, requests: set<nat>)
    requires Sane(setup, run, Redis, f.key, f.span) && forall i :: 0 <= i < |run| ==> run[i].mode.FailClosed?
    requires forall r :: r in requests ==> RequestPassed(setup, run, |run|, f, r)
    ensures |requests| <= RedisBound(setup, f.limit)
  {
    var processes := AllProcessesBelow(run);
    RequestsAtMostChecks(setup, run, processes, f, requests);
    ClosedNeedsNoMemories(setup, run, processes, f);
    PassedIsAdmitted(setup, run, |run|, Redis, f);
    assert run[..|run|] == run;
    StoreBound(setup, run, Redis, f);
  }

  lemma {:induction false} MemoriesBound(setup: Setup, run: seq<Check>, processes: nat, f: Focus)
    requires forall p: nat :: p < processes ==> Sane(setup, run, Memory(p), f.key, f.span)
    ensures PassedByMemories(setup, run, |run|, processes, f) <= processes * MemoryBound(f.limit)
  {
    if processes > 0 {
      MemoriesBound(setup, run, processes - 1, f);
      PassedIsAdmitted(setup, run, |run|, Memory(processes - 1), f);
      assert run[..|run|] == run;
      StoreBound(setup, run, Memory(processes - 1), f);
      assert processes * MemoryBound(f.limit) == (processes - 1) * MemoryBound(f.limit) + MemoryBound(f.limit);
    }
  }

  /** With fail mode OPEN and the fallback, the bound is the sum of the stores'
      bounds: Redis once, and each process's own memory. */
  lemma FailOpenBound(setup: Setup, run: seq<Check>, processes: nat, f: Focus, requests: set<nat>)
    requires Sane(setup, run, Redis, f.key, f.span)
    requires forall p: nat :: p < processes ==> Sane(setup, run, Memory(p), f.key, f.span)
    requires setup.fallback && forall i :: 0 <= i < |run| ==> run[i].process < processes
    requires forall r :: r in requests ==> RequestPassed(setup, run, |run|, f, r)
    ensures |requests| <= RedisBound(setup, f.limit) + processes * MemoryBound(f.limit)
  {
    RequestsAtMostChecks(setup, run, processes, f, requests);
    MemoriesBound(setup, run, processes, f);
    PassedIsAdmitted(setup, run, |run|, Redis, f);
    assert run[..|run|] == run;
    StoreBound(setup, run, Redis, f);
  }

  // ----- every configured window at once -----

  datatype Window = Window(limit: int, span: int)

  ghost predicate ChecksWindow(c: Check, r: nat, key: string, w: Window) {
    c.request == r && c.key == key && c.span == w.span && c.call.limit == w.limit
  }

  /** Request `r` checked all its windows and none refused it. */
  ghost predicate Admitted(setup: Setup, run: seq<Check>, r: nat, key: string, windows: seq<Window>) {
    && (forall i :: 0 <= i < |run| && run[i].request == r ==> Passes(setup, run, i))
    && (forall w :: w in windows ==> exists i :: 0 <= i < |run| && ChecksWindow(run[i], r, key, w))
  }

  /** Request `r` checked window `w` in the span of its length that starts at `from`. */
  ghost predicate CheckedIn(run: seq<Check>, r: nat, key: string, w: Window, from: real) {
    exists i :: 0 <= i < |run| && ChecksWindow(run[i], r, key, w) && InHalfOpen(w.span, from, run[i].call.at, true)
  }

  ghost function AdmittedIn(run: seq<Check>, requests: set<nat>, key: string, w: Window, from: real): set<nat> {
    set r | r in requests && CheckedIn(run, r, key, w, from)
  }

  lemma AdmittedHavePassed(
      setup: Setup, run: seq<Check>, key: string, windows: seq<Window>, requests: set<nat>, w: Window, from: real)
    requires forall r :: r in requests ==> Admitted(setup, run, r, key, windows)
    ensures forall r :: r in AdmittedIn(run, requests, key, w, from)
              ==> RequestPassed(setup, run, |run|, Focus(key, w.span, w.limit, from), r)
  {
    forall r | r in AdmittedIn(run, requests, key, w, from)
      ensures RequestPassed(setup, run, |run|, Focus(key, w.span, w.limit, from), r)
    {
      assert Admitted(setup, run, r, key, windows);
      var i :| 0 <= i < |run| && ChecksWindow(run[i], r, key, w) && InHalfOpen(w.span, from, run[i].call.at, true);
      assert InFocus(Focus(key, w.span, w.limit, from), run[i]) && Passes(setup, run, i);
    }
  }

  /** With fail mode CLOSED, the admitted requests of a key obey the bounds of all
      configured windows at once, in every span of each window's length. */
  lemma ClosedObeysEveryWindow(setup: Setup, run: seq<Check>, key: string, windows: seq<Window>, requests: set<nat>)
    requires forall i :: 0 <= i < |run| ==> run[i].mode.FailClosed?
    requires forall w :: w in windows ==> Sane(setup, run, Redis, key, w.span)
    requires forall r :: r in requests ==> Admitted(setup, run, r, key, windows)
    ensures forall w, from :: w in windows ==> |AdmittedIn(run, requests, key, w, from)| <= RedisBound(setup, w.limit)
  {
    forall w, from | w in windows ensures |AdmittedIn(run, requests, key, w, from)| <= RedisBound(setup, w.limit) {
      AdmittedHavePassed(setup, run, key, windows, requests, w, from);
      FailClosedBound(setup, run, Focus(key, w.span, w.limit, from), AdmittedIn(run, requests, key, w, from));
    }
  }

  /** With fail mode OPEN and the fallback, the same with the sum of the stores'
      bounds. */
  lemma OpenObeysEveryWindow(
      setup: Setup, run: seq<Check>, processes: nat, key: string, windows: seq<Window>, requests: set<nat>)
    requires setup.fallback && forall i :: 0 <= i < |run| ==> run[i].process < processes
    requires forall w :: w in windows ==> Sane(setup, run, Redis, key, w.span)
    requires forall w, p: nat :: w in windows && p < processes ==> Sane(setup, run, Memory(p), key, w.span)
    requires forall r :: r in requests ==> Admitted(setup, run, r, key, windows)
    ensures forall w, from :: w in windows ==>
              |AdmittedIn(run, requests, key, w, from)| <= RedisBound(setup, w.limit) + processes * MemoryBound(w.limit)
  {
    forall w, from | w in windows
      ensures |AdmittedIn(run, requests, key, w, from)| <= RedisBound(setup, w.limit) + processes * MemoryBound(w.limit)
    {
      AdmittedHavePassed(setup, run, key, windows, requests, w, from);
      FailOpenBound(setup, run, processes, Focus(key, w.span, w.limit, from), AdmittedIn(run, requests, key, w, from));
    }
  }

  /** One clock for all checks is enough for every key's own clock. */
  lemma OneClockIsEnough(setup: Setup, run: seq<Check>, store: Store, key: string, span: int)
    requires ClockedRun(run) && (store.Memory? || setup.algorithm.FixedWindow?)
    ensures Sane(setup, run, store, key, span)
  {
    HistoryClocked(setup, run, store, WindowKey(key, span));
  }
}
