/** `RateLimiter.check` and `_check_window` on the stores they really keep: one
    counter or sorted set per window key, and one memory bucket per process and
    key. The stores hold no history, yet answer as the full history would. */
module LimiterStores {
  import opened Prelude
  import opened WindowLimits
  import opened SlidingWindow
  import opened RateLimiter

  /** The environment's part in one window check: clock, random suffix, and what
      became of the Redis call. */
  datatype Moment = Moment(at: real, tag: nat, reply: Reply)

  lemma AppendHistory(setup: Setup, run: seq<Check>, c: Check, store: Store, wk: string)
    ensures History(setup, run + [c], store, wk)
         == if Executes(setup, c, store) && WindowKey(c.key, c.span) == wk
            then History(setup, run, store, wk) + [c.call] else History(setup, run, store, wk)
  {
    assert (run + [c])[..|run|] == run;
  }

  lemma AppendAfter(kind: Kind, span: real, h: seq<Call>, call: Call)
    ensures After(kind, span, h + [call]) == Some(Next(kind, span, After(kind, span, h), call))
    ensures Allowed(kind, span, h + [call], |h|) == Answer(kind, span, After(kind, span, h), call)
  {
    assert (h + [call])[..|h|] == h;
  }

  lemma AppendKey(span: int, h: seq<Call>, call: Call)
    ensures KeyAfter(span, h + [call]) == Some(Stored(span, KeyAfter(span, h), call))
    ensures SlidingAllowed(span, h + [call], |h|) == (|Stored(span, KeyAfter(span, h), call).scores| <= call.limit)
  {
    assert (h + [call])[..|h|] == h;
  }

  /** What the stores hold: Redis counters or sorted sets by window key, and
      memory buckets by process and window key. */
  datatype Held = Held(counters: map<string, Cell>, zsets: map<string, Zset>, memories: map<(nat, string), Cell>) {
    function Counter(wk: string): Option<Cell> {
      if wk in counters then Some(counters[wk]) else None
    }

    function SortedSet(wk: string): Option<Zset> {
      if wk in zsets then Some(zsets[wk]) else None
    }

    function Bucket(p: nat, wk: string): Option<Cell> {
      if (p, wk) in memories then Some(memories[(p, wk)]) else None
    }

    function Size(p: nat): nat {
      |set k | k in memories && k.0 == p|
    }
  }

  /** Redis holds under a window key what the key's history leaves there. */
  ghost predicate RedisAgrees(setup: Setup, run: seq<Check>, held: Held, key: string, span: int) {
    var wk := WindowKey(key, span);
    var h := History(setup, run, Redis, wk);
    match setup.algorithm
    case FixedWindow => held.Counter(wk) == After(RedisFixed, span as real, h)
    case SlidingWindows => held.SortedSet(wk) == KeyAfter(span, h)
  }

  /** The last clock reading of process `p`. */
  ghost function ClockOf(run: seq<Check>, p: nat): Option<real> {
    if run == [] then None
    else
      var last := run[|run| - 1];
      if last.process == p then Some(last.call.at) else ClockOf(run[..|run| - 1], p)
  }

  /** The check's clock is not behind its process's last reading. */
  ghost predicate InTime(run: seq<Check>, c: Check) {
    ClockOf(run, c.process).Some? ==> ClockOf(run, c.process).value <= c.call.at
  }

  /** The bucket is what the history leaves, or was cleaned up once it had lapsed. */
  ghost predicate SameBucket(bucket: Option<Cell>, full: Option<Cell>, clock: Option<real>) {
    bucket == full || (bucket.None? && full.Some? && clock.Some? && Lapsed(Fallback, full.value, clock.value))
  }

  ghost predicate MemoryAgrees(setup: Setup, run: seq<Check>, held: Held, p: nat, key: string, span: int) {
    var wk := WindowKey(key, span);
    SameBucket(held.Bucket(p, wk), After(Fallback, span as real, History(setup, run, Memory(p), wk)), ClockOf(run, p))
  }

  /** One script call on Redis, and its answer. */
  function EvalRedis(setup: Setup, held: Held, c: Check): (Held, bool) {
    var wk := WindowKey(c.key, c.span);
    match setup.algorithm
    case FixedWindow =>
      var cell := held.Counter(wk);
      (held.(counters := held.counters[wk := Next(RedisFixed, c.span as real, cell, c.call)]),
       Answer(RedisFixed, c.span as real, cell, c.call))
    case SlidingWindows =>
      var stored := Stored(c.span, held.SortedSet(wk), c.call);
      (held.(zsets := held.zsets[wk := stored]), |stored.scores| <= c.call.limit)
  }

  /** `_cleanup_expired`: process `p` drops its lapsed buckets. */
  function Cleaned(held: Held, p: nat, now: real): Held {
    var memories := held.memories;
    held.(memories := map k | k in memories && !(k.0 == p && Lapsed(Fallback, memories[k], now)) :: memories[k])
  }

  /** The fallback's check: a cleanup when there are too many buckets, then the
      bucket. */
  function EvalMemory(setup: Setup, held: Held, c: Check): (Held, bool) {
    var wk := WindowKey(c.key, c.span);
    var kept := if held.Size(c.process) > setup.cleanupThreshold then Cleaned(held, c.process, c.call.at) else held;
    var cell := kept.Bucket(c.process, wk);
    (kept.(memories := kept.memories[(c.process, wk) := Next(Fallback, c.span as real, cell, c.call)]),
     Answer(Fallback, c.span as real, cell, c.call))
  }

  lemma RedisAnswers(setup: Setup, run: seq<Check>, held: Held, c: Check)
    requires RedisAgrees(setup, run, held, c.key, c.span)
    ensures EvalRedis(setup, held, c).1
         == StoreAllows(setup, Redis, c.span, History(setup, run, Redis, WindowKey(c.key, c.span)), c.call)
  {
    var h := History(setup, run, Redis, WindowKey(c.key, c.span));
    AppendAfter(RedisFixed, c.span as real, h, c.call);
    AppendKey(c.span, h, c.call);
  }

  /** A lapsed bucket and no bucket are the same to a call. */
  lemma LapsedIsAbsent(span: real, bucket: Option<Cell>, full: Option<Cell>, clock: Option<real>, call: Call)
    requires SameBucket(bucket, full, clock) && (clock.Some? ==> clock.value <= call.at)
    ensures Next(Fallback, span, bucket, call) == Next(Fallback, span, full, call)
    ensures Answer(Fallback, span, bucket, call) == Answer(Fallback, span, full, call)
  {
  }

  /** Cleaning up keeps every bucket the same, as of the cleanup's own time. */
  lemma CleanedIsSame(
      setup: Setup, held: Held, p: nat, now: real, q: nat, wk: string, full: Option<Cell>, clock: Option<real>)
    requires SameBucket(held.Bucket(q, wk), full, clock) && (q == p && clock.Some? ==> clock.value <= now)
    ensures SameBucket(Cleaned(held, p, now).Bucket(q, wk), full, if q == p then Some(now) else clock)
    ensures q == p ==> SameBucket(held.Bucket(q, wk), full, Some(now))
  {
  }

  /** A check that finds too many buckets leaves its process only its own and those
      that have not lapsed. */
  lemma CleanupDropsLapsed(setup: Setup, held: Held, c: Check, k: (nat, string))
    requires held.Size(c.process) > setup.cleanupThreshold && k in EvalMemory(setup, held, c).0.memories
    ensures k.0 == c.process && k.1 != WindowKey(c.key, c.span) ==> held.memories[k].until >= c.call.at
  {
  }

  lemma MemoryAnswers(setup: Setup, run: seq<Check>, held: Held, c: Check)
    requires MemoryAgrees(setup, run, held, c.process, c.key, c.span) && InTime(run, c)
    ensures EvalMemory(setup, held, c).1
         == StoreAllows(setup, Memory(c.process), c.span,
                        History(setup, run, Memory(c.process), WindowKey(c.key, c.span)), c.call)
  {
    var wk := WindowKey(c.key, c.span);
    var h := History(setup, run, Memory(c.process), wk);
    var full := After(Fallback, c.span as real, h);
    AppendAfter(Fallback, c.span as real, h, c.call);
    CleanedIsSame(setup, held, c.process, c.call.at, c.process, wk, full, ClockOf(run, c.process));
    LapsedIsAbsent(c.span as real, held.Bucket(c.process, wk), full, Some(c.call.at), c.call);
    var cleaned := Cleaned(held, c.process, c.call.at);
    LapsedIsAbsent(c.span as real, cleaned.Bucket(c.process, wk), full, Some(c.call.at), c.call);
  }

  /** Recording a check that Redis executed, or did not, keeps every key in step. */
  lemma RedisStep(setup: Setup, run: seq<Check>, held: Held, c: Check, key: string, span: int)
    requires RedisAgrees(setup, run, held, key, span) && RedisAgrees(setup, run, held, c.key, c.span)
    ensures Executes(setup, c, Redis) ==> RedisAgrees(setup, run + [c], EvalRedis(setup, held, c).0, key, span)
    ensures !Executes(setup, c, Redis) ==> RedisAgrees(setup, run + [c], held, key, span)
  {
    var wk := WindowKey(key, span);
    AppendHistory(setup, run, c, Redis, wk);
    if WindowKey(c.key, c.span) == wk {
      WindowKeyInjective(c.key, c.span, key, span);
      var h := History(setup, run, Redis, wk);
      AppendAfter(RedisFixed, span as real, h, c.call);
      AppendKey(span, h, c.call);
    }
  }

  lemma ClockStep(run: seq<Check>, c: Check, p: nat)
    ensures ClockOf(run + [c], p) == if c.process == p then Some(c.call.at) else ClockOf(run, p)
  {
    assert (run + [c])[..|run|] == run;
  }

  lemma MemoryStep(setup: Setup, run: seq<Check>, held: Held, c: Check, p: nat, key: string, span: int)
    requires MemoryAgrees(setup, run, held, p, key, span) && InTime(run, c)
    ensures Executes(setup, c, Memory(c.process)) ==>
              MemoryAgrees(setup, run + [c], EvalMemory(setup, held, c).0, p, key, span)
    ensures !Executes(setup, c, Memory(c.process)) ==> MemoryAgrees(setup, run + [c], held, p, key, span)
  {
    var wk := WindowKey(key, span);
    var h := History(setup, run, Memory(p), wk);
    var full, now := After(Fallback, span as real, h), c.call.at;
    AppendHistory(setup, run, c, Memory(p), wk);
    ClockStep(run, c, p);
    CleanedIsSame(setup, held, c.process, now, p, wk, full, ClockOf(run, p));
    if WindowKey(c.key, c.span) == wk && p == c.process {
      WindowKeyInjective(c.key, c.span, key, span);
      AppendAfter(Fallback, span as real, h, c.call);
      LapsedIsAbsent(span as real, held.Bucket(p, wk), full, Some(now), c.call);
      LapsedIsAbsent(span as real, Cleaned(held, p, now).Bucket(p, wk), full, Some(now), c.call);
    }
  }

  /** Later checks do not change an earlier answer. */
  lemma PassesPrefix(setup: Setup, run: seq<Check>, longer: seq<Check>, i: nat)
    requires i < |run| && run <= longer
    ensures Passes(setup, run, i) == Passes(setup, longer, i)
  {
    assert run[..i] == longer[..i];
  }

  /** One `_check_window` call on the stores, and its answer. */
  function StepHeld(setup: Setup, held: Held, c: Check): (Held, bool) {
    var asked := if c.reply.Unreachable? then (held, false) else EvalRedis(setup, held, c);
    if c.reply.Answered? then asked
    else if c.mode.FailClosed? then (asked.0, false)
    else if setup.fallback then EvalMemory(setup, asked.0, c)
    else (asked.0, true)
  }

  ghost predicate RedisInStep(setup: Setup, run: seq<Check>, held: Held) {
    forall key, span :: RedisAgrees(setup, run, held, key, span)
  }

  ghost predicate MemoryInStep(setup: Setup, run: seq<Check>, held: Held) {
    forall p, key, span :: MemoryAgrees(setup, run, held, p, key, span)
  }

  /** The fallback looks at nothing but the memories. */
  lemma MemoryAlone(setup: Setup, held: Held, other: Held, c: Check)
    requires held.memories == other.memories
    ensures EvalMemory(setup, held, c).0.memories == EvalMemory(setup, other, c).0.memories
    ensures EvalMemory(setup, held, c).1 == EvalMemory(setup, other, c).1
    ensures EvalMemory(setup, held, c).0.counters == held.counters && EvalMemory(setup, held, c).0.zsets == held.zsets
  {
  }

  lemma RedisAlone(setup: Setup, held: Held, c: Check)
    ensures EvalRedis(setup, held, c).0.memories == held.memories
  {
  }

  /** The Redis part of the stores after a check, then its memory part. */
  lemma StepParts(setup: Setup, held: Held, c: Check)
    ensures var redis := if Executes(setup, c, Redis) then EvalRedis(setup, held, c).0 else held;
      StepHeld(setup, held, c).0.counters == redis.counters && StepHeld(setup, held, c).0.zsets == redis.zsets
    ensures var memory := if Executes(setup, c, Memory(c.process)) then EvalMemory(setup, held, c).0 else held;
      StepHeld(setup, held, c).0.memories == memory.memories
    ensures Asks(setup, c, Redis) ==> StepHeld(setup, held, c).1 == EvalRedis(setup, held, c).1
    ensures Asks(setup, c, Memory(c.process)) ==> StepHeld(setup, held, c).1 == EvalMemory(setup, held, c).1
  {
    RedisAlone(setup, held, c);
    MemoryAlone(setup, held, held, c);
    MemoryAlone(setup, EvalRedis(setup, held, c).0, held, c);
  }

  lemma RedisStepped(setup: Setup, run: seq<Check>, held: Held, c: Check, key: string, span: int)
    requires RedisAgrees(setup, run, held, key, span) && RedisAgrees(setup, run, held, c.key, c.span)
    ensures RedisAgrees(setup, run + [c], StepHeld(setup, held, c).0, key, span)
  {
    RedisStep(setup, run, held, c, key, span);
    StepParts(setup, held, c);
  }

  lemma MemoryStepped(setup: Setup, run: seq<Check>, held: Held, c: Check, p: nat, key: string, span: int)
    requires MemoryAgrees(setup, run, held, p, key, span) && InTime(run, c)
    ensures MemoryAgrees(setup, run + [c], StepHeld(setup, held, c).0, p, key, span)
  {
    MemoryStep(setup, run, held, c, p, key, span);
    StepParts(setup, held, c);
  }

  lemma StoresStay(setup: Setup, run: seq<Check>, held: Held, c: Check)
    requires RedisInStep(setup, run, held) && MemoryInStep(setup, run, held) && InTime(run, c)
    ensures RedisInStep(setup, run + [c], StepHeld(setup, held, c).0)
    ensures MemoryInStep(setup, run + [c], StepHeld(setup, held, c).0)
  {
    var run', next := run + [c], StepHeld(setup, held, c).0;
    forall key, span ensures RedisAgrees(setup, run', next, key, span) {
      RedisStepped(setup, run, held, c, key, span);
    }
    forall p, key, span ensures MemoryAgrees(setup, run', next, p, key, span) {
      MemoryStepped(setup, run, held, c, p, key, span);
    }
  }

  /** The stored counters give the answer of the history. */
  lemma StoresAnswerLikeHistory(setup: Setup, run: seq<Check>, held: Held, c: Check)
    requires RedisAgrees(setup, run, held, c.key, c.span)
    requires MemoryAgrees(setup, run, held, c.process, c.key, c.span) && InTime(run, c)
    ensures StepHeld(setup, held, c).1 == Passes(setup, run + [c], |run|)
  {
    assert (run + [c])[..|run|] == run;
    StepParts(setup, held, c);
    if c.reply.Answered? {
      RedisAnswers(setup, run, held, c);
    } else {
      MemoryAnswers(setup, run, held, c);
    }
  }

  /** The recorded answers are those of the run's history. */
  ghost predicate Recorded(setup: Setup, run: seq<Check>, answers: seq<bool>) {
    |answers| == |run| && forall i :: 0 <= i < |run| ==> answers[i] == Passes(setup, run, i)
  }

  lemma RecordedStep(setup: Setup, run: seq<Check>, answers: seq<bool>, c: Check, answer: bool)
    requires Recorded(setup, run, answers) && answer == Passes(setup, run + [c], |run|)
    ensures Recorded(setup, run + [c], answers + [answer])
  {
    forall i | 0 <= i < |run| ensures answers[i] == Passes(setup, run + [c], i) {
      PassesPrefix(setup, run, run + [c], i);
    }
  }

  ghost predicate InStep(setup: Setup, run: seq<Check>, answers: seq<bool>, held: Held) {
    RedisInStep(setup, run, held) && MemoryInStep(setup, run, held) && Recorded(setup, run, answers)
  }

  /** One check keeps the stores and the recorded answers in step with the run. */
  lemma StepStays(setup: Setup, run: seq<Check>, answers: seq<bool>, held: Held, c: Check)
    requires InStep(setup, run, answers, held) && InTime(run, c)
    ensures InStep(setup, run + [c], answers + [StepHeld(setup, held, c).1], StepHeld(setup, held, c).0)
  {
    StoresStay(setup, run, held, c);
    StoresAnswerLikeHistory(setup, run, held, c);
    RecordedStep(setup, run, answers, c, StepHeld(setup, held, c).1);
  }

  /** The checks one request makes, window by window. */
  ghost function Plan(
      process: nat, request: nat, key: string, windows: seq<Window>, mode: FailMode, moments: seq<Moment>)
      : (plan: seq<Check>)
    requires |moments| == |windows|
    ensures |plan| == |windows|
    ensures forall i :: 0 <= i < |windows| ==> plan[i] == CheckOf(process, request, key, windows[i], mode, moments[i])
  {
    seq(|windows|, i requires 0 <= i < |windows| => CheckOf(process, request, key, windows[i], mode, moments[i]))
  }

  function CheckOf(process: nat, request: nat, key: string, w: Window, mode: FailMode, m: Moment): Check {
    Check(process, request, key, w.span, Call(m.at, w.limit, m.tag), mode, m.reply)
  }

  /** No process's clock runs backwards while the plan is carried out. */
  ghost predicate AllInTime(run: seq<Check>, plan: seq<Check>) {
    forall i :: 0 <= i < |plan| ==> InTime(run + plan[..i], plan[i])
  }

  lemma PlanStep(run: seq<Check>, plan: seq<Check>, i: nat)
    requires AllInTime(run, plan) && i < |plan|
    ensures InTime(run + plan[..i], plan[i]) && run + plan[..i] + [plan[i]] == run + plan[..i + 1]
  {
  }

  ghost predicate NewRequest(run: seq<Check>, request: nat) {
    forall i :: 0 <= i < |run| ==> run[i].request != request
  }

  /** A request whose checks are its plan is admitted exactly when none refused. */
  lemma AdmittedIffAllPassed(setup: Setup, run: seq<Check>, answers: seq<bool>, results: seq<bool>, process: nat,
                             request: nat, key: string, windows: seq<Window>, mode: FailMode, moments: seq<Moment>)
    requires |moments| == |windows| == |results| && |answers| == |run| + |results| && NewRequest(run, request)
    requires Recorded(setup, run + Plan(process, request, key, windows, mode, moments), answers)
    requires answers[|run|..] == results
    ensures Admitted(setup, run + Plan(process, request, key, windows, mode, moments), request, key, windows)
       <==> false !in results
  {
    var plan := Plan(process, request, key, windows, mode, moments);
    var all := run + plan;
    forall k | 0 <= k < |windows| ensures ChecksWindow(all[|run| + k], request, key, windows[k]) {
      assert all[|run| + k] == plan[k];
    }
    forall k | 0 <= k < |windows| ensures results[k] == Passes(setup, all, |run| + k) {
      assert answers[|run| + k] == results[k];
    }
    assert forall j :: 0 <= j < |run| ==> all[j] == run[j];
    forall i | 0 <= i < |all| && all[i].request == request ensures i >= |run| && answers[i] == results[i - |run|] {}
    if false in results {
      var k :| 0 <= k < |results| && results[k] == false;
      assert all[|run| + k].request == request && !Passes(setup, all, |run| + k);
    }
  }

  /** Redis and the memories of all processes; the run so far and its answers
      are ghosts. */
  class Stores {
    const setup: Setup
    var held: Held
    ghost var run: seq<Check>
    ghost var answers: seq<bool>

    constructor (setup: Setup)
      ensures Valid() && this.setup == setup && run == []
    {
      this.setup := setup;
      held, run, answers := Held(map[], map[], map[]), [], [];
    }

    ghost predicate Valid()
      reads this
    {
      InStep(setup, run, answers, held)
    }

    /** `_check_window` */
    method CheckWindow(c: Check) returns (allowed: bool)
      requires Valid() && InTime(run, c)
      modifies this
      ensures Valid() && run == old(run) + [c] && answers == old(answers) + [allowed]
    {
      StepStays(setup, run, answers, held, c);
      ghost var stepped := StepHeld(setup, held, c);
      var fromRedis := (held, false);
      if !c.reply.Unreachable? {
        fromRedis := EvalRedis(setup, held, c);
      }
      held, allowed := fromRedis.0, fromRedis.1;
      if !c.reply.Answered? {
        if c.mode.FailClosed? {
          allowed := false;
        } else if setup.fallback {
          var fromMemory := EvalMemory(setup, held, c);
          held, allowed := fromMemory.0, fromMemory.1;
        } else {
          allowed := true;
        }
      }
      assert held == stepped.0 && allowed == stepped.1;
      run, answers := run + [c], answers + [allowed];
    }

    /** `check`: every window is checked in order, and the request is blocked
        exactly when some window refused it. */
    method CheckRequest(
        process: nat, request: nat, key: string, windows: seq<Window>, mode: FailMode, moments: seq<Moment>)
      returns (results: seq<bool>, blocked: bool)
      requires Valid() && |moments| == |windows|
      requires AllInTime(run, Plan(process, request, key, windows, mode, moments))
      modifies this
      ensures Valid()
      ensures run == old(run) + Plan(process, request, key, windows, mode, moments)
      ensures answers == old(answers) + results && |results| == |windows|
      ensures blocked <==> false in results
      ensures NewRequest(old(run), request) ==> (blocked <==> !Admitted(setup, run, request, key, windows))
    {
      results, blocked := [], false;
      ghost var plan := Plan(process, request, key, windows, mode, moments);
      for i := 0 to |windows|
        invariant Valid() && run == old(run) + plan[..i]
        invariant answers == old(answers) + results && |results| == i
        invariant blocked <==> false in results
      {
        PlanStep(old(run), plan, i);
        var allowed := CheckWindow(CheckOf(process, request, key, windows[i], mode, moments[i]));
        results := results + [allowed];
        if !allowed {
          blocked := true;
        }
      }
      assert plan[..|windows|] == plan;
      assert answers[|old(run)|..] == results;
      if NewRequest(old(run), request) {
        AdmittedIffAllPassed(setup, old(run), answers, results, process, request, key, windows, mode, moments);
      }
    }
  }
}
