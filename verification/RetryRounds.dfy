/** The retry counter of the stream consumer: how often a failing message is left
    pending, and on which pass it is dead-lettered, under every interleaving of
    readers, claimers, sweeps and crashes. */
module RetryRounds {
  import opened Prelude
  import opened StreamConsumer
  import opened StreamSafety
  import opened StreamOutcomes

  // ----- every failure that leaves a message pending has its own attempt number -----

  /** The attempt whose number was drawn and whose fate is still open. */
  function InFlight(w: Work): Option<Left> {
    if w.queue != [] && w.step.Expiring? then Some(Left(w.queue[0], w.step.round, w.step.attempt)) else None
  }

  /** The attempt was drawn from the counter, in a round that has begun. */
  ghost predicate Drawn(s: State, x: Left) {
    && 1 <= x.attempt
    && x.round.epoch <= s.epoch && x.round.clears <= Count(s.clears, x.id)
    && (x.round == RoundOf(s, x.id) ==> x.attempt <= Count(s.retries, x.id))
  }

  ghost predicate LeftOk(maxRetries: int, s: State) {
    && (forall x :: x in s.left ==> Drawn(s, x) && x.attempt < maxRetries)
    && (forall i, j :: 0 <= i < j < |s.left| ==> s.left[i] != s.left[j])
  }

  ghost predicate FlightOk(s: State, t: Task)
    requires t in s.tasks
  {
    InFlight(s.tasks[t]).Some? ==> Drawn(s, InFlight(s.tasks[t]).value) && InFlight(s.tasks[t]).value !in s.left
  }

  ghost predicate FlightsDiffer(s: State, t: Task, u: Task)
    requires t in s.tasks && u in s.tasks
  {
    InFlight(s.tasks[t]).Some? && t != u ==> InFlight(s.tasks[t]) != InFlight(s.tasks[u])
  }

  ghost predicate FlightsOk(s: State) {
    && (forall t :: t in s.tasks ==> FlightOk(s, t))
    && (forall t, u :: t in s.tasks && u in s.tasks ==> FlightsDiffer(s, t, u))
  }

  /** What a step does to the counter and to the attempt in flight. */
  ghost predicate EffectCounts(maxRetries: int, v: View, w: Work, e: Effect)
    requires w.queue != []
  {
    && (InFlight(e.work).Some? ==> e.bumped && InFlight(e.work) == Some(Left(w.queue[0], v.round, v.count + 1)))
    && (e.left.Some? ==> InFlight(w) == e.left && e.left.value.attempt < maxRetries)
    && (e.left.Some? ==> InFlight(e.work).None? && !e.bumped)
    && !(e.bumped && e.cleared)
  }

  lemma EffectsCount(maxRetries: int, v: View, w: Work, act: Act)
    requires w.queue != [] && EffectOf(maxRetries, v, w, act).Some?
    ensures EffectCounts(maxRetries, v, w, EffectOf(maxRetries, v, w, act).value)
  {
  }

  /** A drawn attempt stays drawn: the counter only rises within a round. */
  lemma EnactKeepsDrawn(g: Group, s: State, t: Task, id: Id, e: Effect, x: Left)
    requires Drawn(s, x) && !(e.bumped && e.cleared)
    ensures Drawn(Enact(g, s, t, id, e), x)
  {
  }

  lemma EnactKeepsLeft(g: Group, s: State, t: Task, e: Effect)
    requires LeftOk(g.maxRetries, s) && FlightsOk(s) && t in s.tasks && s.tasks[t].queue != []
    requires EffectCounts(g.maxRetries, ViewOf(g, s, t.name, s.tasks[t].queue[0]), s.tasks[t], e)
    ensures LeftOk(g.maxRetries, Enact(g, s, t, s.tasks[t].queue[0], e))
  {
    var id := s.tasks[t].queue[0];
    var after := Enact(g, s, t, id, e);
    assert FlightOk(s, t);
    forall x | x in after.left ensures Drawn(after, x) && x.attempt < g.maxRetries {
      EnactKeepsDrawn(g, s, t, id, e, x);
    }
  }

  lemma EnactKeepsFlight(g: Group, s: State, t: Task, e: Effect, u: Task)
    requires LeftOk(g.maxRetries, s) && FlightsOk(s) && t in s.tasks && s.tasks[t].queue != [] && u in s.tasks
    requires EffectCounts(g.maxRetries, ViewOf(g, s, t.name, s.tasks[t].queue[0]), s.tasks[t], e)
    ensures FlightOk(Enact(g, s, t, s.tasks[t].queue[0], e), u)
  {
    var id := s.tasks[t].queue[0];
    var after := Enact(g, s, t, id, e);
    assert FlightOk(s, u) && FlightsDiffer(s, t, u);
    if u != t && InFlight(s.tasks[u]).Some? {
      EnactKeepsDrawn(g, s, t, id, e, InFlight(s.tasks[u]).value);
    }
  }

  lemma EnactKeepsDiffer(g: Group, s: State, t: Task, e: Effect, u: Task)
    requires FlightsOk(s) && t in s.tasks && s.tasks[t].queue != [] && u in s.tasks && u != t
    requires EffectCounts(g.maxRetries, ViewOf(g, s, t.name, s.tasks[t].queue[0]), s.tasks[t], e)
    ensures InFlight(e.work).Some? ==> InFlight(e.work) != InFlight(s.tasks[u])
  {
    assert FlightOk(s, u);
  }

  lemma EnactKeepsFlights(g: Group, s: State, t: Task, e: Effect)
    requires LeftOk(g.maxRetries, s) && FlightsOk(s) && t in s.tasks && s.tasks[t].queue != []
    requires EffectCounts(g.maxRetries, ViewOf(g, s, t.name, s.tasks[t].queue[0]), s.tasks[t], e)
    ensures FlightsOk(Enact(g, s, t, s.tasks[t].queue[0], e))
  {
    var after := Enact(g, s, t, s.tasks[t].queue[0], e);
    forall u | u in after.tasks ensures FlightOk(after, u) {
      EnactKeepsFlight(g, s, t, e, u);
    }
    forall u, v | u in after.tasks && v in after.tasks ensures FlightsDiffer(after, u, v) {
      assert FlightsDiffer(s, u, v);
      if u != t {
        EnactKeepsDiffer(g, s, t, e, u);
      }
      if v != t {
        EnactKeepsDiffer(g, s, t, e, v);
      }
    }
  }

  lemma TickKeepsDrawn(g: Group, s: State, a: Action, x: Left)
    requires Drawn(s, x) && Apply(g, s, a).Some? && a.Tick?
    ensures Drawn(Apply(g, s, a).value, x)
  {
  }

  lemma OtherStepsKeepRounds(g: Group, s: State, a: Action)
    requires LeftOk(g.maxRetries, s) && FlightsOk(s) && Apply(g, s, a).Some? && !a.Process?
    ensures LeftOk(g.maxRetries, Apply(g, s, a).value) && FlightsOk(Apply(g, s, a).value)
  {
    var t := Apply(g, s, a).value;
    OtherStepsFrame(g, s, a);
    forall x | Drawn(s, x) ensures Drawn(t, x) {
      if a.Tick? {
        TickKeepsDrawn(g, s, a, x);
      }
    }
    forall u | u in t.tasks ensures KeptOrIdle(s, t, u) {
      OtherStepsKeepLoops(g, s, a, u);
    }
    FrameKeepsRounds(g, s, t);
  }

  lemma FrameKeepsRounds(g: Group, s: State, t: State)
    requires LeftOk(g.maxRetries, s) && FlightsOk(s) && t.left == s.left
    requires forall x :: Drawn(s, x) ==> Drawn(t, x)
    requires forall u :: u in t.tasks ==> KeptOrIdle(s, t, u)
    ensures LeftOk(g.maxRetries, t) && FlightsOk(t)
  {
    forall u | u in t.tasks ensures FlightOk(t, u) {
      assert KeptOrIdle(s, t, u);
      if u in s.tasks {
        assert FlightOk(s, u);
      }
    }
    forall u, v | u in t.tasks && v in t.tasks ensures FlightsDiffer(t, u, v) {
      assert KeptOrIdle(s, t, u) && KeptOrIdle(s, t, v);
      if u in s.tasks && v in s.tasks {
        assert FlightsDiffer(s, u, v);
      }
    }
  }

  lemma {:induction false} ReachableRounds(g: Group, actions: seq<Action>)
    requires Run(g, actions).Some?
    ensures LeftOk(g.maxRetries, Run(g, actions).value) && FlightsOk(Run(g, actions).value)
  {
    if actions != [] {
      var n := |actions| - 1;
      var s, a := Run(g, actions[..n]).value, actions[n];
      ReachableRounds(g, actions[..n]);
      if a.Process? {
        var w := s.tasks[a.task];
        var v := ViewOf(g, s, a.task.name, w.queue[0]);
        var e := EffectOf(g.maxRetries, v, w, a.act).value;
        EffectsCount(g.maxRetries, v, w, a.act);
        EnactKeepsLeft(g, s, a.task, e);
        EnactKeepsFlights(g, s, a.task, e);
      } else {
        OtherStepsKeepRounds(g, s, a);
      }
    }
  }

  // ----- at most maxRetries - 1 of them in a round -----

  /** The failures that left message `id` pending in round `r`. */
  function TimesLeft(left: seq<Left>, id: Id, r: Round): nat {
    if left == [] then 0
    else
      var last := left[|left| - 1];
      TimesLeft(left[..|left| - 1], id, r) + if last.id == id && last.round == r then 1 else 0
  }

  ghost function Numbers(left: seq<Left>, id: Id, r: Round): set<nat> {
    set x | x in left && x.id == id && x.round == r :: x.attempt
  }

  lemma {:induction false} DistinctNumbers(left: seq<Left>, id: Id, r: Round)
    requires forall i, j :: 0 <= i < j < |left| ==> left[i] != left[j]
    ensures TimesLeft(left, id, r) == |Numbers(left, id, r)|
  {
    if left != [] {
      var n := |left| - 1;
      var last, rest := left[n], left[..n];
      DistinctNumbers(rest, id, r);
      assert left == rest + [last];
      if last.id == id && last.round == r {
        assert last.attempt !in Numbers(rest, id, r);
        assert Numbers(left, id, r) == Numbers(rest, id, r) + {last.attempt};
      } else {
        assert Numbers(left, id, r) == Numbers(rest, id, r);
      }
    }
  }

  lemma {:induction false} SmallNumbers(numbers: set<nat>, top: nat)
    requires forall k :: k in numbers ==> 1 <= k <= top
    ensures |numbers| <= top
  {
    if top > 0 {
      SmallNumbers(numbers - {top}, top - 1);
    } else {
      assert numbers == {};
    }
  }

  /** In every run, the handler failures that leave a message pending number at
      most max(maxRetries - 1, 0) per round. */
  lemma FailuresLeftPending(g: Group, actions: seq<Action>, id: Id, r: Round)
    requires Run(g, actions).Some?
    ensures TimesLeft(Run(g, actions).value.left, id, r) <= Max(g.maxRetries - 1, 0)
  {
    ReachableRounds(g, actions);
    var left := Run(g, actions).value.left;
    DistinctNumbers(left, id, r);
    SmallNumbers(Numbers(left, id, r), Max(g.maxRetries - 1, 0));
  }

  // ----- the counter counts the failures of the round -----

  /** Action `a` adds one to the counter of message `id`. */
  predicate Counts(s: State, a: Action, id: Id) {
    && a.Process? && a.task in s.tasks && s.tasks[a.task].queue != [] && s.tasks[a.task].queue[0] == id
    && a.act in {Increment, IncrementRaises(true)}
  }

  /** Failures of message `id` counted since its round began. */
  ghost function Failures(g: Group, actions: seq<Action>, id: Id): nat
    requires Run(g, actions).Some?
  {
    if actions == [] then 0
    else
      var prefix, a := actions[..|actions| - 1], actions[|actions| - 1];
      var s := Run(g, prefix).value;
      if RoundOf(Run(g, actions).value, id) != RoundOf(s, id) then 0
      else Failures(g, prefix, id) + if Counts(s, a, id) then 1 else 0
  }

  lemma EffectsBump(maxRetries: int, v: View, w: Work, act: Act)
    requires w.queue != [] && EffectOf(maxRetries, v, w, act).Some?
    ensures EffectOf(maxRetries, v, w, act).value.bumped == (act in {Increment, IncrementRaises(true)})
  {
  }

  ghost predicate Counted(s: State, t: State, id: Id, more: bool) {
    Count(t.retries, id) == if RoundOf(t, id) != RoundOf(s, id) then 0 else Count(s.retries, id) + if more then 1 else 0
  }

  lemma TickCounts(g: Group, s: State, a: Action, id: Id)
    requires Apply(g, s, a).Some? && a.Tick?
    ensures Counted(s, Apply(g, s, a).value, id, false)
  {
  }

  lemma ProcessCounts(g: Group, s: State, a: Action, id: Id)
    requires Apply(g, s, a).Some? && a.Process?
    ensures Counted(s, Apply(g, s, a).value, id, Counts(s, a, id))
  {
    var w := s.tasks[a.task];
    var v := ViewOf(g, s, a.task.name, w.queue[0]);
    EffectsBump(g.maxRetries, v, w, a.act);
    EffectsCount(g.maxRetries, v, w, a.act);
    EnactCounts(g, s, a.task, w.queue[0], EffectOf(g.maxRetries, v, w, a.act).value, id);
  }

  lemma StepCounts(g: Group, s: State, a: Action, id: Id)
    requires Apply(g, s, a).Some?
    ensures Counted(s, Apply(g, s, a).value, id, Counts(s, a, id))
  {
    if a.Process? {
      ProcessCounts(g, s, a, id);
    } else if a.Tick? {
      TickCounts(g, s, a, id);
    } else {
      OtherStepsFrame(g, s, a);
    }
  }

  lemma EnactCounts(g: Group, s: State, t: Task, head: Id, e: Effect, id: Id)
    requires !(e.bumped && e.cleared)
    ensures Counted(s, Enact(g, s, t, head, e), id, e.bumped && head == id)
  {
  }

  /** In every run the counter in Redis is the number of failures counted in the
      message's current round. */
  lemma {:induction false} CounterIsExact(g: Group, actions: seq<Action>, id: Id)
    requires Run(g, actions).Some?
    ensures Count(Run(g, actions).value.retries, id) == Failures(g, actions, id)
  {
    if actions != [] {
      var n := |actions| - 1;
      CounterIsExact(g, actions[..n], id);
      StepCounts(g, Run(g, actions[..n]).value, actions[n], id);
    }
  }

  // ----- which pass dead-letters the message -----

  /** Steps of other loops, of this process too, that do not end this loop. */
  predicate Elsewhere(t: Task, actions: seq<Action>) {
    forall a :: a in actions ==> !(a.Process? && a.task == t) && !((a.Stop? || a.Crash?) && a.n == t.name)
  }

  predicate Busy(s: State, t: Task, w: Work) {
    IsRunning(s, t.name) && t in s.tasks && s.tasks[t] == w && w.queue != []
  }

  lemma OthersLeaveLoop(g: Group, s: State, a: Action, t: Task, w: Work)
    requires Busy(s, t, w) && Apply(g, s, a).Some? && Elsewhere(t, [a])
    ensures Busy(Apply(g, s, a).value, t, w)
    ensures s.ends <= Apply(g, s, a).value.ends && s.processed <= Apply(g, s, a).value.processed
  {
    assert a in [a];
    if a.Process? {
      OtherProcessLeavesLoop(g, s, a, t, w);
    } else {
      OtherStepsFrame(g, s, a);
    }
  }

  lemma OtherProcessLeavesLoop(g: Group, s: State, a: Action, t: Task, w: Work)
    requires Busy(s, t, w) && Apply(g, s, a).Some? && a.Process? && a.task != t
    ensures Busy(Apply(g, s, a).value, t, w)
    ensures s.ends <= Apply(g, s, a).value.ends && s.processed <= Apply(g, s, a).value.processed
  {
  }

  lemma {:induction false} MeanwhileLeavesLoop(g: Group, s: State, actions: seq<Action>, t: Task, w: Work)
    requires Busy(s, t, w) && RunFrom(g, s, actions).Some? && Elsewhere(t, actions)
    ensures Busy(RunFrom(g, s, actions).value, t, w)
    ensures s.ends <= RunFrom(g, s, actions).value.ends && s.processed <= RunFrom(g, s, actions).value.processed
  {
    if actions != [] {
      var n := |actions| - 1;
      MeanwhileLeavesLoop(g, s, actions[..n], t, w);
      OthersLeaveLoop(g, RunFrom(g, s, actions[..n]).value, actions[n], t, w);
    }
  }

  lemma IncrementDraws(g: Group, s: State, t: Task, queue: seq<Id>)
    requires Busy(s, t, Work(queue, Counting))
    ensures var after := Apply(g, s, Process(t, Increment));
            var drawn := Expiring(Count(s.retries, queue[0]) + 1, RoundOf(s, queue[0]));
            after.Some? && Busy(after.value, t, Work(queue, drawn))
  {
    ProcessIsEnact(g, s, t, Increment);
  }

  lemma ExpireDecides(g: Group, s: State, t: Task, queue: seq<Id>, attempt: nat, r: Round)
    requires Busy(s, t, Work(queue, Expiring(attempt, r)))
    ensures var after := Apply(g, s, Process(t, Expire));
            after.Some? && PassEnd(g, s, after.value, t, queue, attempt)
  {
    ProcessIsEnact(g, s, t, Expire);
  }

  /** The pass's decision after failure number `number`: dead-letter, or leave the
      message pending and go on with the batch. */
  predicate PassEnd(g: Group, s: State, after: State, t: Task, queue: seq<Id>, number: nat)
    requires queue != []
  {
    && after.pel == s.pel
    && (if number >= g.maxRetries then Busy(after, t, Work(queue, DeadLettering))
        else t in after.tasks && after.tasks[t] == Work(queue[1..], Idle))
  }

  lemma PassDecides(g: Group, s: State, t: Task, queue: seq<Id>, others: seq<Action>)
    requires Busy(s, t, Work(queue, Counting))
    ensures Apply(g, s, Process(t, Increment)).Some?
    ensures var between := RunFrom(g, Apply(g, s, Process(t, Increment)).value, others);
            between.Some? && Elsewhere(t, others) ==>
              var after := Apply(g, between.value, Process(t, Expire));
              after.Some? && PassEnd(g, between.value, after.value, t, queue, Count(s.retries, queue[0]) + 1)
  {
    var number, r := Count(s.retries, queue[0]) + 1, RoundOf(s, queue[0]);
    IncrementDraws(g, s, t, queue);
    var counted := Apply(g, s, Process(t, Increment)).value;
    var between := RunFrom(g, counted, others);
    if between.Some? && Elsewhere(t, others) {
      MeanwhileLeavesLoop(g, counted, others, t, Work(queue, Expiring(number, r)));
      ExpireDecides(g, between.value, t, queue, number, r);
    }
  }

  /** Whatever happens elsewhere between a failing pass's two counter commands: the
      pass dead-letters its message exactly when it is at least the maxRetries-th
      counted failure of the round, and otherwise leaves the pending list alone. */
  lemma PassIsTerminalExactlyFrom(g: Group, actions: seq<Action>, t: Task, queue: seq<Id>, others: seq<Action>)
    requires Run(g, actions).Some? && Busy(Run(g, actions).value, t, Work(queue, Counting))
    ensures Apply(g, Run(g, actions).value, Process(t, Increment)).Some?
    ensures var between := RunFrom(g, Apply(g, Run(g, actions).value, Process(t, Increment)).value, others);
            between.Some? && Elsewhere(t, others) ==>
              var after := Apply(g, between.value, Process(t, Expire));
              after.Some? && PassEnd(g, between.value, after.value, t, queue, Failures(g, actions, queue[0]) + 1)
  {
    CounterIsExact(g, actions, queue[0]);
    PassDecides(g, Run(g, actions).value, t, queue, others);
  }

  lemma WriteRecords(g: Group, s: State, t: Task, queue: seq<Id>)
    requires Busy(s, t, Work(queue, DeadLettering))
    ensures var after := Apply(g, s, Process(t, WriteDlq));
            after.Some? && Busy(after.value, t, Work(queue, Clearing)) && (queue[0], DeadLettered) in after.value.ends
  {
    ProcessIsEnact(g, s, t, WriteDlq);
  }

  lemma ClearAdvances(g: Group, s: State, t: Task, queue: seq<Id>)
    requires Busy(s, t, Work(queue, Clearing))
    ensures var after := Apply(g, s, Process(t, Clear));
            && after.Some? && Busy(after.value, t, Work(queue, Acking)) && Count(after.value.retries, queue[0]) == 0
            && after.value.ends == s.ends && after.value.processed == s.processed
  {
    ProcessIsEnact(g, s, t, Clear);
  }

  lemma AckRemoves(g: Group, s: State, t: Task, queue: seq<Id>)
    requires Busy(s, t, Work(queue, Acking))
    ensures var after := Apply(g, s, Process(t, Ack));
            && after.Some? && queue[0] !in after.value.pel
            && after.value.ends == s.ends && after.value.processed == s.processed
  {
    ProcessIsEnact(g, s, t, Ack);
  }

  /** The last two commands of a decided pass, with anything happening elsewhere
      in between: the outcome stays recorded and the message is not pending. */
  lemma ClearAndAck(g: Group, s: State, t: Task, queue: seq<Id>, others: seq<Action>)
    requires Busy(s, t, Work(queue, Clearing)) && Elsewhere(t, others)
    ensures Apply(g, s, Process(t, Clear)).Some?
    ensures var between := RunFrom(g, Apply(g, s, Process(t, Clear)).value, others);
            between.Some? ==>
              var done := Apply(g, between.value, Process(t, Ack));
              && done.Some? && queue[0] !in done.value.pel
              && s.ends <= done.value.ends && s.processed <= done.value.processed
  {
    ClearAdvances(g, s, t, queue);
    var cleared := Apply(g, s, Process(t, Clear)).value;
    var between := RunFrom(g, cleared, others);
    if between.Some? {
      MeanwhileLeavesLoop(g, cleared, others, t, Work(queue, Acking));
      AckRemoves(g, between.value, t, queue);
    }
  }

  /** After a pass through Clear and Ack: not pending, and still recorded. */
  ghost predicate PassDone(g: Group, s: State, t: Task, id: Id, o: Outcome, others: seq<Action>) {
    && Apply(g, s, Process(t, Clear)).Some?
    && var between := RunFrom(g, Apply(g, s, Process(t, Clear)).value, others);
       between.Some? ==>
         var done := Apply(g, between.value, Process(t, Ack));
         && done.Some? && id !in done.value.pel && (id, o) in done.value.ends
         && (o.Handled? && g.hasChecker ==> g.event(id) in done.value.processed)
  }

  /** A dead-lettering pass whose commands succeed ends with the outcome recorded
      and the message no longer pending, whatever happens elsewhere meanwhile. */
  lemma DeadLetteringEnds(g: Group, s: State, t: Task, queue: seq<Id>, others1: seq<Action>, others2: seq<Action>)
    requires Busy(s, t, Work(queue, DeadLettering)) && Elsewhere(t, others1) && Elsewhere(t, others2)
    ensures Apply(g, s, Process(t, WriteDlq)).Some?
    ensures var written := RunFrom(g, Apply(g, s, Process(t, WriteDlq)).value, others1);
            written.Some? ==> PassDone(g, written.value, t, queue[0], DeadLettered, others2)
  {
    WriteRecords(g, s, t, queue);
    var s1 := Apply(g, s, Process(t, WriteDlq)).value;
    var written := RunFrom(g, s1, others1);
    if written.Some? {
      MeanwhileLeavesLoop(g, s1, others1, t, Work(queue, Clearing));
      ClearAndAck(g, written.value, t, queue, others2);
    }
  }

  lemma ReturnRecords(g: Group, s: State, t: Task, queue: seq<Id>)
    requires Busy(s, t, Work(queue, Handling))
    ensures var after := Apply(g, s, Process(t, HandlerReturns));
            after.Some? && Busy(after.value, t, Work(queue, Marking)) && (queue[0], Handled) in after.value.ends
  {
    ProcessIsEnact(g, s, t, HandlerReturns);
  }

  lemma MarkRemembers(g: Group, s: State, t: Task, queue: seq<Id>)
    requires Busy(s, t, Work(queue, Marking))
    ensures var after := Apply(g, s, Process(t, MarkSeen));
            && after.Some? && Busy(after.value, t, Work(queue, Clearing)) && after.value.ends == s.ends
            && (g.hasChecker ==> g.event(queue[0]) in after.value.processed)
  {
    ProcessIsEnact(g, s, t, MarkSeen);
  }

  /** A pass whose handler returns and whose commands succeed ends with the
      message handled, its event remembered and the message no longer pending. */
  lemma HandledPassEnds(
      g: Group, s: State, t: Task, queue: seq<Id>, others1: seq<Action>, others2: seq<Action>, others3: seq<Action>)
    requires Busy(s, t, Work(queue, Handling))
    requires Elsewhere(t, others1) && Elsewhere(t, others2) && Elsewhere(t, others3)
    ensures Apply(g, s, Process(t, HandlerReturns)).Some?
    ensures var returned := RunFrom(g, Apply(g, s, Process(t, HandlerReturns)).value, others1);
            returned.Some? ==>
              && Apply(g, returned.value, Process(t, MarkSeen)).Some?
              && var marked := RunFrom(g, Apply(g, returned.value, Process(t, MarkSeen)).value, others2);
                 marked.Some? ==> PassDone(g, marked.value, t, queue[0], Handled, others3)
  {
    ReturnRecords(g, s, t, queue);
    var s1 := Apply(g, s, Process(t, HandlerReturns)).value;
    var returned := RunFrom(g, s1, others1);
    if returned.Some? {
      MeanwhileLeavesLoop(g, s1, others1, t, Work(queue, Marking));
      MarkRemembers(g, returned.value, t, queue);
      var s2 := Apply(g, returned.value, Process(t, MarkSeen)).value;
      var marked := RunFrom(g, s2, others2);
      if marked.Some? {
        MeanwhileLeavesLoop(g, s2, others2, t, Work(queue, Clearing));
        ClearAndAck(g, marked.value, t, queue, others3);
      }
    }
  }

  /** Crash recovery: an idle claim loop of any running consumer can take a pending
      entry, whoever holds it and in whatever state that consumer is, exactly when
      the entry is idle past the floor and not trimmed; it then holds the entry
      and is about to process it. */
  lemma PendingIsClaimable(g: Group, s: State, n: Name, id: Id)
    requires IsRunning(s, n) && Task(n, Claimer) in s.tasks && s.tasks[Task(n, Claimer)].queue == []
    ensures var after := Apply(g, s, Claim(n, [id], {}, false));
            && (after.Some? <==> Claimable(g, s, id) && id !in s.trimmed)
            && (after.Some? ==>
                  && Ready(after.value, Task(n, Claimer), id)
                  && after.value.pel == s.pel[id := Pending(n, s.now)])
  {
    assert Ids([id]) == {id};
  }
}
