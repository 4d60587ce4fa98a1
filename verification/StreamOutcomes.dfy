/** What becomes of delivered entries in every run of the consumer group: nothing is
    lost, each of the two exceptions is shown by a run, and every recorded outcome is
    true. */
module StreamOutcomes {
  import opened Prelude
  import opened StreamConsumer
  import opened StreamSafety

  /** In every run a delivered entry is still pending or has a recorded outcome,
      unless its dead-letter write failed or it was trimmed while pending. */
  lemma NothingIsLost(g: Group, actions: seq<Action>, id: Id)
    requires g.zombieIdle > 0 && Run(g, actions).Some? && id in Run(g, actions).value.delivered
    ensures var s := Run(g, actions).value; id in s.pel || Recorded(s, id) || id in s.swallowed || id in s.dropped
  {
    ReachableSafe(g, actions);
  }

  lemma RunExtends(g: Group, actions: seq<Action>, a: Action, longer: seq<Action>)
    requires Run(g, actions).Some? && longer == actions + [a]
    ensures Run(g, longer) == Apply(g, Run(g, actions).value, a)
  {
    assert longer[..|longer| - 1] == actions;
  }

  /** The message at the loop's head is about to be processed. */
  predicate Ready(s: State, t: Task, id: Id) {
    IsRunning(s, t.name) && t in s.tasks && s.tasks[t].step.Idle? && s.tasks[t].queue != [] && s.tasks[t].queue[0] == id
  }

  lemma OneMessageRead(g: Group)
    ensures var run := Run(g, [Add, Start(0), Read(0, 1, false)]);
            run.Some? && Ready(run.value, Task(0, Reader), 0) && run.value.ends == {} && 0 in run.value.delivered
  {
    RunExtends(g, [], Add, [Add]);
    RunExtends(g, [Add], Start(0), [Add, Start(0)]);
    assert Fresh(0, 0, {}) == [] && Fresh(0, 1, {}) == [0];
    RunExtends(g, [Add, Start(0)], Read(0, 1, false), [Add, Start(0), Read(0, 1, false)]);
  }

  lemma ProcessIsEnact(g: Group, s: State, t: Task, act: Act)
    requires IsRunning(s, t.name) && t in s.tasks && s.tasks[t].queue != []
    requires EffectOf(g.maxRetries, ViewOf(g, s, t.name, s.tasks[t].queue[0]), s.tasks[t], act).Some?
    ensures var id := s.tasks[t].queue[0];
            var e := EffectOf(g.maxRetries, ViewOf(g, s, t.name, id), s.tasks[t], act).value;
            Apply(g, s, Process(t, act)) == Some(Enact(g, s, t, id, e))
  {
  }

  function At(s: State, t: Task, step: Step): State
    requires t in s.tasks
  {
    s.(tasks := s.tasks[t := s.tasks[t].(step := step)])
  }

  lemma SwallowedPass(g: Group, s: State, t: Task, id: Id)
    requires Ready(s, t, id) && g.malformed(id)
    ensures Apply(g, s, Process(t, Parse)) == Some(At(s, t, Malformed))
    ensures Apply(g, At(s, t, Malformed), Process(t, DlqRaises(false)))
         == Some(At(s, t, Acking).(swallowed := s.swallowed + {id}))
    ensures var s' := Apply(g, At(s, t, Acking).(swallowed := s.swallowed + {id}), Process(t, Ack));
            s'.Some? && s'.value.delivered == s.delivered && s'.value.ends == s.ends && id !in s'.value.pel
  {
    ProcessIsEnact(g, s, t, Parse);
    ProcessIsEnact(g, At(s, t, Malformed), t, DlqRaises(false));
    assert At(At(s, t, Malformed), t, Acking).tasks == At(s, t, Acking).tasks;
    ProcessIsEnact(g, At(s, t, Acking).(swallowed := s.swallowed + {id}), t, Ack);
  }

  /** The assumptions are needed: an entry whose dead-letter write failed is
      acked with no outcome at all. */
  lemma SwallowedWriteLosesEntry(g: Group)
    requires g.malformed(0)
    ensures var t := Task(0, Reader);
            var run := Run(g, [Add, Start(0), Read(0, 1, false)] + [Process(t, Parse)]
                              + [Process(t, DlqRaises(false))] + [Process(t, Ack)]);
            run.Some? && 0 in run.value.delivered && 0 !in run.value.pel && !Recorded(run.value, 0)
  {
    var t := Task(0, Reader);
    var a2 := [Add, Start(0), Read(0, 1, false)];
    OneMessageRead(g);
    SwallowedPass(g, Run(g, a2).value, t, 0);
    var a3 := a2 + [Process(t, Parse)];
    var a4 := a3 + [Process(t, DlqRaises(false))];
    RunExtends(g, a2, Process(t, Parse), a3);
    RunExtends(g, a3, Process(t, DlqRaises(false)), a4);
    RunExtends(g, a4, Process(t, Ack), a4 + [Process(t, Ack)]);
  }

  // ----- recorded outcomes are true -----

  predicate Parsed(step: Step) {
    step.Checking? || Resolved(step)
  }

  predicate Resolved(step: Step) {
    step.Handling? || step.Marking? || step.Counting? || step.Expiring? || step.DeadLettering?
  }

  ghost predicate StepTrue(g: Group, n: Name, w: Work) {
    w.queue != [] ==>
      && (w.step.Malformed? ==> g.malformed(w.queue[0]))
      && (Parsed(w.step) ==> !g.malformed(w.queue[0]))
      && (Resolved(w.step) ==> g.handles(n, w.queue[0]))
  }

  ghost predicate HandledEvent(g: Group, s: State, e: Event) {
    exists id :: (id, Handled) in s.ends && g.event(id) == e
  }

  ghost predicate EndTrue(g: Group, s: State, id: Id, o: Outcome) {
    match o
    case Handled => !g.malformed(id) && exists n :: g.handles(n, id)
    case Duplicate => !g.malformed(id) && HandledEvent(g, s, g.event(id))
    case NoHandler => !g.malformed(id) && exists n :: !g.handles(n, id)
    case DeadLettered => g.malformed(id) || exists n :: g.handles(n, id)
  }

  ghost predicate Truthful(g: Group, s: State) {
    && (forall t :: t in s.tasks ==> StepTrue(g, t.name, s.tasks[t]))
    && (forall e :: e in s.processed ==> HandledEvent(g, s, e))
    && (forall p :: p in s.ends ==> EndTrue(g, s, p.0, p.1))
  }

  /** The step's own outcome is true, as far as the message and Redis tell. */
  ghost predicate EffectTrue(v: View, w: Work, e: Effect)
    requires w.queue != []
  {
    && (e.work.queue != [] && !e.work.step.Idle? ==> e.work.queue[0] == w.queue[0])
    && (e.work.step.Malformed? ==> v.malformed)
    && (Parsed(e.work.step) ==> (w.step.Idle? && !v.malformed) || Parsed(w.step))
    && (Resolved(e.work.step) ==> (w.step.Checking? && v.handled) || Resolved(w.step))
    && (e.end == Some(Handled) ==> w.step.Handling?)
    && (e.end == Some(Duplicate) ==> w.step.Checking? && v.known)
    && (e.end == Some(NoHandler) ==> w.step.Checking? && !v.handled)
    && (e.end == Some(DeadLettered) ==> w.step.Malformed? || w.step.DeadLettering?)
    && (e.marked ==> w.step.Marking?)
  }

  lemma EffectsAreTrue(maxRetries: int, v: View, w: Work, act: Act)
    requires w.queue != [] && EffectOf(maxRetries, v, w, act).Some?
    ensures EffectTrue(v, w, EffectOf(maxRetries, v, w, act).value)
  {
  }

  lemma GrowthKeepsEnd(g: Group, s: State, t: State, id: Id, o: Outcome)
    requires s.ends <= t.ends && EndTrue(g, s, id, o)
    ensures EndTrue(g, t, id, o)
  {
  }

  lemma EnactKeepsTruth(g: Group, s: State, t: Task, e: Effect)
    requires Truthful(g, s) && t in s.tasks && s.tasks[t].queue != [] && WorkOk(s, s.tasks[t])
    requires EffectTrue(ViewOf(g, s, t.name, s.tasks[t].queue[0]), s.tasks[t], e)
    ensures Truthful(g, Enact(g, s, t, s.tasks[t].queue[0], e))
  {
    var head := s.tasks[t].queue[0];
    var after := Enact(g, s, t, head, e);
    assert StepTrue(g, t.name, s.tasks[t]);
    assert StepTrue(g, t.name, e.work);
    forall x | x in after.processed ensures HandledEvent(g, after, x) {
      if x in s.processed {
        var id :| (id, Handled) in s.ends && g.event(id) == x;
        assert (id, Handled) in after.ends;
      } else {
        assert (head, Handled) in after.ends;
      }
    }
    forall p | p in after.ends ensures EndTrue(g, after, p.0, p.1) {
      if p in s.ends {
        GrowthKeepsEnd(g, s, after, p.0, p.1);
      } else {
        assert EndTrue(g, s, head, p.1);
        GrowthKeepsEnd(g, s, after, head, p.1);
      }
    }
  }

  ghost predicate SameCounters(s: State, t: State) {
    t.clears == s.clears && t.left == s.left && t.retries == s.retries && t.epoch == s.epoch
  }

  lemma GivingFrame(g: Group, s: State, a: Action)
    requires Apply(g, s, a).Some? && (a.Read? || a.Claim?)
    ensures SameCounters(s, Apply(g, s, a).value)
    ensures Apply(g, s, a).value.ends == s.ends && Apply(g, s, a).value.processed == s.processed
  {
  }

  lemma BystandersFrame(g: Group, s: State, a: Action)
    requires Apply(g, s, a).Some? && Bystanding(a)
    ensures a.Tick? || SameCounters(s, Apply(g, s, a).value)
  {
  }

  /** Only processing changes outcomes, and only processing and the clock touch
      the retry counters. */
  lemma OtherStepsFrame(g: Group, s: State, a: Action)
    requires Apply(g, s, a).Some? && !a.Process?
    ensures var t := Apply(g, s, a).value; t.ends == s.ends && t.processed == s.processed && t.left == s.left
    ensures a.Tick? || SameCounters(s, Apply(g, s, a).value)
  {
    if Bystanding(a) {
      BystandersFrame(g, s, a);
    } else {
      GivingFrame(g, s, a);
    }
  }

  /** Only processing moves a loop past Idle. */
  lemma OtherStepsKeepLoops(g: Group, s: State, a: Action, u: Task)
    requires Apply(g, s, a).Some? && !a.Process? && u in Apply(g, s, a).value.tasks
    ensures KeptOrIdle(s, Apply(g, s, a).value, u)
  {
    if Bystanding(a) {
      BystandersKeepTasks(g, s, a, u);
    }
  }

  predicate KeptOrIdle(s: State, t: State, u: Task)
    requires u in t.tasks
  {
    t.tasks[u].step.Idle? || (u in s.tasks && t.tasks[u] == s.tasks[u])
  }

  lemma FrameKeepsTruth(g: Group, s: State, t: State)
    requires Truthful(g, s) && t.ends == s.ends && t.processed == s.processed
    requires forall u :: u in t.tasks ==> KeptOrIdle(s, t, u)
    ensures Truthful(g, t)
  {
    forall u | u in t.tasks ensures StepTrue(g, u.name, t.tasks[u]) {
      assert KeptOrIdle(s, t, u);
    }
    forall p | p in t.ends ensures EndTrue(g, t, p.0, p.1) {
      GrowthKeepsEnd(g, s, t, p.0, p.1);
    }
  }

  /** In every run, a recorded outcome is true: a duplicate repeats an event whose
      handler did return, a handled or dead-lettered message was malformed or had
      a handler, and a malformed message is only ever dead-lettered. */
  lemma {:induction false} OutcomesAreTrue(g: Group, actions: seq<Action>)
    requires g.zombieIdle > 0 && Run(g, actions).Some?
    ensures Truthful(g, Run(g, actions).value)
  {
    if actions != [] {
      var n := |actions| - 1;
      var s, a := Run(g, actions[..n]).value, actions[n];
      OutcomesAreTrue(g, actions[..n]);
      if a.Process? {
        ReachableSafe(g, actions[..n]);
        var w := s.tasks[a.task];
        var v := ViewOf(g, s, a.task.name, w.queue[0]);
        EffectsAreTrue(g.maxRetries, v, w, a.act);
        EnactKeepsTruth(g, s, a.task, EffectOf(g.maxRetries, v, w, a.act).value);
      } else {
        OtherStepsFrame(g, s, a);
        forall u | u in Apply(g, s, a).value.tasks ensures KeptOrIdle(s, Apply(g, s, a).value, u) {
          OtherStepsKeepLoops(g, s, a, u);
        }
        FrameKeepsTruth(g, s, Apply(g, s, a).value);
      }
    }
  }
}
