/** When a failing message must be decided: a pass that is not cut short finds the
    counter exhausted after max(1, maxRetries) failures. And why cuts matter: a
    crash before the increment is never counted. */
module LastPass {
  import opened Prelude
  import opened StreamConsumer
  import opened StreamSafety
  import opened StreamOutcomes
  import opened RetryRounds
  import opened FailureLedger

  /** The loop is past its last attempt on `id`: it can only dead-letter. */
  predicate LastOn(g: Group, w: Work, id: Id) {
    Failing(w, id) && !w.step.Counting? && !Numbered(g, w)
  }

  ghost predicate Deciding(g: Group, s: State, id: Id) {
    Accounted(s, id) || exists t :: t in s.tasks && LastOn(g, s.tasks[t], id)
  }

  ghost predicate DecidedInTime(g: Group, s: State, id: Id) {
    Count(s.retries, id) >= Max(1, g.maxRetries) ==> Deciding(g, s, id)
  }

  // ----- outcomes stay -----

  lemma OutcomesStay(g: Group, s: State, a: Action, id: Id)
    requires Apply(g, s, a).Some? && !a.Process? && Accounted(s, id)
    ensures Accounted(Apply(g, s, a).value, id)
  {
    var t := Apply(g, s, a).value;
    OtherStepsFrame(g, s, a);
    OthersKeepLosses(g, s, a);
  }

  lemma OthersKeepLosses(g: Group, s: State, a: Action)
    requires Apply(g, s, a).Some? && !a.Process?
    ensures s.swallowed <= Apply(g, s, a).value.swallowed && s.dropped <= Apply(g, s, a).value.dropped
  {
    if Bystanding(a) && !a.Sweep? && !a.Deregister? {
      OnlookersKeepEntries(g, s, a);
    }
  }

  lemma EnactGrows(g: Group, s: State, t: Task, id: Id, e: Effect)
    ensures Grows(s, Enact(g, s, t, id, e))
    ensures e.end.Some? || e.swallowed ==> Accounted(Enact(g, s, t, id, e), id)
  {
    var after := Enact(g, s, t, id, e);
    if e.end.Some? {
      assert (id, e.end.value) in after.ends;
    }
  }

  // ----- one step -----

  /** A failing pass that drew no number below the limit goes on to an outcome, and
      one that raises the counter to the limit is such a pass. */
  lemma EffectDecides(g: Group, v: View, w: Work, act: Act)
    requires w.queue != [] && EffectOf(g.maxRetries, v, w, act).Some?
    ensures var e, id := EffectOf(g.maxRetries, v, w, act).value, w.queue[0];
            && (LastOn(g, w, id) ==> e.end.Some? || e.swallowed || LastOn(g, e.work, id))
            && (e.bumped && v.count + 1 >= Max(1, g.maxRetries) ==> LastOn(g, e.work, id))
            && (forall other :: other != id ==> !LastOn(g, w, other))
  {
  }

  lemma ProcessDecides(g: Group, s: State, a: Action, id: Id)
    requires Apply(g, s, a).Some? && a.Process? && DecidedInTime(g, s, id)
    ensures DecidedInTime(g, Apply(g, s, a).value, id)
  {
    var w := s.tasks[a.task];
    var v := ViewOf(g, s, a.task.name, w.queue[0]);
    var e := EffectOf(g.maxRetries, v, w, a.act).value;
    EffectDecides(g, v, w, a.act);
    EffectsCount(g.maxRetries, v, w, a.act);
    EnactDecides(g, s, a.task, e, id);
  }

  lemma EnactDecides(g: Group, s: State, t: Task, e: Effect, id: Id)
    requires t in s.tasks && s.tasks[t].queue != [] && DecidedInTime(g, s, id) && !(e.bumped && e.cleared)
    requires var w := s.tasks[t];
             && (LastOn(g, w, w.queue[0]) ==> e.end.Some? || e.swallowed || LastOn(g, e.work, w.queue[0]))
             && (e.bumped && Count(s.retries, w.queue[0]) + 1 >= Max(1, g.maxRetries) ==> LastOn(g, e.work, w.queue[0]))
    ensures DecidedInTime(g, Enact(g, s, t, s.tasks[t].queue[0], e), id)
  {
    var head := s.tasks[t].queue[0];
    var after := Enact(g, s, t, head, e);
    EnactGrows(g, s, t, head, e);
    EnactCounts(g, s, t, head, e, id);
    if Count(after.retries, id) >= Max(1, g.maxRetries) {
      if e.bumped && head == id {
        assert t in after.tasks && LastOn(g, after.tasks[t], id);
      } else if !Accounted(s, id) {
        var u :| u in s.tasks && LastOn(g, s.tasks[u], id);
        assert u in after.tasks;
        assert u != t ==> LastOn(g, after.tasks[u], id);
      }
    }
  }

  lemma OthersDecide(g: Group, s: State, a: Action, id: Id)
    requires Apply(g, s, a).Some? && !a.Process? && DecidedInTime(g, s, id) && TasksOk(s) && Housed(s)
    requires Events(g, s, a, Cut, id) == 0
    ensures DecidedInTime(g, Apply(g, s, a).value, id)
  {
    var t := Apply(g, s, a).value;
    StepCounts(g, s, a, id);
    if Count(t.retries, id) >= Max(1, g.maxRetries) {
      if Accounted(s, id) {
        OutcomesStay(g, s, a, id);
      } else {
        var u :| u in s.tasks && LastOn(g, s.tasks[u], id);
        assert u.role.Reader? || u.role.Claimer?;
        OthersKeepLoop(g, s, a, u);
        assert u in t.tasks && LastOn(g, t.tasks[u], id);
      }
    }
  }

  // ----- whole runs -----

  /** In every run in which no failing pass on the message is cut short: once
      max(1, maxRetries) failures of a round are counted, the message has its
      outcome, or a loop is past its last attempt and about to dead-letter it. */
  lemma {:induction false} ExhaustedMeansDecided(g: Group, actions: seq<Action>, id: Id)
    requires g.zombieIdle > 0 && Run(g, actions).Some? && Total(g, actions, Cut, id) == 0
    ensures Failures(g, actions, id) >= Max(1, g.maxRetries) ==> Deciding(g, Run(g, actions).value, id)
  {
    CounterIsExact(g, actions, id);
    if actions != [] {
      var n := |actions| - 1;
      var s, a := Run(g, actions[..n]).value, actions[n];
      ExhaustedMeansDecided(g, actions[..n], id);
      CounterIsExact(g, actions[..n], id);
      if a.Process? {
        ProcessDecides(g, s, a, id);
      } else {
        ReachableSafe(g, actions[..n]);
        EveryFailureIsAccountedFor(g, actions[..n], id);
        OthersDecide(g, s, a, id);
      }
    }
  }

  lemma RoundsGrow(g: Group, s: State, a: Action, id: Id)
    requires Apply(g, s, a).Some?
    ensures var t := Apply(g, s, a).value; s.epoch <= t.epoch && Count(s.clears, id) <= Count(t.clears, id)
  {
    if !a.Process? && !a.Tick? {
      OtherStepsFrame(g, s, a);
    }
  }

  lemma EffectLeaves(maxRetries: int, v: View, w: Work, act: Act)
    requires w.queue != [] && EffectOf(maxRetries, v, w, act).Some?
    ensures act.Expire? ==> w.step.Expiring?
    ensures EffectOf(maxRetries, v, w, act).value.left
         == if act.Expire? && w.step.attempt < maxRetries then InFlight(w) else None
  {
  }

  /** The machine's list of messages left pending grows with the ledger. */
  lemma StepLeaves(g: Group, s: State, a: Action, id: Id, r: Round)
    requires Apply(g, s, a).Some?
    ensures TimesLeft(Apply(g, s, a).value.left, id, r)
         == TimesLeft(s.left, id, r) + Flag(Events(g, s, a, LeftPending, id) == 1 && s.tasks[a.task].step.round == r)
  {
    var t := Apply(g, s, a).value;
    if a.Process? {
      var w := s.tasks[a.task];
      var v := ViewOf(g, s, a.task.name, w.queue[0]);
      EffectLeaves(g.maxRetries, v, w, a.act);
      var e := EffectOf(g.maxRetries, v, w, a.act).value;
      if e.left.Some? {
        assert t.left == s.left + [e.left.value];
        assert t.left[..|t.left| - 1] == s.left;
      }
    } else {
      OtherStepsFrame(g, s, a);
    }
  }

  /** In the first round the two agree. */
  lemma {:induction false} LeftInFirstRound(g: Group, actions: seq<Action>, id: Id)
    requires Run(g, actions).Some? && RoundOf(Run(g, actions).value, id) == Round(0, 0)
    ensures Total(g, actions, LeftPending, id) == TimesLeft(Run(g, actions).value.left, id, Round(0, 0))
  {
    if actions != [] {
      var n := |actions| - 1;
      var s, a := Run(g, actions[..n]).value, actions[n];
      RoundsGrow(g, s, a, id);
      LeftInFirstRound(g, actions[..n], id);
      StepLeaves(g, s, a, id, Round(0, 0));
      ReachableRounds(g, actions[..n]);
      if Events(g, s, a, LeftPending, id) == 1 {
        assert FlightOk(s, a.task);
      }
    }
  }

  /** Settling a pass gives the message its outcome, for good. */
  lemma {:induction false} SettledIsAccounted(g: Group, actions: seq<Action>, id: Id)
    requires Run(g, actions).Some? && Total(g, actions, Settled, id) > 0
    ensures Accounted(Run(g, actions).value, id)
  {
    var n := |actions| - 1;
    var s, a := Run(g, actions[..n]).value, actions[n];
    if Total(g, actions[..n], Settled, id) > 0 {
      SettledIsAccounted(g, actions[..n], id);
    }
    if a.Process? {
      var w := s.tasks[a.task];
      var v := ViewOf(g, s, a.task.name, w.queue[0]);
      EffectDecides(g, v, w, a.act);
      EffectSettles(g.maxRetries, v, w, a.act);
      EnactGrows(g, s, a.task, w.queue[0], EffectOf(g.maxRetries, v, w, a.act).value);
    } else {
      OutcomesStay(g, s, a, id);
    }
  }

  lemma EffectSettles(maxRetries: int, v: View, w: Work, act: Act)
    requires w.queue != [] && EffectOf(maxRetries, v, w, act).Some?
    ensures var e := EffectOf(maxRetries, v, w, act).value;
            w.step.DeadLettering? && (act.WriteDlq? || act.DlqRaises?) ==> e.end.Some? || e.swallowed
  {
  }

  /** In its first round, if no failing pass on the message was cut short, max(1,
      maxRetries) handler failures are enough: the message has its outcome, or one of
      those passes is still in progress. */
  lemma DecidedInFirstRound(g: Group, actions: seq<Action>, id: Id)
    requires g.zombieIdle > 0 && Run(g, actions).Some? && Total(g, actions, Cut, id) == 0
    requires RoundOf(Run(g, actions).value, id) == Round(0, 0)
    requires Total(g, actions, Raised, id) >= Max(1, g.maxRetries)
    ensures Accounted(Run(g, actions).value, id) || FailingTasks(Run(g, actions).value, id) != {}
  {
    EveryFailureIsAccountedFor(g, actions, id);
    LeftInFirstRound(g, actions, id);
    FailuresLeftPending(g, actions, id, Round(0, 0));
    if FailingTasks(Run(g, actions).value, id) == {} {
      SettledIsAccounted(g, actions, id);
    }
  }

  // ----- crashes before the increment are never counted -----

  /** Message 0 is pending, and everyone who ever held it is gone. */
  ghost predicate Orphaned(s: State, k: nat) {
    && (forall n :: n in s.lives ==> n < k && s.lives[n].Gone?)
    && s.tasks == map[] && 0 in s.pel && s.trimmed == {} && s.retries == map[] && s.retriesUntil.None?
  }

  /** Consumer `k` alone is running, and its claim loop is at `step` with message 0. */
  ghost predicate Alone(s: State, k: nat, step: Step) {
    && (forall n :: n in s.lives && n != k ==> n < k && s.lives[n].Gone?)
    && Busy(s, Task(k, Claimer), Work([0], step)) && s.tasks.Keys == {Task(k, Reader), Task(k, Claimer)}
    && 0 in s.pel && s.trimmed == {} && s.retries == map[] && s.retriesUntil.None?
  }

  /** One more step of a run, with the handler failures so far. */
  lemma Go(g: Group, actions: seq<Action>, s: State, a: Action) returns (longer: seq<Action>, t: State)
    requires Run(g, actions) == Some(s) && Apply(g, s, a).Some?
    ensures Run(g, longer) == Some(t) && Some(t) == Apply(g, s, a)
    ensures Total(g, longer, Raised, 0) == Total(g, actions, Raised, 0) + Events(g, s, a, Raised, 0)
  {
    longer, t := actions + [a], Apply(g, s, a).value;
    assert longer[..|longer| - 1] == actions;
  }

  lemma OrphanWaits(g: Group, s: State, k: nat, delay: nat)
    requires Orphaned(s, k)
    ensures Apply(g, s, Tick(delay)) == Some(s.(now := s.now + delay))
  {
  }

  lemma OrphanMeetsStarter(g: Group, s: State, k: nat)
    requires Orphaned(s, k)
    ensures var idle := Work([], Idle);
            Apply(g, s, Start(k)) == Some(s.(lives := s.lives[k := Running],
                                             tasks := map[Task(k, Reader) := idle, Task(k, Claimer) := idle]))
  {
    var idle := Work([], Idle);
    assert s.tasks[Task(k, Reader) := idle][Task(k, Claimer) := idle]
        == map[Task(k, Reader) := idle, Task(k, Claimer) := idle];
  }

  lemma StarterClaims(g: Group, s: State, k: nat)
    requires IsRunning(s, k) && Claimable(g, s, 0) && s.trimmed == {} && s.retries == map[] && s.retriesUntil.None?
    requires s.tasks == map[Task(k, Reader) := Work([], Idle), Task(k, Claimer) := Work([], Idle)]
    requires forall n :: n in s.lives && n != k ==> n < k && s.lives[n].Gone?
    ensures var after := Apply(g, s, Claim(k, [0], {}, false)); after.Some? && Alone(after.value, k, Idle)
  {
    PendingIsClaimable(g, s, k, 0);
    var t := Apply(g, s, Claim(k, [0], {}, false)).value;
    assert t.tasks == s.tasks[Task(k, Claimer) := Work([0], Idle)];
  }

  lemma OrphanIsTaken(g: Group, actions: seq<Action>, s: State, k: nat) returns (longer: seq<Action>, t: State)
    requires Run(g, actions) == Some(s) && Orphaned(s, k)
    ensures Run(g, longer) == Some(t) && Alone(t, k, Idle)
    ensures Total(g, longer, Raised, 0) == Total(g, actions, Raised, 0)
  {
    var delay := Max(0, g.minIdle - (s.now - s.pel[0].since));
    OrphanWaits(g, s, k, delay);
    longer, t := Go(g, actions, s, Tick(delay));
    OrphanMeetsStarter(g, t, k);
    longer, t := Go(g, longer, t, Start(k));
    StarterClaims(g, t, k);
    longer, t := Go(g, longer, t, Claim(k, [0], {}, false));
  }

  lemma ProcessAlone(g: Group, actions: seq<Action>, s: State, k: nat, step: Step, act: Act, next: Step)
    returns (longer: seq<Action>, t: State)
    requires Run(g, actions) == Some(s) && Alone(s, k, step)
    requires EffectOf(g.maxRetries, ViewOf(g, s, k, 0), Work([0], step), act) == Some(Quiet(Work([0], next)))
    ensures Run(g, longer) == Some(t) && Alone(t, k, next)
    ensures Total(g, longer, Raised, 0) == Total(g, actions, Raised, 0) + Flag(act.HandlerRaises?)
  {
    ProcessIsEnact(g, s, Task(k, Claimer), act);
    longer, t := Go(g, actions, s, Process(Task(k, Claimer), act));
  }

  lemma FailAndCrash(g: Group, actions: seq<Action>, s: State, k: nat) returns (longer: seq<Action>, t: State)
    requires Run(g, actions) == Some(s) && Alone(s, k, Idle) && !g.malformed(0) && g.handles(k, 0)
    ensures Run(g, longer) == Some(t) && Orphaned(t, k + 1)
    ensures Total(g, longer, Raised, 0) == Total(g, actions, Raised, 0) + 1
  {
    longer, t := ProcessAlone(g, actions, s, k, Idle, Parse, Checking);
    longer, t := ProcessAlone(g, longer, t, k, Checking, AskSeen(false), Handling);
    longer, t := ProcessAlone(g, longer, t, k, Handling, HandlerRaises, Counting);
    AloneCrashes(g, t, k, Counting);
    longer, t := Go(g, longer, t, Crash(k));
  }

  lemma AloneCrashes(g: Group, s: State, k: nat, step: Step)
    requires Alone(s, k, step)
    ensures var after := Apply(g, s, Crash(k)); after.Some? && Orphaned(after.value, k + 1)
  {
    assert Apply(g, s, Crash(k)).value.tasks == map[];
  }

  /** One message added, one consumer started. */
  const STARTED := INITIAL.(added := 1, lives := map[0 := Running],
                            tasks := map[Task(0, Reader) := Work([], Idle), Task(0, Claimer) := Work([], Idle)])

  lemma OneStarted(g: Group) returns (actions: seq<Action>)
    ensures Run(g, actions) == Some(STARTED) && Total(g, actions, Raised, 0) == 0
  {
    StartIsStarted(g);
    var s;
    actions, s := Go(g, [], INITIAL, Add);
    actions, s := Go(g, actions, s, Start(0));
  }

  lemma StartIsStarted(g: Group)
    ensures Apply(g, INITIAL, Add) == Some(INITIAL.(added := 1))
    ensures Apply(g, INITIAL.(added := 1), Start(0)) == Some(STARTED)
  {
    var t := Apply(g, INITIAL.(added := 1), Start(0)).value;
    assert t.tasks == STARTED.tasks && t.lives == STARTED.lives;
  }

  lemma StartedReads(g: Group)
    ensures var after := Apply(g, STARTED, Read(0, 1, false));
            && after.Some? && 0 in after.value.pel && 0 in after.value.delivered
            && after.value.tasks == map[Task(0, Reader) := Work([0], Idle), Task(0, Claimer) := Work([], Idle)]
            && after.value == STARTED.(cursor := 1, pel := after.value.pel, seen := after.value.seen,
                                       delivered := after.value.delivered, tasks := after.value.tasks)
  {
    assert Fresh(0, 0, {}) == [] && Fresh(0, 1, {}) == [0];
  }

  lemma OneOrphan(g: Group) returns (actions: seq<Action>, s: State)
    ensures Run(g, actions) == Some(s) && Orphaned(s, 1) && Total(g, actions, Raised, 0) == 0
    ensures s.added == 1 && 0 in s.delivered && s.ends == {} && s.swallowed == {}
  {
    actions := OneStarted(g);
    StartedReads(g);
    actions, s := Go(g, actions, STARTED, Read(0, 1, false));
    ReaderCrashes(g, s);
    actions, s := Go(g, actions, s, Crash(0));
  }

  lemma ReaderCrashes(g: Group, s: State)
    requires s == STARTED.(cursor := 1, pel := s.pel, seen := s.seen, delivered := s.delivered, tasks := s.tasks)
    requires s.tasks == map[Task(0, Reader) := Work([0], Idle), Task(0, Claimer) := Work([], Idle)] && 0 in s.pel
    ensures var after := Apply(g, s, Crash(0));
            && after.Some? && Orphaned(after.value, 1)
            && after.value == s.(lives := after.value.lives, tasks := after.value.tasks)
  {
    assert Apply(g, s, Crash(0)).value.tasks == map[];
  }

  /** There is no bound without the cuts: for every `n` some run has `n` handler
      failures of one message, each cut short by a crash before its increment, and
      the message is still pending with its counter at zero. */
  lemma {:induction false} CrashesAreNotCounted(g: Group, n: nat) returns (actions: seq<Action>, s: State)
    requires !g.malformed(0) && forall k :: g.handles(k, 0)
    ensures Run(g, actions) == Some(s) && Total(g, actions, Raised, 0) == n
    ensures Orphaned(s, n + 1) && 0 in s.pel && Count(s.retries, 0) == 0
  {
    if n == 0 {
      actions, s := OneOrphan(g);
    } else {
      actions, s := CrashesAreNotCounted(g, n - 1);
      actions, s := OrphanIsTaken(g, actions, s, n);
      actions, s := FailAndCrash(g, actions, s, n);
    }
  }

  // ----- a trimmed entry is lost -----

  lemma ClaimDropsTrimmed(g: Group, s: State)
    requires IsRunning(s, 1) && Claimable(g, s, 0) && s.added == 1
    requires s.tasks == map[Task(1, Reader) := Work([], Idle), Task(1, Claimer) := Work([], Idle)]
    ensures Apply(g, s, Trim(0)) == Some(s.(trimmed := s.trimmed + {0}))
    ensures var after := Apply(g, s.(trimmed := s.trimmed + {0}), Claim(1, [], {0}, false));
            && after.Some? && 0 !in after.value.pel && after.value.delivered == s.delivered
            && after.value.ends == s.ends && after.value.swallowed == s.swallowed
  {
  }

  /** The other assumption of the no-loss theorem is needed too: an entry trimmed
      from the stream while pending is dropped by the next claim without an
      outcome, although no dead-letter write failed. */
  lemma TrimmedEntryIsLost(g: Group) returns (actions: seq<Action>, s: State)
    ensures Run(g, actions) == Some(s) && s.swallowed == {}
    ensures 0 in s.delivered && 0 !in s.pel && !Recorded(s, 0)
  {
    actions, s := OneOrphan(g);
    var delay := Max(0, g.minIdle - (s.now - s.pel[0].since));
    OrphanWaits(g, s, 1, delay);
    actions, s := Go(g, actions, s, Tick(delay));
    OrphanMeetsStarter(g, s, 1);
    actions, s := Go(g, actions, s, Start(1));
    ClaimDropsTrimmed(g, s);
    actions, s := Go(g, actions, s, Trim(0));
    actions, s := Go(g, actions, s, Claim(1, [], {0}, false));
  }
}
