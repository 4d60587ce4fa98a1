/** What every step of the consumer group keeps about delivered entries: they stay
    pending until their outcome is decided, and only decided messages are acked. */
module StreamSafety {
  import opened Prelude
  import opened StreamConsumer

  ghost predicate Recorded(s: State, id: Id) {
    exists o :: (id, o) in s.ends
  }

  ghost predicate Accounted(s: State, id: Id) {
    Recorded(s, id) || id in s.swallowed || id in s.dropped
  }

  /** The loop is past the point where its message's outcome is decided. */
  predicate Decided(w: Work) {
    w.queue != [] && (w.step.Clearing? || w.step.Acking?)
  }

  ghost predicate WorkOk(s: State, w: Work) {
    && (w.queue == [] ==> w.step.Idle?)
    && (forall id :: id in w.queue ==> id in s.delivered)
    && (Decided(w) ==> Accounted(s, w.queue[0]))
    && (w.step.Marking? ==> (w.queue[0], Handled) in s.ends)
  }

  ghost predicate EntriesOk(s: State) {
    && (forall id :: id in s.pel ==> id in s.delivered)
    && (forall id :: id in s.delivered ==> id in s.pel || Accounted(s, id))
  }

  ghost predicate TasksOk(s: State) {
    forall t :: t in s.tasks ==> WorkOk(s, s.tasks[t])
  }

  /** The histories only grow. */
  ghost predicate Grows(s: State, t: State) {
    s.delivered <= t.delivered && s.ends <= t.ends && s.swallowed <= t.swallowed && s.dropped <= t.dropped
  }

  lemma GrowthKeepsWork(s: State, t: State, w: Work)
    requires Grows(s, t) && WorkOk(s, w)
    ensures WorkOk(t, w)
  {
  }

  /** What a step may do about outcomes: only decided messages are acked, and a
      message becomes decided together with its outcome. */
  ghost predicate EffectOk(w: Work, e: Effect) {
    && (e.acked ==> Decided(w))
    && (e.work.queue == [] ==> e.work.step.Idle?)
    && (forall id :: id in e.work.queue ==> id in w.queue)
    && (Decided(e.work) ==>
          && w.queue != [] && e.work.queue[0] == w.queue[0]
          && (e.end.Some? || e.swallowed || Decided(w) || w.step.Marking?))
    && (e.work.step.Marking? ==> w.queue != [] && e.work.queue[0] == w.queue[0] && e.end == Some(Handled))
    && (e.marked ==> w.step.Marking?)
    && (e.end.Some? && e.end.value.Handled? ==> w.step.Handling?)
  }

  lemma EffectsAreOk(maxRetries: int, v: View, w: Work, act: Act)
    requires w.queue != [] && EffectOf(maxRetries, v, w, act).Some?
    ensures EffectOk(w, EffectOf(maxRetries, v, w, act).value)
  {
  }

  lemma EnactKeepsEntries(g: Group, s: State, t: Task, e: Effect)
    requires EntriesOk(s) && TasksOk(s) && t in s.tasks && s.tasks[t].queue != [] && EffectOk(s.tasks[t], e)
    ensures EntriesOk(Enact(g, s, t, s.tasks[t].queue[0], e))
    ensures TasksOk(Enact(g, s, t, s.tasks[t].queue[0], e))
  {
    var head := s.tasks[t].queue[0];
    var after := Enact(g, s, t, head, e);
    assert WorkOk(s, s.tasks[t]);
    if e.end.Some? {
      assert (head, e.end.value) in after.ends;
      assert Recorded(after, head);
    }
    forall u | u in after.tasks ensures WorkOk(after, after.tasks[u]) {
      if u != t {
        GrowthKeepsWork(s, after, s.tasks[u]);
      }
    }
    forall id | id in after.delivered ensures id in after.pel || Accounted(after, id) {
      assert id in s.pel || Accounted(s, id);
    }
  }

  /** Reading and claiming hand out delivered entries, and drop only trimmed ones. */
  lemma GivingKeepsEntries(g: Group, s: State, a: Action)
    requires EntriesOk(s) && Apply(g, s, a).Some? && (a.Read? || a.Claim?)
    ensures EntriesOk(Apply(g, s, a).value) && Grows(s, Apply(g, s, a).value)
  {
  }

  lemma GivingKeepsTasks(g: Group, s: State, a: Action)
    requires EntriesOk(s) && TasksOk(s) && Apply(g, s, a).Some? && (a.Read? || a.Claim?)
    ensures TasksOk(Apply(g, s, a).value)
  {
    var t := Apply(g, s, a).value;
    GivingKeepsEntries(g, s, a);
    if a.Claim? {
      assert forall id :: id in a.ids ==> id in Ids(a.ids);
    }
    forall u | u in t.tasks ensures WorkOk(t, t.tasks[u]) {
      if u in s.tasks && t.tasks[u] == s.tasks[u] {
        GrowthKeepsWork(s, t, s.tasks[u]);
      }
    }
  }

  predicate Bystanding(a: Action) {
    !a.Read? && !a.Claim? && !a.Process?
  }

  /** Where delivered entries are, and what became of them. */
  datatype Entries = Entries(
    pel: map<Id, Pending>, delivered: set<Id>, ends: set<(Id, Outcome)>, swallowed: set<Id>, dropped: set<Id>)

  function EntriesOf(s: State): Entries {
    Entries(s.pel, s.delivered, s.ends, s.swallowed, s.dropped)
  }

  ghost predicate SameEntries(s: State, t: State) {
    EntriesOf(s) == EntriesOf(t)
  }

  lemma DeletionsKeepEntries(g: Group, s: State, a: Action)
    requires DeletionOk(g, s) && Apply(g, s, a).Some? && (a.Sweep? || a.Deregister?)
    ensures SameEntries(s, Apply(g, s, a).value)
  {
    var n := if a.Sweep? then a.victim else a.n;
    if a.Sweep? {
      assert (a.n, a.victim) in s.sweeps;
    }
    assert HoldsNothing(s, n);
    assert DeleteConsumer(s, n).pel == s.pel;
  }

  lemma OnlookersKeepEntries(g: Group, s: State, a: Action)
    requires Apply(g, s, a).Some? && Bystanding(a) && !a.Sweep? && !a.Deregister?
    ensures SameEntries(s, Apply(g, s, a).value)
  {
  }

  /** The other steps leave entries and outcomes alone. */
  lemma BystandersKeepEntries(g: Group, s: State, a: Action)
    requires DeletionOk(g, s) && Apply(g, s, a).Some? && Bystanding(a)
    ensures SameEntries(s, Apply(g, s, a).value)
  {
    if a.Sweep? || a.Deregister? {
      DeletionsKeepEntries(g, s, a);
    } else {
      OnlookersKeepEntries(g, s, a);
    }
  }

  lemma BystandersKeepTasks(g: Group, s: State, a: Action, u: Task)
    requires Apply(g, s, a).Some? && Bystanding(a) && u in Apply(g, s, a).value.tasks
    ensures var w := Apply(g, s, a).value.tasks[u]; w == Work([], Idle) || (u in s.tasks && w == s.tasks[u])
  {
  }

  ghost predicate Safe(g: Group, s: State) {
    DeletionOk(g, s) && EntriesOk(s) && TasksOk(s)
  }

  lemma SameEntriesStaySafe(s: State, t: State)
    requires EntriesOk(s) && TasksOk(s) && SameEntries(s, t)
    requires forall u :: u in t.tasks ==> t.tasks[u] == Work([], Idle) || (u in s.tasks && t.tasks[u] == s.tasks[u])
    ensures EntriesOk(t) && TasksOk(t)
  {
    forall u | u in t.tasks ensures WorkOk(t, t.tasks[u]) {
      assert u in s.tasks && t.tasks[u] == s.tasks[u] ==> WorkOk(s, t.tasks[u]);
    }
  }

  lemma {:induction false} ReachableSafe(g: Group, actions: seq<Action>)
    requires g.zombieIdle > 0 && Run(g, actions).Some?
    ensures Safe(g, Run(g, actions).value)
  {
    if actions != [] {
      var n := |actions| - 1;
      var s, a := Run(g, actions[..n]).value, actions[n];
      ReachableSafe(g, actions[..n]);
      ReachableDeletion(g, actions);
      if a.Process? {
        var w := s.tasks[a.task];
        var v := ViewOf(g, s, a.task.name, w.queue[0]);
        EffectsAreOk(g.maxRetries, v, w, a.act);
        EnactKeepsEntries(g, s, a.task, EffectOf(g.maxRetries, v, w, a.act).value);
      } else if a.Read? || a.Claim? {
        GivingKeepsEntries(g, s, a);
        GivingKeepsTasks(g, s, a);
      } else {
        BystandersKeepEntries(g, s, a);
        forall u | u in Run(g, actions).value.tasks
          ensures var w := Run(g, actions).value.tasks[u]; w == Work([], Idle) || (u in s.tasks && w == s.tasks[u])
        {
          BystandersKeepTasks(g, s, a, u);
        }
        SameEntriesStaySafe(s, Run(g, actions).value);
      }
    }
  }
}
