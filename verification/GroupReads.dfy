/** Who holds an entry and since when, and when a consumer was last active, read off
    the reads and claims of a run: the claim floor is kept, every entry is read once,
    and nothing is taken for a duplicate without a checker. */
module GroupReads {
  import opened Prelude
  import opened StreamConsumer
  import opened StreamSafety
  import opened StreamOutcomes
  import opened RetryRounds

  // ----- one read, one claim -----

  ghost predicate Ascending(ids: seq<Id>) {
    forall i, j :: 0 <= i < j < |ids| ==> ids[i] < ids[j]
  }

  lemma {:induction false} FreshAscends(lo: nat, hi: nat, trimmed: set<Id>)
    requires lo <= hi
    ensures Ascending(Fresh(lo, hi, trimmed))
  {
    if lo < hi {
      FreshAscends(lo, hi - 1, trimmed);
      var rest := Fresh(lo, hi - 1, trimmed);
      forall i | 0 <= i < |rest| ensures rest[i] < hi - 1 {
        assert rest[i] in rest;
      }
    }
  }

  /** A read hands its caller, in order, exactly the entries past the group's cursor
      up to the new one that have not been trimmed; they are now pending with it. */
  lemma ReadGives(g: Group, s: State, n: Name, upTo: nat)
    requires Apply(g, s, Read(n, upTo, false)).Some?
    ensures var t := Apply(g, s, Read(n, upTo, false)).value;
            var queue := t.tasks[Task(n, Reader)].queue;
            && Ascending(queue) && (forall id :: id in queue <==> s.cursor <= id < upTo && id !in s.trimmed)
            && t.cursor == upTo && t.seen == s.seen[n := s.now]
            && (forall id :: id in queue ==> id in t.pel && t.pel[id] == Pending(n, s.now))
            && (forall id :: id !in queue ==> (id in t.pel <==> id in s.pel))
            && (forall id :: id !in queue && id in s.pel ==> t.pel[id] == s.pel[id])
  {
    FreshAscends(s.cursor, upTo, s.trimmed);
  }

  /** A claim may take an entry exactly when it is pending, has not been handed out
      for `minIdle`, and was not trimmed. */
  lemma ClaimTakes(g: Group, s: State, n: Name, id: Id)
    requires IsRunning(s, n) && Task(n, Claimer) in s.tasks && s.tasks[Task(n, Claimer)].queue == []
    ensures Apply(g, s, Claim(n, [id], {}, false)).Some? <==>
              id in s.pel && s.now - s.pel[id].since >= g.minIdle && id !in s.trimmed
  {
    PendingIsClaimable(g, s, n, id);
  }

  // ----- over every run -----

  /** Step `a`, taken in `s`, hands entry `id` out. */
  ghost predicate Gives(s: State, a: Action, id: Id) {
    match a
    case Read(_, upTo, _) => s.cursor <= id < upTo && id !in s.trimmed
    case Claim(_, ids, _, _) => id in ids
    case _ => false
  }

  /** To whom, and when, entry `id` was last handed out. */
  ghost function LastGiven(g: Group, actions: seq<Action>, id: Id): Option<Pending>
    requires Run(g, actions).Some?
  {
    if actions == [] then None
    else
      var prefix, a := actions[..|actions| - 1], actions[|actions| - 1];
      var s := Run(g, prefix).value;
      if Gives(s, a, id) then Some(Pending(a.n, s.now)) else LastGiven(g, prefix, id)
  }

  lemma GivingPends(g: Group, s: State, a: Action, id: Id)
    requires Apply(g, s, a).Some? && (a.Read? || a.Claim?)
    ensures var t := Apply(g, s, a).value;
            if Gives(s, a, id) then id in t.pel && t.pel[id] == Pending(a.n, s.now)
            else id in t.pel ==> id in s.pel && t.pel[id] == s.pel[id]
  {
  }

  lemma OthersPend(g: Group, s: State, a: Action, id: Id)
    requires Apply(g, s, a).Some? && !a.Read? && !a.Claim?
    ensures id in Apply(g, s, a).value.pel ==> id in s.pel && Apply(g, s, a).value.pel[id] == s.pel[id]
  {
  }

  /** In every run, a pending entry is held by the consumer it was last handed to,
      since that moment. */
  lemma {:induction false} PendingIsLastGiven(g: Group, actions: seq<Action>, id: Id)
    requires Run(g, actions).Some? && id in Run(g, actions).value.pel
    ensures LastGiven(g, actions, id) == Some(Run(g, actions).value.pel[id])
  {
    if actions != [] {
      var n := |actions| - 1;
      var s, a := Run(g, actions[..n]).value, actions[n];
      if a.Read? || a.Claim? {
        GivingPends(g, s, a, id);
      } else {
        OthersPend(g, s, a, id);
      }
      if !Gives(s, a, id) {
        PendingIsLastGiven(g, actions[..n], id);
      }
    }
  }

  /** In every run, no claim takes an entry within `minIdle` of its being handed out:
      the floor between two attempts is kept by all consumers together. */
  lemma ClaimsKeepTheFloor(g: Group, actions: seq<Action>, a: Action, id: Id)
    requires Run(g, actions).Some? && Apply(g, Run(g, actions).value, a).Some? && a.Claim? && id in a.ids
    ensures LastGiven(g, actions, id).Some?
    ensures Run(g, actions).value.now >= LastGiven(g, actions, id).value.since + g.minIdle
  {
    var s := Run(g, actions).value;
    assert id in Ids(a.ids);
    assert id in s.pel && s.now - s.pel[id].since >= g.minIdle;
    PendingIsLastGiven(g, actions, id);
  }

  /** When consumer `n` last read or claimed. */
  ghost function LastActive(g: Group, actions: seq<Action>, n: Name): Option<int>
    requires Run(g, actions).Some?
  {
    if actions == [] then None
    else
      var prefix, a := actions[..|actions| - 1], actions[|actions| - 1];
      if (a.Read? || a.Claim?) && a.n == n then Some(Run(g, prefix).value.now) else LastActive(g, prefix, n)
  }

  lemma ActivityStep(g: Group, s: State, a: Action, n: Name)
    requires Apply(g, s, a).Some?
    ensures var t := Apply(g, s, a).value;
            if (a.Read? || a.Claim?) && a.n == n then n in t.seen && t.seen[n] == s.now
            else n in t.seen ==> n in s.seen && t.seen[n] == s.seen[n]
  {
  }

  /** In every run, a registered consumer's idle time counts from its last read or
      claim. */
  lemma {:induction false} SeenIsLastActive(g: Group, actions: seq<Action>, n: Name)
    requires Run(g, actions).Some? && n in Run(g, actions).value.seen
    ensures LastActive(g, actions, n) == Some(Run(g, actions).value.seen[n])
  {
    if actions != [] {
      var k := |actions| - 1;
      ActivityStep(g, Run(g, actions[..k]).value, actions[k], n);
      if !((actions[k].Read? || actions[k].Claim?) && actions[k].n == n) {
        SeenIsLastActive(g, actions[..k], n);
      }
    }
  }

  lemma CursorStep(g: Group, s: State, a: Action)
    requires Apply(g, s, a).Some?
    ensures var t := Apply(g, s, a).value;
            && s.cursor <= t.cursor
            && (forall id :: id in t.delivered ==> id in s.delivered || (a.Read? && s.cursor <= id < t.cursor))
  {
  }

  lemma {:induction false} DeliveredAreBehind(g: Group, actions: seq<Action>)
    requires Run(g, actions).Some?
    ensures forall id :: id in Run(g, actions).value.delivered ==> id < Run(g, actions).value.cursor
  {
    if actions != [] {
      DeliveredAreBehind(g, actions[..|actions| - 1]);
      CursorStep(g, Run(g, actions[..|actions| - 1]).value, actions[|actions| - 1]);
    }
  }

  /** In every run, no read hands out an entry a second time: only a claim does. */
  lemma ReadsAreNew(g: Group, actions: seq<Action>, a: Action, id: Id)
    requires Run(g, actions).Some? && Apply(g, Run(g, actions).value, a).Some? && a.Read?
    requires Gives(Run(g, actions).value, a, id)
    ensures id !in Run(g, actions).value.delivered
  {
    DeliveredAreBehind(g, actions);
  }

  lemma RememberStep(g: Group, s: State, a: Action)
    requires Apply(g, s, a).Some? && !g.hasChecker
    ensures Apply(g, s, a).value.processed == s.processed
  {
    if !a.Process? {
      OtherStepsFrame(g, s, a);
    }
  }

  /** Without a checker nothing is remembered, so no message is ever skipped as a
      duplicate. */
  lemma {:induction false} NoCheckerNoDuplicates(g: Group, actions: seq<Action>, id: Id)
    requires g.zombieIdle > 0 && Run(g, actions).Some? && !g.hasChecker
    ensures Run(g, actions).value.processed == {} && (id, Duplicate) !in Run(g, actions).value.ends
  {
    if actions != [] {
      var n := |actions| - 1;
      var s, a := Run(g, actions[..n]).value, actions[n];
      NoCheckerNoDuplicates(g, actions[..n], id);
      RememberStep(g, s, a);
      if a.Process? {
        var w := s.tasks[a.task];
        EffectsAreTrue(g.maxRetries, ViewOf(g, s, a.task.name, w.queue[0]), w, a.act);
      } else {
        OtherStepsFrame(g, s, a);
      }
    }
  }

  // ----- commands whose answer is lost -----

  /** A command that raises after it was executed leaves Redis as an answered one
      does, and one that was not executed leaves it alone; either way a raise that
      is not handled drops the rest of the batch. */
  lemma LostAnswersStillAct(maxRetries: int, v: View, w: Work)
    requires w.queue != []
    ensures var gone := Work([], Idle);
            && (w.step.Marking? || w.step.Clearing? || w.step.Acking? ==>
                  var act := if w.step.Marking? then MarkSeen else if w.step.Clearing? then Clear else Ack;
                  var answered := EffectOf(maxRetries, v, w, act);
                  && answered.Some?
                  && EffectOf(maxRetries, v, w, CommandRaises(true)) == Some(answered.value.(work := gone))
                  && EffectOf(maxRetries, v, w, CommandRaises(false)) == Some(Quiet(gone)))
            && (w.step.Checking? ==> EffectOf(maxRetries, v, w, CommandRaises(false)) == Some(Quiet(gone)))
    ensures w.step.Malformed? || w.step.DeadLettering? ==>
              && EffectOf(maxRetries, v, w, DlqRaises(true)) == EffectOf(maxRetries, v, w, WriteDlq)
              && EffectOf(maxRetries, v, w, DlqRaises(false)).Some?
              && EffectOf(maxRetries, v, w, DlqRaises(false)).value.swallowed
    ensures w.step.Counting? ==>
              forall executed :: EffectOf(maxRetries, v, w, IncrementRaises(executed))
                              == Some(Quiet(w.(step := DeadLettering)).(bumped := executed))
    ensures w.step.Expiring? ==>
              forall executed :: EffectOf(maxRetries, v, w, ExpireRaises(executed))
                              == Some(Quiet(w.(step := DeadLettering)).(refreshed := executed))
  {
  }

  // ----- leaving the registry -----

  /** A sibling can be chosen for the sweep exactly when it is registered, holds
      nothing and has been idle for the threshold. */
  lemma ZombieIsChosen(g: Group, s: State, n: Name, victim: Name)
    requires IsRunning(s, n)
    ensures Apply(g, s, Inspect(n, victim)).Some? <==>
              && victim != n && victim in s.seen && s.now - s.seen[victim] >= g.zombieIdle
              && forall id :: id in s.pel ==> s.pel[id].owner != victim
    ensures Apply(g, s, Inspect(n, victim)).Some? ==>
              Apply(g, s, Inspect(n, victim)).value == s.(sweeps := s.sweeps + {(n, victim)})
  {
  }

  /** Sweeping a chosen sibling, whatever happened since, takes it off the registry. */
  lemma ZombieIsSwept(g: Group, s: State, n: Name, victim: Name)
    requires IsRunning(s, n) && (n, victim) in s.sweeps
    ensures Apply(g, s, Sweep(n, victim)).Some?
    ensures Apply(g, s, Sweep(n, victim)).value.seen == s.seen - {victim}
  {
  }

  /** A consumer that stops ends both its loops, and keeps what it holds. */
  lemma StopEndsLoops(g: Group, s: State, n: Name)
    requires IsRunning(s, n)
    ensures var stopped := Apply(g, s, Stop(n));
            && stopped.Some? && n in stopped.value.lives && stopped.value.lives[n].Stopped?
            && stopped.value.pel == s.pel && stopped.value.seen == s.seen
            && stopped.value.tasks == s.tasks - {Task(n, Reader), Task(n, Claimer)}
  {
  }

  /** A stopped consumer that holds nothing goes on to deregister; one that still holds
      something is done, and stays on the registry. */
  lemma StoppedIsChecked(g: Group, s: State, n: Name)
    requires n in s.lives && s.lives[n].Stopped?
    ensures var empty := forall id :: id in s.pel ==> s.pel[id].owner != n;
            Apply(g, s, CheckPending(n)) == Some(s.(lives := s.lives[n := if empty then Checked else Gone]))
  {
  }

  lemma CheckedDeregisters(g: Group, s: State, n: Name)
    requires n in s.lives
    ensures Apply(g, s, Deregister(n)).Some? <==> s.lives[n].Checked?
    ensures s.lives[n].Checked? ==> Apply(g, s, Deregister(n)).value.seen == s.seen - {n}
  {
  }
}
