/** How long a round of the retry counter lasts, read off the steps of a run: the
    hash lives `retryTtl` past its last executed EXPIRE, and no shorter. */
module RetryClock {
  import opened Prelude
  import opened StreamConsumer
  import opened StreamSafety
  import opened StreamOutcomes
  import opened RetryRounds
  import opened FailureLedger
  import opened LastPass

  /** EXPIRE reached Redis, whether or not its answer came back. */
  predicate Expires(a: Action) {
    a.Process? && (a.act.Expire? || (a.act.ExpireRaises? && a.act.executed))
  }

  /** When EXPIRE was last executed on the hash; none since the hash was last empty
      means that it has no expiry. */
  ghost function LastExpire(g: Group, actions: seq<Action>): Option<int>
    requires Run(g, actions).Some?
  {
    if actions == [] then None
    else
      var prefix, a := actions[..|actions| - 1], actions[|actions| - 1];
      var s := Run(g, prefix).value;
      if Run(g, actions).value.retries == map[] then None
      else if Expires(a) then Some(s.now)
      else LastExpire(g, prefix)
  }

  lemma EffectExpires(maxRetries: int, v: View, w: Work, act: Act)
    requires w.queue != [] && EffectOf(maxRetries, v, w, act).Some?
    ensures var e := EffectOf(maxRetries, v, w, act).value;
            && (e.refreshed <==> act.Expire? || (act.ExpireRaises? && act.executed))
            && !(e.refreshed && e.cleared) && !(e.refreshed && e.bumped)
  {
  }

  /** The hash's expiry after a processing step. */
  lemma EnactExpiry(g: Group, s: State, t: Task, id: Id, e: Effect)
    requires !(e.refreshed && e.cleared) && !(e.refreshed && e.bumped) && !(e.bumped && e.cleared)
    requires s.retries == map[] ==> s.retriesUntil.None?
    ensures var after := Enact(g, s, t, id, e);
            after.retriesUntil
            == if after.retries == map[] then None else if e.refreshed then Some(s.now + g.retryTtl) else s.retriesUntil
  {
    var after := Enact(g, s, t, id, e);
    if e.bumped {
      assert id in after.retries;
    }
    if e.cleared && s.retries == map[] {
      assert after.retries == map[];
    }
  }

  ghost function Until(g: Group, last: Option<int>): Option<int> {
    if last.None? then None else Some(last.value + g.retryTtl)
  }

  ghost predicate ExpiryOk(g: Group, s: State, last: Option<int>) {
    s.retriesUntil == Until(g, last) && (s.retries == map[] ==> last.None?)
  }

  lemma TickExpiry(g: Group, s: State, a: Action, last: Option<int>)
    requires Apply(g, s, a).Some? && a.Tick? && ExpiryOk(g, s, last)
    ensures var t := Apply(g, s, a).value;
            && t.now == s.now + a.delay
            && (if last.Some? && t.now >= last.value + g.retryTtl
                then t.epoch == s.epoch + 1 && t.retries == map[]
                else t.epoch == s.epoch && t.retries == s.retries)
            && ExpiryOk(g, t, if t.retries == map[] then None else last)
  {
  }

  lemma OtherExpiry(g: Group, s: State, a: Action)
    requires Apply(g, s, a).Some? && !a.Tick? && !a.Process?
    ensures Apply(g, s, a).value.retriesUntil == s.retriesUntil
  {
  }

  lemma ProcessExpiry(g: Group, s: State, a: Action, last: Option<int>)
    requires Apply(g, s, a).Some? && a.Process? && ExpiryOk(g, s, last)
    ensures var t := Apply(g, s, a).value;
            ExpiryOk(g, t, if t.retries == map[] then None else if Expires(a) then Some(s.now) else last)
  {
    var w := s.tasks[a.task];
    var v := ViewOf(g, s, a.task.name, w.queue[0]);
    EffectExpires(g.maxRetries, v, w, a.act);
    EffectsCount(g.maxRetries, v, w, a.act);
    EnactExpiry(g, s, a.task, w.queue[0], EffectOf(g.maxRetries, v, w, a.act).value);
  }

  /** In every run, the hash's expiry in Redis is `retryTtl` past the last EXPIRE. */
  lemma {:induction false} ExpiryIsExact(g: Group, actions: seq<Action>)
    requires Run(g, actions).Some?
    ensures ExpiryOk(g, Run(g, actions).value, LastExpire(g, actions))
  {
    if actions != [] {
      var n := |actions| - 1;
      var s, a := Run(g, actions[..n]).value, actions[n];
      var last := LastExpire(g, actions[..n]);
      ExpiryIsExact(g, actions[..n]);
      if a.Tick? {
        TickExpiry(g, s, a, last);
      } else if a.Process? {
        ProcessExpiry(g, s, a, last);
      } else {
        OtherExpiry(g, s, a);
        OtherStepsFrame(g, s, a);
      }
    }
  }

  /** The clock starts a new epoch, emptying the hash, exactly when it reaches the
      last EXPIRE plus `retryTtl`; and nothing else starts one. */
  lemma EpochExactly(g: Group, actions: seq<Action>, a: Action)
    requires Run(g, actions).Some? && Apply(g, Run(g, actions).value, a).Some?
    ensures var s, last := Run(g, actions).value, LastExpire(g, actions);
            var t := Apply(g, s, a).value;
            && (t.epoch != s.epoch <==> a.Tick? && last.Some? && s.now + a.delay >= last.value + g.retryTtl)
            && (t.epoch != s.epoch ==> t.epoch == s.epoch + 1 && t.retries == map[])
            && (a.Tick? && t.epoch == s.epoch ==> t.retries == s.retries)
  {
    ExpiryIsExact(g, actions);
    if a.Tick? {
      TickExpiry(g, Run(g, actions).value, a, LastExpire(g, actions));
    } else if !a.Process? {
      OtherStepsFrame(g, Run(g, actions).value, a);
    }
  }

  // ----- a round under a clock condition -----

  /** The clock never gets as far as `retryTtl` past the last EXPIRE. */
  ghost predicate NeverLapses(g: Group, actions: seq<Action>)
    requires Run(g, actions).Some?
  {
    if actions == [] then true
    else
      var prefix, a := actions[..|actions| - 1], actions[|actions| - 1];
      && NeverLapses(g, prefix)
      && (a.Tick? && LastExpire(g, prefix).Some? ==>
            Run(g, prefix).value.now + a.delay < LastExpire(g, prefix).value + g.retryTtl)
  }

  /** HDEL of the message's field reached Redis. */
  ghost predicate Clears(s: State, a: Action, id: Id) {
    On(s, a, id) && (a.act.Clear? || (a.act == CommandRaises(true) && s.tasks[a.task].step.Clearing?))
  }

  ghost predicate NeverCleared(g: Group, actions: seq<Action>, id: Id)
    requires Run(g, actions).Some?
  {
    if actions == [] then true
    else
      var prefix, a := actions[..|actions| - 1], actions[|actions| - 1];
      NeverCleared(g, prefix, id) && !Clears(Run(g, prefix).value, a, id)
  }

  lemma EffectClears(maxRetries: int, v: View, w: Work, act: Act)
    requires w.queue != [] && EffectOf(maxRetries, v, w, act).Some?
    ensures EffectOf(maxRetries, v, w, act).value.cleared <==>
              act.Clear? || (act == CommandRaises(true) && w.step.Clearing?)
  {
  }

  lemma StepClears(g: Group, s: State, a: Action, id: Id)
    requires Apply(g, s, a).Some?
    ensures Count(Apply(g, s, a).value.clears, id) == Count(s.clears, id) + Flag(Clears(s, a, id))
  {
    if a.Process? {
      var w := s.tasks[a.task];
      EffectClears(g.maxRetries, ViewOf(g, s, a.task.name, w.queue[0]), w, a.act);
    } else if !a.Tick? {
      OtherStepsFrame(g, s, a);
    }
  }

  lemma {:induction false} StaysInFirstRound(g: Group, actions: seq<Action>, id: Id)
    requires Run(g, actions).Some? && NeverLapses(g, actions) && NeverCleared(g, actions, id)
    ensures RoundOf(Run(g, actions).value, id) == Round(0, 0)
  {
    if actions != [] {
      var n := |actions| - 1;
      StaysInFirstRound(g, actions[..n], id);
      EpochExactly(g, actions[..n], actions[n]);
      StepClears(g, Run(g, actions[..n]).value, actions[n], id);
    }
  }

  /** While the clock leaves no gap of `retryTtl` after an EXPIRE, the message was not
      cleared and no failing pass on it was cut short, max(1, maxRetries) handler
      failures are enough: the message has its outcome, or one of those passes is
      still in progress. */
  lemma DecidedWithinPasses(g: Group, actions: seq<Action>, id: Id)
    requires g.zombieIdle > 0 && Run(g, actions).Some? && Total(g, actions, Cut, id) == 0
    requires NeverLapses(g, actions) && NeverCleared(g, actions, id)
    requires Total(g, actions, Raised, id) >= Max(1, g.maxRetries)
    ensures Accounted(Run(g, actions).value, id) || FailingTasks(Run(g, actions).value, id) != {}
  {
    StaysInFirstRound(g, actions, id);
    DecidedInFirstRound(g, actions, id);
  }
}
