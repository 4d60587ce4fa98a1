/** Every handler failure of a message, accounted for over whole runs: it left the
    message pending, decided it, was cut short by a stop or crash, or is still in
    progress. */
module FailureLedger {
  import opened Prelude
  import opened StreamConsumer
  import opened StreamSafety
  import opened StreamOutcomes
  import opened RetryRounds

  /** The loop's handler has failed on `id` and the message's fate is open. */
  predicate Failing(w: Work, id: Id) {
    w.queue != [] && w.queue[0] == id && (w.step.Counting? || w.step.Expiring? || w.step.DeadLettering?)
  }

  ghost function FailingTasks(s: State, id: Id): set<Task> {
    set t | t in s.tasks && Failing(s.tasks[t], id)
  }

  /** Raised: a handler failed. LeftPending: the message was left pending for another
      attempt. Settled: the dead-letter write was made, or failed and was swallowed.
      Cut: the process stopped or crashed in between. */
  datatype Kind = Raised | LeftPending | Settled | Cut

  /** Process(t, act) works on message `id`. */
  predicate On(s: State, a: Action, id: Id) {
    a.Process? && a.task in s.tasks && s.tasks[a.task].queue != [] && s.tasks[a.task].queue[0] == id
  }

  function Flag(b: bool): nat {
    if b then 1 else 0
  }

  /** Ending loop `t` now cuts a failing pass on `id` short. */
  function CutOff(s: State, t: Task, id: Id): nat {
    Flag(t in s.tasks && Failing(s.tasks[t], id))
  }

  /** Events of one kind about `id` in one enabled step. */
  ghost function Events(g: Group, s: State, a: Action, kind: Kind, id: Id): nat {
    match kind
    case Raised => if On(s, a, id) && a.act.HandlerRaises? then 1 else 0
    case LeftPending =>
      if On(s, a, id) && a.act.Expire? && s.tasks[a.task].step.Expiring? && s.tasks[a.task].step.attempt < g.maxRetries
      then 1 else 0
    case Settled =>
      if On(s, a, id) && s.tasks[a.task].step.DeadLettering? && (a.act.WriteDlq? || a.act.DlqRaises?) then 1 else 0
    case Cut =>
      if a.Stop? || a.Crash? then CutOff(s, Task(a.n, Reader), id) + CutOff(s, Task(a.n, Claimer), id) else 0
  }

  ghost function Total(g: Group, actions: seq<Action>, kind: Kind, id: Id): nat
    requires Run(g, actions).Some?
  {
    if actions == [] then 0
    else
      var prefix := actions[..|actions| - 1];
      Total(g, prefix, kind, id) + Events(g, Run(g, prefix).value, actions[|actions| - 1], kind, id)
  }

  // ----- one step balances -----

  /** The balance of one processing step, read off its own loop. */
  lemma EffectBalances(maxRetries: int, v: View, w: Work, act: Act)
    requires w.queue != [] && EffectOf(maxRetries, v, w, act).Some?
    ensures var e, id := EffectOf(maxRetries, v, w, act).value, w.queue[0];
            && (Failing(w, id) && !Failing(e.work, id) <==>
                  || (act.Expire? && w.step.Expiring? && w.step.attempt < maxRetries)
                  || (w.step.DeadLettering? && (act.WriteDlq? || act.DlqRaises?)))
            && (!Failing(w, id) && Failing(e.work, id) <==> act.HandlerRaises?)
            && (forall other :: other != id ==> !Failing(e.work, other))
  {
  }

  lemma ReplaceOne(before: set<Task>, after: set<Task>, t: Task)
    requires forall u :: u != t ==> (u in before <==> u in after)
    ensures |after| + (if t in before then 1 else 0) == |before| + (if t in after then 1 else 0)
  {
    assert before - {t} == after - {t};
    if t in before {
      assert before == (before - {t}) + {t};
    }
    if t in after {
      assert after == (after - {t}) + {t};
    }
  }

  lemma ProcessBalances(g: Group, s: State, a: Action, id: Id)
    requires Apply(g, s, a).Some? && a.Process?
    ensures |FailingTasks(Apply(g, s, a).value, id)| + Events(g, s, a, LeftPending, id) + Events(g, s, a, Settled, id)
         == |FailingTasks(s, id)| + Events(g, s, a, Raised, id)
  {
    var w := s.tasks[a.task];
    var t := Apply(g, s, a).value;
    EffectBalances(g.maxRetries, ViewOf(g, s, a.task.name, w.queue[0]), w, a.act);
    assert t.tasks == s.tasks[a.task := t.tasks[a.task]];
    ReplaceOne(FailingTasks(s, id), FailingTasks(t, id), a.task);
  }

  /** Only running processes have loops. */
  ghost predicate Housed(s: State) {
    forall t :: t in s.tasks ==> IsRunning(s, t.name)
  }

  lemma StepKeepsHoused(g: Group, s: State, a: Action)
    requires Housed(s) && Apply(g, s, a).Some?
    ensures Housed(Apply(g, s, a).value)
  {
    var t := Apply(g, s, a).value;
    forall u | u in t.tasks ensures IsRunning(t, u.name) {
      assert u.role.Reader? || u.role.Claimer?;
    }
  }

  /** A loop after a step outside processing: ended, in the same place, or idle. */
  ghost predicate LoopKept(s: State, t: State, a: Action, u: Task) {
    if (a.Stop? || a.Crash?) && u.name == a.n then u !in t.tasks
    else if u in s.tasks && !s.tasks[u].step.Idle? then u in t.tasks && t.tasks[u] == s.tasks[u]
    else u in t.tasks ==> t.tasks[u].step.Idle?
  }

  lemma GivingKeepsLoop(g: Group, s: State, a: Action, u: Task)
    requires Apply(g, s, a).Some? && (a.Read? || a.Claim?) && TasksOk(s)
    ensures LoopKept(s, Apply(g, s, a).value, a, u)
  {
    if u in s.tasks {
      assert WorkOk(s, s.tasks[u]);
    }
  }

  lemma EndingKeepsLoop(g: Group, s: State, a: Action, u: Task)
    requires Apply(g, s, a).Some? && (a.Stop? || a.Crash?)
    ensures LoopKept(s, Apply(g, s, a).value, a, u)
  {
    assert u.role.Reader? || u.role.Claimer?;
  }

  /** Outside processing, a loop leaves a failing pass only by ending. */
  lemma OthersKeepLoop(g: Group, s: State, a: Action, u: Task)
    requires Apply(g, s, a).Some? && !a.Process? && TasksOk(s) && Housed(s)
    ensures LoopKept(s, Apply(g, s, a).value, a, u)
  {
    if a.Read? || a.Claim? {
      GivingKeepsLoop(g, s, a, u);
    } else if a.Stop? || a.Crash? {
      EndingKeepsLoop(g, s, a, u);
    }
  }

  lemma OthersKeepFailing(g: Group, s: State, a: Action, id: Id)
    requires Apply(g, s, a).Some? && !a.Process? && TasksOk(s) && Housed(s)
    ensures FailingTasks(Apply(g, s, a).value, id)
         == FailingTasks(s, id) - if a.Stop? || a.Crash? then {Task(a.n, Reader), Task(a.n, Claimer)} else {}
  {
    var before, after := FailingTasks(s, id), FailingTasks(Apply(g, s, a).value, id);
    forall u ensures u in after <==> u in before && !((a.Stop? || a.Crash?) && u.name == a.n) {
      OthersKeepLoop(g, s, a, u);
    }
    forall u: Task ensures u.role.Reader? || u.role.Claimer? {}
  }

  lemma TakeTwo(all: set<Task>, t: Task, u: Task)
    requires t != u
    ensures |all - {t, u}| + Flag(t in all) + Flag(u in all) == |all|
  {
    assert all - {t, u} == all - {t} - {u};
  }

  lemma OthersBalance(g: Group, s: State, a: Action, id: Id)
    requires Apply(g, s, a).Some? && !a.Process? && TasksOk(s) && Housed(s)
    ensures |FailingTasks(Apply(g, s, a).value, id)| + Events(g, s, a, Cut, id) == |FailingTasks(s, id)|
  {
    OthersKeepFailing(g, s, a, id);
    if a.Stop? || a.Crash? {
      TakeTwo(FailingTasks(s, id), Task(a.n, Reader), Task(a.n, Claimer));
    }
  }

  // ----- whole runs balance -----

  ghost predicate Balanced(g: Group, actions: seq<Action>, id: Id)
    requires Run(g, actions).Some?
  {
    Total(g, actions, Raised, id)
    == Total(g, actions, LeftPending, id) + Total(g, actions, Settled, id) + Total(g, actions, Cut, id)
       + |FailingTasks(Run(g, actions).value, id)|
  }

  lemma BalanceStep(g: Group, actions: seq<Action>, id: Id)
    requires actions != [] && Run(g, actions).Some? && Balanced(g, actions[..|actions| - 1], id)
    requires TasksOk(Run(g, actions[..|actions| - 1]).value) && Housed(Run(g, actions[..|actions| - 1]).value)
    ensures Balanced(g, actions, id)
  {
    var s, a := Run(g, actions[..|actions| - 1]).value, actions[|actions| - 1];
    if a.Process? {
      ProcessBalances(g, s, a, id);
    } else {
      OthersBalance(g, s, a, id);
    }
  }

  /** In every run, the handler failures of a message are exactly those that left it
      pending, those that decided it, those cut short by a stop or crash, and those
      in progress. */
  lemma {:induction false} EveryFailureIsAccountedFor(g: Group, actions: seq<Action>, id: Id)
    requires g.zombieIdle > 0 && Run(g, actions).Some?
    ensures Balanced(g, actions, id) && Housed(Run(g, actions).value)
  {
    if actions == [] {
      assert FailingTasks(INITIAL, id) == {};
    } else {
      var n := |actions| - 1;
      EveryFailureIsAccountedFor(g, actions[..n], id);
      ReachableSafe(g, actions[..n]);
      BalanceStep(g, actions, id);
      StepKeepsHoused(g, Run(g, actions[..n]).value, actions[n]);
    }
  }

  // ----- what leaves the message pending, round by round -----

  /** The failing pass belongs to round `r`: its attempt was drawn in it, or it has
      no attempt number and the round is the current one. */
  predicate InRound(s: State, t: Task, id: Id, r: Round)
    requires t in s.tasks
  {
    r == if s.tasks[t].step.Expiring? then s.tasks[t].step.round else RoundOf(s, id)
  }

  /** The pass holds an attempt number below the limit. */
  predicate Numbered(g: Group, w: Work) {
    w.step.Expiring? && w.step.attempt < g.maxRetries
  }

  /** Ending loop `t` leaves a failure of round `r` pending. */
  function CutIn(s: State, t: Task, id: Id, r: Round): nat {
    Flag(t in s.tasks && Failing(s.tasks[t], id) && InRound(s, t, id, r))
  }

  /** The same, where the pass holds no attempt number below the limit: it had not
      been counted yet, or was about to dead-letter. */
  function FreeCutIn(g: Group, s: State, t: Task, id: Id, r: Round): nat {
    Flag(t in s.tasks && Failing(s.tasks[t], id) && InRound(s, t, id, r) && !Numbered(g, s.tasks[t]))
  }

  /** Failures on `id` of round `r` that a step leaves pending: through
      `_handle_failure`, or by ending a loop. */
  ghost function PendingByStep(g: Group, s: State, a: Action, id: Id, r: Round): nat {
    if a.Stop? || a.Crash? then CutIn(s, Task(a.n, Reader), id, r) + CutIn(s, Task(a.n, Claimer), id, r)
    else Flag(Events(g, s, a, LeftPending, id) == 1 && s.tasks[a.task].step.round == r)
  }

  ghost function FreeByStep(g: Group, s: State, a: Action, id: Id, r: Round): nat {
    if a.Stop? || a.Crash? then FreeCutIn(g, s, Task(a.n, Reader), id, r) + FreeCutIn(g, s, Task(a.n, Claimer), id, r)
    else 0
  }

  ghost function PendingFailures(g: Group, actions: seq<Action>, id: Id, r: Round): nat
    requires Run(g, actions).Some?
  {
    if actions == [] then 0
    else
      var prefix := actions[..|actions| - 1];
      PendingFailures(g, prefix, id, r) + PendingByStep(g, Run(g, prefix).value, actions[|actions| - 1], id, r)
  }

  ghost function FreeCuts(g: Group, actions: seq<Action>, id: Id, r: Round): nat
    requires Run(g, actions).Some?
  {
    if actions == [] then 0
    else
      var prefix := actions[..|actions| - 1];
      FreeCuts(g, prefix, id, r) + FreeByStep(g, Run(g, prefix).value, actions[|actions| - 1], id, r)
  }

  // ----- attempt numbers below the limit are spent once -----

  /** The number loop `t` takes with it when it ends. */
  function Lost(g: Group, s: State, t: Task): seq<Left> {
    if t in s.tasks && InFlight(s.tasks[t]).Some? && Numbered(g, s.tasks[t]) then [InFlight(s.tasks[t]).value] else []
  }

  /** The attempt numbers a step uses up without deciding the message. */
  function SpentByStep(g: Group, s: State, a: Action): seq<Left> {
    match a
    case Process(t, act) => if act.Expire? then Lost(g, s, t) else []
    case Stop(n) => Lost(g, s, Task(n, Reader)) + Lost(g, s, Task(n, Claimer))
    case Crash(n) => Lost(g, s, Task(n, Reader)) + Lost(g, s, Task(n, Claimer))
    case _ => []
  }

  ghost function Spent(g: Group, actions: seq<Action>): seq<Left>
    requires Run(g, actions).Some?
  {
    if actions == [] then []
    else
      var prefix := actions[..|actions| - 1];
      Spent(g, prefix) + SpentByStep(g, Run(g, prefix).value, actions[|actions| - 1])
  }

  ghost predicate Distinct(spent: seq<Left>) {
    forall i, j :: 0 <= i < j < |spent| ==> spent[i] != spent[j]
  }

  ghost predicate SpentOk(g: Group, s: State, spent: seq<Left>) {
    && Distinct(spent)
    && (forall x :: x in spent ==> Drawn(s, x) && x.attempt < g.maxRetries)
    && (forall t :: t in s.tasks ==> Unspent(s.tasks[t], spent))
  }

  ghost predicate Unspent(w: Work, spent: seq<Left>) {
    InFlight(w).Some? ==> InFlight(w).value !in spent
  }

  lemma ProcessKeepsSpent(g: Group, s: State, t: Task, e: Effect, spent: seq<Left>, more: seq<Left>)
    requires SpentOk(g, s, spent) && FlightsOk(s) && t in s.tasks && s.tasks[t].queue != []
    requires EffectCounts(g.maxRetries, ViewOf(g, s, t.name, s.tasks[t].queue[0]), s.tasks[t], e)
    requires more == [] || (more == Lost(g, s, t) && InFlight(e.work).None?)
    ensures SpentOk(g, Enact(g, s, t, s.tasks[t].queue[0], e), spent + more)
  {
    var id := s.tasks[t].queue[0];
    var after := Enact(g, s, t, id, e);
    assert FlightOk(s, t) && Unspent(s.tasks[t], spent);
    forall x | x in spent + more ensures Drawn(after, x) && x.attempt < g.maxRetries {
      EnactKeepsDrawn(g, s, t, id, e, x);
    }
    forall u | u in after.tasks ensures Unspent(after.tasks[u], spent + more) {
      assert Unspent(s.tasks[u], spent) && FlightsDiffer(s, t, u);
    }
  }

  lemma AppendLost(g: Group, s: State, spent: seq<Left>, t: Task)
    requires FlightsOk(s) && Distinct(spent) && (t in s.tasks ==> Unspent(s.tasks[t], spent))
    requires forall x :: x in spent ==> Drawn(s, x) && x.attempt < g.maxRetries
    ensures Distinct(spent + Lost(g, s, t))
    ensures forall x :: x in spent + Lost(g, s, t) ==> Drawn(s, x) && x.attempt < g.maxRetries
    ensures forall u ::
              u in s.tasks && u != t && Unspent(s.tasks[u], spent) ==> Unspent(s.tasks[u], spent + Lost(g, s, t))
  {
    if t in s.tasks {
      assert FlightOk(s, t);
      forall u | u in s.tasks && u != t ensures FlightsDiffer(s, t, u) {}
    }
  }

  lemma OthersKeepSpent(g: Group, s: State, a: Action, spent: seq<Left>)
    requires SpentOk(g, s, spent) && FlightsOk(s) && TasksOk(s) && Housed(s) && Apply(g, s, a).Some? && !a.Process?
    ensures SpentOk(g, Apply(g, s, a).value, spent + SpentByStep(g, s, a))
  {
    var t, longer := Apply(g, s, a).value, spent + SpentByStep(g, s, a);
    var ends := a.Stop? || a.Crash?;
    if ends {
      var reader, claimer := Task(a.n, Reader), Task(a.n, Claimer);
      AppendLost(g, s, spent, reader);
      AppendLost(g, s, spent + Lost(g, s, reader), claimer);
      assert longer == spent + Lost(g, s, reader) + Lost(g, s, claimer);
    }
    forall x | x in longer ensures Drawn(t, x) {
      OthersKeepDrawn(g, s, a, x);
    }
    forall u | u in t.tasks ensures Unspent(t.tasks[u], longer) {
      OthersKeepLoop(g, s, a, u);
      if u in s.tasks {
        assert Unspent(s.tasks[u], spent);
      }
    }
  }

  lemma OthersKeepDrawn(g: Group, s: State, a: Action, x: Left)
    requires Drawn(s, x) && Apply(g, s, a).Some? && !a.Process?
    ensures Drawn(Apply(g, s, a).value, x)
  {
    if a.Tick? {
      TickKeepsDrawn(g, s, a, x);
    } else {
      OtherStepsFrame(g, s, a);
    }
  }

  lemma {:induction false} ReachableSpent(g: Group, actions: seq<Action>)
    requires g.zombieIdle > 0 && Run(g, actions).Some?
    ensures SpentOk(g, Run(g, actions).value, Spent(g, actions))
  {
    if actions != [] {
      var n := |actions| - 1;
      var s, a := Run(g, actions[..n]).value, actions[n];
      ReachableSpent(g, actions[..n]);
      ReachableRounds(g, actions[..n]);
      ReachableSafe(g, actions[..n]);
      EveryFailureIsAccountedFor(g, actions[..n], 0);
      if a.Process? {
        var w := s.tasks[a.task];
        var v := ViewOf(g, s, a.task.name, w.queue[0]);
        EffectsCount(g.maxRetries, v, w, a.act);
        ExpireLands(g.maxRetries, v, w, a.act);
        var e := EffectOf(g.maxRetries, v, w, a.act).value;
        ProcessKeepsSpent(g, s, a.task, e, Spent(g, actions[..n]), SpentByStep(g, s, a));
      } else {
        OthersKeepSpent(g, s, a, Spent(g, actions[..n]));
      }
    }
  }

  lemma ExpireLands(maxRetries: int, v: View, w: Work, act: Act)
    requires w.queue != [] && EffectOf(maxRetries, v, w, act).Some?
    ensures act.Expire? ==> w.step.Expiring? && InFlight(EffectOf(maxRetries, v, w, act).value.work).None?
  {
  }

  // ----- the bound -----

  lemma {:induction false} TimesLeftJoins(first: seq<Left>, second: seq<Left>, id: Id, r: Round)
    ensures TimesLeft(first + second, id, r) == TimesLeft(first, id, r) + TimesLeft(second, id, r)
  {
    if second == [] {
      assert first + second == first;
    } else {
      var n := |second| - 1;
      TimesLeftJoins(first, second[..n], id, r);
      assert (first + second)[..|first| + n] == first + second[..n];
    }
  }

  /** Ending a loop leaves a failure pending that is spent or free. */
  lemma CutIsSpentOrFree(g: Group, s: State, t: Task, id: Id, r: Round)
    ensures CutIn(s, t, id, r) == TimesLeft(Lost(g, s, t), id, r) + FreeCutIn(g, s, t, id, r)
  {
    assert TimesLeft([], id, r) == 0;
    if t in s.tasks && InFlight(s.tasks[t]).Some? {
      var x := InFlight(s.tasks[t]).value;
      assert [x][..0] == [];
      assert TimesLeft([x], id, r) == Flag(x.id == id && x.round == r);
    }
  }

  lemma StepIsSpentOrFree(g: Group, s: State, a: Action, id: Id, r: Round)
    requires Apply(g, s, a).Some?
    ensures PendingByStep(g, s, a, id, r) == TimesLeft(SpentByStep(g, s, a), id, r) + FreeByStep(g, s, a, id, r)
  {
    if a.Stop? || a.Crash? {
      var reader, claimer := Task(a.n, Reader), Task(a.n, Claimer);
      CutIsSpentOrFree(g, s, reader, id, r);
      CutIsSpentOrFree(g, s, claimer, id, r);
      TimesLeftJoins(Lost(g, s, reader), Lost(g, s, claimer), id, r);
    } else if a.Process? {
      CutIsSpentOrFree(g, s, a.task, id, r);
    }
  }

  lemma {:induction false} PendingIsSpentOrFree(g: Group, actions: seq<Action>, id: Id, r: Round)
    requires Run(g, actions).Some?
    ensures PendingFailures(g, actions, id, r) == TimesLeft(Spent(g, actions), id, r) + FreeCuts(g, actions, id, r)
  {
    if actions != [] {
      var n := |actions| - 1;
      var s := Run(g, actions[..n]).value;
      PendingIsSpentOrFree(g, actions[..n], id, r);
      StepIsSpentOrFree(g, s, actions[n], id, r);
      TimesLeftJoins(Spent(g, actions[..n]), SpentByStep(g, s, actions[n]), id, r);
    }
  }

  /** In every run, all the handler failures that leave a message pending in a round
      number at most max(maxRetries - 1, 0), plus the passes cut short by a stop or
      crash before they were counted or when they were about to dead-letter. */
  lemma PendingFailuresPerRound(g: Group, actions: seq<Action>, id: Id, r: Round)
    requires g.zombieIdle > 0 && Run(g, actions).Some?
    ensures PendingFailures(g, actions, id, r) <= Max(g.maxRetries - 1, 0) + FreeCuts(g, actions, id, r)
  {
    var spent := Spent(g, actions);
    ReachableSpent(g, actions);
    PendingIsSpentOrFree(g, actions, id, r);
    DistinctNumbers(spent, id, r);
    SmallNumbers(Numbers(spent, id, r), Max(g.maxRetries - 1, 0));
  }
}
