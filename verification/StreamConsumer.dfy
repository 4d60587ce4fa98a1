/** The Redis Streams consumer group: reading, the pending list, claiming by idle
    time, the retry counter, the dead-letter stream, acking, the zombie sweep and
    deregistration. Each process runs a read loop and a claim loop; processes
    crash anywhere, a command may take effect although its answer is lost, and
    one step is one Redis command or one local decision.

    Assumed: consumer names are distinct, and a running consumer polls within the
    zombie threshold. Trimmed entries and failed dead-letter writes are modelled,
    and appear in the accounting. */
module StreamConsumer {
  import opened Prelude

  type Name = nat
  type Id = nat
  type Event = nat

  /** The group's settings, and what the messages are. */
  datatype Group = Group(
    malformed: Id -> bool, event: Id -> Event, handles: (Name, Id) -> bool, hasChecker: bool,
    maxRetries: int, minIdle: int, zombieIdle: int, retryTtl: int)

  // ----- processing one message -----

  /** A counting round of a message ends when its counter is cleared, or when
      the whole counter hash expires. */
  datatype Round = Round(epoch: nat, clears: nat)

  datatype Outcome = Handled | Duplicate | NoHandler | DeadLettered

  /** The next command or decision about the message at the head of the queue. */
  datatype Step =
    | Idle
    | Malformed
    | Checking
    | Handling
    | Marking
    | Counting
    | Expiring(attempt: nat, round: Round)
    | DeadLettering
    | Clearing
    | Acking

  /** A loop's remaining batch and its position in it. */
  datatype Work = Work(queue: seq<Id>, step: Step)

  datatype Act =
    | Parse
    | AskSeen(seen: bool)
    | HandlerReturns
    | HandlerRaises
    | MarkSeen
    | Increment
    | IncrementRaises(executed: bool)
    | Expire
    | ExpireRaises(executed: bool)
    | WriteDlq
    | DlqRaises(executed: bool)
    | Clear
    | Ack
    | SkipAck
    | CommandRaises(executed: bool)

  /** What the step may look at: the message, and Redis. */
  datatype View = View(malformed: bool, handled: bool, known: bool, count: nat, round: Round)

  /** A failed attempt that left the message pending. */
  datatype Left = Left(id: Id, round: Round, attempt: nat)

  /** What a step does to the loop and to the message's Redis state. */
  datatype Effect = Effect(
    work: Work, end: Option<Outcome>, swallowed: bool, marked: bool,
    bumped: bool, refreshed: bool, cleared: bool, acked: bool, left: Option<Left>)

  function Quiet(w: Work): Effect {
    Effect(w, None, false, false, false, false, false, false, None)
  }

  function EffectOf(maxRetries: int, v: View, w: Work, act: Act): Option<Effect>
    requires w.queue != []
  {
    var next := Quiet(Work(w.queue[1..], Idle));
    var abort := Quiet(Work([], Idle));  // the exception reaches the loop, which drops the rest of its batch
    match act
    case Parse =>
      if !w.step.Idle? then None else Some(Quiet(w.(step := if v.malformed then Malformed else Checking)))
    case AskSeen(seen) =>
      if !w.step.Checking? || (seen && !v.known) then None
      else if seen then Some(Quiet(w.(step := Acking)).(end := Some(Duplicate)))
      else if !v.handled then Some(Quiet(w.(step := Acking)).(end := Some(NoHandler)))
      else Some(Quiet(w.(step := Handling)))
    case HandlerReturns =>
      if !w.step.Handling? then None else Some(Quiet(w.(step := Marking)).(end := Some(Handled)))
    case HandlerRaises => if !w.step.Handling? then None else Some(Quiet(w.(step := Counting)))
    case MarkSeen => if !w.step.Marking? then None else Some(Quiet(w.(step := Clearing)).(marked := true))
    case Increment =>
      if !w.step.Counting? then None else Some(Quiet(w.(step := Expiring(v.count + 1, v.round))).(bumped := true))
    case IncrementRaises(executed) =>
      if !w.step.Counting? then None else Some(Quiet(w.(step := DeadLettering)).(bumped := executed))
    case Expire =>
      if !w.step.Expiring? then None
      else if w.step.attempt >= maxRetries then Some(Quiet(w.(step := DeadLettering)).(refreshed := true))
      else Some(next.(refreshed := true, left := Some(Left(w.queue[0], w.step.round, w.step.attempt))))
    case ExpireRaises(executed) =>
      if !w.step.Expiring? then None else Some(Quiet(w.(step := DeadLettering)).(refreshed := executed))
    case WriteDlq =>
      if w.step.Malformed? then Some(Quiet(w.(step := Acking)).(end := Some(DeadLettered)))
      else if w.step.DeadLettering? then Some(Quiet(w.(step := Clearing)).(end := Some(DeadLettered)))
      else None
    case DlqRaises(executed) =>  // logged and swallowed: the message is acked all the same
      if !w.step.Malformed? && !w.step.DeadLettering? then None
      else
        var after := Quiet(w.(step := if w.step.Malformed? then Acking else Clearing));
        Some(if executed then after.(end := Some(DeadLettered)) else after.(swallowed := true))
    case Clear => if !w.step.Clearing? then None else Some(Quiet(w.(step := Acking)).(cleared := true))
    case Ack => if !w.step.Acking? then None else Some(next.(acked := true))
    case SkipAck =>  // the other loop is reconnecting and there is no client: nothing is sent
      if !w.step.Acking? then None else Some(next)
    case CommandRaises(executed) =>
      match w.step
      case Checking => Some(abort)
      case Marking => Some(abort.(marked := executed))
      case Clearing => Some(abort.(cleared := executed))
      case Acking => Some(abort.(acked := executed))
      case _ => None
  }

  // ----- the group -----

  datatype Role = Reader | Claimer

  datatype Task = Task(name: Name, role: Role)

  /** `Stopped`: both loops have ended. `Checked`: found holding nothing, about to
      delete its registration. */
  datatype Life = Running | Stopped | Checked | Gone

  datatype Pending = Pending(owner: Name, since: int)

  datatype State = State(
    now: int,
    added: nat, trimmed: set<Id>, cursor: nat,       // the stream, and the group's last-delivered id
    pel: map<Id, Pending>, seen: map<Name, int>,     // pending list; registered consumers, last activity
    retries: map<Id, nat>, retriesUntil: Option<int>,
    processed: set<Event>,
    lives: map<Name, Life>, tasks: map<Task, Work>, sweeps: set<(Name, Name)>,
    // history
    delivered: set<Id>, ends: set<(Id, Outcome)>, swallowed: set<Id>, dropped: set<Id>,
    epoch: nat, clears: map<Id, nat>, left: seq<Left>)

  const INITIAL := State(0, 0, {}, 0, map[], map[], map[], None, {}, map[], map[], {}, {}, {}, {}, {}, 0, map[], [])

  datatype Action =
    | Tick(delay: nat)
    | Add
    | Trim(id: Id)
    | Start(n: Name)
    | Read(n: Name, upTo: nat, lost: bool)
    | Claim(n: Name, ids: seq<Id>, gone: set<Id>, lost: bool)
    | Process(task: Task, act: Act)
    | Stop(n: Name)
    | CheckPending(n: Name)
    | Deregister(n: Name)
    | Crash(n: Name)
    | Inspect(n: Name, victim: Name)
    | Sweep(n: Name, victim: Name)

  function Count(m: map<Id, nat>, id: Id): nat {
    if id in m then m[id] else 0
  }

  function RoundOf(s: State, id: Id): Round {
    Round(s.epoch, Count(s.clears, id))
  }

  predicate IsRunning(s: State, n: Name) {
    n in s.lives && s.lives[n].Running?
  }

  predicate HoldsNothing(s: State, n: Name) {
    forall id :: id in s.pel ==> s.pel[id].owner != n
  }

  function Fresh(lo: nat, hi: nat, trimmed: set<Id>): (ids: seq<Id>)
    requires lo <= hi
    ensures forall id :: id in ids <==> lo <= id < hi && id !in trimmed
  {
    if lo == hi then [] else Fresh(lo, hi - 1, trimmed) + if hi - 1 in trimmed then [] else [hi - 1]
  }

  function Ids(q: seq<Id>): set<Id> {
    set id | id in q
  }

  /** Entries assigned to consumer `n` now. */
  function Assign(s: State, n: Name, ids: set<Id>): State {
    s.(pel := s.pel + map id | id in ids :: Pending(n, s.now), seen := s.seen[n := s.now])
  }

  /** XGROUP DELCONSUMER discards whatever the consumer still holds. */
  function DeleteConsumer(s: State, n: Name): State {
    s.(pel := map id | id in s.pel && s.pel[id].owner != n :: s.pel[id], seen := s.seen - {n})
  }

  function SetWork(s: State, t: Task, q: seq<Id>): State {
    s.(tasks := s.tasks[t := Work(q, Idle)])
  }

  /** Both loops of the process are gone. */
  function EndLoops(s: State, n: Name, life: Life): State {
    s.(lives := s.lives[n := life], tasks := s.tasks - {Task(n, Reader), Task(n, Claimer)})
  }

  predicate Claimable(g: Group, s: State, id: Id) {
    id in s.pel && s.now - s.pel[id].since >= g.minIdle
  }

  function ViewOf(g: Group, s: State, n: Name, id: Id): View {
    View(g.malformed(id), g.handles(n, id), g.event(id) in s.processed, Count(s.retries, id), RoundOf(s, id))
  }

  function Enact(g: Group, s: State, t: Task, id: Id, e: Effect): State {
    s.(tasks := s.tasks[t := e.work],
       ends := if e.end.Some? then s.ends + {(id, e.end.value)} else s.ends,
       swallowed := if e.swallowed then s.swallowed + {id} else s.swallowed,
       processed := if e.marked && g.hasChecker then s.processed + {g.event(id)} else s.processed,
       retries := if e.bumped then s.retries[id := Count(s.retries, id) + 1]
                  else if e.cleared then s.retries - {id} else s.retries,
       retriesUntil := if e.refreshed && s.retries != map[] then Some(s.now + g.retryTtl)
                       else if e.cleared && s.retries - {id} == map[] then None else s.retriesUntil,
       clears := if e.cleared then s.clears[id := Count(s.clears, id) + 1] else s.clears,
       pel := if e.acked then s.pel - {id} else s.pel,
       left := if e.left.Some? then s.left + [e.left.value] else s.left)
  }

  /** A running, registered consumer would still be within the zombie threshold. */
  predicate AllPollInTime(g: Group, s: State, now: int) {
    forall n :: n in s.seen && IsRunning(s, n) ==> now - s.seen[n] < g.zombieIdle
  }

  function ApplyRead(s: State, n: Name, upTo: nat, lost: bool): Option<State> {
    var t := Task(n, Reader);
    if !IsRunning(s, n) || t !in s.tasks || s.tasks[t].queue != [] || !(s.cursor <= upTo <= s.added) then None
    else
      var ids := Fresh(s.cursor, upTo, s.trimmed);
      Some(SetWork(Assign(s, n, Ids(ids)), t, if lost then [] else ids)
           .(cursor := upTo, delivered := s.delivered + Ids(ids)))
  }

  /** XAUTOCLAIM hands over idle entries, and drops those trimmed from the stream. */
  predicate MayClaim(g: Group, s: State, ids: set<Id>, gone: set<Id>) {
    && (forall id :: id in ids ==> Claimable(g, s, id) && id !in s.trimmed)
    && (forall id :: id in gone ==> Claimable(g, s, id) && id in s.trimmed)
  }

  function ApplyClaim(g: Group, s: State, n: Name, ids: seq<Id>, gone: set<Id>, lost: bool): Option<State> {
    var t := Task(n, Claimer);
    if !IsRunning(s, n) || t !in s.tasks || s.tasks[t].queue != [] || !MayClaim(g, s, Ids(ids), gone) then None
    else Some(SetWork(Assign(s.(pel := s.pel - gone), n, Ids(ids)), t, if lost then [] else ids)
              .(dropped := s.dropped + gone))
  }

  function ApplyProcess(g: Group, s: State, t: Task, act: Act): Option<State> {
    if !IsRunning(s, t.name) || t !in s.tasks || s.tasks[t].queue == [] then None
    else
      var id := s.tasks[t].queue[0];
      var e := EffectOf(g.maxRetries, ViewOf(g, s, t.name, id), s.tasks[t], act);
      if e.None? then None else Some(Enact(g, s, t, id, e.value))
  }

  function Apply(g: Group, s: State, a: Action): Option<State> {
    match a
    case Tick(delay) =>
      var now := s.now + delay;
      if !AllPollInTime(g, s, now) then None
      else if s.retriesUntil.Some? && now >= s.retriesUntil.value
      then Some(s.(now := now, retries := map[], retriesUntil := None, epoch := s.epoch + 1))
      else Some(s.(now := now))
    case Add => Some(s.(added := s.added + 1))
    case Trim(id) => if id >= s.added then None else Some(s.(trimmed := s.trimmed + {id}))
    case Start(n) =>
      if n in s.lives then None
      else Some(SetWork(SetWork(s, Task(n, Reader), []), Task(n, Claimer), []).(lives := s.lives[n := Running]))
    case Read(n, upTo, lost) => ApplyRead(s, n, upTo, lost)
    case Claim(n, ids, gone, lost) => ApplyClaim(g, s, n, ids, gone, lost)
    case Process(t, act) => ApplyProcess(g, s, t, act)
    case Stop(n) => if !IsRunning(s, n) then None else Some(EndLoops(s, n, Stopped))
    case CheckPending(n) =>
      if n !in s.lives || !s.lives[n].Stopped? then None
      else Some(s.(lives := s.lives[n := if HoldsNothing(s, n) then Checked else Gone]))
    case Deregister(n) =>
      if n !in s.lives || !s.lives[n].Checked? then None
      else Some(DeleteConsumer(s, n).(lives := s.lives[n := Gone]))
    case Crash(n) => if n !in s.lives then None else Some(EndLoops(s, n, Gone))
    case Inspect(n, victim) =>
      if || !IsRunning(s, n) || victim == n || victim !in s.seen
         || !HoldsNothing(s, victim) || s.now - s.seen[victim] < g.zombieIdle
      then None
      else Some(s.(sweeps := s.sweeps + {(n, victim)}))
    case Sweep(n, victim) =>
      if !IsRunning(s, n) || (n, victim) !in s.sweeps then None
      else Some(DeleteConsumer(s, victim).(sweeps := s.sweeps - {(n, victim)}))
  }

  function RunFrom(g: Group, s: State, actions: seq<Action>): Option<State> {
    if actions == [] then Some(s)
    else
      var before := RunFrom(g, s, actions[..|actions| - 1]);
      if before.None? then None else Apply(g, before.value, actions[|actions| - 1])
  }

  ghost function Run(g: Group, actions: seq<Action>): Option<State> {
    RunFrom(g, INITIAL, actions)
  }

  // ----- deletions find nothing to discard -----

  ghost predicate DeletionOk(g: Group, s: State) {
    && SeenOk(g, s)
    && (forall n :: n in s.lives && s.lives[n].Checked? ==> HoldsNothing(s, n))
    && (forall p :: p in s.sweeps ==> p.1 in s.lives && !IsRunning(s, p.1) && HoldsNothing(s, p.1))
  }

  /** A step hands entries only to a running consumer. */
  lemma OnlyRunningGain(g: Group, s: State, a: Action, n: Name)
    requires Apply(g, s, a).Some? && !IsRunning(s, n) && HoldsNothing(s, n)
    ensures HoldsNothing(Apply(g, s, a).value, n)
  {
    var t := Apply(g, s, a).value;
    forall id | id in t.pel ensures t.pel[id].owner != n {
      assert (id in s.pel && t.pel[id] == s.pel[id]) || ((a.Read? || a.Claim?) && t.pel[id].owner == a.n);
    }
  }

  /** A consumer that is not running never runs again: names are not reused. */
  lemma NoRevival(g: Group, s: State, a: Action, n: Name)
    requires Apply(g, s, a).Some? && n in s.lives && !IsRunning(s, n)
    ensures n in Apply(g, s, a).value.lives && !IsRunning(Apply(g, s, a).value, n)
  {
  }

  ghost predicate SeenOk(g: Group, s: State) {
    forall n :: n in s.seen ==> n in s.lives && (IsRunning(s, n) ==> s.now - s.seen[n] < g.zombieIdle)
  }

  lemma GivingKeepsSeen(g: Group, s: State, a: Action)
    requires g.zombieIdle > 0 && SeenOk(g, s) && Apply(g, s, a).Some? && (a.Read? || a.Claim?)
    ensures SeenOk(g, Apply(g, s, a).value)
  {
  }

  lemma ProcessKeepsSeen(g: Group, s: State, a: Action)
    requires SeenOk(g, s) && Apply(g, s, a).Some? && a.Process?
    ensures SeenOk(g, Apply(g, s, a).value)
  {
  }

  lemma StepKeepsSeen(g: Group, s: State, a: Action)
    requires g.zombieIdle > 0 && SeenOk(g, s) && Apply(g, s, a).Some?
    ensures SeenOk(g, Apply(g, s, a).value)
  {
    if a.Read? || a.Claim? {
      GivingKeepsSeen(g, s, a);
    } else if a.Process? {
      ProcessKeepsSeen(g, s, a);
    } else if !a.Tick? {
      EventsKeepSeen(g, s, a);
    }
  }

  lemma EventsKeepSeen(g: Group, s: State, a: Action)
    requires SeenOk(g, s) && Apply(g, s, a).Some? && !a.Read? && !a.Claim? && !a.Process? && !a.Tick?
    ensures SeenOk(g, Apply(g, s, a).value)
  {
    var t := Apply(g, s, a).value;
    assert t.now == s.now && t.seen.Keys <= s.seen.Keys;
    forall n | n in t.seen ensures n in t.lives && (IsRunning(t, n) ==> t.now - t.seen[n] < g.zombieIdle) {
      assert n in s.seen && t.seen[n] == s.seen[n];
    }
  }

  /** Whoever has just been found empty, or chosen for the sweep, was empty and
      not running already. */
  lemma ChosenWereIdle(g: Group, s: State, a: Action, n: Name)
    requires DeletionOk(g, s) && Apply(g, s, a).Some?
    requires var t := Apply(g, s, a).value;
             (n in t.lives && t.lives[n].Checked?) || (exists p :: p in t.sweeps && p.1 == n)
    ensures n in s.lives && !IsRunning(s, n) && HoldsNothing(s, n)
  {
  }

  /** In every run: a registered consumer that runs is within the zombie threshold,
      and whoever was found empty, or chosen for the sweep, is not running and holds
      nothing, whatever siblings read or claimed since. */
  lemma {:induction false} ReachableDeletion(g: Group, actions: seq<Action>)
    requires g.zombieIdle > 0 && Run(g, actions).Some?
    ensures DeletionOk(g, Run(g, actions).value)
  {
    if actions != [] {
      var k := |actions| - 1;
      var s, a, t := Run(g, actions[..k]).value, actions[k], Run(g, actions).value;
      ReachableDeletion(g, actions[..k]);
      StepKeepsSeen(g, s, a);
      forall n | (n in t.lives && t.lives[n].Checked?) || (exists p :: p in t.sweeps && p.1 == n)
        ensures n in t.lives && !IsRunning(t, n) && HoldsNothing(t, n)
      {
        ChosenWereIdle(g, s, a, n);
        OnlyRunningGain(g, s, a, n);
        NoRevival(g, s, a, n);
      }
    }
  }

  /** Whenever the sweep or the shutdown deletes a consumer, that consumer holds
      no pending entry at that instant, whatever happened since the check: the
      deletion leaves the pending list as it was. */
  lemma DeletionDiscardsNothing(g: Group, actions: seq<Action>, a: Action)
    requires g.zombieIdle > 0 && Run(g, actions).Some? && (a.Sweep? || a.Deregister?)
    requires Apply(g, Run(g, actions).value, a).Some?
    ensures HoldsNothing(Run(g, actions).value, if a.Sweep? then a.victim else a.n)
    ensures Apply(g, Run(g, actions).value, a).value.pel == Run(g, actions).value.pel
  {
    ReachableDeletion(g, actions);
    var s := Run(g, actions).value;
    if a.Sweep? {
      assert (a.n, a.victim) in s.sweeps;
    }
  }
}
