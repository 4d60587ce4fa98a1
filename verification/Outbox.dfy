/** The transactional outbox: rows inserted inside the caller's transaction, and
    any number of drainers that publish, mark, retry and dead-letter them. One
    step is one statement or one publish; drainers may crash anywhere, and a
    statement may take effect although its answer is lost. */
module Outbox {
  import opened Prelude

  type Id = nat
  type Txn = nat
  type Drainer = nat

  // ----- retry policy -----

  datatype Policy = Policy(maxRetries: int, backoffBase: int, maxBackoff: int)

  function Power(base: int, n: nat): int {
    if n == 0 then 1 else base * Power(base, n - 1)
  }

  /** `delay_for` */
  function DelayFor(policy: Policy, attempt: nat): int {
    var exponential := Power(policy.backoffBase, attempt);
    if exponential <= policy.maxBackoff then exponential else policy.maxBackoff
  }

  lemma {:induction false} PowerGrows(base: int, n: nat)
    requires base >= 1
    ensures 1 <= Power(base, n) <= Power(base, n + 1)
  {
    if n > 0 {
      PowerGrows(base, n - 1);
      assert base * Power(base, n - 1) <= base * Power(base, n);
    }
  }

  /** Delays never shrink from one attempt to the next and never pass the cap. */
  lemma {:induction false} DelaysGrowToCap(policy: Policy, m: nat, n: nat)
    requires policy.backoffBase >= 1 && m <= n
    ensures DelayFor(policy, m) <= DelayFor(policy, n) <= policy.maxBackoff
    decreases n - m
  {
    if m < n {
      PowerGrows(policy.backoffBase, m);
      DelaysGrowToCap(policy, m + 1, n);
    }
  }

  // ----- state -----

  datatype Row = Row(published: bool, dead: bool, retries: nat, nextAt: real)

  predicate Due(row: Row, now: real) {
    !row.published && !row.dead && row.nextAt <= now
  }

  /** A selected row with the retry count read at selection. */
  datatype Pick = Pick(id: Id, retries: nat)

  datatype Stage = Ready | Appended | Failing

  datatype Counts = Counts(published: nat, retried: nat, deadLettered: nat) {
    function Sum(): nat { published + retried + deadLettered }
  }

  datatype Drain = Drain(batch: seq<Pick>, at: nat, stage: Stage, counts: Counts)

  /** `staged`: rows inserted by transactions still open. `attempts`: publish
      attempts per row; `lost`: those whose outcome was never recorded; `marked`:
      rows whose published mark was confirmed; `crowded`: two drainers overlapped. */
  datatype State = State(
    now: real, rows: map<Id, Row>, staged: map<Txn, set<Id>>, stream: seq<Id>, drains: map<Drainer, Drain>,
    attempts: map<Id, nat>, lost: map<Id, nat>, marked: set<Id>, crowded: bool)

  const INITIAL := State(0.0, map[], map[], [], map[], map[], map[], {}, false)

  datatype Action =
    | Tick(delay: real)
    | Begin(t: Txn)
    | Insert(t: Txn, id: Id)
    | Commit(t: Txn)
    | Rollback(t: Txn)
    | Select(d: Drainer, ids: seq<Id>)
    | Publish(d: Drainer)
    | PublishFails(d: Drainer, appended: bool)
    | Mark(d: Drainer)
    | MarkFails(d: Drainer, committed: bool)
    | Record(d: Drainer)
    | RecordFails(d: Drainer, committed: bool)
    | Return(d: Drainer)
    | Crash(d: Drainer)

  function Count(m: map<Id, nat>, id: Id): nat {
    if id in m then m[id] else 0
  }

  predicate Distinct(ids: seq<Id>) {
    forall i, j :: 0 <= i < j < |ids| ==> ids[i] != ids[j]
  }

  /** The id was used by some insert, committed or not. */
  predicate Taken(s: State, id: Id) {
    id in s.rows || exists t :: t in s.staged && id in s.staged[t]
  }

  /** The row after a failed attempt is recorded. */
  function AfterFailure(policy: Policy, row: Row, n: nat, now: real): Row {
    if n >= policy.maxRetries then row.(dead := true, retries := n)
    else row.(retries := n, nextAt := now + DelayFor(policy, n) as real)
  }

  function CountFailure(policy: Policy, c: Counts, n: nat): Counts {
    if n >= policy.maxRetries then c.(deadLettered := c.deadLettered + 1) else c.(retried := c.retried + 1)
  }

  function Next(w: Drain, counts: Counts): Drain {
    w.(at := w.at + 1, stage := Ready, counts := counts)
  }

  /** What one drain step does to the row it works on and to the drain itself;
      no drain means that it ended. */
  datatype Effect = Effect(row: Row, appended: bool, tried: bool, lost: bool, marked: bool, drain: Option<Drain>)

  predicate DrainAction(a: Action) {
    a.Publish? || a.PublishFails? || a.Mark? || a.MarkFails? || a.Record? || a.RecordFails? || a.Return? || a.Crash?
  }

  function EffectOf(policy: Policy, now: real, row: Row, w: Drain, a: Action): Option<Effect>
    requires DrainAction(a) && w.at < |w.batch|
  {
    var n := w.batch[w.at].retries + 1;
    var quiet := Effect(row, false, false, false, false, None);
    match a
    case Publish(_) =>
      if !w.stage.Ready? then None
      else Some(quiet.(appended := true, tried := true, drain := Some(w.(stage := Appended))))
    case PublishFails(_, appended) =>
      if !w.stage.Ready? then None
      else Some(quiet.(appended := appended, tried := true, drain := Some(w.(stage := Failing))))
    case Mark(_) =>
      if !w.stage.Appended? then None
      else Some(quiet.(row := row.(published := true), marked := true,
                       drain := Some(Next(w, w.counts.(published := w.counts.published + 1)))))
    case MarkFails(_, committed) =>
      if !w.stage.Appended? then None
      else Some(quiet.(row := row.(published := row.published || committed), drain := Some(w.(stage := Failing))))
    case Record(_) =>
      if !w.stage.Failing? then None
      else Some(quiet.(row := AfterFailure(policy, row, n, now),
                       drain := Some(Next(w, CountFailure(policy, w.counts, n)))))
    case RecordFails(_, committed) =>
      if !w.stage.Failing? then None
      else if committed then Some(quiet.(row := AfterFailure(policy, row, n, now)))
      else Some(quiet.(lost := true))
    case Crash(_) => Some(quiet.(lost := !w.stage.Ready?))
    case Return(_) => None
  }

  function AddTo(m: map<Id, nat>, id: Id, b: bool): map<Id, nat> {
    if b then m[id := Count(m, id) + 1] else m
  }

  function Enact(s: State, d: Drainer, id: Id, e: Effect): State {
    s.(rows := s.rows[id := e.row],
       stream := if e.appended then s.stream + [id] else s.stream,
       attempts := AddTo(s.attempts, id, e.tried),
       lost := AddTo(s.lost, id, e.lost),
       marked := if e.marked then s.marked + {id} else s.marked,
       drains := match e.drain case Some(w) => s.drains[d := w] case None => s.drains - {d})
  }

  function Apply(policy: Policy, s: State, a: Action): Option<State> {
    match a
    case Tick(delay) => if delay < 0.0 then None else Some(s.(now := s.now + delay))
    case Begin(t) => if t in s.staged then None else Some(s.(staged := s.staged[t := {}]))
    case Insert(t, id) =>
      // outside a transaction `publish` raises and nothing is inserted
      if t !in s.staged || Taken(s, id) then None
      else Some(s.(staged := s.staged[t := s.staged[t] + {id}]))
    case Commit(t) =>
      if t !in s.staged then None
      else Some(s.(staged := s.staged - {t},
                   rows := s.rows + map id | id in s.staged[t] :: Row(false, false, 0, s.now)))
    case Rollback(t) => if t !in s.staged then None else Some(s.(staged := s.staged - {t}))
    case Select(d, ids) =>
      if || d in s.drains || !Distinct(ids)
         || exists i :: 0 <= i < |ids| && (ids[i] !in s.rows || !Due(s.rows[ids[i]], s.now))
      then None
      else
        var batch := seq(|ids|, i requires 0 <= i < |ids| =>
                           Pick(ids[i], if ids[i] in s.rows then s.rows[ids[i]].retries else 0));
        Some(s.(drains := s.drains[d := Drain(batch, 0, Ready, Counts(0, 0, 0))],
                crowded := s.crowded || s.drains != map[]))
    case _ =>
      if a.d !in s.drains then None else ApplyDrain(policy, s, a, s.drains[a.d])
  }

  function ApplyDrain(policy: Policy, s: State, a: Action, w: Drain): Option<State>
    requires DrainAction(a) && a.d in s.drains
  {
    if w.at >= |w.batch| then
      if a.Return? || a.Crash? then Some(s.(drains := s.drains - {a.d})) else None
    else
      var id := w.batch[w.at].id;
      if id !in s.rows then None
      else
        var e := EffectOf(policy, s.now, s.rows[id], w, a);
        if e.None? then None else Some(Enact(s, a.d, id, e.value))
  }

  function RunFrom(policy: Policy, s: State, actions: seq<Action>): Option<State> {
    if actions == [] then Some(s)
    else
      var before := RunFrom(policy, s, actions[..|actions| - 1]);
      if before.None? then None else Apply(policy, before.value, actions[|actions| - 1])
  }

  ghost function Run(policy: Policy, actions: seq<Action>): Option<State> {
    RunFrom(policy, INITIAL, actions)
  }

  // ----- any number of drainers -----

  /** A drain works on committed rows, has appended the row it is about to mark,
      and its counts add up to the rows it has finished. */
  ghost predicate DrainOk(rows: set<Id>, stream: seq<Id>, w: Drain) {
    && w.at <= |w.batch| && w.counts.Sum() == w.at
    && (forall i :: 0 <= i < |w.batch| ==> w.batch[i].id in rows)
    && (w.at < |w.batch| && w.stage.Appended? ==> w.batch[w.at].id in stream)
    && (w.at == |w.batch| ==> w.stage.Ready?)
  }

  ghost predicate DrainsOk(s: State) {
    forall d :: d in s.drains ==> DrainOk(s.rows.Keys, s.stream, s.drains[d])
  }

  /** Every appended event comes from a committed row, appends never outnumber
      attempts, and a published row was appended. */
  ghost predicate StreamOk(s: State) {
    && (forall id :: id in s.stream ==> id in s.rows)
    && (forall id :: id in s.rows && s.rows[id].published ==> id in s.stream)
    && (forall id :: multiset(s.stream)[id] <= Count(s.attempts, id))
  }

  /** A staged row is not committed, and belongs to one transaction. */
  ghost predicate StagedOk(s: State) {
    && (forall t, id :: t in s.staged && id in s.staged[t] ==> id !in s.rows)
    && (forall t, u, id :: t in s.staged && u in s.staged && id in s.staged[t] && id in s.staged[u] ==> t == u)
  }

  ghost predicate Safe(s: State) {
    StreamOk(s) && DrainsOk(s) && StagedOk(s)
  }

  /** The step's effect on its own drain. */
  lemma EffectKeepsDrain(policy: Policy, now: real, row: Row, w: Drain, a: Action, rows: set<Id>, stream: seq<Id>)
    requires DrainAction(a) && w.at < |w.batch| && DrainOk(rows, stream, w) && EffectOf(policy, now, row, w, a).Some?
    ensures var e := EffectOf(policy, now, row, w, a).value;
      && (e.row.published ==> row.published || w.stage.Appended?)
      && (e.drain.Some? ==> DrainOk(rows, if e.appended then stream + [w.batch[w.at].id] else stream, e.drain.value))
      && (e.appended ==> e.tried)
  {
  }

  lemma EnactKeepsStream(s: State, d: Drainer, id: Id, e: Effect)
    requires StreamOk(s) && id in s.rows && (e.row.published ==> id in s.stream) && (e.appended ==> e.tried)
    ensures StreamOk(Enact(s, d, id, e))
  {
    var t := Enact(s, d, id, e);
    assert t.rows.Keys == s.rows.Keys;
    if e.appended {
      assert multiset(t.stream) == multiset(s.stream) + multiset{id};
    }
  }

  lemma EnactKeepsDrains(s: State, d: Drainer, id: Id, e: Effect)
    requires DrainsOk(s) && id in s.rows
    requires e.drain.Some? ==> DrainOk(s.rows.Keys, if e.appended then s.stream + [id] else s.stream, e.drain.value)
    ensures DrainsOk(Enact(s, d, id, e))
  {
    var t := Enact(s, d, id, e);
    assert t.rows.Keys == s.rows.Keys;
    forall c | c in t.drains ensures DrainOk(t.rows.Keys, t.stream, t.drains[c]) {
      if c != d {
        assert DrainOk(s.rows.Keys, s.stream, s.drains[c]);
      }
    }
  }

  /** A drain step either ends a finished drain or enacts an effect. */
  lemma DrainStepIs(policy: Policy, s: State, a: Action)
    requires Apply(policy, s, a).Some? && DrainAction(a)
    ensures a.d in s.drains
    ensures var w := s.drains[a.d];
      if w.at >= |w.batch| then Apply(policy, s, a).value == s.(drains := s.drains - {a.d})
      else
        && w.batch[w.at].id in s.rows
        && EffectOf(policy, s.now, s.rows[w.batch[w.at].id], w, a).Some?
        && Apply(policy, s, a).value
           == Enact(s, a.d, w.batch[w.at].id, EffectOf(policy, s.now, s.rows[w.batch[w.at].id], w, a).value)
  {
  }

  ghost predicate GoodEffect(s: State, id: Id, e: Effect) {
    && id in s.rows && (e.row.published ==> id in s.stream) && (e.appended ==> e.tried)
    && (e.drain.Some? ==> DrainOk(s.rows.Keys, if e.appended then s.stream + [id] else s.stream, e.drain.value))
  }

  lemma EffectIsGood(policy: Policy, s: State, a: Action, w: Drain, id: Id, e: Effect)
    requires StreamOk(s) && DrainOk(s.rows.Keys, s.stream, w) && DrainAction(a) && w.at < |w.batch|
    requires id == w.batch[w.at].id && id in s.rows && EffectOf(policy, s.now, s.rows[id], w, a) == Some(e)
    ensures GoodEffect(s, id, e)
  {
    EffectKeepsDrain(policy, s.now, s.rows[id], w, a, s.rows.Keys, s.stream);
  }

  lemma EnactKeepsSafe(s: State, d: Drainer, id: Id, e: Effect)
    requires Safe(s) && GoodEffect(s, id, e)
    ensures Safe(Enact(s, d, id, e))
  {
    EnactKeepsStream(s, d, id, e);
    EnactKeepsDrains(s, d, id, e);
    assert Enact(s, d, id, e).rows.Keys == s.rows.Keys;
  }

  lemma DrainStepKeepsSafe(policy: Policy, s: State, a: Action)
    requires Safe(s) && DrainAction(a) && a.d in s.drains && ApplyDrain(policy, s, a, s.drains[a.d]).Some?
    ensures Safe(ApplyDrain(policy, s, a, s.drains[a.d]).value)
  {
    DrainStepIs(policy, s, a);
    var w := s.drains[a.d];
    if w.at < |w.batch| {
      var id := w.batch[w.at].id;
      var e := EffectOf(policy, s.now, s.rows[id], w, a).value;
      EffectIsGood(policy, s, a, w, id, e);
      EnactKeepsSafe(s, a.d, id, e);
    }
  }

  lemma TableStepKeepsSafe(policy: Policy, s: State, a: Action)
    requires Safe(s) && Apply(policy, s, a).Some? && !DrainAction(a)
    ensures Safe(Apply(policy, s, a).value)
  {
    var t := Apply(policy, s, a).value;
    assert s.rows.Keys <= t.rows.Keys && t.stream == s.stream;
    forall d | d in t.drains ensures DrainOk(t.rows.Keys, t.stream, t.drains[d]) {
      if d in s.drains {
        assert DrainOk(s.rows.Keys, s.stream, s.drains[d]);
      }
    }
  }

  lemma {:induction false} ReachableSafe(policy: Policy, actions: seq<Action>)
    requires Run(policy, actions).Some?
    ensures Safe(Run(policy, actions).value)
  {
    if actions != [] {
      var n := |actions| - 1;
      ReachableSafe(policy, actions[..n]);
      if DrainAction(actions[n]) {
        DrainStepKeepsSafe(policy, Run(policy, actions[..n]).value, actions[n]);
      } else {
        TableStepKeepsSafe(policy, Run(policy, actions[..n]).value, actions[n]);
      }
    }
  }

  /** With any number of drainers: nothing is appended that was not committed
      (so nothing of a rolled-back or open transaction), and a row marked
      published was appended. */
  lemma AppendsOnlyCommitted(policy: Policy, actions: seq<Action>)
    requires Run(policy, actions).Some?
    ensures var s := Run(policy, actions).value;
      && (forall id :: id in s.stream ==> id in s.rows)
      && (forall id :: id in s.rows && s.rows[id].published ==> id in s.stream)
      && (forall t, id :: t in s.staged && id in s.staged[t] ==> id !in s.stream)
  {
    ReachableSafe(policy, actions);
  }

  /** What a drain returns sums to its batch size. */
  lemma CountsSumToBatch(policy: Policy, actions: seq<Action>, d: Drainer)
    requires Run(policy, actions).Some? && d in Run(policy, actions).value.drains
    requires Run(policy, actions).value.drains[d].at == |Run(policy, actions).value.drains[d].batch|
    ensures var w := Run(policy, actions).value.drains[d];
      w.counts.published + w.counts.retried + w.counts.deadLettered == |w.batch|
  {
    ReachableSafe(policy, actions);
    var s := Run(policy, actions).value;
    assert DrainOk(s.rows.Keys, s.stream, s.drains[d]);
  }

  // ----- one drainer at a time -----

  /** The number of attempts a row gets. */
  function Limit(policy: Policy): nat {
    Max(1, policy.maxRetries)
  }

  function Flag(b: bool): nat {
    if b then 1 else 0
  }

  /** The drain has an attempt on `id` in progress. */
  predicate BusyOn(w: Drain, id: Id) {
    w.at < |w.batch| && w.batch[w.at].id == id && !w.stage.Ready?
  }

  ghost predicate Busy(s: State, id: Id) {
    exists d :: d in s.drains && BusyOn(s.drains[d], id)
  }

  /** Every attempt on a row is accounted for: recorded as a failure, confirmed
      by the published mark, lost, or still in progress. */
  ghost predicate Balanced(policy: Policy, row: Row, attempts: nat, marked: bool, lost: nat, busy: bool) {
    && attempts == row.retries + Flag(marked) + lost + Flag(busy)
    && (marked ==> row.published && !row.dead && !busy)
    && (if row.dead then row.retries == Limit(policy) && !busy else row.retries < Limit(policy))
  }

  ghost predicate Accounted(policy: Policy, s: State, id: Id)
    requires id in s.rows
  {
    Balanced(policy, s.rows[id], Count(s.attempts, id), id in s.marked, Count(s.lost, id), Busy(s, id))
  }

  /** A row still to be done is as the drain read it. */
  ghost predicate PickOk(rows: map<Id, Row>, marked: set<Id>, pick: Pick, started: bool) {
    && pick.id in rows && rows[pick.id].retries == pick.retries && !rows[pick.id].dead && pick.id !in marked
    && (!started ==> !rows[pick.id].published)
  }

  ghost predicate PicksOk(rows: map<Id, Row>, marked: set<Id>, w: Drain) {
    && (forall i, j :: 0 <= i < j < |w.batch| ==> w.batch[i].id != w.batch[j].id)
    && (forall i :: w.at <= i < |w.batch| ==> PickOk(rows, marked, w.batch[i], i == w.at && w.stage.Failing?))
  }

  ghost predicate Alone(policy: Policy, s: State) {
    && (forall d, e :: d in s.drains && e in s.drains ==> d == e)
    && (forall d :: d in s.drains ==> PicksOk(s.rows, s.marked, s.drains[d]))
    && (forall id :: id in s.rows ==> Accounted(policy, s, id))
    && (forall id :: id in s.attempts || id in s.lost || id in s.marked ==> id in s.rows)
  }

  /** What a step on row `row` must do for that row to stay balanced, and for
      the rest of the batch to stay as it was read. */
  ghost predicate FairEffect(policy: Policy, row: Row, w: Drain, e: Effect, attempts: nat, lost: nat) {
    var stays := e.drain.Some? && e.drain.value.at == w.at;
    && Balanced(policy, e.row, attempts + Flag(e.tried), e.marked, lost + Flag(e.lost),
                stays && !e.drain.value.stage.Ready?)
    && (stays ==> e.row.retries == row.retries && !e.row.dead && !e.marked)
    && (stays && !e.drain.value.stage.Failing? ==> !e.row.published)
    && (e.drain.Some? ==> e.drain.value.batch == w.batch && w.at <= e.drain.value.at <= w.at + 1)
    && (e.drain.Some? && !stays ==> e.drain.value.stage.Ready?)
  }

  lemma EffectIsFair(policy: Policy, now: real, row: Row, w: Drain, a: Action, attempts: nat, lost: nat)
    requires DrainAction(a) && w.at < |w.batch| && EffectOf(policy, now, row, w, a).Some?
    requires w.batch[w.at].retries == row.retries && !row.dead
    requires Balanced(policy, row, attempts, false, lost, !w.stage.Ready?)
    requires !w.stage.Failing? ==> !row.published
    ensures FairEffect(policy, row, w, EffectOf(policy, now, row, w, a).value, attempts, lost)
  {
  }

  lemma EnactKeepsPicks(policy: Policy, s: State, d: Drainer, id: Id, e: Effect, w: Drain)
    requires w.at < |w.batch| && w.batch[w.at].id == id && PicksOk(s.rows, s.marked, w)
    requires e.drain.Some? && e.drain.value.batch == w.batch && w.at <= e.drain.value.at <= w.at + 1
    requires e.drain.value.at > w.at ==> e.drain.value.stage.Ready?
    requires e.drain.value.at == w.at ==>
               && e.row.retries == w.batch[w.at].retries && !e.row.dead && !e.marked
               && (!e.drain.value.stage.Failing? ==> !e.row.published)
    ensures PicksOk(Enact(s, d, id, e).rows, Enact(s, d, id, e).marked, e.drain.value)
  {
    var t, w' := Enact(s, d, id, e), e.drain.value;
    forall i | w'.at <= i < |w'.batch| ensures PickOk(t.rows, t.marked, w'.batch[i], i == w'.at && w'.stage.Failing?) {
      assert PickOk(s.rows, s.marked, w.batch[i], i == w.at && w.stage.Failing?);
      if i > w.at {
        assert w.batch[i].id != id;
      }
    }
  }

  /** With one drain, only the row it works on can be busy. */
  lemma BusyIsCurrent(s: State, d: Drainer, id: Id)
    requires d in s.drains && forall c :: c in s.drains ==> c == d
    ensures Busy(s, id) <==> BusyOn(s.drains[d], id)
  {
  }

  lemma NoDrainNoBusy(s: State, id: Id)
    requires forall c :: c !in s.drains
    ensures !Busy(s, id)
  {
  }

  lemma EnactKeepsAccount(policy: Policy, s: State, d: Drainer, id: Id, e: Effect, q: Id)
    requires d in s.drains && (forall c :: c in s.drains ==> c == d)
    requires s.drains[d].at < |s.drains[d].batch| && id == s.drains[d].batch[s.drains[d].at].id && id in s.rows
    requires FairEffect(policy, s.rows[id], s.drains[d], e, Count(s.attempts, id), Count(s.lost, id))
    requires id !in s.marked && q in s.rows && Accounted(policy, s, q)
    ensures Accounted(policy, Enact(s, d, id, e), q)
  {
    var t := Enact(s, d, id, e);
    BusyIsCurrent(s, d, q);
    if e.drain.Some? {
      BusyIsCurrent(t, d, q);
      NotBusyElsewhere(s.drains[d], e.drain.value, q);
    } else {
      NoDrainNoBusy(t, q);
    }
  }

  lemma EnactKeepsAlone(policy: Policy, s: State, d: Drainer, id: Id, e: Effect)
    requires Alone(policy, s) && d in s.drains && s.drains[d].at < |s.drains[d].batch|
    requires id == s.drains[d].batch[s.drains[d].at].id && id in s.rows && id !in s.marked
    requires s.drains[d].batch[s.drains[d].at].retries == s.rows[id].retries
    requires FairEffect(policy, s.rows[id], s.drains[d], e, Count(s.attempts, id), Count(s.lost, id))
    ensures Alone(policy, Enact(s, d, id, e))
  {
    var t, w := Enact(s, d, id, e), s.drains[d];
    assert PicksOk(s.rows, s.marked, w);
    if e.drain.Some? {
      EnactKeepsPicks(policy, s, d, id, e, w);
    }
    assert t.rows.Keys == s.rows.Keys;
    forall q | q in t.rows ensures Accounted(policy, t, q) {
      EnactKeepsAccount(policy, s, d, id, e, q);
    }
  }

  /** A drain that moved on is not busy; one that stayed is busy on its row only. */
  lemma NotBusyElsewhere(w: Drain, w': Drain, q: Id)
    requires w.at < |w.batch| && w'.batch == w.batch && w.at <= w'.at <= w.at + 1 && (w'.at > w.at ==> w'.stage.Ready?)
    ensures q != w.batch[w.at].id ==> !BusyOn(w', q) && !BusyOn(w, q)
    ensures BusyOn(w', w.batch[w.at].id) ==> w'.at == w.at
  {
  }

  lemma EndKeepsAlone(policy: Policy, s: State, d: Drainer)
    requires Alone(policy, s) && d in s.drains && s.drains[d].at >= |s.drains[d].batch|
    ensures Alone(policy, s.(drains := s.drains - {d}))
  {
    var t := s.(drains := s.drains - {d});
    forall id | id in t.rows ensures Accounted(policy, t, id) {
      assert Accounted(policy, s, id);
      BusyIsCurrent(s, d, id);
      NoDrainNoBusy(t, id);
    }
  }

  lemma DrainStepKeepsAlone(policy: Policy, s: State, a: Action)
    requires Alone(policy, s) && Apply(policy, s, a).Some? && DrainAction(a)
    ensures Alone(policy, Apply(policy, s, a).value)
  {
    DrainStepIs(policy, s, a);
    var w := s.drains[a.d];
    if w.at < |w.batch| {
      var id := w.batch[w.at].id;
      assert PicksOk(s.rows, s.marked, w);
      assert PickOk(s.rows, s.marked, w.batch[w.at], w.stage.Failing?);
      assert Accounted(policy, s, id);
      BusyIsCurrent(s, a.d, id);
      EffectIsFair(policy, s.now, s.rows[id], w, a, Count(s.attempts, id), Count(s.lost, id));
      EnactKeepsAlone(policy, s, a.d, id, EffectOf(policy, s.now, s.rows[id], w, a).value);
    } else {
      EndKeepsAlone(policy, s, a.d);
    }
  }

  /** New rows start with no attempt. */
  lemma GrowKeepsAlone(policy: Policy, s: State, t: State)
    requires Alone(policy, s) && DrainsOk(s)
    requires t.drains == s.drains && t.attempts == s.attempts && t.lost == s.lost && t.marked == s.marked
    requires forall id :: id in s.rows ==> id in t.rows && t.rows[id] == s.rows[id]
    requires forall id :: id in t.rows && id !in s.rows ==> !t.rows[id].dead && t.rows[id].retries == 0
    ensures Alone(policy, t)
  {
    forall d | d in t.drains ensures PicksOk(t.rows, t.marked, t.drains[d]) {
      var w := s.drains[d];
      assert PicksOk(s.rows, s.marked, w);
      forall i | w.at <= i < |w.batch| ensures PickOk(t.rows, t.marked, w.batch[i], i == w.at && w.stage.Failing?) {
        assert PickOk(s.rows, s.marked, w.batch[i], i == w.at && w.stage.Failing?);
      }
    }
    forall id | id in t.rows ensures Accounted(policy, t, id) {
      if id in s.rows {
        assert Accounted(policy, s, id);
        assert Busy(t, id) <==> Busy(s, id);
      } else {
        assert forall d :: d in s.drains ==> DrainOk(s.rows.Keys, s.stream, s.drains[d]);
        assert !Busy(t, id);
      }
    }
  }

  lemma SelectKeepsAlone(policy: Policy, s: State, d: Drainer, w: Drain)
    requires Alone(policy, s) && s.drains == map[] && w.at == 0 && w.stage.Ready?
    requires forall i, j :: 0 <= i < j < |w.batch| ==> w.batch[i].id != w.batch[j].id
    requires forall i :: 0 <= i < |w.batch| ==> w.batch[i].id in s.rows && Due(s.rows[w.batch[i].id], s.now)
    requires forall i :: 0 <= i < |w.batch| ==> w.batch[i].retries == s.rows[w.batch[i].id].retries
    ensures Alone(policy, s.(drains := map[d := w]))
  {
    var t := s.(drains := map[d := w]);
    forall i | 0 <= i < |w.batch| ensures PickOk(t.rows, t.marked, w.batch[i], false) {
      assert Accounted(policy, s, w.batch[i].id);
    }
    forall id | id in t.rows ensures Accounted(policy, t, id) {
      assert Accounted(policy, s, id);
      NoDrainNoBusy(s, id);
      BusyIsCurrent(t, d, id);
    }
  }

  lemma TableStepKeepsAlone(policy: Policy, s: State, a: Action)
    requires Safe(s) && Alone(policy, s) && Apply(policy, s, a).Some? && !DrainAction(a)
    requires !Apply(policy, s, a).value.crowded
    ensures Alone(policy, Apply(policy, s, a).value)
  {
    var t := Apply(policy, s, a).value;
    if a.Select? {
      assert t.drains == map[a.d := t.drains[a.d]];
      SelectKeepsAlone(policy, s, a.d, t.drains[a.d]);
      assert Alone(policy, s.(drains := t.drains));
    } else {
      GrowKeepsAlone(policy, s, t);
    }
  }

  lemma CrowdedStays(policy: Policy, s: State, a: Action)
    requires Apply(policy, s, a).Some? && s.crowded
    ensures Apply(policy, s, a).value.crowded
  {
  }

  lemma {:induction false} ReachableAlone(policy: Policy, actions: seq<Action>)
    requires Run(policy, actions).Some? && !Run(policy, actions).value.crowded
    ensures Alone(policy, Run(policy, actions).value)
  {
    if actions != [] {
      var n := |actions| - 1;
      var s := Run(policy, actions[..n]).value;
      if s.crowded {
        CrowdedStays(policy, s, actions[n]);
      }
      ReachableSafe(policy, actions[..n]);
      ReachableAlone(policy, actions[..n]);
      if DrainAction(actions[n]) {
        DrainStepKeepsAlone(policy, s, actions[n]);
      } else {
        TableStepKeepsAlone(policy, s, actions[n]);
      }
    }
  }

  /** While drains never overlap, a row is appended at most max(1, maxRetries)
      times more than attempts on it were lost to crashes or failed updates, and
      is dead-lettered only after exactly that many recorded failures. */
  lemma SingleDrainerBound(policy: Policy, actions: seq<Action>, id: Id)
    requires Run(policy, actions).Some? && !Run(policy, actions).value.crowded
    requires id in Run(policy, actions).value.rows
    ensures var s := Run(policy, actions).value;
      && multiset(s.stream)[id] <= Count(s.attempts, id) <= Limit(policy) + Count(s.lost, id)
      && (s.rows[id].dead ==>
            s.rows[id].retries == Limit(policy) && Count(s.attempts, id) == Limit(policy) + Count(s.lost, id))
  {
    ReachableSafe(policy, actions);
    ReachableAlone(policy, actions);
    assert Accounted(policy, Run(policy, actions).value, id);
  }
}
