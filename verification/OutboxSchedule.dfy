/** When an outbox row is tried again, read off the steps of a run: not before its
    backoff is over, and from then on until it is published or dead. */
module OutboxSchedule {
  import opened Prelude
  import opened Outbox

  /** The delay is the power or the cap, whichever is smaller. */
  lemma DelayIsMinimum(policy: Policy, n: nat)
    ensures DelayFor(policy, n) <= Power(policy.backoffBase, n) && DelayFor(policy, n) <= policy.maxBackoff
    ensures DelayFor(policy, n) == Power(policy.backoffBase, n) || DelayFor(policy, n) == policy.maxBackoff
  {
  }

  function Smaller(a: int, b: int): int {
    if a <= b then a else b
  }

  /** min(base^n, cap) seconds from `now`. */
  function Backoff(policy: Policy, now: real, n: nat): real {
    now + Smaller(Power(policy.backoffBase, n), policy.maxBackoff) as real
  }

  /** Action `a` records a failure of row `id` in the table, as its `n`-th. */
  ghost predicate Records(s: State, a: Action, id: Id, n: nat) {
    && (a.Record? || (a.RecordFails? && a.committed)) && a.d in s.drains && s.drains[a.d].at < |s.drains[a.d].batch|
    && s.drains[a.d].batch[s.drains[a.d].at].id == id && s.drains[a.d].batch[s.drains[a.d].at].retries + 1 == n
  }

  /** The failure number a recording action gives row `id`, if it is one. */
  ghost function Recorded(s: State, a: Action, id: Id): (n: Option<nat>)
    ensures n.Some? ==> Records(s, a, id, n.value)
    ensures n.None? ==> forall k: nat :: !Records(s, a, id, k)
  {
    if exists k: nat :: Records(s, a, id, k) then
      var k: nat :| Records(s, a, id, k);
      Some(k)
    else None
  }

  /** The failure that set the row's time last: when it was recorded, and as which. */
  ghost function LastFailure(policy: Policy, actions: seq<Action>, id: Id): Option<(real, nat)>
    requires Run(policy, actions).Some?
  {
    if actions == [] then None
    else
      var prefix, a := actions[..|actions| - 1], actions[|actions| - 1];
      var s := Run(policy, prefix).value;
      var n := Recorded(s, a, id);
      if n.Some? && n.value < policy.maxRetries then Some((s.now, n.value)) else LastFailure(policy, prefix, id)
  }

  /** When the row was committed. */
  ghost function CommittedAt(policy: Policy, actions: seq<Action>, id: Id): Option<real>
    requires Run(policy, actions).Some?
  {
    if actions == [] then None
    else
      var prefix, a := actions[..|actions| - 1], actions[|actions| - 1];
      var s := Run(policy, prefix).value;
      if a.Commit? && a.t in s.staged && id in s.staged[a.t] then Some(s.now) else CommittedAt(policy, prefix, id)
  }

  /** When the row may be tried: once the backoff of its last failure is over, or from
      its commit on. */
  ghost function DueAt(policy: Policy, actions: seq<Action>, id: Id): Option<real>
    requires Run(policy, actions).Some?
  {
    var failure := LastFailure(policy, actions, id);
    if failure.Some? then Some(Backoff(policy, failure.value.0, failure.value.1)) else CommittedAt(policy, actions, id)
  }

  // ----- the row's time -----

  lemma EffectTime(policy: Policy, now: real, row: Row, w: Drain, a: Action)
    requires DrainAction(a) && w.at < |w.batch| && EffectOf(policy, now, row, w, a).Some?
    ensures var n := w.batch[w.at].retries + 1;
            EffectOf(policy, now, row, w, a).value.row.nextAt
            == if (a.Record? || (a.RecordFails? && a.committed)) && n < policy.maxRetries
               then Backoff(policy, now, n) else row.nextAt
  {
  }

  /** The row's time after a step, given the failure it records. */
  function Retimed(policy: Policy, now: real, nextAt: real, n: Option<nat>): real {
    if n.Some? && n.value < policy.maxRetries then Backoff(policy, now, n.value) else nextAt
  }

  lemma DrainStepTime(policy: Policy, s: State, a: Action, id: Id)
    requires Apply(policy, s, a).Some? && DrainAction(a) && id in s.rows
    ensures id in Apply(policy, s, a).value.rows
    ensures Apply(policy, s, a).value.rows[id].nextAt == Retimed(policy, s.now, s.rows[id].nextAt, Recorded(s, a, id))
  {
    DrainStepIs(policy, s, a);
    RecordedIs(s, a, id);
    var w := s.drains[a.d];
    if w.at < |w.batch| {
      EffectTime(policy, s.now, s.rows[w.batch[w.at].id], w, a);
    }
  }

  lemma RecordedIs(s: State, a: Action, id: Id)
    requires DrainAction(a) && a.d in s.drains
    ensures var w := s.drains[a.d];
            Recorded(s, a, id)
            == if (a.Record? || (a.RecordFails? && a.committed)) && w.at < |w.batch| && w.batch[w.at].id == id
               then Some(w.batch[w.at].retries + 1) else None
  {
    var w := s.drains[a.d];
    if (a.Record? || (a.RecordFails? && a.committed)) && w.at < |w.batch| && w.batch[w.at].id == id {
      assert Records(s, a, id, w.batch[w.at].retries + 1);
    }
  }

  lemma TableStepTime(policy: Policy, s: State, a: Action, id: Id)
    requires Safe(s) && Apply(policy, s, a).Some? && !DrainAction(a) && id in Apply(policy, s, a).value.rows
    ensures if a.Commit? && a.t in s.staged && id in s.staged[a.t]
            then id !in s.rows && Apply(policy, s, a).value.rows[id].nextAt == s.now
            else id in s.rows && Apply(policy, s, a).value.rows[id] == s.rows[id]
  {
  }

  lemma RowsComeFromCommits(policy: Policy, s: State, a: Action, id: Id)
    requires Apply(policy, s, a).Some? && DrainAction(a)
    ensures id in s.rows <==> id in Apply(policy, s, a).value.rows
  {
    DrainStepIs(policy, s, a);
  }

  lemma RecordsAreDrains(s: State, a: Action, id: Id)
    requires !DrainAction(a) || (DrainsOk(s) && id !in s.rows)
    ensures Recorded(s, a, id).None?
  {
    if DrainAction(a) && a.d in s.drains {
      assert DrainOk(s.rows.Keys, s.stream, s.drains[a.d]);
    }
  }

  /** In every run, a row's stored time is the one its history gives. */
  lemma {:induction false} TimeIsExact(policy: Policy, actions: seq<Action>, id: Id)
    requires Run(policy, actions).Some?
    ensures id in Run(policy, actions).value.rows ==>
              DueAt(policy, actions, id) == Some(Run(policy, actions).value.rows[id].nextAt)
    ensures id !in Run(policy, actions).value.rows ==> LastFailure(policy, actions, id).None?
  {
    if actions != [] {
      var n := |actions| - 1;
      var s, a := Run(policy, actions[..n]).value, actions[n];
      ReachableSafe(policy, actions[..n]);
      TimeIsExact(policy, actions[..n], id);
      if DrainAction(a) {
        RowsComeFromCommits(policy, s, a, id);
        if id in s.rows {
          DrainStepTime(policy, s, a, id);
        } else {
          RecordsAreDrains(s, a, id);
        }
      } else {
        RecordsAreDrains(s, a, id);
        if id in Apply(policy, s, a).value.rows {
          TableStepTime(policy, s, a, id);
        } else {
          RowsStay(policy, s, a, id);
        }
      }
    }
  }

  /** A row is never removed. */
  lemma RowsStay(policy: Policy, s: State, a: Action, id: Id)
    requires Apply(policy, s, a).Some? && !DrainAction(a)
    ensures id in s.rows ==> id in Apply(policy, s, a).value.rows
  {
  }

  // ----- which rows are selected -----

  lemma SelectOne(policy: Policy, s: State, d: Drainer, id: Id)
    requires id in s.rows && d !in s.drains
    ensures Apply(policy, s, Select(d, [id])).Some?
       <==> !s.rows[id].published && !s.rows[id].dead && s.rows[id].nextAt <= s.now
  {
    assert [id][0] == id;
  }

  /** In every run, a free drainer can select a row exactly when it is neither
      published nor dead and its time has come. */
  lemma SelectableExactly(policy: Policy, actions: seq<Action>, d: Drainer, id: Id)
    requires Run(policy, actions).Some?
    requires id in Run(policy, actions).value.rows && d !in Run(policy, actions).value.drains
    ensures DueAt(policy, actions, id).Some?
    ensures var s := Run(policy, actions).value;
            Apply(policy, s, Select(d, [id])).Some? <==>
              !s.rows[id].published && !s.rows[id].dead && DueAt(policy, actions, id).value <= s.now
  {
    TimeIsExact(policy, actions, id);
    SelectOne(policy, Run(policy, actions).value, d, id);
  }

  /** Whatever the batch, no selected row is published, dead or before its time. */
  lemma SelectedAreDue(policy: Policy, actions: seq<Action>, d: Drainer, ids: seq<Id>, id: Id)
    requires Run(policy, actions).Some? && Apply(policy, Run(policy, actions).value, Select(d, ids)).Some? && id in ids
    ensures var s := Run(policy, actions).value;
            && id in s.rows && !s.rows[id].published && !s.rows[id].dead
            && DueAt(policy, actions, id).Some? && DueAt(policy, actions, id).value <= s.now
  {
    var i :| 0 <= i < |ids| && ids[i] == id;
    TimeIsExact(policy, actions, id);
  }

  /** After the last failure that set its time, recorded at T as the row's n-th, no
      batch takes the row before T + min(base^n, cap). */
  lemma BackoffIsKept(policy: Policy, actions: seq<Action>, d: Drainer, ids: seq<Id>, id: Id)
    requires Run(policy, actions).Some? && LastFailure(policy, actions, id).Some?
    requires Apply(policy, Run(policy, actions).value, Select(d, ids)).Some? && id in ids
    ensures var failure := LastFailure(policy, actions, id).value;
            Run(policy, actions).value.now
            >= failure.0 + Smaller(Power(policy.backoffBase, failure.1), policy.maxBackoff) as real
  {
    SelectedAreDue(policy, actions, d, ids, id);
  }

  // ----- transactions, and commands whose answer is lost -----

  /** An open transaction can commit, which adds exactly its rows, unpublished and due
      at once, and can roll back, which adds nothing; either way it is over. */
  lemma TransactionsEnd(policy: Policy, s: State, t: Txn, id: Id)
    requires Safe(s) && t in s.staged
    ensures var committed, rolledBack := Apply(policy, s, Commit(t)), Apply(policy, s, Rollback(t));
            && committed.Some? && t !in committed.value.staged && rolledBack == Some(s.(staged := s.staged - {t}))
            && (id in s.staged[t] ==> id in committed.value.rows)
            && (id in s.staged[t] ==> committed.value.rows[id] == Row(false, false, 0, s.now))
            && (id !in s.staged[t] ==> (id in committed.value.rows <==> id in s.rows))
            && (id in s.rows ==> committed.value.rows[id] == s.rows[id])
  {
  }

  /** A publish, mark or record that raises after it took effect leaves stream and row
      as one that answers does; a record that did not take effect loses the attempt. */
  lemma LostAnswersStillAct(policy: Policy, now: real, row: Row, w: Drain, d: Drainer)
    requires w.at < |w.batch|
    ensures w.stage.Ready? ==>
              && EffectOf(policy, now, row, w, Publish(d)).Some?
              && EffectOf(policy, now, row, w, Publish(d)).value.appended
              && forall b :: EffectOf(policy, now, row, w, PublishFails(d, b)).Some?
                          && EffectOf(policy, now, row, w, PublishFails(d, b)).value.appended == b
    ensures w.stage.Appended? ==>
              && EffectOf(policy, now, row, w, Mark(d)).Some?
              && EffectOf(policy, now, row, w, Mark(d)).value.row.published
              && forall b :: EffectOf(policy, now, row, w, MarkFails(d, b)).Some?
                          && EffectOf(policy, now, row, w, MarkFails(d, b)).value.row
                             == row.(published := row.published || b)
    ensures w.stage.Failing? ==>
              var recorded := EffectOf(policy, now, row, w, Record(d));
              var lost := EffectOf(policy, now, row, w, RecordFails(d, true));
              var unsent := EffectOf(policy, now, row, w, RecordFails(d, false));
              && recorded.Some? && lost.Some? && unsent.Some? && lost.value.drain.None? && unsent.value.drain.None?
              && lost.value.row == recorded.value.row && !lost.value.lost
              && unsent.value.row == row && unsent.value.lost
  {
  }
}
