/** The outbox as its two callers' code sees it: the publisher's insert into an open
    transaction, and the drainer's loop over one selected batch, command by command
    while every other process keeps running. Each command is a step of the outbox
    protocol, so whatever holds in every run of the protocol holds of this code. */
module OutboxLoop {
  import opened Prelude
  import opened Outbox

  // ----- what becomes of an inserted row -----

  datatype Fate = Open | Committed | RolledBack

  /** The first commit or rollback decides. */
  function FateAfter(t: Txn, fate: Fate, a: Action): Fate {
    if !fate.Open? then fate
    else if a == Commit(t) then Committed else if a == Rollback(t) then RolledBack else Open
  }

  /** How transaction `t` ends in a list of actions. */
  ghost function FateOf(t: Txn, actions: seq<Action>): Fate {
    if actions == [] then Open
    else FateAfter(t, FateOf(t, actions[..|actions| - 1]), actions[|actions| - 1])
  }

  ghost predicate FateShows(s: State, t: Txn, id: Id, fate: Fate) {
    match fate
    case Open => t in s.staged && id in s.staged[t] && id !in s.rows
    case Committed => id in s.rows
    case RolledBack => !Taken(s, id)
  }

  lemma DrainKeepsFate(policy: Policy, s: State, a: Action, t: Txn, id: Id, fate: Fate)
    requires Apply(policy, s, a).Some? && DrainAction(a) && FateShows(s, t, id, fate)
    ensures FateShows(Apply(policy, s, a).value, t, id, fate)
  {
    DrainKeepsTables(policy, s, a, id);
  }

  lemma DrainKeepsTables(policy: Policy, s: State, a: Action, id: Id)
    requires Apply(policy, s, a).Some? && DrainAction(a)
    ensures Apply(policy, s, a).value.staged == s.staged
    ensures id in Apply(policy, s, a).value.rows <==> id in s.rows
  {
    DrainStepIs(policy, s, a);
  }

  lemma TableKeepsFate(policy: Policy, s: State, a: Action, t: Txn, id: Id, fate: Fate)
    requires Safe(s) && Apply(policy, s, a).Some? && !DrainAction(a) && FateShows(s, t, id, fate)
    requires !(a.Insert? && a.id == id)
    ensures FateShows(Apply(policy, s, a).value, t, id, FateAfter(t, fate, a))
  {
    var after := Apply(policy, s, a).value;
    if fate.RolledBack? {
      assert forall u :: u in after.staged && id in after.staged[u] ==> u in s.staged && id in s.staged[u];
    }
  }

  lemma {:induction false} FateFollows(policy: Policy, before: seq<Action>, t: Txn, id: Id, later: seq<Action>)
    requires Run(policy, before).Some? && RunFrom(policy, Run(policy, before).value, later).Some?
    requires FateShows(Run(policy, before).value, t, id, Open) && forall u :: Insert(u, id) !in later
    ensures Safe(RunFrom(policy, Run(policy, before).value, later).value)
    ensures FateShows(RunFrom(policy, Run(policy, before).value, later).value, t, id, FateOf(t, later))
  {
    ReachableSafe(policy, before);
    if later != [] {
      var n := |later| - 1;
      var s, a := RunFrom(policy, Run(policy, before).value, later[..n]).value, later[n];
      forall u ensures Insert(u, id) !in later[..n] {
        assert Insert(u, id) !in later;
      }
      FateFollows(policy, before, t, id, later[..n]);
      assert a in later;
      if DrainAction(a) {
        DrainKeepsFate(policy, s, a, t, id, FateOf(t, later[..n]));
        DrainStepKeepsSafe(policy, s, a);
      } else {
        TableKeepsFate(policy, s, a, t, id, FateOf(t, later[..n]));
        TableStepKeepsSafe(policy, s, a);
      }
    }
  }

  /** In every run, an event inserted in a transaction is a row exactly if that
      transaction commits: not while it is open, and never if it rolls back. Row ids
      are not reused. */
  lemma RowExactlyIfCommitted(policy: Policy, before: seq<Action>, t: Txn, id: Id, later: seq<Action>)
    requires Run(policy, before).Some? && Apply(policy, Run(policy, before).value, Insert(t, id)).Some?
    requires RunFrom(policy, Apply(policy, Run(policy, before).value, Insert(t, id)).value, later).Some?
    requires forall u :: Insert(u, id) !in later
    ensures var s := RunFrom(policy, Apply(policy, Run(policy, before).value, Insert(t, id)).value, later).value;
            && (id in s.rows <==> FateOf(t, later).Committed?)
            && (id in s.stream ==> FateOf(t, later).Committed?)
  {
    var inserted := before + [Insert(t, id)];
    assert inserted[..|before|] == before;
    FateFollows(policy, inserted, t, id, later);
  }

  // ----- one process in the whole system -----

  /** A step of another drainer, a transaction or the clock. */
  predicate Elsewhere(d: Drainer, a: Action) {
    !(DrainAction(a) && a.d == d)
  }

  lemma OtherLeavesDrain(policy: Policy, s: State, a: Action, d: Drainer)
    requires d in s.drains && Apply(policy, s, a).Some? && Elsewhere(d, a)
    ensures d in Apply(policy, s, a).value.drains && Apply(policy, s, a).value.drains[d] == s.drains[d]
  {
  }

  /** The commands a drain may issue at its stage. */
  predicate Enabled(stage: Stage, a: Action) {
    match a
    case Publish(_) => stage.Ready?
    case PublishFails(_, _) => stage.Ready?
    case Mark(_) => stage.Appended?
    case MarkFails(_, _) => stage.Appended?
    case Record(_) => stage.Failing?
    case RecordFails(_, _) => stage.Failing?
    case _ => false
  }

  /** The counts after one row's turn that ended in its mark, or in the record of
      its `n`-th failure: exactly one of the three rises, by one. */
  predicate OneMore(policy: Policy, before: Counts, after: Counts, failed: bool, n: nat) {
    && after.published == before.published + (if !failed then 1 else 0)
    && after.deadLettered == before.deadLettered + (if failed && n >= policy.maxRetries then 1 else 0)
    && after.retried == before.retried + (if failed && n < policy.maxRetries then 1 else 0)
  }

  /** What the turn leaves in the row. */
  predicate RowTurned(policy: Policy, row: Row, failed: bool, n: nat, now: real) {
    if !failed then row.published
    else if n >= policy.maxRetries then row.dead && row.retries == n
    else row.retries == n && row.nextAt == now + DelayFor(policy, n) as real
  }

  /** What becomes of a call: it answers, or it raises, executed or not. */
  datatype Answer = Fine | Raises(executed: bool)

  /** What goes wrong in one row's turn. */
  datatype Fault = Fault(publish: Answer, mark: Answer, record: Answer)

  predicate Fails(f: Fault) {
    f.publish.Raises? || f.mark.Raises?
  }

  /** The update that should record the failure raises too. */
  predicate Breaks(f: Fault) {
    Fails(f) && f.record.Raises?
  }

  /** Rows among the first `n` whose turn does not fail. */
  ghost function Successes(faults: seq<Fault>, n: nat): nat
    requires n <= |faults|
  {
    if n == 0 then 0 else Successes(faults, n - 1) + if Fails(faults[n - 1]) then 0 else 1
  }

  /** Rows among the first `n` whose turn fails and was the last they get. */
  ghost function LastFailures(policy: Policy, rows: map<Id, Row>, ids: seq<Id>, faults: seq<Fault>, n: nat): nat
    requires n <= |ids| == |faults|
  {
    if n == 0 then 0
    else
      var id := ids[n - 1];
      LastFailures(policy, rows, ids, faults, n - 1)
      + if Fails(faults[n - 1]) && id in rows && rows[id].retries + 1 >= policy.maxRetries then 1 else 0
  }

  /** The batch holds the selected rows, with their retry counts as selected. */
  ghost predicate Picked(rows: map<Id, Row>, ids: seq<Id>, batch: seq<Pick>) {
    |batch| == |ids| && forall k :: 0 <= k < |ids| ==> ids[k] in rows && batch[k] == Pick(ids[k], rows[ids[k]].retries)
  }

  /** What the first `n` rows' faults make of the counts, which sum to `n`. */
  ghost predicate Tallies(
      policy: Policy, rows: map<Id, Row>, ids: seq<Id>, faults: seq<Fault>, n: nat, counts: Counts)
    requires n <= |ids| == |faults|
  {
    && counts.published == Successes(faults, n) && counts.deadLettered == LastFailures(policy, rows, ids, faults, n)
    && counts.Sum() == n
  }

  lemma TalliesStep(
      policy: Policy, rows: map<Id, Row>, ids: seq<Id>, batch: seq<Pick>, faults: seq<Fault>, i: nat,
      before: Counts, after: Counts)
    requires i < |ids| == |faults| && Picked(rows, ids, batch) && Tallies(policy, rows, ids, faults, i, before)
    requires OneMore(policy, before, after, Fails(faults[i]), batch[i].retries + 1)
    ensures Tallies(policy, rows, ids, faults, i + 1, after)
  {
  }

  class Process {
    const policy: Policy
    const d: Drainer
    var s: State
    ghost var trace: seq<Action>

    constructor (policy: Policy, d: Drainer)
      ensures Valid() && this.policy == policy && this.d == d && s == INITIAL && trace == []
    {
      this.policy, this.d, this.s, trace := policy, d, INITIAL, [];
    }

    /** Everything that has happened is a run of the protocol. */
    ghost predicate Valid()
      reads this
    {
      Run(policy, trace) == Some(s)
    }

    ghost predicate Draining(w: Drain)
      reads this
    {
      d in s.drains && s.drains[d] == w
    }

    /** `DurableEventPublisher.publish`: raises outside a transaction and inserts
        nothing; inside one it makes exactly the protocol's insert, and no commit. */
    method Publish(t: Txn, id: Id) returns (raised: bool)
      requires Valid() && !Taken(s, id)
      modifies this
      ensures Valid() && (raised <==> t !in old(s.staged))
      ensures trace == if raised then old(trace) else old(trace) + [Insert(t, id)]
      ensures s.rows == old(s.rows) && s.stream == old(s.stream)
      ensures Taken(s, id) <==> !raised
    {
      if t !in s.staged {
        return true;
      }
      Take(Insert(t, id));
      assert t in s.staged && id in s.staged[t];
      return false;
    }

    /** One enabled step. */
    method Take(a: Action)
      requires Valid() && Apply(policy, s, a).Some?
      modifies this
      ensures Valid() && trace == old(trace) + [a] && Some(s) == Apply(policy, old(s), a)
    {
      assert (trace + [a])[..|trace|] == trace;
      s, trace := Apply(policy, s, a).value, trace + [a];
    }

    /** Everyone else makes any steps they can, and time passes. */
    method Elapse()
      requires Valid() && d in s.drains
      modifies this
      ensures Valid() && old(trace) <= trace && Draining(old(s.drains[d]))
    {
      var steps: int := *;
      while steps > 0
        invariant Valid() && old(trace) <= trace && Draining(old(s.drains[d]))
      {
        steps := steps - 1;
        var a: Action := *;
        if Elsewhere(d, a) && Apply(policy, s, a).Some? {
          OtherLeavesDrain(policy, s, a, d);
          Take(a);
        }
      }
    }

    /** Issues one command for the row in hand, after anything happening elsewhere. */
    method Issue(a: Action) returns (ghost row: Row)
      requires Valid() && d in s.drains && s.drains[d].at < |s.drains[d].batch|
      requires DrainAction(a) && a.d == d && Enabled(s.drains[d].stage, a)
      modifies this
      ensures Valid() && old(trace) <= trace && trace[|trace| - 1..] == [a]
      ensures var w := old(s.drains[d]);
              var e := EffectOf(policy, s.now, row, w, a);
              && e.Some? && w.batch[w.at].id in s.rows && s.rows[w.batch[w.at].id] == e.value.row
              && (if e.value.drain.Some? then Draining(e.value.drain.value) else d !in s.drains)
    {
      Elapse();
      ReachableSafe(policy, trace);
      assert DrainOk(s.rows.Keys, s.stream, s.drains[d]);
      row := s.rows[s.drains[d].batch[s.drains[d].at].id];
      Take(a);
    }

    /** One row's turn: publish and mark it, or record the failure. A record that
        raises ends the drain. */
    method DrainRow(f: Fault) returns (failed: bool, raised: bool)
      requires Valid() && d in s.drains && s.drains[d].at < |s.drains[d].batch| && s.drains[d].stage.Ready?
      modifies this
      ensures Valid() && old(trace) < trace
      ensures failed <==> f.publish.Raises? || f.mark.Raises?
      ensures raised <==> failed && f.record.Raises?
      ensures trace[|trace| - 1]
           == if !failed then Mark(d) else if !raised then Record(d) else RecordFails(d, f.record.executed)
      ensures raised <==> d !in s.drains
      ensures var w := old(s.drains[d]);
              !raised ==>
                && s.drains[d] == w.(at := w.at + 1, counts := s.drains[d].counts)
                && OneMore(policy, w.counts, s.drains[d].counts, failed, w.batch[w.at].retries + 1)
                && w.batch[w.at].id in s.rows
                && RowTurned(policy, s.rows[w.batch[w.at].id], failed, w.batch[w.at].retries + 1, s.now)
    {
      failed, raised := f.publish.Raises?, false;
      var _ := Issue(if failed then PublishFails(d, f.publish.executed) else Outbox.Publish(d));
      if !failed {
        failed := f.mark.Raises?;
        var _ := Issue(if failed then MarkFails(d, f.mark.executed) else Mark(d));
      }
      if failed {
        raised := f.record.Raises?;
        var _ := Issue(if raised then RecordFails(d, f.record.executed) else Record(d));
      }
    }

    method SelectDue(ids: seq<Id>)
      requires Valid() && Apply(policy, s, Select(d, ids)).Some?
      modifies this
      ensures Valid() && old(trace) <= trace && d in s.drains
      ensures Draining(Drain(s.drains[d].batch, 0, Ready, Counts(0, 0, 0)))
      ensures Picked(old(s.rows), ids, s.drains[d].batch)
    {
      Take(Select(d, ids));
    }

    method EndDrain()
      requires Valid() && d in s.drains && s.drains[d].at == |s.drains[d].batch|
      modifies this
      ensures Valid() && old(trace) <= trace && d !in s.drains
    {
      Take(Return(d));
    }

    /** `drain_outbox` on the rows `ids` that the select returned, any distinct rows
        that are due. Each gets its turn, until an update raises and ends the drain;
        the counters are what the faults make of the rows, and sum to the batch size.
        The whole call, with everything that happened meanwhile, is a run of the
        protocol. */
    method DrainOutbox(ids: seq<Id>, faults: seq<Fault>) returns (counts: Counts, raised: bool)
      requires Valid() && Apply(policy, s, Select(d, ids)).Some? && |faults| == |ids|
      modifies this
      ensures Valid() && old(trace) <= trace && d !in s.drains
      ensures raised <==> exists k :: 0 <= k < |ids| && Breaks(faults[k])
      ensures !raised ==> Tallies(policy, old(s.rows), ids, faults, |ids|, counts)
    {
      ghost var rows := s.rows;
      SelectDue(ids);
      counts, raised := DrainBatch(ids, faults, rows, s.drains[d].batch);
      if !raised {
        EndDrain();
      }
    }

    /** The row loop. */
    method DrainBatch(ids: seq<Id>, faults: seq<Fault>, ghost rows: map<Id, Row>, ghost batch: seq<Pick>)
      returns (counts: Counts, raised: bool)
      requires Valid() && Draining(Drain(batch, 0, Ready, Counts(0, 0, 0))) && Picked(rows, ids, batch)
      requires |faults| == |ids|
      modifies this
      ensures Valid() && old(trace) <= trace
      ensures raised <==> exists k :: 0 <= k < |ids| && Breaks(faults[k])
      ensures if raised then d !in s.drains else Draining(Drain(batch, |ids|, Ready, counts))
      ensures !raised ==> Tallies(policy, rows, ids, faults, |ids|, counts)
    {
      counts, raised := Counts(0, 0, 0), false;
      for i := 0 to |ids|
        invariant Valid() && old(trace) <= trace && !raised
        invariant Draining(Drain(batch, i, Ready, counts)) && Tallies(policy, rows, ids, faults, i, counts)
        invariant forall k :: 0 <= k < i ==> !Breaks(faults[k])
      {
        ghost var before := counts;
        counts, raised := CountRow(counts, i, batch, faults[i]);
        if raised {
          return;
        }
        TalliesStep(policy, rows, ids, batch, faults, i, before, counts);
      }
    }

    /** One row's turn and the code's counter for it. */
    method CountRow(counts: Counts, i: nat, ghost batch: seq<Pick>, f: Fault) returns (after: Counts, raised: bool)
      requires Valid() && i < |batch| && Draining(Drain(batch, i, Ready, counts))
      modifies this
      ensures Valid() && old(trace) <= trace && (raised <==> Breaks(f))
      ensures if raised then d !in s.drains
              else Draining(Drain(batch, i + 1, Ready, after))
                   && OneMore(policy, counts, after, Fails(f), batch[i].retries + 1)
    {
      var nextCount := s.drains[d].batch[i].retries + 1;
      var failed;
      failed, raised := DrainRow(f);
      if raised {
        return counts, true;
      }
      if !failed {
        after := counts.(published := counts.published + 1);
      } else if nextCount >= policy.maxRetries {
        after := counts.(deadLettered := counts.deadLettered + 1);
      } else {
        after := counts.(retried := counts.retried + 1);
      }
    }
  }
}
