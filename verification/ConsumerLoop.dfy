/** The consumer's own control flow: one batch of messages, processed command by
    command while every other loop and process keeps running. Each command is
    shown to be a step of the consumer-group machine, so whatever holds in every
    run of the machine holds of this code. */
module ConsumerLoop {
  import opened Prelude
  import opened StreamConsumer
  import opened StreamSafety
  import opened StreamOutcomes
  import opened RetryRounds

  /** The commands a loop may issue next. */
  predicate Enabled(step: Step, act: Act) {
    match act
    case Parse => step.Idle?
    case AskSeen(_) => step.Checking?
    case HandlerReturns | HandlerRaises => step.Handling?
    case MarkSeen => step.Marking?
    case Increment | IncrementRaises(_) => step.Counting?
    case Expire | ExpireRaises(_) => step.Expiring?
    case WriteDlq | DlqRaises(_) => step.Malformed? || step.DeadLettering?
    case Clear => step.Clearing?
    case Ack | SkipAck => step.Acking?
    case CommandRaises(_) => step.Checking? || step.Marking? || step.Clearing? || step.Acking?
  }

  lemma EnabledExactly(maxRetries: int, v: View, w: Work, act: Act)
    requires w.queue != []
    ensures EffectOf(maxRetries, v, w, act).Some? <==> Enabled(w.step, act) && (act == AskSeen(true) ==> v.known)
  {
  }

  /** What becomes of a command: it answers, or it raises, executed or not. */
  datatype Fault = Fine | Raises(executed: bool)

  /** Everything about one message's pass that the environment decides. */
  datatype Faults = Faults(
    ask: Fault, remembers: bool, handlerRaises: bool, mark: Fault, increment: Fault, expire: Fault, dlq: Fault,
    clear: Fault, ack: Fault, connected: bool)

  predicate NoneRaises(f: Faults) {
    f.ask.Fine? && f.mark.Fine? && f.clear.Fine? && f.ack.Fine?
  }

  /** One of a process's two loops, and the whole system it lives in. */
  class Loop {
    const g: Group
    const t: Task
    var s: State
    ghost const start: State
    ghost var trace: seq<Action>
    ghost var skips: nat  // acks of this loop that were not sent

    constructor (g: Group, t: Task, s: State)
      requires IsRunning(s, t.name) && t in s.tasks
      ensures Valid() && this.g == g && this.t == t && this.s == s && start == s
    {
      this.g, this.t, this.s, start, trace, skips := g, t, s, s, [], 0;
    }

    /** Everything that has happened is a run of the machine. */
    ghost predicate Valid()
      reads this
    {
      RunFrom(g, start, trace) == Some(s)
    }

    ghost predicate At(queue: seq<Id>, step: Step)
      reads this
    {
      Busy(s, t, Work(queue, step))
    }

    ghost predicate Idling()
      reads this
    {
      IsRunning(s, t.name) && t in s.tasks && s.tasks[t] == Work([], Idle)
    }

    /** Every other loop and process makes any steps it can. */
    method Elapse()
      requires Valid() && t in s.tasks && At(s.tasks[t].queue, s.tasks[t].step)
      modifies this
      ensures old(trace) <= trace
      ensures Valid() && t in s.tasks && s.tasks[t] == old(s.tasks[t]) && old(s.processed) <= s.processed
      ensures skips == old(skips)
      ensures At(s.tasks[t].queue, s.tasks[t].step)
    {
      var steps: int := *;
      while steps > 0
        invariant old(trace) <= trace && Valid() && t in s.tasks && s.tasks[t] == old(s.tasks[t])
        invariant At(s.tasks[t].queue, s.tasks[t].step) && old(s.processed) <= s.processed && skips == old(skips)
      {
        steps := steps - 1;
        var a: Action := *;
        if Elsewhere(t, [a]) && Apply(g, s, a).Some? {
          assert a in [a];
          OthersLeaveLoop(g, s, a, t, s.tasks[t]);
          Take(a);
        }
      }
    }

    /** One enabled step. */
    method Take(a: Action)
      requires Valid() && Apply(g, s, a).Some?
      modifies this
      ensures Valid() && trace == old(trace) + [a] && Some(s) == Apply(g, old(s), a)
      ensures skips == old(skips) + if a == Process(t, SkipAck) then 1 else 0
    {
      assert (trace + [a])[..|trace|] == trace;
      s, trace := Apply(g, s, a).value, trace + [a];
      skips := skips + if a == Process(t, SkipAck) then 1 else 0;
    }

    /** Issues one command. `v` is what it found, and `count` the message's
        counter after it. */
    method Issue(act: Act) returns (count: nat, ghost v: View)
      requires Valid() && t in s.tasks && At(s.tasks[t].queue, s.tasks[t].step)
      requires Enabled(s.tasks[t].step, act) && act != AskSeen(true)
      modifies this
      ensures old(trace) < trace && trace[|trace| - 1] == Process(t, act)
      ensures skips == old(skips) + if act == SkipAck then 1 else 0
      ensures Valid() && IsRunning(s, t.name) && t in s.tasks
      ensures v.malformed == g.malformed(old(s.tasks[t].queue[0]))
      ensures v.handled == g.handles(t.name, old(s.tasks[t].queue[0]))
      ensures EffectOf(g.maxRetries, v, old(s.tasks[t]), act).Some?
      ensures s.tasks[t] == EffectOf(g.maxRetries, v, old(s.tasks[t]), act).value.work
      ensures act == Increment ==> count == v.count + 1
    {
      Elapse();
      var id := s.tasks[t].queue[0];
      v := ViewOf(g, s, t.name, id);
      EnabledExactly(g.maxRetries, v, s.tasks[t], act);
      ProcessIsEnact(g, s, t, act);
      Take(Process(t, act));
      count := Count(s.retries, id);
    }

    /** Asks the checker. It may forget, but never invents. */
    method IsProcessed(f: Faults) returns (seen: bool, raised: bool)
      requires Valid() && t in s.tasks && At(s.tasks[t].queue, Checking)
      modifies this
      ensures old(trace) <= trace && skips == old(skips)
      ensures Valid() && IsRunning(s, t.name) && t in s.tasks
      ensures raised <==> f.ask.Raises?
      ensures seen ==> f.remembers && !raised
      ensures !raised && f.remembers && g.event(old(s.tasks[t].queue[0])) in old(s.processed) ==> seen
      ensures raised ==> Idling()
      ensures !raised && seen ==> At(old(s.tasks[t].queue), Acking)
      ensures !raised && !seen ==>
                At(old(s.tasks[t].queue), if g.handles(t.name, old(s.tasks[t].queue[0])) then Handling else Acking)
    {
      seen, raised := false, f.ask.Raises?;
      if raised {
        var _, _ := Issue(CommandRaises(false));
        return;
      }
      Elapse();
      var id := s.tasks[t].queue[0];
      seen := f.remembers && g.event(id) in s.processed;
      if seen {
        EnabledExactly(g.maxRetries, ViewOf(g, s, t.name, id), s.tasks[t], AskSeen(true));
        ProcessIsEnact(g, s, t, AskSeen(true));
        Take(Process(t, AskSeen(true)));
      } else {
        var _, _ := Issue(AskSeen(false));
      }
    }

    /** A command that may raise, and may take effect before it does. */
    method Try(act: Act, fault: Fault) returns (raised: bool)
      requires Valid() && t in s.tasks && At(s.tasks[t].queue, s.tasks[t].step)
      requires act in {MarkSeen, Clear, Ack} && Enabled(s.tasks[t].step, act)
      modifies this
      ensures old(trace) <= trace && skips == old(skips)
      ensures Valid() && IsRunning(s, t.name) && t in s.tasks && (raised <==> fault.Raises?)
      ensures raised ==> Idling()
      ensures !raised ==>
                s.tasks[t] == if act == MarkSeen then Work(old(s.tasks[t].queue), Clearing)
                              else if act == Clear then Work(old(s.tasks[t].queue), Acking)
                              else Work(old(s.tasks[t].queue)[1..], Idle)
    {
      raised := fault.Raises?;
      var _, _ := Issue(if raised then CommandRaises(fault.executed) else act);
    }

    /** Moves the message to the dead-letter stream; a failure is only logged. */
    method MoveToDlq(fault: Fault)
      requires Valid() && t in s.tasks && At(s.tasks[t].queue, s.tasks[t].step)
      requires s.tasks[t].step.Malformed? || s.tasks[t].step.DeadLettering?
      modifies this
      ensures old(trace) < trace && skips == old(skips)
      ensures trace[|trace| - 1] == Process(t, if fault.Raises? then DlqRaises(fault.executed) else WriteDlq)
      ensures Valid() && At(old(s.tasks[t].queue), if old(s.tasks[t].step).Malformed? then Acking else Clearing)
    {
      var _, _ := Issue(if fault.Raises? then DlqRaises(fault.executed) else WriteDlq);
    }

    /** Counts the failure; a counter that cannot be reached counts as exhausted. */
    method CountFailure(f: Faults) returns (attempts: int)
      requires Valid() && t in s.tasks && At(s.tasks[t].queue, Counting)
      modifies this
      ensures old(trace) <= trace && skips == old(skips)
      ensures Valid() && IsRunning(s, t.name) && t in s.tasks
      ensures f.increment.Raises? || f.expire.Raises? ==> attempts == g.maxRetries
      ensures !f.increment.Raises? && !f.expire.Raises? ==> attempts >= 1
      ensures s.tasks[t] == if attempts >= g.maxRetries then Work(old(s.tasks[t].queue), DeadLettering)
                            else Work(old(s.tasks[t].queue)[1..], Idle)
    {
      if f.increment.Raises? {
        var _, _ := Issue(IncrementRaises(f.increment.executed));
        return g.maxRetries;
      }
      ghost var v;
      attempts, v := Issue(Increment);
      if f.expire.Raises? {
        var _, _ := Issue(ExpireRaises(f.expire.executed));
        return g.maxRetries;
      }
      var _, _ := Issue(Expire);
    }

    /** The failed handler: below the limit the message stays pending, at or above
        it is dead-lettered and to be acked. Only the clearing command can raise. */
    method HandleFailure(f: Faults) returns (shouldAck: bool, raised: bool)
      requires Valid() && t in s.tasks && At(s.tasks[t].queue, Counting)
      modifies this
      ensures old(trace) <= trace && skips == old(skips)
      ensures Valid() && IsRunning(s, t.name) && t in s.tasks
      ensures raised <==> shouldAck && f.clear.Raises?
      ensures f.increment.Raises? || f.expire.Raises? || g.maxRetries <= 1 ==> shouldAck
      ensures raised ==> Idling()
      ensures !raised && shouldAck ==> s.tasks[t] == Work(old(s.tasks[t].queue), Acking)
      ensures !raised && !shouldAck ==> s.tasks[t] == Work(old(s.tasks[t].queue)[1..], Idle)
    {
      var attempts := CountFailure(f);
      raised := false;
      if attempts >= g.maxRetries {
        MoveToDlq(f.dlq);
        raised := Try(Clear, f.clear);
        return true, raised;
      }
      return false, false;
    }

    /** The handler's call, and what follows its return or failure. */
    method RunHandler(f: Faults) returns (shouldAck: bool, raised: bool)
      requires Valid() && t in s.tasks && At(s.tasks[t].queue, Handling)
      modifies this
      ensures old(trace) <= trace && skips == old(skips)
      ensures Valid() && IsRunning(s, t.name) && t in s.tasks
      ensures if !f.handlerRaises then shouldAck && (raised <==> f.mark.Raises? || f.clear.Raises?)
              else raised <==> shouldAck && f.clear.Raises?
      ensures raised ==> Idling()
      ensures !raised && shouldAck ==> s.tasks[t] == Work(old(s.tasks[t].queue), Acking)
      ensures !raised && !shouldAck ==> s.tasks[t] == Work(old(s.tasks[t].queue)[1..], Idle)
    {
      if f.handlerRaises {
        var _, _ := Issue(HandlerRaises);
        shouldAck, raised := HandleFailure(f);
        return;
      }
      var _, _ := Issue(HandlerReturns);
      raised := Try(MarkSeen, f.mark);
      if !raised {
        raised := Try(Clear, f.clear);
      }
      return true, raised;
    }

    /** One message. What it answers is fixed by the message, by what the checker and
        the counter say, and by which commands raise. */
    method ProcessMessage(f: Faults) returns (shouldAck: bool, raised: bool)
      requires Valid() && t in s.tasks && At(s.tasks[t].queue, Idle)
      modifies this
      ensures old(trace) <= trace && skips == old(skips)
      ensures Valid() && IsRunning(s, t.name) && t in s.tasks
      ensures var id := old(s.tasks[t].queue[0]);
              && (g.malformed(id) ==> shouldAck && !raised)
              && (!g.malformed(id) && f.ask.Raises? ==> raised)
              && (!g.malformed(id) && !f.ask.Raises? && !g.handles(t.name, id) ==> shouldAck && !raised)
              && (!f.remembers && !g.malformed(id) && !f.ask.Raises? && g.handles(t.name, id) ==>
                    if !f.handlerRaises then shouldAck && (raised <==> f.mark.Raises? || f.clear.Raises?)
                    else raised <==> shouldAck && f.clear.Raises?)
      ensures raised ==> Idling()
      ensures !raised && shouldAck ==> s.tasks[t] == Work(old(s.tasks[t].queue), Acking)
      ensures !raised && !shouldAck ==> f.handlerRaises && s.tasks[t] == Work(old(s.tasks[t].queue)[1..], Idle)
      ensures NoneRaises(f) ==> !raised
    {
      var id := s.tasks[t].queue[0];
      var _, _ := Issue(Parse);
      if g.malformed(id) {
        MoveToDlq(f.dlq);
        return true, false;
      }
      var seen;
      seen, raised := IsProcessed(f);
      if raised || seen || !g.handles(t.name, id) {
        return true, raised;
      }
      shouldAck, raised := RunHandler(f);
    }

    /** Works through a batch, dropping the rest of it when a command raises. The
        whole turn, with everything that happened meanwhile, is a run of the
        machine, continuing the run so far, that ends with the loop idle again. */
    method ProcessBatch(faults: nat -> Faults) returns (done: nat, raised: bool)
      requires Valid() && IsRunning(s, t.name) && t in s.tasks && s.tasks[t].step.Idle?
      modifies this
      ensures old(trace) <= trace
      ensures Valid() && Idling()
      ensures !raised ==> done == |old(s.tasks[t].queue)|
      ensures (forall k: nat :: NoneRaises(faults(k))) ==> !raised
      ensures (forall k: nat :: faults(k).connected) ==> skips == old(skips)
    {
      done, raised := 0, false;
      while s.tasks[t].queue != [] && !raised
        invariant old(trace) <= trace
        invariant Valid() && IsRunning(s, t.name) && t in s.tasks && s.tasks[t].step.Idle?
        invariant if raised then s.tasks[t].queue == [] else done + |s.tasks[t].queue| == |old(s.tasks[t].queue)|
        invariant (forall k: nat :: NoneRaises(faults(k))) ==> !raised
        invariant (forall k: nat :: faults(k).connected) ==> skips == old(skips)
        decreases |s.tasks[t].queue|
      {
        var f, shouldAck := faults(done), false;
        shouldAck, raised := ProcessMessage(f);
        if !raised && shouldAck {
          if f.connected {
            raised := Try(Ack, f.ack);
          } else {
            var _, _ := Issue(SkipAck);
          }
        }
        done := done + 1;
      }
    }
  }
}
