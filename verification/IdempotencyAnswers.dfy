/** What the idempotency middleware keeps and what callers are told, read off the
    steps of a run: which responses are stored and for how long, what duplicates
    are sent, and when the key is free again. */
module IdempotencyAnswers {
  import opened Prelude
  import opened Idempotency

  /** A response of an executed request, small enough to keep. */
  ghost predicate Kept(cfg: Settings, response: Response) {
    && response.status < 500 && response.status != 401 && response.status != 403 && response.status != 429
    && |response.body| <= cfg.maxResponseSize
  }

  // ----- what is stored -----

  /** A Completed cell holds some kept response. */
  ghost predicate Holds(cfg: Settings, cell: Cell, response: Response) {
    && Kept(cfg, response) && cell.Completed? && cell.status == response.status
    && cell.contentType == response.contentType && cell.text == cfg.decode(response.body)
  }

  ghost predicate CellOk(cfg: Settings, s: State) {
    s.cell.Some? && s.cell.value.Completed? ==> exists response :: Holds(cfg, s.cell.value, response)
  }

  lemma StepKeepsCell(cfg: Settings, s: State, a: Action)
    requires CellOk(cfg, s) && Apply(cfg, s, a).Some?
    ensures CellOk(cfg, Apply(cfg, s, a).value)
  {
    if a.Store? || a.StoreFails? {
      var t := Apply(cfg, s, a).value;
      if t.cell != s.cell {
        assert Holds(cfg, t.cell.value, s.requests[a.r].response);
      }
    }
  }

  /** In every run, whatever Redis holds as completed has a status below 500 other
      than 401, 403 and 429 and came with a body within the limit: errors that a
      retry could mend are never replayed. */
  lemma {:induction false} OnlyKeptIsHeld(cfg: Settings, actions: seq<Action>)
    requires Run(cfg, actions).Some?
    ensures CellOk(cfg, Run(cfg, actions).value)
  {
    if actions != [] {
      OnlyKeptIsHeld(cfg, actions[..|actions| - 1]);
      StepKeepsCell(cfg, Run(cfg, actions[..|actions| - 1]).value, actions[|actions| - 1]);
    }
  }

  /** The last answered store of a kept response, and when it was made. */
  ghost function LastStored(cfg: Settings, actions: seq<Action>): Option<(Response, real)>
    requires Run(cfg, actions).Some?
  {
    if actions == [] then None
    else
      var prefix, a := actions[..|actions| - 1], actions[|actions| - 1];
      var s := Run(cfg, prefix).value;
      if a.Store? && a.r in s.requests && s.requests[a.r].Finished? && Kept(cfg, s.requests[a.r].response)
      then Some((s.requests[a.r].response, s.now)) else LastStored(cfg, prefix)
  }

  lemma {:induction false} StoredIsLast(cfg: Settings, actions: seq<Action>)
    requires Run(cfg, actions).Some?
    ensures var last := LastStored(cfg, actions);
            Run(cfg, actions).value.stored == if last.None? then None else Some((last.value.0, last.value.1 + cfg.ttl))
  {
    if actions != [] {
      StoredIsLast(cfg, actions[..|actions| - 1]);
      StoreStep(cfg, Run(cfg, actions[..|actions| - 1]).value, actions[|actions| - 1]);
    }
  }

  lemma StoreStep(cfg: Settings, s: State, a: Action)
    requires Apply(cfg, s, a).Some?
    ensures Apply(cfg, s, a).value.stored
         == if a.Store? && a.r in s.requests && s.requests[a.r].Finished? && Kept(cfg, s.requests[a.r].response)
            then Some((s.requests[a.r].response, s.now + cfg.ttl)) else s.stored
  {
  }

  /** A kept response is what Redis holds once it is stored, for `cfg.ttl` seconds,
      and the caller gets the original. */
  lemma KeptIsStored(cfg: Settings, s: State, r: Request)
    requires r in s.requests && s.requests[r].Finished? && Kept(cfg, s.requests[r].response)
    ensures var response := s.requests[r].response;
            var after := Apply(cfg, s, Store(r));
            && after.Some? && after.value.requests[r] == Done(Original(response))
            && after.value.cell == Some(Completed(response.status, response.contentType, cfg.decode(response.body),
                                                  s.now + cfg.ttl))
  {
  }

  /** Any other response is not stored: the caller gets the original, the key is
      released, and the next request's claim runs the handler. */
  lemma OthersFreeTheKey(cfg: Settings, s: State, r: Request, q: Request)
    requires r in s.requests && s.requests[r].Finished? && !Kept(cfg, s.requests[r].response)
    requires q in s.requests && s.requests[q].Arrived?
    ensures var unstored := Apply(cfg, s, Store(r));
            && unstored.Some? && unstored.value.cell == s.cell
            && var released := Apply(cfg, unstored.value, Release(r));
               && released.Some? && released.value.requests[r] == Done(Original(s.requests[r].response))
               && Live(released.value).None?
               && var claimed := Apply(cfg, released.value, Claim(q));
                  claimed.Some? && claimed.value.requests[q] == Running(s.now)
  {
  }

  /** A handler that raises releases the key in the same way. */
  lemma RaisingFreesTheKey(cfg: Settings, s: State, r: Request, q: Request)
    requires r in s.requests && s.requests[r].Running? && q in s.requests && s.requests[q].Arrived?
    ensures var raised := Apply(cfg, s, HandlerRaises(r));
            && raised.Some?
            && var released := Apply(cfg, raised.value, Release(r));
               && released.Some? && released.value.requests[r] == Done(Errored)
               && var claimed := Apply(cfg, released.value, Claim(q));
                  claimed.Some? && claimed.value.requests[q] == Running(s.now)
  {
  }

  // ----- what duplicates are told -----

  /** For `cfg.ttl` seconds after a response was stored, a new request with the key
      does not run the handler, and what it is sent is the stored status, content
      type and (valid UTF-8) body. */
  lemma DuplicatesAreReplayed(cfg: Settings, actions: seq<Action>, r: Request)
    requires Run(cfg, actions).Some? && Undisturbed(cfg, Run(cfg, actions).value)
    requires r in Run(cfg, actions).value.requests && LastStored(cfg, actions).Some?
    requires Run(cfg, actions).value.now < LastStored(cfg, actions).value.1 + cfg.ttl
    ensures var s := Run(cfg, actions).value;
            var response := LastStored(cfg, actions).value.0;
            && (s.requests[r].Arrived? ==> Apply(cfg, s, Claim(r)) == Some(Put(s, r, Duplicate)))
            && (s.requests[r].Duplicate? && cfg.encode(cfg.decode(response.body)) == response.body
                ==> Apply(cfg, s, Look(r)) == Some(Put(s, r, Done(Replayed(response)))))
            && !InFlight(s.requests[r])
  {
    ReachableInv(cfg, actions);
    StoredIsLast(cfg, actions);
  }

  /** And afterwards it does: once that time is over, with no owner in flight and
      nothing stored or claimed without an answer, a new request runs the handler. */
  lemma LapsedResponseIsForgotten(cfg: Settings, s: State, r: Request)
    requires s.cell.Some? && s.cell.value.until <= s.now && r in s.requests && s.requests[r].Arrived?
    ensures var claimed := Apply(cfg, s, Claim(r));
            && claimed.Some? && claimed.value.requests[r] == Running(s.now)
            && claimed.value.cell == Some(Processing(s.now + 300.0))
  {
  }

  /** While an owner is at work, a duplicate gets a conflict and never the handler. */
  lemma DuplicatesConflict(cfg: Settings, actions: seq<Action>, r: Request, q: Request)
    requires Run(cfg, actions).Some?
    requires var s := Run(cfg, actions).value;
             && !s.overran && !s.lostStore && r in s.requests && InFlight(s.requests[r]) && q in s.requests
    ensures var s := Run(cfg, actions).value;
            && (s.requests[q].Arrived? ==> Apply(cfg, s, Claim(q)) == Some(Put(s, q, Duplicate)))
            && (s.requests[q].Duplicate? ==>
                  && Apply(cfg, s, Look(q)) == Some(Put(s, q, Done(Conflict)))
                  && Apply(cfg, s, LookFails(q)) == Some(Put(s, q, Done(Conflict))))
  {
    ReachableInv(cfg, actions);
    ReachableClaim(cfg, actions);
  }

  /** An owner's claim, while nothing went wrong, is the sentinel it set. */
  ghost predicate ClaimHeld(s: State) {
    !s.overran && !s.lostStore ==>
      forall r :: r in s.requests && InFlight(s.requests[r]) ==> s.cell == Some(Processing(s.requests[r].since + 300.0))
  }

  lemma StepKeepsClaim(cfg: Settings, s: State, a: Action)
    requires Inv(cfg, s) && ClaimHeld(s) && Apply(cfg, s, a).Some?
    ensures ClaimHeld(Apply(cfg, s, a).value)
  {
    var t := Apply(cfg, s, a).value;
    if !t.overran && !t.lostStore {
      forall r | r in t.requests && InFlight(t.requests[r])
        ensures t.cell == Some(Processing(t.requests[r].since + 300.0))
      {
        if r in s.requests && InFlight(s.requests[r]) {
          assert Covered(s, r);
        }
      }
    }
  }

  lemma {:induction false} ReachableClaim(cfg: Settings, actions: seq<Action>)
    requires Run(cfg, actions).Some?
    ensures ClaimHeld(Run(cfg, actions).value)
  {
    if actions != [] {
      var n := |actions| - 1;
      ReachableInv(cfg, actions[..n]);
      ReachableClaim(cfg, actions[..n]);
      StepKeepsClaim(cfg, Run(cfg, actions[..n]).value, actions[n]);
    }
  }

  /** A crashed owner blocks the key for 300 seconds from its claim, and no longer. */
  lemma CrashedClaimLapses(cfg: Settings, actions: seq<Action>, r: Request, q: Request, wait: real)
    requires Run(cfg, actions).Some? && wait >= 0.0
    requires var s := Run(cfg, actions).value;
             && !s.overran && !s.lostStore && r in s.requests && InFlight(s.requests[r])
             && q in s.requests && s.requests[q].Arrived?
    ensures var s := Run(cfg, actions).value;
            var crashed := Apply(cfg, s, Crash(r));
            && crashed.Some?
            && var later := Apply(cfg, crashed.value, Tick(wait));
               && later.Some?
               && var claimed := Apply(cfg, later.value, Claim(q));
                  && claimed.Some?
                  && claimed.value.requests[q]
                     == if s.now + wait < s.requests[r].since + 300.0 then Duplicate else Running(s.now + wait)
  {
    ReachableClaim(cfg, actions);
  }

  // ----- replies are true -----

  /** Request `r`'s own handler returned `response`. */
  ghost predicate Returned(actions: seq<Action>, r: Request, response: Response) {
    HandlerReturns(r, response) in actions || FinishUnprotected(r, response) in actions
  }

  ghost predicate PlaceTrue(cfg: Settings, actions: seq<Action>, r: Request, p: Place) {
    match p
    case Finished(_, response) => Returned(actions, r, response)
    case Releasing(_, reply) => ReplyTrue(cfg, actions, r, reply)
    case Done(reply) => ReplyTrue(cfg, actions, r, reply)
    case _ => true
  }

  /** An original is the caller's own; a replay is a kept response, decoded and
      encoded. */
  ghost predicate ReplyTrue(cfg: Settings, actions: seq<Action>, r: Request, reply: Reply) {
    match reply
    case Original(response) => Returned(actions, r, response)
    case Replayed(response) => exists kept :: ReplayOf(cfg, response, kept)
    case _ => true
  }

  ghost predicate ReplayOf(cfg: Settings, response: Response, kept: Response) {
    && Kept(cfg, kept) && response.status == kept.status && response.contentType == kept.contentType
    && response.body == cfg.encode(cfg.decode(kept.body))
  }

  lemma StepIsTrue(cfg: Settings, before: seq<Action>, s: State, a: Action, r: Request)
    requires CellOk(cfg, s) && Apply(cfg, s, a).Some? && r in Apply(cfg, s, a).value.requests
    requires r in s.requests ==> PlaceTrue(cfg, before, r, s.requests[r])
    ensures PlaceTrue(cfg, before + [a], r, Apply(cfg, s, a).value.requests[r])
  {
    if a.Look? && Live(s).Some? && Live(s).value.Completed? {
      var kept :| Holds(cfg, s.cell.value, kept);
      assert ReplayOf(cfg, Replay(cfg, s.cell.value), kept);
    }
  }

  /** In every run a caller is told the truth: an original response is what its own
      handler returned, and a replayed one has the status, content type and body of
      a kept response. */
  lemma {:induction false} RepliesAreTrue(cfg: Settings, actions: seq<Action>, r: Request)
    requires Run(cfg, actions).Some? && r in Run(cfg, actions).value.requests
    ensures PlaceTrue(cfg, actions, r, Run(cfg, actions).value.requests[r])
  {
    if actions != [] {
      var n := |actions| - 1;
      var s := Run(cfg, actions[..n]).value;
      if r in s.requests {
        RepliesAreTrue(cfg, actions[..n], r);
      }
      OnlyKeptIsHeld(cfg, actions[..n]);
      StepIsTrue(cfg, actions[..n], s, actions[n], r);
      assert actions == actions[..n] + [actions[n]];
    }
  }

  // ----- commands whose answer is lost -----

  /** A claim, store or release that raises after it was executed leaves the key as an
      answered one does; one that was not executed leaves it alone. */
  lemma LostAnswersStillAct(cfg: Settings, s: State, r: Request)
    requires r in s.requests
    ensures s.requests[r].Arrived? ==>
              var lost, unsent := Apply(cfg, s, ClaimFails(r, true)), Apply(cfg, s, ClaimFails(r, false));
              && lost.Some? && unsent.Some? && Apply(cfg, s, Claim(r)).Some?
              && lost.value.cell == Apply(cfg, s, Claim(r)).value.cell && unsent.value.cell == s.cell
              && lost.value.requests[r].Unprotected? && unsent.value.requests[r].Unprotected?
    ensures s.requests[r].Finished? && Kept(cfg, s.requests[r].response) ==>
              var lost, unsent := Apply(cfg, s, StoreFails(r, true)), Apply(cfg, s, StoreFails(r, false));
              && lost.Some? && unsent.Some? && Apply(cfg, s, Store(r)).Some?
              && lost.value.cell == Apply(cfg, s, Store(r)).value.cell && unsent.value.cell == s.cell
              && lost.value.requests[r].Releasing? && unsent.value.requests[r].Releasing?
    ensures s.requests[r].Releasing? ==>
              var lost, unsent := Apply(cfg, s, ReleaseFails(r, true)), Apply(cfg, s, ReleaseFails(r, false));
              && lost.Some? && unsent.Some?
              && lost.value.cell.None? && unsent.value.cell == s.cell
              && lost.value.requests[r] == Done(s.requests[r].reply)
              && unsent.value.requests[r] == Done(s.requests[r].reply)
  {
  }
}
