/** The request-idempotency middleware for one idempotency key: SET NX with a
    processing TTL, a stored response with its own TTL, and release on failure.
    Any number of requests, processes and crashes; a run is any list of enabled
    steps, one Redis command each. */
module Idempotency {
  import opened Prelude

  const PROCESSING_TTL := 300.0

  type Request = nat
  type Bytes = seq<bv8>

  datatype Response = Response(status: int, contentType: string, body: Bytes)

  /** Settings, and the UTF-8 codec (`decode` with `errors="replace"`). */
  datatype Settings = Settings(ttl: real, maxResponseSize: nat, decode: Bytes -> string, encode: string -> Bytes)

  /** What Redis stores under the key. */
  datatype Cell =
    | Processing(until: real)
    | Completed(status: int, contentType: string, text: string, until: real)

  datatype Reply = Original(response: Response) | Replayed(response: Response) | Conflict | Errored

  datatype Place =
    | Arrived
    | Running(since: real)                       // owns the key, handler in progress
    | Finished(since: real, response: Response)  // handler done, response not stored yet
    | Releasing(since: real, reply: Reply)       // about to delete the key
    | Duplicate                                  // SET NX found the key
    | Unprotected                                // Redis failed, handler runs anyway
    | Done(reply: Reply)

  /** `overran`: some owner was still at work when its claim lapsed. `lostStore`:
      a store was executed but its answer was lost. `stored`: the last response
      stored, and until when. */
  datatype State = State(
    now: real, cell: Option<Cell>, requests: map<Request, Place>,
    overran: bool, lostStore: bool, stored: Option<(Response, real)>)

  const INITIAL := State(0.0, None, map[], false, false, None)

  datatype Action =
    | Tick(delay: real)
    | Arrive(r: Request)
    | Claim(r: Request)
    | ClaimFails(r: Request, executed: bool)
    | HandlerReturns(r: Request, response: Response)
    | HandlerRaises(r: Request)
    | Store(r: Request)
    | StoreFails(r: Request, executed: bool)
    | Release(r: Request)
    | ReleaseFails(r: Request, executed: bool)
    | Look(r: Request)
    | LookFails(r: Request)
    | FinishUnprotected(r: Request, response: Response)
    | Crash(r: Request)

  /** What Redis still holds at `now`. */
  function Live(s: State): Option<Cell> {
    if s.cell.Some? && s.now < s.cell.value.until then s.cell else None
  }

  /** An execution that owns the key: from SET NX to store or release. */
  predicate InFlight(p: Place) {
    p.Running? || p.Finished? || p.Releasing?
  }

  predicate Late(s: State, now: real) {
    exists r :: r in s.requests && InFlight(s.requests[r]) && now >= s.requests[r].since + PROCESSING_TTL
  }

  /** Which responses `_store_completed` keeps. */
  predicate Cacheable(cfg: Settings, response: Response) {
    response.status < 500 && response.status !in {401, 403, 429} && |response.body| <= cfg.maxResponseSize
  }

  function Put(s: State, r: Request, p: Place): State {
    s.(requests := s.requests[r := p])
  }

  function CompletedCell(cfg: Settings, response: Response, now: real): Cell {
    Completed(response.status, response.contentType, cfg.decode(response.body), now + cfg.ttl)
  }

  /** What a duplicate is sent for a stored response. */
  function Replay(cfg: Settings, cell: Cell): Response
    requires cell.Completed?
  {
    Response(cell.status, cell.contentType, cfg.encode(cell.text))
  }

  function Apply(cfg: Settings, s: State, a: Action): Option<State> {
    match a
    case Tick(d) =>
      if d < 0.0 then None
      else Some(s.(now := s.now + d, overran := s.overran || Late(s, s.now + d)))
    case Arrive(r) => if r in s.requests then None else Some(Put(s, r, Arrived))
    case _ =>
      if a.r !in s.requests then None
      else
        var p := s.requests[a.r];
        match a
        case Claim(r) =>
          if !p.Arrived? then None
          else if Live(s).Some? then Some(Put(s, r, Duplicate))
          else Some(Put(s, r, Running(s.now)).(cell := Some(Processing(s.now + PROCESSING_TTL))))
        case ClaimFails(r, executed) =>
          if !p.Arrived? then None
          else if executed && Live(s).None?
          then Some(Put(s, r, Unprotected).(cell := Some(Processing(s.now + PROCESSING_TTL))))
          else Some(Put(s, r, Unprotected))
        case HandlerReturns(r, response) =>
          if !p.Running? then None else Some(Put(s, r, Finished(p.since, response)))
        case HandlerRaises(r) =>
          if !p.Running? then None else Some(Put(s, r, Releasing(p.since, Errored)))
        case Store(r) =>
          if !p.Finished? then None
          else if !Cacheable(cfg, p.response) then Some(Put(s, r, Releasing(p.since, Original(p.response))))
          else Some(Put(s, r, Done(Original(p.response)))
                    .(cell := Some(CompletedCell(cfg, p.response, s.now)),
                      stored := Some((p.response, s.now + cfg.ttl))))
        case StoreFails(r, executed) =>
          if !p.Finished? || !Cacheable(cfg, p.response) then None
          else if executed
          then Some(Put(s, r, Releasing(p.since, Original(p.response)))
                    .(cell := Some(CompletedCell(cfg, p.response, s.now)), lostStore := true))
          else Some(Put(s, r, Releasing(p.since, Original(p.response))))
        case Release(r) =>
          if !p.Releasing? then None else Some(Put(s, r, Done(p.reply)).(cell := None))
        case ReleaseFails(r, executed) =>
          if !p.Releasing? then None
          else Some(Put(s, r, Done(p.reply)).(cell := if executed then None else s.cell))
        case Look(r) =>
          if !p.Duplicate? then None
          else if Live(s).Some? && Live(s).value.Completed?
          then Some(Put(s, r, Done(Replayed(Replay(cfg, Live(s).value)))))
          else Some(Put(s, r, Done(Conflict)))
        case LookFails(r) => if !p.Duplicate? then None else Some(Put(s, r, Done(Conflict)))
        case FinishUnprotected(r, response) =>
          if !p.Unprotected? then None else Some(Put(s, r, Done(Original(response))))
        case Crash(r) => if p.Done? then None else Some(Put(s, r, Done(Errored)))
  }

  ghost function Run(cfg: Settings, actions: seq<Action>): Option<State> {
    if actions == [] then Some(INITIAL)
    else
      var before := Run(cfg, actions[..|actions| - 1]);
      if before.None? then None else Apply(cfg, before.value, actions[|actions| - 1])
  }

  // ----- what every step keeps, while no owner overran its claim -----

  /** No owner overran its claim, and a store whose answer was lost left nothing
      behind that lapses before the claim would have. */
  ghost predicate Undisturbed(cfg: Settings, s: State) {
    !s.overran && (cfg.ttl >= PROCESSING_TTL || !s.lostStore)
  }

  /** Owner `r` is not late, and the key is taken until it would be: by its claim,
      or by the response whose store it did not hear back from. */
  ghost predicate Covered(s: State, r: Request)
    requires r in s.requests && InFlight(s.requests[r])
  {
    var since := s.requests[r].since;
    && since <= s.now < since + PROCESSING_TTL
    && s.cell.Some?
    && if s.cell.value.Processing? then s.cell.value.until == since + PROCESSING_TTL
       else s.requests[r].Releasing? && s.cell.value.until >= since + PROCESSING_TTL
  }

  /** Every owner is covered, and there is one at most. */
  ghost predicate OwnerOk(s: State) {
    && (forall r :: r in s.requests && InFlight(s.requests[r]) ==> Covered(s, r))
    && NoOverlap(s)
  }

  ghost predicate NoOverlap(s: State) {
    forall r, q ::
      r in s.requests && q in s.requests && InFlight(s.requests[r]) && InFlight(s.requests[q]) ==> r == q
  }

  /** A stored response that has not lapsed is what Redis holds, and nobody owns
      the key. */
  ghost predicate StoredOk(cfg: Settings, s: State) {
    s.stored.Some? && s.now < s.stored.value.1 ==>
      && s.cell == Some(CompletedCell(cfg, s.stored.value.0, s.stored.value.1 - cfg.ttl))
      && forall r :: r in s.requests ==> !InFlight(s.requests[r])
  }

  ghost predicate Inv(cfg: Settings, s: State) {
    Undisturbed(cfg, s) ==> OwnerOk(s) && StoredOk(cfg, s)
  }

  lemma TickKeepsInv(cfg: Settings, s: State, a: Action)
    requires Inv(cfg, s) && a.Tick? && Apply(cfg, s, a).Some?
    ensures Inv(cfg, Apply(cfg, s, a).value)
  {
    var t := Apply(cfg, s, a).value;
    if Undisturbed(cfg, t) {
      forall r | r in t.requests && InFlight(t.requests[r]) ensures Covered(t, r) {
        assert Covered(s, r);
      }
    }
  }

  lemma ClaimKeepsInv(cfg: Settings, s: State, a: Action)
    requires Inv(cfg, s) && (a.Claim? || a.ClaimFails?) && Apply(cfg, s, a).Some?
    ensures Inv(cfg, Apply(cfg, s, a).value)
  {
    var t := Apply(cfg, s, a).value;
    if Undisturbed(cfg, t) {
      if Live(s).None? {
        assert forall r :: r in s.requests ==> !InFlight(s.requests[r]) || (Covered(s, r) && Live(s).Some?);
      }
      forall r | r in t.requests && InFlight(t.requests[r]) ensures Covered(t, r) {
        if r in s.requests && InFlight(s.requests[r]) {
          assert Covered(s, r);
        }
      }
    }
  }

  lemma OwnerKeepsInv(cfg: Settings, s: State, a: Action)
    requires Inv(cfg, s) && Apply(cfg, s, a).Some?
    requires a.HandlerReturns? || a.HandlerRaises? || a.Store? || a.StoreFails? || a.Release? || a.ReleaseFails?
    ensures Inv(cfg, Apply(cfg, s, a).value)
  {
    var t := Apply(cfg, s, a).value;
    if Undisturbed(cfg, t) {
      assert InFlight(s.requests[a.r]) && Covered(s, a.r);
      assert forall q :: q in s.requests && q != a.r ==> !InFlight(s.requests[q]);
      forall r | r in t.requests && InFlight(t.requests[r]) ensures Covered(t, r) {
        assert r == a.r;
      }
    }
  }

  /** A step that only moves one request to where it owns nothing. */
  lemma BystanderKeepsInv(cfg: Settings, s: State, r: Request, p: Place)
    requires Inv(cfg, s) && !InFlight(p)
    ensures Inv(cfg, Put(s, r, p))
  {
    var t := Put(s, r, p);
    if Undisturbed(cfg, t) {
      forall q | q in t.requests && InFlight(t.requests[q]) ensures Covered(t, q) {
        assert q in s.requests && t.requests[q] == s.requests[q] && Covered(s, q);
      }
    }
  }

  lemma OtherKeepsInv(cfg: Settings, s: State, a: Action)
    requires Inv(cfg, s) && Apply(cfg, s, a).Some?
    requires a.Arrive? || a.Look? || a.LookFails? || a.FinishUnprotected? || a.Crash?
    ensures Inv(cfg, Apply(cfg, s, a).value)
  {
    var p := Apply(cfg, s, a).value.requests[a.r];
    assert Apply(cfg, s, a).value == Put(s, a.r, p);
    BystanderKeepsInv(cfg, s, a.r, p);
  }

  lemma StepKeepsInv(cfg: Settings, s: State, a: Action)
    requires Inv(cfg, s) && Apply(cfg, s, a).Some?
    ensures Inv(cfg, Apply(cfg, s, a).value)
  {
    if a.Tick? {
      TickKeepsInv(cfg, s, a);
    } else if a.Claim? || a.ClaimFails? {
      ClaimKeepsInv(cfg, s, a);
    } else if a.Arrive? || a.Look? || a.LookFails? || a.FinishUnprotected? || a.Crash? {
      OtherKeepsInv(cfg, s, a);
    } else {
      OwnerKeepsInv(cfg, s, a);
    }
  }

  lemma {:induction false} ReachableInv(cfg: Settings, actions: seq<Action>)
    requires Run(cfg, actions).Some?
    ensures Inv(cfg, Run(cfg, actions).value)
  {
    if actions != [] {
      ReachableInv(cfg, actions[..|actions| - 1]);
      StepKeepsInv(cfg, Run(cfg, actions[..|actions| - 1]).value, actions[|actions| - 1]);
    }
  }

  /** Two owning executions never overlap as long as no owner has overrun the
      processing TTL; a store whose answer was lost matters only when responses are
      kept for less than that TTL. */
  lemma ExecutionsNeverOverlap(cfg: Settings, actions: seq<Action>)
    requires Run(cfg, actions).Some? && !Run(cfg, actions).value.overran
    requires cfg.ttl >= PROCESSING_TTL || !Run(cfg, actions).value.lostStore
    ensures NoOverlap(Run(cfg, actions).value)
  {
    ReachableInv(cfg, actions);
  }

  lemma OnlyFailuresUnprotect(cfg: Settings, s: State, a: Action, r: Request)
    requires Apply(cfg, s, a).Some? && !a.ClaimFails? && r in Apply(cfg, s, a).value.requests
    ensures Apply(cfg, s, a).value.requests[r].Unprotected? ==> r in s.requests && s.requests[r].Unprotected?
  {
  }

  /** No execution is unprotected unless a Redis call failed. */
  lemma {:induction false} UnprotectedOnlyIfRedisFailed(cfg: Settings, actions: seq<Action>, r: Request)
    requires Run(cfg, actions).Some? && r in Run(cfg, actions).value.requests
    requires forall i :: 0 <= i < |actions| ==> !actions[i].ClaimFails?
    ensures !Run(cfg, actions).value.requests[r].Unprotected?
  {
    if actions != [] {
      var n := |actions| - 1;
      var before := Run(cfg, actions[..n]).value;
      OnlyFailuresUnprotect(cfg, before, actions[n], r);
      if r in before.requests {
        UnprotectedOnlyIfRedisFailed(cfg, actions[..n], r);
      }
    }
  }

  // ----- why the processing TTL must not be overrun -----

  lemma Go(cfg: Settings, actions: seq<Action>, s: State, a: Action) returns (longer: seq<Action>, t: State)
    requires Run(cfg, actions) == Some(s) && Apply(cfg, s, a).Some?
    ensures longer == actions + [a] && Run(cfg, longer) == Some(t) && Some(t) == Apply(cfg, s, a)
  {
    longer, t := actions + [a], Apply(cfg, s, a).value;
    assert longer[..|actions|] == actions;
  }

  lemma LateOwnerAndHeir(cfg: Settings) returns (actions: seq<Action>, s: State)
    ensures Run(cfg, actions) == Some(s)
    ensures s == State(300.0, Some(Processing(600.0)), map[0 := Running(0.0), 1 := Running(300.0)], true, false, None)
  {
    actions, s := Go(cfg, [], INITIAL, Arrive(0));
    actions, s := Go(cfg, actions, s, Claim(0));
    actions, s := Go(cfg, actions, s, Arrive(1));
    assert s.requests == map[0 := Running(0.0), 1 := Arrived];
    assert InFlight(s.requests[0]);
    actions, s := Go(cfg, actions, s, Tick(300.0));
    actions, s := Go(cfg, actions, s, Claim(1));
    assert s.requests == map[0 := Running(0.0), 1 := Running(300.0)];
  }

  /** One late owner is enough: releasing, it deletes its successor's claim, and
      two executions overlap although neither of them is late. */
  lemma LateReleaseAllowsOverlap(cfg: Settings) returns (actions: seq<Action>, s: State)
    ensures Run(cfg, actions) == Some(s) && !Late(s, s.now) && !NoOverlap(s)
  {
    actions, s := LateOwnerAndHeir(cfg);
    actions, s := Go(cfg, actions, s, HandlerRaises(0));
    actions, s := Go(cfg, actions, s, Release(0));
    actions, s := Go(cfg, actions, s, Arrive(2));
    actions, s := Go(cfg, actions, s, Claim(2));
    assert s.requests == map[0 := Done(Errored), 1 := Running(300.0), 2 := Running(300.0)];
    assert InFlight(s.requests[1]) && InFlight(s.requests[2]);
  }

  /** And it is enough in every case: from every reachable state in which an owner
      in flight is late, waiting for the key to lapse and sending one new request
      overlaps with it, whatever state the key is in. */
  lemma LateOwnerIsOverlapped(cfg: Settings, actions: seq<Action>, r: Request) returns (longer: seq<Action>)
    requires Run(cfg, actions).Some?
    requires var s := Run(cfg, actions).value;
             r in s.requests && InFlight(s.requests[r]) && s.now >= s.requests[r].since + PROCESSING_TTL
    ensures actions <= longer && Run(cfg, longer).Some? && !NoOverlap(Run(cfg, longer).value)
  {
    var s := Run(cfg, actions).value;
    var q := Above(s.requests.Keys);
    var wait := if Live(s).Some? then s.cell.value.until - s.now else 0.0;
    var t;
    longer, t := Go(cfg, actions, s, Tick(wait));
    longer, t := Go(cfg, longer, t, Arrive(q));
    longer, t := Go(cfg, longer, t, Claim(q));
    assert r != q && t.requests[r] == s.requests[r] && t.requests[q].Running?;
    assert InFlight(t.requests[r]) && InFlight(t.requests[q]);
  }

  // ----- why a lost store needs the longer TTL -----

  const OK_RESPONSE := Response(200, "", [])

  lemma StoreIsLost(cfg: Settings) returns (actions: seq<Action>, s: State)
    ensures Run(cfg, actions) == Some(s)
    ensures s == State(0.0, Some(CompletedCell(cfg, OK_RESPONSE, 0.0)),
                       map[0 := Releasing(0.0, Original(OK_RESPONSE))], false, true, None)
  {
    actions, s := Go(cfg, [], INITIAL, Arrive(0));
    actions, s := Go(cfg, actions, s, Claim(0));
    assert s.requests == map[0 := Running(0.0)];
    actions, s := Go(cfg, actions, s, HandlerReturns(0, OK_RESPONSE));
    assert s.requests == map[0 := Finished(0.0, OK_RESPONSE)];
    actions, s := Go(cfg, actions, s, StoreFails(0, true));
    assert s.requests == map[0 := Releasing(0.0, Original(OK_RESPONSE))];
  }

  /** With a response TTL below the processing TTL, a response stored without an
      answer lapses while its owner is still about to release the key. */
  lemma LostStoreAllowsOverlap(cfg: Settings) returns (actions: seq<Action>, s: State)
    requires cfg.ttl < PROCESSING_TTL
    ensures Run(cfg, actions) == Some(s) && !s.overran && !NoOverlap(s)
  {
    actions, s := StoreIsLost(cfg);
    assert forall d :: 0.0 <= d < PROCESSING_TTL ==> !Late(s, d);
    actions, s := Go(cfg, actions, s, Tick(if cfg.ttl > 0.0 then cfg.ttl else 0.0));
    actions, s := Go(cfg, actions, s, Arrive(1));
    actions, s := Go(cfg, actions, s, Claim(1));
    assert s.requests[0].Releasing? && s.requests[1].Running?;
    assert InFlight(s.requests[0]) && InFlight(s.requests[1]);
  }

  /** So "no overlap unless an owner overruns" holds of every run exactly when
      responses are kept at least as long as claims. */
  lemma NoOverlapIffLongTtl(cfg: Settings)
    ensures (forall actions: seq<Action> ::
               Run(cfg, actions).Some? && !Run(cfg, actions).value.overran ==> NoOverlap(Run(cfg, actions).value))
       <==> cfg.ttl >= PROCESSING_TTL
  {
    if cfg.ttl >= PROCESSING_TTL {
      forall actions: seq<Action> | Run(cfg, actions).Some? && !Run(cfg, actions).value.overran
        ensures NoOverlap(Run(cfg, actions).value)
      {
        ExecutionsNeverOverlap(cfg, actions);
      }
    } else {
      var actions, s := LostStoreAllowsOverlap(cfg);
      assert Run(cfg, actions).Some? && !Run(cfg, actions).value.overran && !NoOverlap(Run(cfg, actions).value);
    }
  }
}
