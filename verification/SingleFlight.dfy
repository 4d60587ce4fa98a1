/** `get_config` for one cache key: any number of coroutines, a per-key lock that
    lives in a dictionary, a double-checked cache, and the lock entry popped
    while others may still wait on the lock. A run is any list of enabled steps. */
module SingleFlight {
  import opened Prelude

  type Caller = nat
  type Lock = nat
  type Config = nat

  /** Where a caller is. */
  datatype Place =
    | Started
    | Missed                      // first cache check missed
    | Waiting(lock: Lock)         // has taken the lock object out of the dictionary
    | Holding(lock: Lock)         // acquired, before the second check
    | Fetching(lock: Lock)        // second check missed, fetch in flight
    | Leaving(config: Config)     // stored and released, lock entry not popped yet
    | Returned(config: Config)
    | Raised

  datatype State = State(
    table: Option<Lock>,          // the `_locks` entry of this key
    nextLock: Lock,                 // the next lock object
    cache: Option<Config>,
    callers: map<Caller, Place>,
    fetched: seq<Config>,         // every successful fetch
    disturbed: bool)              // the entry has expired, been evicted or invalidated

  const INITIAL := State(None, 0, None, map[], [], false)

  datatype Action =
    | Call(c: Caller)
    | FirstCheck(c: Caller)
    | TakeLock(c: Caller)
    | Acquire(c: Caller)
    | SecondCheck(c: Caller)
    | FetchSucceeds(c: Caller, config: Config)
    | FetchFails(c: Caller)
    | PopLock(c: Caller)
    | Cancel(c: Caller)
    | DropEntry

  predicate Owns(p: Place, l: Lock) {
    (p.Holding? || p.Fetching?) && p.lock == l
  }

  predicate Held(s: State, l: Lock) {
    exists c :: c in s.callers && Owns(s.callers[c], l)
  }

  function Put(s: State, c: Caller, p: Place): State {
    s.(callers := s.callers[c := p])
  }

  /** One step, if it is enabled. */
  function Apply(s: State, a: Action): Option<State> {
    match a
    case DropEntry => Some(s.(cache := None, disturbed := true))
    case Call(c) => if c in s.callers then None else Some(Put(s, c, Started))
    case _ =>
      if a.c !in s.callers then None
      else
        var p := s.callers[a.c];
        match a
        case FirstCheck(c) =>
          if !p.Started? then None
          else if s.cache.Some? then Some(Put(s, c, Returned(s.cache.value)))
          else Some(Put(s, c, Missed))
        case TakeLock(c) =>
          if !p.Missed? then None
          else if s.table.Some? then Some(Put(s, c, Waiting(s.table.value)))
          else Some(Put(s, c, Waiting(s.nextLock)).(table := Some(s.nextLock), nextLock := s.nextLock + 1))
        case Acquire(c) =>
          if !p.Waiting? || Held(s, p.lock) then None else Some(Put(s, c, Holding(p.lock)))
        case SecondCheck(c) =>
          if !p.Holding? then None
          else if s.cache.Some? then Some(Put(s, c, Returned(s.cache.value)))
          else Some(Put(s, c, Fetching(p.lock)))
        case FetchSucceeds(c, config) =>
          if !p.Fetching? then None
          else Some(Put(s, c, Leaving(config)).(cache := Some(config), fetched := s.fetched + [config]))
        case FetchFails(c) => if !p.Fetching? then None else Some(Put(s, c, Raised))
        case PopLock(c) =>
          if !p.Leaving? then None else Some(Put(s, c, Returned(p.config)).(table := None))
        case Cancel(c) =>
          if p.Leaving? || p.Returned? || p.Raised? then None else Some(Put(s, c, Raised))
  }

  ghost function Run(actions: seq<Action>): Option<State> {
    if actions == [] then Some(INITIAL)
    else
      var before := Run(actions[..|actions| - 1]);
      if before.None? then None else Apply(before.value, actions[|actions| - 1])
  }

  // ----- what every step keeps -----

  /** No lock has two owners. */
  ghost predicate Exclusive(s: State) {
    forall c, d, l :: c in s.callers && d in s.callers && Owns(s.callers[c], l) && Owns(s.callers[d], l) ==> c == d
  }

  /** While the cache is empty and undisturbed nothing was ever fetched, and all
      callers agree on the lock in the dictionary. */
  ghost predicate EmptyOk(s: State) {
    && s.fetched == []
    && forall c :: c in s.callers ==>
         match s.callers[c]
         case Waiting(l) => s.table == Some(l)
         case Holding(l) => s.table == Some(l)
         case Fetching(l) => s.table == Some(l)
         case Leaving(_) => false
         case Returned(_) => false
         case _ => true
  }

  /** Once the cache is filled nothing is in flight, and every result is it. */
  ghost predicate FilledOk(s: State) {
    && s.cache.Some? && s.fetched == [s.cache.value]
    && forall c :: c in s.callers ==>
         match s.callers[c]
         case Fetching(_) => false
         case Leaving(v) => v == s.cache.value
         case Returned(v) => v == s.cache.value
         case _ => true
  }

  ghost predicate Inv(s: State) {
    Exclusive(s) && (!s.disturbed ==> if s.cache.None? then EmptyOk(s) else FilledOk(s))
  }

  lemma StepKeepsExclusive(s: State, a: Action)
    requires Exclusive(s) && Apply(s, a).Some?
    ensures Exclusive(Apply(s, a).value)
  {
    var t := Apply(s, a).value;
    forall c, d, l | c in t.callers && d in t.callers && Owns(t.callers[c], l) && Owns(t.callers[d], l)
      ensures c == d
    {
      if a.Acquire? {
        assert !Held(s, s.callers[a.c].lock);
      }
    }
  }

  lemma StepKeepsInv(s: State, a: Action)
    requires Inv(s) && Apply(s, a).Some?
    ensures Inv(Apply(s, a).value)
  {
    StepKeepsExclusive(s, a);
    if a.FetchSucceeds? && !s.disturbed {
      var t := Apply(s, a).value;
      assert s.cache.None? && s.fetched == [];
      forall c | c in s.callers && s.callers[c].Fetching? ensures c == a.c {
        assert Owns(s.callers[c], s.callers[c].lock) && Owns(s.callers[a.c], s.callers[a.c].lock);
      }
      assert forall c :: c in t.callers && c != a.c ==> t.callers[c] == s.callers[c];
    }
  }

  lemma {:induction false} ReachableInv(actions: seq<Action>)
    requires Run(actions).Some?
    ensures Inv(Run(actions).value)
  {
    if actions != [] {
      ReachableInv(actions[..|actions| - 1]);
      StepKeepsInv(Run(actions[..|actions| - 1]).value, actions[|actions| - 1]);
    }
  }

  /** Over every interleaving that never drops the entry: at most one fetch is in
      flight, at most one succeeds, and every call that returns returns it. */
  lemma OneFetch(actions: seq<Action>)
    requires Run(actions).Some? && DropEntry !in actions
    ensures var s := Run(actions).value;
      && OneInFlight(s)
      && |s.fetched| <= 1
      && (forall c :: c in s.callers && s.callers[c].Returned? ==> s.fetched == [s.callers[c].config])
  {
    ReachableInv(actions);
    UndisturbedMeansNoDrop(actions);
    var s := Run(actions).value;
    forall c, d | c in s.callers && d in s.callers && s.callers[c].Fetching? && s.callers[d].Fetching? ensures c == d {
      assert Owns(s.callers[c], s.callers[c].lock) && Owns(s.callers[d], s.callers[d].lock);
    }
  }

  lemma {:induction false} UndisturbedMeansNoDrop(actions: seq<Action>)
    requires Run(actions).Some?
    ensures Run(actions).value.disturbed <==> DropEntry in actions
  {
    if actions != [] {
      var n := |actions| - 1;
      UndisturbedMeansNoDrop(actions[..n]);
      assert actions == actions[..n] + [actions[n]];
    }
  }

  // ----- which drops are harmless -----

  /** The lock a caller waits on or owns. */
  predicate Uses(p: Place, l: Lock) {
    (p.Waiting? || p.Holding? || p.Fetching?) && p.lock == l
  }

  /** No caller has still to pop the lock entry, and none waits on or owns a lock
      that has left the dictionary. */
  ghost predicate Quiet(s: State) {
    forall c :: c in s.callers ==> QuietAt(s, s.callers[c])
  }

  ghost predicate QuietAt(s: State, p: Place) {
    !p.Leaving? && forall l: Lock :: Uses(p, l) ==> s.table == Some(l)
  }

  ghost predicate DropsAreQuiet(actions: seq<Action>)
    requires Run(actions).Some?
  {
    if actions == [] then true
    else
      var before := actions[..|actions| - 1];
      DropsAreQuiet(before) && (actions[|actions| - 1].DropEntry? ==> Quiet(Run(before).value))
  }

  ghost predicate OneInFlight(s: State) {
    forall c, d :: c in s.callers && d in s.callers && s.callers[c].Fetching? && s.callers[d].Fetching? ==> c == d
  }

  /** While the cache is empty the state is quiet; while it is filled nothing is
      fetched. Whatever was returned was fetched. */
  ghost predicate QuietInv(s: State) {
    && Exclusive(s)
    && (s.cache.None? ==> Quiet(s))
    && (s.cache.Some? ==> s.cache.value in s.fetched && forall c :: c in s.callers ==> !s.callers[c].Fetching?)
    && (forall c :: c in s.callers && s.callers[c].Returned? ==> s.callers[c].config in s.fetched)
    && (forall c :: c in s.callers && s.callers[c].Leaving? ==> s.callers[c].config in s.fetched)
  }

  lemma QuietMeansOneInFlight(s: State)
    requires QuietInv(s)
    ensures OneInFlight(s)
  {
    forall c, d | c in s.callers && d in s.callers && s.callers[c].Fetching? && s.callers[d].Fetching? ensures c == d {
      assert QuietAt(s, s.callers[c]) && QuietAt(s, s.callers[d]);
      assert Uses(s.callers[c], s.callers[c].lock) && Uses(s.callers[d], s.callers[d].lock);
      assert Owns(s.callers[c], s.callers[c].lock) && Owns(s.callers[d], s.callers[d].lock);
    }
  }

  lemma StepKeepsQuiet(s: State, a: Action)
    requires QuietInv(s) && Apply(s, a).Some? && (a.DropEntry? ==> Quiet(s))
    ensures QuietInv(Apply(s, a).value)
  {
    var t := Apply(s, a).value;
    StepKeepsExclusive(s, a);
    QuietMeansOneInFlight(s);
    if t.cache.None? {
      forall c | c in t.callers ensures QuietAt(t, t.callers[c]) {
        if c in s.callers {
          assert QuietAt(s, s.callers[c]);
          if s.callers[c].Waiting? || s.callers[c].Holding? || s.callers[c].Fetching? {
            assert Uses(s.callers[c], s.callers[c].lock);
          }
        }
      }
    }
  }

  /** In every run whose drops all happen in quiet states, however many there are:
      at most one fetch is in flight, and every call that returns returns a fetched
      config. */
  lemma {:induction false} QuietDropsKeepOneFetch(actions: seq<Action>)
    requires Run(actions).Some? && DropsAreQuiet(actions)
    ensures QuietInv(Run(actions).value) && OneInFlight(Run(actions).value)
  {
    if actions != [] {
      QuietDropsKeepOneFetch(actions[..|actions| - 1]);
      StepKeepsQuiet(Run(actions[..|actions| - 1]).value, actions[|actions| - 1]);
    }
    QuietMeansOneInFlight(Run(actions).value);
  }

  // ----- and every other drop is not -----

  /** Extends a run by one enabled step. */
  lemma Go(actions: seq<Action>, s: State, a: Action) returns (longer: seq<Action>, t: State)
    requires Run(actions) == Some(s) && Apply(s, a).Some?
    ensures longer == actions + [a] && Run(longer) == Some(t) && Some(t) == Apply(s, a)
  {
    longer, t := actions + [a], Apply(s, a).value;
    assert longer[..|actions|] == actions;
  }

  /** Lock objects are never reused, and the dictionary holds a made one. */
  ghost predicate LocksMade(s: State) {
    && (s.table.Some? ==> s.table.value < s.nextLock)
    && forall c, l: Lock :: c in s.callers && Uses(s.callers[c], l) ==> l < s.nextLock
  }

  lemma {:induction false} ReachableLocks(actions: seq<Action>)
    requires Run(actions).Some?
    ensures LocksMade(Run(actions).value)
  {
    if actions != [] {
      var n := |actions| - 1;
      ReachableLocks(actions[..n]);
      var s, t := Run(actions[..n]).value, Run(actions).value;
      forall c, l: Lock | c in t.callers && Uses(t.callers[c], l) ensures l < t.nextLock {
        if c in s.callers && (s.callers[c].Waiting? || s.callers[c].Holding? || s.callers[c].Fetching?) {
          assert Uses(s.callers[c], s.callers[c].lock);
        }
      }
    }
  }

  /** The callers that fetch in `s` still do in `t`, and the dictionary is the same. */
  ghost predicate Continues(s: State, t: State) {
    && t.table == s.table && t.cache == s.cache && t.nextLock == s.nextLock
    && (forall c :: c in s.callers && s.callers[c].Fetching? ==> c in t.callers && t.callers[c] == s.callers[c])
    && (forall c :: c in s.callers && s.callers[c].Leaving? ==> c in t.callers && t.callers[c] == s.callers[c])
  }

  /** With the cache empty, a lock that someone waits on or owns gets to be fetched
      under. */
  lemma UserFetches(actions: seq<Action>, s: State, c: Caller, l: Lock)
    returns (longer: seq<Action>, t: State, d: Caller)
    requires Run(actions) == Some(s) && s.cache.None? && c in s.callers && Uses(s.callers[c], l)
    ensures Run(longer) == Some(t) && actions <= longer && Continues(s, t)
    ensures d in t.callers && t.callers[d] == Fetching(l)
  {
    longer, t, d := actions, s, c;
    if Held(s, l) {
      d :| d in s.callers && Owns(s.callers[d], l);
    } else {
      longer, t := Go(longer, t, Acquire(c));
    }
    if !t.callers[d].Fetching? {
      longer, t := Go(longer, t, SecondCheck(d));
    }
  }

  /** With the cache empty, a newcomer ends up on the dictionary's lock. */
  lemma NewcomerWaits(actions: seq<Action>, s: State) returns (longer: seq<Action>, t: State, c: Caller)
    requires Run(actions) == Some(s) && s.cache.None?
    ensures Run(longer) == Some(t) && actions <= longer && c !in s.callers
    ensures var l := if s.table.Some? then s.table.value else s.nextLock;
            t == Put(s, c, Waiting(l)).(table := Some(l),
                                        nextLock := if s.table.Some? then s.nextLock else s.nextLock + 1)
  {
    c := Above(s.callers.Keys);
    longer, t := Go(actions, s, Call(c));
    longer, t := Go(longer, t, FirstCheck(c));
    longer, t := Go(longer, t, TakeLock(c));
    assert t.callers == s.callers[c := Waiting(t.table.value)];
  }

  /** So someone fetches under the dictionary's lock, or under a new one. */
  lemma NewcomerFetches(actions: seq<Action>, s: State) returns (longer: seq<Action>, t: State, d: Caller)
    requires Run(actions) == Some(s) && s.cache.None?
    ensures Run(longer) == Some(t) && actions <= longer && t.cache.None?
    ensures forall c :: c in s.callers && (s.callers[c].Fetching? || s.callers[c].Leaving?)
              ==> c in t.callers && t.callers[c] == s.callers[c]
    ensures t.table == Some(if s.table.Some? then s.table.value else s.nextLock)
    ensures d in t.callers && t.callers[d] == Fetching(t.table.value)
  {
    var u, c;
    longer, u, c := NewcomerWaits(actions, s);
    longer, t, d := UserFetches(longer, u, c, u.table.value);
  }

  lemma FetchesDiffer(s: State, c: Caller, d: Caller)
    requires c in s.callers && d in s.callers && s.callers[c].Fetching? && s.callers[d].Fetching?
    requires s.callers[c].lock != s.callers[d].lock
    ensures !OneInFlight(s)
  {
    assert c != d;
  }

  /** A lock outside the dictionary is in use: its user and a newcomer both fetch. */
  lemma StrayLockAllowsTwo(actions: seq<Action>, s: State, c: Caller, l: Lock) returns (longer: seq<Action>)
    requires Run(actions) == Some(s) && s.cache.None? && c in s.callers && Uses(s.callers[c], l) && s.table != Some(l)
    ensures actions <= longer && Run(longer).Some? && !OneInFlight(Run(longer).value)
  {
    ReachableLocks(actions);
    var t, d, e;
    longer, t, d := UserFetches(actions, s, c, l);
    longer, t, e := NewcomerFetches(longer, t);
    FetchesDiffer(t, d, e);
  }

  /** A caller has still to pop: it pops the lock under a fetch, and a newcomer makes
      a fresh one. */
  lemma LatePopAllowsTwo(actions: seq<Action>, s: State, c: Caller) returns (longer: seq<Action>)
    requires Run(actions) == Some(s) && s.cache.None? && c in s.callers && s.callers[c].Leaving?
    ensures actions <= longer && Run(longer).Some? && !OneInFlight(Run(longer).value)
  {
    var t, d, e;
    longer, t, d := NewcomerFetches(actions, s);
    ghost var l := t.callers[d].lock;
    longer, t := Go(longer, t, PopLock(c));
    ReachableLocks(longer);
    assert Uses(t.callers[d], l);
    longer, t, e := NewcomerFetches(longer, t);
    FetchesDiffer(t, d, e);
  }

  /** The condition is exact: after any run, dropping the entry in a state that is
      not quiet lets two fetches run at once, with no further drop needed. */
  lemma UnquietDropAllowsTwo(actions: seq<Action>) returns (longer: seq<Action>)
    requires Run(actions).Some? && !Quiet(Run(actions).value)
    ensures actions + [DropEntry] <= longer && Run(longer).Some? && !OneInFlight(Run(longer).value)
  {
    var s := Run(actions).value;
    var c :| c in s.callers && !QuietAt(s, s.callers[c]);
    var dropped, t := Go(actions, s, DropEntry);
    if s.callers[c].Leaving? {
      longer := LatePopAllowsTwo(dropped, t, c);
    } else {
      var l: Lock :| Uses(s.callers[c], l) && s.table != Some(l);
      longer := StrayLockAllowsTwo(dropped, t, c, l);
    }
  }

  /** Such drops exist: a waiter still has the popped lock when the entry goes. */
  lemma DroppedEntryAllowsTwoFetches() returns (actions: seq<Action>)
    ensures Run(actions).Some? && !OneInFlight(Run(actions).value)
  {
    var s, c, d;
    actions, s, d := NewcomerFetches([], INITIAL);
    ghost var l := s.table.value;
    actions, s, c := NewcomerWaits(actions, s);
    actions, s := Go(actions, s, FetchSucceeds(d, 7));
    actions, s := Go(actions, s, PopLock(d));
    assert Uses(s.callers[c], l) && s.table.None?;
    assert !QuietAt(s, s.callers[c]);
    actions := UnquietDropAllowsTwo(actions);
  }

  // ----- what callers are told, and that they get on -----

  /** A first check that finds the entry returns it and touches nothing else. */
  lemma HitNeedsNoLock(s: State, c: Caller)
    requires c in s.callers && s.callers[c].Started?
    ensures Apply(s, FirstCheck(c)) == Some(Put(s, c, if s.cache.Some? then Returned(s.cache.value) else Missed))
  {
  }

  /** A failed fetch raises in its own caller only: the entry and the lock stay, and
      a caller waiting on that lock gets to fetch. */
  lemma FailedFetchPassesOn(s: State, d: Caller, c: Caller, l: Lock)
    requires Exclusive(s) && s.cache.None? && d in s.callers && s.callers[d] == Fetching(l)
    requires c in s.callers && s.callers[c] == Waiting(l)
    ensures var failed := Apply(s, FetchFails(d));
            && failed == Some(Put(s, d, Raised))
            && var acquired := Apply(failed.value, Acquire(c));
               && acquired.Some?
               && var checked := Apply(acquired.value, SecondCheck(c));
                  checked.Some? && checked.value.callers[c] == Fetching(l)
  {
    var failed := Apply(s, FetchFails(d)).value;
    forall x | x in failed.callers && x != d ensures !Owns(failed.callers[x], l) {
      assert Owns(s.callers[d], l);
    }
  }

  predicate Finished(p: Place) {
    p.Returned? || p.Raised?
  }

  /** In every reachable state, unless all callers have finished, one of those that
      have not can take its next step: the lock never wedges. */
  lemma NoCallerIsStuck(actions: seq<Action>, c: Caller) returns (next: Action)
    requires Run(actions).Some? && c in Run(actions).value.callers && !Finished(Run(actions).value.callers[c])
    ensures !next.Call? && !next.DropEntry? && !next.Cancel? && Apply(Run(actions).value, next).Some?
  {
    var s := Run(actions).value;
    match s.callers[c]
    case Started => next := FirstCheck(c);
    case Missed => next := TakeLock(c);
    case Holding(_) => next := SecondCheck(c);
    case Fetching(_) => next := FetchFails(c);
    case Leaving(_) => next := PopLock(c);
    case Waiting(l) =>
      if Held(s, l) {
        var d :| d in s.callers && Owns(s.callers[d], l);
        next := if s.callers[d].Holding? then SecondCheck(d) else FetchFails(d);
      } else {
        next := Acquire(c);
      }
  }
}
