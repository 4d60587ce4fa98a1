/** The three counters as the objects that hold them: the Redis fixed-window
    script, the in-memory fallback with its bucket cleanup, and the Slack alert
    budget. Each refines the counting machine of `WindowLimits`. */
module Counters {
  import opened Prelude
  import opened WindowLimits

  type Buckets = map<string, Cell>

  function Find(cells: Buckets, key: string): Option<Cell> {
    if key in cells then Some(cells[key]) else None
  }

  /** `FIXED_WINDOW_LUA` on one key. */
  class FixedWindowScript {
    var cell: Option<Cell>

    /** A stored counter is at least one, so "count is 1" means "just created". */
    ghost predicate Valid()
      reads this
    {
      cell.Some? ==> cell.value.count >= 1
    }

    constructor ()
      ensures Valid() && cell == None
    {
      cell := None;
    }

    method Eval(call: Call, span: int) returns (count: nat, over: bool)
      requires Valid()
      modifies this
      ensures Valid() && cell == Some(Next(RedisFixed, span as real, old(cell), call))
      ensures count == cell.value.count && over == !Answer(RedisFixed, span as real, old(cell), call)
    {
      if cell.Some? && Lapsed(RedisFixed, cell.value, call.at) {
        cell := None;  // Redis has expired the key
      }
      var stored := if cell.Some? then cell.value else Cell(0, 0.0);
      count := stored.count + 1;  // incr
      var until := stored.until;
      if count == 1 {
        until := call.at + span as real;  // expire, on the first request only
      }
      cell := Some(Cell(count, until));
      over := count > call.limit;
    }
  }

  /** The buckets a cleanup at `now` keeps. */
  function Unexpired(buckets: Buckets, now: real): Buckets {
    map k | k in buckets && !Lapsed(Fallback, buckets[k], now) :: buckets[k]
  }

  class MemoryFallback {
    var buckets: Buckets
    const cleanupThreshold: nat

    ghost predicate Valid()
      reads this
    {
      forall k :: k in buckets ==> buckets[k].count >= 1
    }

    constructor (cleanupThreshold: nat)
      ensures Valid() && buckets == map[] && this.cleanupThreshold == cleanupThreshold
    {
      buckets := map[];
      this.cleanupThreshold := cleanupThreshold;
    }

    method CleanupExpired(now: real)
      requires Valid()
      modifies this
      ensures Valid() && buckets == Unexpired(old(buckets), now)
    {
      var expired := set k | k in buckets && now > buckets[k].until;
      while expired != {}
        invariant expired <= buckets.Keys <= old(buckets).Keys
        invariant forall k :: k in buckets ==> buckets[k] == old(buckets)[k]
        invariant forall k :: k in old(buckets) && k !in buckets ==> Lapsed(Fallback, old(buckets)[k], now)
        invariant forall k :: k in buckets ==> (k in expired <==> Lapsed(Fallback, buckets[k], now))
        decreases expired
      {
        var k :| k in expired;
        buckets := buckets - {k};
        expired := expired - {k};
      }
    }

    method Check(key: string, limit: int, windowSeconds: int, now: real) returns (allowed: bool)
      requires Valid()
      modifies this
      ensures Valid()
      ensures (buckets, allowed)
           == FallbackStep(old(buckets), |old(buckets)| > cleanupThreshold,
                           Keyed(key, windowSeconds as real, Call(now, limit, 0)))
    {
      if |buckets| > cleanupThreshold {
        CleanupExpired(now);
      }
      if key !in buckets || now > buckets[key].until {
        buckets := buckets[key := Cell(1, now + windowSeconds as real)];
        return true;
      }
      var bucket := buckets[key];
      if bucket.count >= limit {
        assert buckets[key := bucket] == buckets;
        return false;
      }
      buckets := buckets[key := bucket.(count := bucket.count + 1)];
      return true;
    }
  }

  // ----- cleanup changes nothing -----

  datatype KeyedCall = Keyed(key: string, span: real, call: Call)

  function FallbackStep(buckets: Buckets, clean: bool, kc: KeyedCall): (Buckets, bool) {
    var kept := if clean then Unexpired(buckets, kc.call.at) else buckets;
    var cell := Find(kept, kc.key);
    (kept[kc.key := Next(Fallback, kc.span, cell, kc.call)], Answer(Fallback, kc.span, cell, kc.call))
  }

  ghost function FallbackRun(calls: seq<KeyedCall>, clean: seq<bool>): (Buckets, seq<bool>)
    requires |calls| == |clean|
  {
    if calls == [] then (map[], [])
    else
      var n := |calls| - 1;
      var (buckets, answers) := FallbackRun(calls[..n], clean[..n]);
      var (next, answer) := FallbackStep(buckets, clean[n], calls[n]);
      (next, answers + [answer])
  }

  ghost predicate ClockedKeys(calls: seq<KeyedCall>) {
    forall i, j :: 0 <= i <= j < |calls| ==> calls[i].call.at <= calls[j].call.at
  }

  /** The two stores agree, except that one may lack buckets that lapsed. */
  ghost predicate Agree(lean: Buckets, full: Buckets, now: real) {
    && (forall k :: k in lean ==> k in full && lean[k] == full[k])
    && (forall k :: k in full && k !in lean ==> Lapsed(Fallback, full[k], now))
  }

  /** One call answers alike on both stores and keeps them in agreement. */
  lemma AgreeStep(lean: Buckets, full: Buckets, before: real, clean: bool, kc: KeyedCall)
    requires Agree(lean, full, before) && before <= kc.call.at
    ensures FallbackStep(lean, clean, kc).1 == FallbackStep(full, false, kc).1
    ensures Agree(FallbackStep(lean, clean, kc).0, FallbackStep(full, false, kc).0, kc.call.at)
  {
    var kept := if clean then Unexpired(lean, kc.call.at) else lean;
    assert Agree(kept, full, kc.call.at);
    assert Current(Fallback, kc.span, Find(kept, kc.key), kc.call.at)
        == Current(Fallback, kc.span, Find(full, kc.key), kc.call.at);
  }

  /** Dropping expired buckets, at whatever moments, never changes an answer. */
  lemma {:induction false} CleanupIsInvisible(calls: seq<KeyedCall>, clean: seq<bool>, never: seq<bool>)
    requires |calls| == |clean| == |never| && ClockedKeys(calls)
    requires forall i :: 0 <= i < |never| ==> !never[i]
    ensures FallbackRun(calls, clean).1 == FallbackRun(calls, never).1
    ensures calls != [] ==> Agree(FallbackRun(calls, clean).0, FallbackRun(calls, never).0, calls[|calls| - 1].call.at)
  {
    if calls != [] {
      var n := |calls| - 1;
      CleanupIsInvisible(calls[..n], clean[..n], never[..n]);
      var lean, full := FallbackRun(calls[..n], clean[..n]).0, FallbackRun(calls[..n], never[..n]).0;
      var before := if n == 0 then calls[0].call.at else calls[n - 1].call.at;
      AgreeStep(lean, full, before, clean[n], calls[n]);
    }
  }

  // ----- the Slack budget -----

  const HOUR := 3600.0

  class SlackAlertBudget {
    const perHour: int
    var counts: map<string, nat>
    var windowStarted: map<string, real>

    constructor (perHour: int)
      ensures this.perHour == perHour && forall key :: Budget(key) == None
    {
      this.perHour := perHour;
      counts, windowStarted := map[], map[];
    }

    /** The counter a key stands for. */
    ghost function Budget(key: string): Option<Cell>
      reads this
    {
      if key in windowStarted
      then Some(Cell(if key in counts then counts[key] else 0, windowStarted[key] + HOUR))
      else None
    }

    ghost predicate Valid()
      reads this
    {
      counts.Keys <= windowStarted.Keys
    }

    method Allow(key: string, now: real) returns (allowed: bool)
      requires Valid()
      modifies this
      ensures Valid() && Budget(key) == Some(Next(Slack, HOUR, old(Budget(key)), Call(now, perHour, 0)))
      ensures allowed == Answer(Slack, HOUR, old(Budget(key)), Call(now, perHour, 0))
      ensures forall other :: other != key ==> Budget(other) == old(Budget(other))
    {
      if key !in windowStarted {
        windowStarted := windowStarted[key := now];
      }
      var started := windowStarted[key];
      if now - started > HOUR {
        counts := counts[key := 0];
        windowStarted := windowStarted[key := now];
      }
      if key !in counts {
        counts := counts[key := 0];
      }
      if counts[key] >= perHour {
        return false;
      }
      counts := counts[key := counts[key] + 1];
      return true;
    }
  }
}
