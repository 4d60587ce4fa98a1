/** The consumer's in-memory duplicate check: an insertion-ordered set of event
    ids that drops its oldest half on overflow, backed by Redis keys with a TTL. */
module DedupMemory {
  import opened Prelude

  type Event = string

  const CAPACITY := 10_000
  const EVICTED := 5_000

  /** Assigning to a key that is present keeps its place. */
  function Mark(ids: seq<Event>, e: Event): seq<Event> {
    var grown := if e in ids then ids else ids + [e];
    if |grown| > CAPACITY then grown[EVICTED..] else grown
  }

  function Remembered(marks: seq<Event>): seq<Event> {
    if marks == [] then [] else Mark(Remembered(marks[..|marks| - 1]), marks[|marks| - 1])
  }

  ghost predicate Distinct(ids: seq<Event>) {
    forall i, j :: 0 <= i < j < |ids| ==> ids[i] != ids[j]
  }

  /** The memory is bounded, holds no id twice, and holds only marked ids: a new
      event is never taken for a duplicate. */
  lemma {:induction false} OnlyMarkedAreRemembered(marks: seq<Event>)
    ensures |Remembered(marks)| <= 10_000 && Distinct(Remembered(marks))
    ensures forall e :: e in Remembered(marks) ==> e in marks
  {
    if marks != [] {
      var n := |marks| - 1;
      OnlyMarkedAreRemembered(marks[..n]);
      assert marks == marks[..n] + [marks[n]];
    }
  }

  /** At most `k` ids follow `e`. */
  ghost predicate Near(ids: seq<Event>, e: Event, k: nat) {
    exists i :: 0 <= i < |ids| && ids[i] == e && |ids| - 1 - i <= k
  }

  lemma MarkKeepsNear(ids: seq<Event>, e: Event, k: nat, m: Event)
    requires |ids| <= CAPACITY && Near(ids, e, k) && k < EVICTED
    ensures Near(Mark(ids, m), e, k + 1)
  {
    var i :| 0 <= i < |ids| && ids[i] == e && |ids| - 1 - i <= k;
    var after := Mark(ids, m);
    var place := if m !in ids && |ids| == CAPACITY then i - EVICTED else i;
    assert after[place] == e;
  }

  lemma NewIsLast(ids: seq<Event>, e: Event)
    requires e !in ids
    ensures Near(Mark(ids, e), e, 0)
  {
    var after := Mark(ids, e);
    assert after[|after| - 1] == e;
  }

  lemma RememberedStep(marks: seq<Event>, m: Event, longer: seq<Event>)
    requires longer == marks + [m]
    ensures Remembered(longer) == Mark(Remembered(marks), m)
  {
    assert longer[..|longer| - 1] == marks;
  }

  /** A newly inserted id is remembered through the next 5,000 marks, with at most
      that many ids behind it. */
  lemma {:induction false} NewIsRemembered(marks: seq<Event>, e: Event, later: seq<Event>)
    requires e !in Remembered(marks) && |later| <= 5_000
    ensures Near(Remembered(marks + [e] + later), e, |later|)
    ensures e in Remembered(marks + [e] + later)
  {
    var all := marks + [e] + later;
    if later == [] {
      RememberedStep(marks, e, all);
      NewIsLast(Remembered(marks), e);
    } else {
      var n := |later| - 1;
      var before := marks + [e] + later[..n];
      NewIsRemembered(marks, e, later[..n]);
      OnlyMarkedAreRemembered(before);
      RememberedStep(before, later[n], all);
      MarkKeepsNear(Remembered(before), e, n, later[n]);
    }
  }

  /** Exactly what a mark forgets: only a new id that overflows the memory evicts,
      and it evicts the older half, however recently those ids were marked again. */
  lemma ForgetsExactly(ids: seq<Event>, e: Event, m: Event)
    requires Distinct(ids) && |ids| <= 10_000 && e in ids
    ensures e !in Mark(ids, m) <==> m !in ids && |ids| == 10_000 && e in ids[..5_000]
  {
    var after := Mark(ids, m);
    if m !in ids && |ids| == CAPACITY {
      var i :| 0 <= i < |ids| && ids[i] == e;
      if i < EVICTED {
        assert ids[..EVICTED][i] == e;
        assert forall j :: 0 <= j < |after| ==> after[j] == if j < CAPACITY - EVICTED then ids[j + EVICTED] else m;
      } else {
        assert after[i - EVICTED] == e;
        assert forall j :: 0 <= j < EVICTED ==> ids[..EVICTED][j] == ids[j];
      }
    } else if m !in ids {
      assert forall x :: x in ids ==> x in ids + [m];
    }
  }

  /** Ids that differ in length. */
  function Label(n: nat): (e: Event)
    ensures |e| == n
  {
    seq(n, i => 'x')
  }

  function Labels(n: nat): (ids: seq<Event>)
    ensures |ids| == n && forall i :: 0 <= i < n ==> |ids[i]| == i
  {
    if n == 0 then [] else Labels(n - 1) + [Label(n - 1)]
  }

  lemma {:induction false} LabelsAreRemembered(n: nat)
    requires n <= CAPACITY
    ensures Remembered(Labels(n)) == Labels(n)
  {
    if n > 0 {
      LabelsAreRemembered(n - 1);
      RememberedStep(Labels(n - 1), Label(n - 1), Labels(n));
      var ids, e := Labels(n - 1), Label(n - 1);
      assert forall i :: 0 <= i < |ids| ==> |ids[i]| != |e|;
    }
  }

  /** A repeated mark renews nothing: in some history an id is marked, marked again
      last of all, and forgotten by the very next mark. */
  lemma RemarkIsNotRenewed() returns (marks: seq<Event>, e: Event, m: Event)
    ensures e in Remembered(marks) && Remembered(marks + [e]) == Remembered(marks)
    ensures e !in Remembered(marks + [e] + [m])
  {
    marks, e, m := Labels(CAPACITY), Label(0), Label(CAPACITY);
    LabelsAreRemembered(CAPACITY);
    var ids := Remembered(marks);
    assert |ids[0]| == 0 && ids[0] == e;
    RememberedStep(marks, e, marks + [e]);
    RememberedStep(marks + [e], m, marks + [e] + [m]);
    assert forall i :: 0 <= i < |ids| ==> |ids[i]| != |m|;
    assert Distinct(ids) by {
      forall i, j | 0 <= i < j < |ids| ensures ids[i] != ids[j] {
        assert |ids[i]| == i && |ids[j]| == j;
      }
    }
    assert ids[..EVICTED][0] == e;
    ForgetsExactly(ids, e, m);
  }

  class Checker {
    var ids: seq<Event>
    var keys: Option<map<Event, int>>  // Redis: key to expiry time, if configured
    const ttl: int
    ghost var marks: seq<Event>

    ghost predicate Valid()
      reads this
    {
      ids == Remembered(marks)
    }

    constructor (useRedis: bool, ttl: int)
      ensures Valid() && marks == [] && this.ttl == ttl && keys == if useRedis then Some(map[]) else None
    {
      this.ids, this.marks, this.ttl := [], [], ttl;
      this.keys := if useRedis then Some(map[]) else None;
    }

    method IsProcessed(e: Event, now: int) returns (seen: bool)
      requires Valid()
      ensures seen <==> e in Remembered(marks) || (keys.Some? && e in keys.value && now < keys.value[e])
    {
      if e in ids {
        return true;
      }
      if keys.Some? {
        return e in keys.value && now < keys.value[e];
      }
      return false;
    }

    /** Marks an event. When Redis raises, the local mark stays. */
    method MarkProcessed(e: Event, now: int, redisRaises: bool) returns (raised: bool)
      requires Valid()
      modifies this
      ensures Valid() && marks == old(marks) + [e] && raised == (keys.Some? && redisRaises)
      ensures keys == if old(keys).Some? && !redisRaises then Some(old(keys).value[e := now + ttl]) else old(keys)
    {
      OnlyMarkedAreRemembered(marks);
      marks := marks + [e];
      assert marks[..|marks| - 1] == old(marks);
      if e !in ids {
        ids := ids + [e];
      }
      ghost var grown := ids;
      if |ids| > CAPACITY {
        var popped := 0;
        while popped < EVICTED && ids != []
          invariant 0 <= popped <= EVICTED && popped <= |grown|
          invariant ids == grown[popped..] && keys == old(keys) && marks == old(marks) + [e]
        {
          ids := ids[1..];
          popped := popped + 1;
        }
      }
      if keys.Some? {
        if redisRaises {
          return true;
        }
        keys := Some(keys.value[e := now + ttl]);
      }
      return false;
    }
  }
}
