/** Counting windows: the Redis fixed window, the in-memory fallback and the
    Slack alert budget are one small machine with three settings. The theorems
    bound what any history of calls on one key can let through. */
module WindowLimits {
  import opened Prelude

  /** Which of the three counters is meant. */
  datatype Kind = RedisFixed | Fallback | Slack

  /** One call on a key: when, with which limit, and (for the sliding window)
      the text of the set member it adds. */
  datatype Call = Call(at: real, limit: int, tag: nat)

  /** The stored counter and the end of its window. */
  datatype Cell = Cell(count: nat, until: real)

  /** Redis drops a key at its expiry; the other two keep it through that instant. */
  predicate Lapsed(kind: Kind, cell: Cell, now: real) {
    if kind.RedisFixed? then now >= cell.until else now > cell.until
  }

  function Current(kind: Kind, span: real, cell: Option<Cell>, now: real): Cell {
    if cell.None? || Lapsed(kind, cell.value, now) then Cell(0, now + span) else cell.value
  }

  /** The fallback lets the first request of a window through whatever its limit. */
  predicate Allows(kind: Kind, cell: Cell, limit: int) {
    cell.count < limit || (kind.Fallback? && cell.count == 0)
  }

  /** Redis counts refused requests too; the other two count admitted ones. */
  function Bump(kind: Kind, cell: Cell, limit: int): Cell {
    if kind.RedisFixed? || Allows(kind, cell, limit) then cell.(count := cell.count + 1) else cell
  }

  function Next(kind: Kind, span: real, cell: Option<Cell>, call: Call): Cell {
    Bump(kind, Current(kind, span, cell, call.at), call.limit)
  }

  predicate Answer(kind: Kind, span: real, cell: Option<Cell>, call: Call) {
    Allows(kind, Current(kind, span, cell, call.at), call.limit)
  }

  /** The most requests one window may admit under limit `limit`. */
  function Cap(kind: Kind, limit: int): nat {
    Max(if kind.Fallback? then 1 else 0, limit)
  }

  // ----- histories -----

  ghost predicate Clocked(calls: seq<Call>) {
    forall i, j :: 0 <= i <= j < |calls| ==> calls[i].at <= calls[j].at
  }

  /** The counter after a history of calls, starting from no counter. */
  ghost function After(kind: Kind, span: real, calls: seq<Call>): Option<Cell> {
    if calls == [] then None
    else Some(Next(kind, span, After(kind, span, calls[..|calls| - 1]), calls[|calls| - 1]))
  }

  /** Was call `i` let through? */
  ghost predicate Allowed(kind: Kind, span: real, calls: seq<Call>, i: nat)
    requires i < |calls|
  {
    Answer(kind, span, After(kind, span, calls[..i]), calls[i])
  }

  /** The window call `i` falls in, numbered from 1. */
  ghost function WindowOf(kind: Kind, span: real, calls: seq<Call>, i: nat): nat
    requires i < |calls|
  {
    var cell := After(kind, span, calls[..i]);
    if cell.None? then 1
    else
      assert i > 0;
      var previous := WindowOf(kind, span, calls, i - 1);
      if Lapsed(kind, cell.value, calls[i].at) then previous + 1 else previous
  }

  ghost function Last(kind: Kind, span: real, calls: seq<Call>, n: nat): nat
    requires n <= |calls|
  {
    if n == 0 then 0 else WindowOf(kind, span, calls, n - 1)
  }

  lemma AfterStep(kind: Kind, span: real, calls: seq<Call>, i: nat)
    requires i < |calls|
    ensures After(kind, span, calls[..i + 1]) == Some(Next(kind, span, After(kind, span, calls[..i]), calls[i]))
  {
    assert calls[..i + 1][..i] == calls[..i];
  }

  /** Requests admitted under a limit of at most `limit` among the first `n`
      calls, in window `w`. */
  ghost function AdmittedInWindow(kind: Kind, span: real, calls: seq<Call>, n: nat, limit: int, w: nat): nat
    requires n <= |calls|
  {
    if n == 0 then 0
    else
      var earlier := AdmittedInWindow(kind, span, calls, n - 1, limit, w);
      if Allowed(kind, span, calls, n - 1) && calls[n - 1].limit <= limit && WindowOf(kind, span, calls, n - 1) == w
      then earlier + 1 else earlier
  }

  /** Windows past the current one are still empty; the current one has admitted
      no more than its counter says. */
  lemma {:induction false} WindowTotals(kind: Kind, span: real, calls: seq<Call>, n: nat, limit: int, w: nat)
    requires n <= |calls|
    ensures AdmittedInWindow(kind, span, calls, n, limit, w) <= Cap(kind, limit)
    ensures w > Last(kind, span, calls, n) ==> AdmittedInWindow(kind, span, calls, n, limit, w) == 0
    ensures n > 0 && w == Last(kind, span, calls, n) ==>
              AdmittedInWindow(kind, span, calls, n, limit, w) <= After(kind, span, calls[..n]).value.count
  {
    if n > 0 {
      WindowTotals(kind, span, calls, n - 1, limit, w);
      AfterStep(kind, span, calls, n - 1);
      if n > 1 {
        AfterStep(kind, span, calls, n - 2);
      }
    }
  }

  /** Each kind admits at most its cap per window. */
  lemma AtMostCapPerWindow(kind: Kind, span: real, calls: seq<Call>, limit: int, w: nat)
    ensures AdmittedInWindow(kind, span, calls, |calls|, limit, w) <= Cap(kind, limit)
  {
    WindowTotals(kind, span, calls, |calls|, limit, w);
  }

  // ----- which calls pass, read off the list -----

  /** A call this long after its window began starts a new one. */
  predicate Past(kind: Kind, span: real, begun: real, now: real) {
    if kind.RedisFixed? then now >= begun + span else now > begun + span
  }

  /** The first call of call `i`'s window: windows follow each other from the first
      call on, each begun by the first call past its predecessor. */
  ghost function FirstOf(kind: Kind, span: real, calls: seq<Call>, i: nat): (first: nat)
    requires i < |calls|
    ensures first <= i
  {
    if i == 0 then 0
    else
      var first := FirstOf(kind, span, calls, i - 1);
      if Past(kind, span, calls[first].at, calls[i].at) then i else first
  }

  /** The calls from `lo` up to `hi` that weigh on a later one: all of them for Redis,
      those let through for the other two. */
  ghost function Weight(kind: Kind, span: real, calls: seq<Call>, lo: nat, hi: nat): nat
    requires lo <= hi <= |calls|
  {
    if lo == hi then 0
    else Weight(kind, span, calls, lo, hi - 1) + if kind.RedisFixed? || Allowed(kind, span, calls, hi - 1) then 1 else 0
  }

  /** The stored counter after call `i` is its window's weight, and ends a window
      length after the window's first call. */
  lemma {:induction false} CellIsWindow(kind: Kind, span: real, calls: seq<Call>, i: nat)
    requires i < |calls|
    ensures var first := FirstOf(kind, span, calls, i);
            After(kind, span, calls[..i + 1])
            == Some(Cell(Weight(kind, span, calls, first, i + 1), calls[first].at + span))
  {
    AfterStep(kind, span, calls, i);
    if i > 0 {
      CellIsWindow(kind, span, calls, i - 1);
      assert calls[..i - 1 + 1] == calls[..i];
    } else {
      assert calls[..0] == [];
    }
    assert Weight(kind, span, calls, i, i) == 0;
  }

  /** In every history, a call is let through exactly when the calls before it in its
      window that weigh are fewer than its limit; the fallback also lets the first
      call of a window through, whatever the limit. */
  lemma AllowedExactly(kind: Kind, span: real, calls: seq<Call>, i: nat)
    requires i < |calls|
    ensures var first := FirstOf(kind, span, calls, i);
            Allowed(kind, span, calls, i) <==>
              Weight(kind, span, calls, first, i) < calls[i].limit || (kind.Fallback? && first == i)
  {
    assert Weight(kind, span, calls, i, i) == 0;
    if i > 0 {
      CellIsWindow(kind, span, calls, i - 1);
      assert calls[..i - 1 + 1] == calls[..i];
      if kind.Fallback? && FirstOf(kind, span, calls, i) < i {
        FirstPasses(span, calls, FirstOf(kind, span, calls, i), i);
      }
    } else {
      assert calls[..0] == [];
    }
  }

  /** In the fallback the first call of a window always weighs. */
  lemma {:induction false} FirstPasses(span: real, calls: seq<Call>, first: nat, hi: nat)
    requires first < hi <= |calls| && FirstOf(Fallback, span, calls, hi - 1) == first
    ensures Weight(Fallback, span, calls, first, hi) > 0
    decreases hi
  {
    if first == hi - 1 {
      assert Weight(Fallback, span, calls, first, first) == 0;
      if first > 0 {
        CellIsWindow(Fallback, span, calls, first - 1);
        assert calls[..first - 1 + 1] == calls[..first];
      } else {
        assert calls[..0] == [];
      }
    } else {
      FirstPasses(span, calls, first, hi - 1);
    }
  }

  /** Calls let through among those from `lo` up to `hi`. */
  ghost function Passed(kind: Kind, span: real, calls: seq<Call>, lo: nat, hi: nat): nat
    requires lo <= hi <= |calls|
  {
    if lo == hi then 0
    else Passed(kind, span, calls, lo, hi - 1) + if Allowed(kind, span, calls, hi - 1) then 1 else 0
  }

  lemma {:induction false} WeightIs(kind: Kind, span: real, calls: seq<Call>, lo: nat, hi: nat)
    requires lo <= hi <= |calls|
    ensures Weight(kind, span, calls, lo, hi)
         == if kind.RedisFixed? then hi - lo else Passed(kind, span, calls, lo, hi)
  {
    if lo < hi {
      WeightIs(kind, span, calls, lo, hi - 1);
    }
  }

  /** Under one limit, the calls of a window pass until the cap is reached, and then no
      more: `m` calls let exactly the smaller of `m` and the cap through. */
  lemma {:induction false} ExactlyCapPass(kind: Kind, span: real, calls: seq<Call>, first: nat, hi: nat, limit: int)
    requires first < hi <= |calls| && FirstOf(kind, span, calls, hi - 1) == first
    requires forall j :: first <= j < hi ==> calls[j].limit == limit
    ensures Passed(kind, span, calls, first, hi)
         == if hi - first <= Cap(kind, limit) then hi - first else Cap(kind, limit)
    decreases hi
  {
    AllowedExactly(kind, span, calls, hi - 1);
    WeightIs(kind, span, calls, first, hi - 1);
    if first < hi - 1 {
      ExactlyCapPass(kind, span, calls, first, hi - 1, limit);
    }
  }

  // ----- any span of one window length -----

  /** A span of one window length; closed on the right where the counter itself
      keeps its last instant. */
  ghost predicate InSpan(kind: Kind, span: real, from: real, at: real) {
    from <= at && if kind.RedisFixed? then at < from + span else at <= from + span
  }

  ghost function AdmittedInSpan(kind: Kind, span: real, calls: seq<Call>, n: nat, limit: int, from: real): nat
    requires n <= |calls|
  {
    if n == 0 then 0
    else
      var earlier := AdmittedInSpan(kind, span, calls, n - 1, limit, from);
      if Allowed(kind, span, calls, n - 1) && calls[n - 1].limit <= limit && InSpan(kind, span, from, calls[n - 1].at)
      then earlier + 1 else earlier
  }

  /** The stored end of window is one span after some instant at or before now,
      and a call of an older window is never later than that instant. */
  lemma {:induction false} WindowStartsInOrder(kind: Kind, span: real, calls: seq<Call>, i: nat, j: nat)
    requires Clocked(calls) && i < j < |calls|
    ensures WindowOf(kind, span, calls, i) <= WindowOf(kind, span, calls, j)
    ensures WindowOf(kind, span, calls, i) < WindowOf(kind, span, calls, j)
        ==> calls[i].at + span <= After(kind, span, calls[..j + 1]).value.until
    decreases j
  {
    AfterStep(kind, span, calls, j);
    AfterStep(kind, span, calls, j - 1);
    assert calls[i].at <= calls[j].at;
    if i < j - 1 {
      WindowStartsInOrder(kind, span, calls, i, j - 1);
    }
  }

  /** A new window begins only when the stored one has lapsed. */
  lemma NewWindowMeansLapsed(kind: Kind, span: real, calls: seq<Call>, j: nat)
    requires 0 < j < |calls|
    ensures WindowOf(kind, span, calls, j) <= WindowOf(kind, span, calls, j - 1) + 1
    ensures After(kind, span, calls[..j]).Some?
    ensures WindowOf(kind, span, calls, j) > WindowOf(kind, span, calls, j - 1)
        ==> Lapsed(kind, After(kind, span, calls[..j]).value, calls[j].at)
  {
    AfterStep(kind, span, calls, j - 1);
  }

  /** Two windows later is at least one full span later. */
  lemma {:induction false} TwoWindowsLater(kind: Kind, span: real, calls: seq<Call>, i: nat, j: nat)
    requires Clocked(calls) && i < j < |calls|
    requires WindowOf(kind, span, calls, j) >= WindowOf(kind, span, calls, i) + 2
    ensures if kind.RedisFixed? then calls[j].at >= calls[i].at + span else calls[j].at > calls[i].at + span
    decreases j
  {
    NewWindowMeansLapsed(kind, span, calls, j);
    assert calls[j - 1].at <= calls[j].at;
    if i < j - 1 {
      WindowStartsInOrder(kind, span, calls, i, j - 1);
      if WindowOf(kind, span, calls, j - 1) >= WindowOf(kind, span, calls, i) + 2 {
        TwoWindowsLater(kind, span, calls, i, j - 1);
      }
    }
  }

  /** Two calls of one span fall in the same window or in neighbouring ones. */
  lemma SpanMeetsTwoWindows(kind: Kind, span: real, calls: seq<Call>, i: nat, j: nat, from: real)
    requires Clocked(calls) && i <= j < |calls|
    requires InSpan(kind, span, from, calls[i].at) && InSpan(kind, span, from, calls[j].at)
    ensures WindowOf(kind, span, calls, i) <= WindowOf(kind, span, calls, j) <= WindowOf(kind, span, calls, i) + 1
  {
    if i < j {
      WindowStartsInOrder(kind, span, calls, i, j);
      if WindowOf(kind, span, calls, j) >= WindowOf(kind, span, calls, i) + 2 {
        TwoWindowsLater(kind, span, calls, i, j);
      }
    }
  }

  /** Before the first call of a span nothing was admitted in it; from there on
      it admits no more than two consecutive windows do. */
  lemma {:induction false} SpanWithinTwoWindows(
      kind: Kind, span: real, calls: seq<Call>, n: nat, limit: int, from: real, first: nat)
    requires Clocked(calls) && first < n <= |calls| && InSpan(kind, span, from, calls[first].at)
    requires forall k :: 0 <= k < first ==> !InSpan(kind, span, from, calls[k].at)
    ensures AdmittedInSpan(kind, span, calls, n, limit, from)
         <= AdmittedInWindow(kind, span, calls, n, limit, WindowOf(kind, span, calls, first))
          + AdmittedInWindow(kind, span, calls, n, limit, WindowOf(kind, span, calls, first) + 1)
  {
    if first < n - 1 {
      SpanWithinTwoWindows(kind, span, calls, n - 1, limit, from, first);
    } else {
      NothingBefore(kind, span, calls, first, limit, from);
    }
    if InSpan(kind, span, from, calls[n - 1].at) {
      SpanMeetsTwoWindows(kind, span, calls, first, n - 1, from);
    }
  }

  lemma {:induction false} NothingBefore(kind: Kind, span: real, calls: seq<Call>, n: nat, limit: int, from: real)
    requires n <= |calls| && forall k :: 0 <= k < n ==> !InSpan(kind, span, from, calls[k].at)
    ensures AdmittedInSpan(kind, span, calls, n, limit, from) == 0
  {
    if n > 0 {
      NothingBefore(kind, span, calls, n - 1, limit, from);
    }
  }

  /** Each kind admits at most twice its cap in any span of one window length. */
  lemma AtMostTwiceCapPerSpan(kind: Kind, span: real, calls: seq<Call>, limit: int, from: real)
    requires Clocked(calls)
    ensures AdmittedInSpan(kind, span, calls, |calls|, limit, from) <= 2 * Cap(kind, limit)
  {
    if first :| 0 <= first < |calls| && InSpan(kind, span, from, calls[first].at)
                && forall k :: 0 <= k < first ==> !InSpan(kind, span, from, calls[k].at) {
      SpanWithinTwoWindows(kind, span, calls, |calls|, limit, from, first);
      var w := WindowOf(kind, span, calls, first);
      AtMostCapPerWindow(kind, span, calls, limit, w);
      AtMostCapPerWindow(kind, span, calls, limit, w + 1);
    } else {
      NoFirstMeansNone(kind, span, calls, from, |calls|);
      NothingBefore(kind, span, calls, |calls|, limit, from);
    }
  }

  lemma {:induction false} NoFirstMeansNone(kind: Kind, span: real, calls: seq<Call>, from: real, n: nat)
    requires n <= |calls|
    requires !exists first :: 0 <= first < |calls| && InSpan(kind, span, from, calls[first].at)
                            && forall k :: 0 <= k < first ==> !InSpan(kind, span, from, calls[k].at)
    ensures forall k :: 0 <= k < n ==> !InSpan(kind, span, from, calls[k].at)
  {
    if n > 0 {
      NoFirstMeansNone(kind, span, calls, from, n - 1);
    }
  }
}
