/** Database reachability over a call graph: the fixpoint that marks functions,
    the `via` chain it leaves behind, and the class-hierarchy worklists. Name
    resolution is an input: each call site comes with its resolved targets. */
module DbReach {
  import opened Prelude

  const MAX_DEPTH := 8

  /** A resolved call target: one of the collected functions, or a class. */
  datatype Target = Fn(index: nat) | Cls

  datatype CallSite = CallSite(targets: seq<Target>, isDbCall: bool)

  /** `sites[f]` are the calls in function `f`; `repository[f]` says that its
      enclosing class is a repository. */
  datatype Program = Program(sites: seq<seq<CallSite>>, repository: seq<bool>) {
    ghost predicate Valid() {
      && |repository| == |sites|
      && forall f, k, t ::
           0 <= f < |sites| && 0 <= k < |sites[f]| && 0 <= t < |sites[f][k].targets| && sites[f][k].targets[t].Fn?
           ==> sites[f][k].targets[t].index < |sites|
    }
  }

  type Graph = seq<seq<nat>>

  ghost predicate Closed(g: Graph) {
    forall u, k :: 0 <= u < |g| && 0 <= k < |g[u]| ==> g[u][k] < |g|
  }

  /** A nonempty walk along edges of `g`. */
  ghost predicate Walk(g: Graph, path: seq<nat>) {
    && path != []
    && (forall i :: 0 <= i < |path| ==> path[i] < |g|)
    && (forall i :: 0 <= i < |path| - 1 ==> path[i + 1] in g[path[i]])
  }

  ghost predicate WalkFromTo(g: Graph, path: seq<nat>, u: nat, v: nat) {
    Walk(g, path) && path[0] == u && path[|path| - 1] == v
  }

  ghost predicate Reaches(g: Graph, u: nat, v: nat) {
    exists path :: WalkFromTo(g, path, u, v)
  }

  lemma ReachesSelf(g: Graph, u: nat)
    requires u < |g|
    ensures Reaches(g, u, u)
  {
    assert WalkFromTo(g, [u], u, u);
  }

  lemma ReachesSnoc(g: Graph, u: nat, v: nat, w: nat)
    requires Reaches(g, u, v) && v < |g| && w in g[v] && w < |g|
    ensures Reaches(g, u, w)
  {
    var path :| WalkFromTo(g, path, u, v);
    assert WalkFromTo(g, path + [w], u, w);
  }

  lemma ReachesCons(g: Graph, u: nat, v: nat, w: nat)
    requires u < |g| && v in g[u] && Reaches(g, v, w)
    ensures Reaches(g, u, w)
  {
    var path :| WalkFromTo(g, path, v, w);
    var longer := [u] + path;
    forall i | 0 <= i < |longer| - 1 ensures longer[i + 1] in g[longer[i]] {
      if i > 0 {
        assert path[i] in g[path[i - 1]];
      }
    }
    assert WalkFromTo(g, longer, u, w);
  }

  /** A set that contains the start and is closed under edges holds every walk. */
  lemma {:induction false} ClosedSetHoldsWalk(g: Graph, inside: set<nat>, path: seq<nat>, i: nat)
    requires Walk(g, path) && i < |path| && path[0] in inside
    requires forall u, v :: u in inside && u < |g| && v in g[u] ==> v in inside
    ensures path[i] in inside
  {
    if i > 0 {
      ClosedSetHoldsWalk(g, inside, path, i - 1);
      assert path[i - 1 + 1] in g[path[i - 1]];
    }
  }

  // ----- seeds and edges -----

  ghost predicate DirectCall(site: CallSite) {
    site.targets == [] && site.isDbCall
  }

  /** A function that touches the database by itself. */
  ghost predicate Seed(p: Program, f: nat)
    requires f < |p.sites| && |p.repository| == |p.sites|
  {
    p.repository[f] || exists k :: 0 <= k < |p.sites[f]| && DirectCall(p.sites[f][k])
  }

  ghost predicate Calls(p: Program, f: nat, t: nat)
    requires f < |p.sites|
  {
    exists k :: 0 <= k < |p.sites[f]| && Fn(t) in p.sites[f][k].targets
  }

  /** The declarative meaning: some chain of calls leads to a seed. */
  ghost predicate TouchesDatabase(p: Program, g: Graph, f: nat)
    requires p.Valid() && |g| == |p.sites|
  {
    exists s :: 0 <= s < |p.sites| && Seed(p, s) && Reaches(g, f, s)
  }

  /** `g` is the call graph of `p`. */
  ghost predicate CallGraph(p: Program, g: Graph) {
    && |g| == |p.sites|
    && forall f, t :: 0 <= f < |g| ==> (t in g[f] <==> Calls(p, f, t))
  }

  function FunctionTargets(targets: seq<Target>): (r: seq<nat>)
    ensures forall t :: t in r <==> Fn(t) in targets
  {
    if targets == [] then []
    else
      var rest := FunctionTargets(targets[1..]);
      assert forall t :: Fn(t) in targets <==> targets[0] == Fn(t) || Fn(t) in targets[1..];
      match targets[0] case Fn(t) => [t] + rest case Cls => rest
  }

  /** The first loop of `_solve`: the edges and the initial marks. */
  method CollectEdges(p: Program) returns (g: Graph, seeds: seq<bool>)
    requires p.Valid()
    ensures CallGraph(p, g) && Closed(g)
    ensures |seeds| == |p.sites| && forall f :: 0 <= f < |seeds| ==> (seeds[f] <==> Seed(p, f))
  {
    g, seeds := [], [];
    for f := 0 to |p.sites|
      invariant |g| == |seeds| == f
      invariant forall u, t :: 0 <= u < f ==> (t in g[u] <==> Calls(p, u, t))
      invariant forall u :: 0 <= u < f ==> (seeds[u] <==> Seed(p, u))
    {
      var targets: seq<nat> := [];
      var direct := false;
      for k := 0 to |p.sites[f]|
        invariant direct <==> exists j :: 0 <= j < k && DirectCall(p.sites[f][j])
        invariant forall t :: t in targets <==> exists j :: 0 <= j < k && Fn(t) in p.sites[f][j].targets
      {
        var site := p.sites[f][k];
        if site.targets == [] && site.isDbCall {
          assert DirectCall(p.sites[f][k]);
          direct := true;
        }
        targets := targets + FunctionTargets(site.targets);
      }
      g, seeds := g + [targets], seeds + [direct || p.repository[f]];
    }
    forall u, k | 0 <= u < |g| && 0 <= k < |g[u]| ensures g[u][k] < |g| {
      assert Calls(p, u, g[u][k]);
      var j :| 0 <= j < |p.sites[u]| && Fn(g[u][k]) in p.sites[u][j].targets;
      var t :| 0 <= t < |p.sites[u][j].targets| && p.sites[u][j].targets[t] == Fn(g[u][k]);
    }
  }

  /** `next((t for t in edges if t.reaches), None)` */
  function FirstMarked(edges: seq<nat>, reaches: seq<bool>): (r: Option<nat>)
    requires forall k :: 0 <= k < |edges| ==> edges[k] < |reaches|
    ensures r.Some? ==> r.value in edges && r.value < |reaches| && reaches[r.value]
    ensures r.None? ==> forall k :: 0 <= k < |edges| ==> !reaches[edges[k]]
  {
    if edges == [] then None
    else if reaches[edges[0]] then Some(edges[0])
    else FirstMarked(edges[1..], reaches)
  }

  ghost function Unmarked(reaches: seq<bool>): set<nat> {
    set i: nat | i < |reaches| && !reaches[i]
  }

  /** The `via` link of `f` is a real call to a marked function of lower rank;
      only marked functions that are not seeds have one. */
  ghost predicate ViaOkAt(g: Graph, seeds: seq<bool>, reaches: seq<bool>, via: seq<Option<nat>>, rank: seq<nat>, f: nat)
    requires |seeds| == |reaches| == |via| == |rank| == |g| && f < |g|
  {
    match via[f]
    case Some(t) => reaches[f] && !seeds[f] && t in g[f] && t < |g| && reaches[t] && rank[t] < rank[f]
    case None => reaches[f] == seeds[f]
  }

  ghost predicate ViaOk(g: Graph, seeds: seq<bool>, reaches: seq<bool>, via: seq<Option<nat>>, rank: seq<nat>) {
    && |seeds| == |reaches| == |via| == |rank| == |g|
    && forall f :: 0 <= f < |g| ==> ViaOkAt(g, seeds, reaches, via, rank, f)
  }

  ghost predicate LeadsToSeed(g: Graph, seeds: seq<bool>, f: nat) {
    exists s :: 0 <= s < |seeds| && seeds[s] && Reaches(g, f, s)
  }

  ghost predicate MarksSound(g: Graph, seeds: seq<bool>, reaches: seq<bool>) {
    forall f :: 0 <= f < |reaches| && reaches[f] ==> LeadsToSeed(g, seeds, f)
  }

  /** No unmarked function calls a marked one. */
  ghost predicate Settled(g: Graph, reaches: seq<bool>, f: nat)
    requires f < |g| == |reaches| && Closed(g)
  {
    reaches[f] || forall k :: 0 <= k < |g[f]| ==> !reaches[g[f][k]]
  }

  lemma MarkKeepsVia(g: Graph, seeds: seq<bool>, reaches: seq<bool>, via: seq<Option<nat>>, rank: seq<nat>,
                     f: nat, t: nat, top: nat)
    requires ViaOk(g, seeds, reaches, via, rank)
    requires f < |g| && !reaches[f] && t in g[f] && t < |g| && reaches[t]
    requires forall i :: 0 <= i < |rank| ==> rank[i] < top
    ensures ViaOk(g, seeds, reaches[f := true], via[f := Some(t)], rank[f := top])
  {
    var reaches', via', rank' := reaches[f := true], via[f := Some(t)], rank[f := top];
    forall u | 0 <= u < |g| ensures ViaOkAt(g, seeds, reaches', via', rank', u) {
      assert ViaOkAt(g, seeds, reaches, via, rank, u) && ViaOkAt(g, seeds, reaches, via, rank, f);
    }
  }

  lemma MarkKeepsSound(g: Graph, seeds: seq<bool>, reaches: seq<bool>, f: nat, t: nat)
    requires MarksSound(g, seeds, reaches) && |reaches| == |g|
    requires f < |g| && !reaches[f] && t in g[f] && t < |g| && reaches[t]
    ensures MarksSound(g, seeds, reaches[f := true])
    ensures Unmarked(reaches[f := true]) < Unmarked(reaches)
  {
    assert LeadsToSeed(g, seeds, t);
    var s :| 0 <= s < |seeds| && seeds[s] && Reaches(g, t, s);
    ReachesCons(g, f, t, s);
    assert LeadsToSeed(g, seeds, f);
    assert f in Unmarked(reaches) && f !in Unmarked(reaches[f := true]);
  }

  /** One pass of the `while changed` loop over all functions, in place. */
  method Sweep(
      g: Graph, seeds: seq<bool>, reaches0: seq<bool>, via0: seq<Option<nat>>, ghost rank0: seq<nat>,
      ghost bound0: nat)
    returns (reaches: seq<bool>, via: seq<Option<nat>>, changed: bool, ghost rank: seq<nat>, ghost bound: nat)
    requires Closed(g) && ViaOk(g, seeds, reaches0, via0, rank0) && MarksSound(g, seeds, reaches0)
    requires forall i :: 0 <= i < |rank0| ==> rank0[i] < bound0
    ensures ViaOk(g, seeds, reaches, via, rank) && MarksSound(g, seeds, reaches)
    ensures forall i :: 0 <= i < |rank| ==> rank[i] < bound
    ensures if changed then Unmarked(reaches) < Unmarked(reaches0) else reaches == reaches0
    ensures !changed ==> forall f :: 0 <= f < |g| ==> Settled(g, reaches, f)
  {
    reaches, via, changed, rank, bound := reaches0, via0, false, rank0, bound0;
    for f := 0 to |g|
      invariant ViaOk(g, seeds, reaches, via, rank) && MarksSound(g, seeds, reaches)
      invariant forall i :: 0 <= i < |rank| ==> rank[i] < bound
      invariant if changed then Unmarked(reaches) < Unmarked(reaches0) else reaches == reaches0
      invariant !changed ==> forall u :: 0 <= u < f ==> Settled(g, reaches, u)
    {
      if !reaches[f] {
        var target := FirstMarked(g[f], reaches);
        if target.Some? {
          MarkKeepsVia(g, seeds, reaches, via, rank, f, target.value, bound);
          MarkKeepsSound(g, seeds, reaches, f, target.value);
          reaches, via, changed := reaches[f := true], via[f := target], true;
          rank, bound := rank[f := bound], bound + 1;
        }
      }
    }
  }

  /** `_solve`: a function is marked exactly when some chain of calls from it
      ends at a function that touches the database itself. The ghost `rank`
      shows that the `via` links cannot form a cycle. */
  method Solve(p: Program)
    returns (g: Graph, seeds: seq<bool>, reaches: seq<bool>, via: seq<Option<nat>>, ghost rank: seq<nat>)
    requires p.Valid()
    ensures CallGraph(p, g) && Closed(g)
    ensures |seeds| == |p.sites| && forall f :: 0 <= f < |seeds| ==> (seeds[f] <==> Seed(p, f))
    ensures |reaches| == |p.sites| && forall f :: 0 <= f < |reaches| ==> (reaches[f] <==> TouchesDatabase(p, g, f))
    ensures ViaOk(g, seeds, reaches, via, rank)
  {
    g, seeds := CollectEdges(p);
    reaches, via, rank := seeds, seq(|seeds|, _ => None), seq(|seeds|, _ => 0);
    ghost var bound := 1;
    forall f | 0 <= f < |reaches| && reaches[f] ensures LeadsToSeed(g, seeds, f) {
      ReachesSelf(g, f);
    }
    var changed := true;
    while changed
      invariant ViaOk(g, seeds, reaches, via, rank) && MarksSound(g, seeds, reaches)
      invariant forall i :: 0 <= i < |rank| ==> rank[i] < bound
      invariant !changed ==> forall f :: 0 <= f < |g| ==> Settled(g, reaches, f)
      decreases Unmarked(reaches), changed
    {
      reaches, via, changed, rank, bound := Sweep(g, seeds, reaches, via, rank, bound);
    }
    MarksAreExact(p, g, seeds, reaches, via, rank);
  }

  /** Sound marks that no call can extend are exactly the functions that reach
      a seed: the unmarked ones are closed under calls and hold no seed. */
  lemma MarksAreExact(p: Program, g: Graph, seeds: seq<bool>, reaches: seq<bool>, via: seq<Option<nat>>, rank: seq<nat>)
    requires p.Valid() && |g| == |p.sites| && Closed(g)
    requires ViaOk(g, seeds, reaches, via, rank) && MarksSound(g, seeds, reaches)
    requires forall f :: 0 <= f < |seeds| ==> (seeds[f] <==> Seed(p, f))
    requires forall f :: 0 <= f < |g| ==> Settled(g, reaches, f)
    ensures forall f :: 0 <= f < |reaches| ==> (reaches[f] <==> TouchesDatabase(p, g, f))
  {
    forall f | 0 <= f < |reaches| ensures reaches[f] <==> TouchesDatabase(p, g, f) {
      if reaches[f] {
        assert LeadsToSeed(g, seeds, f);
        var s :| 0 <= s < |seeds| && seeds[s] && Reaches(g, f, s);
        assert Seed(p, s);
      } else {
        forall s | 0 <= s < |p.sites| && Reaches(g, f, s) ensures !Seed(p, s) {
          UnmarkedStaysUnmarked(g, reaches, f, s);
          assert ViaOkAt(g, seeds, reaches, via, rank, s);
        }
      }
    }
  }

  lemma UnmarkedStaysUnmarked(g: Graph, reaches: seq<bool>, f: nat, s: nat)
    requires Closed(g) && |reaches| == |g| && f < |g| && !reaches[f] && Reaches(g, f, s)
    requires forall u :: 0 <= u < |g| ==> Settled(g, reaches, u)
    ensures s < |g| && !reaches[s]
  {
    var path :| WalkFromTo(g, path, f, s);
    forall u, v | u in Unmarked(reaches) && u < |g| && v in g[u] ensures v in Unmarked(reaches) {
      assert Settled(g, reaches, u);
      var k :| 0 <= k < |g[u]| && g[u][k] == v;
    }
    ClosedSetHoldsWalk(g, Unmarked(reaches), path, |path| - 1);
  }

  /** `_chain`: the `via` links from a marked function, cut at the depth cap. A
      chain shorter than the cap ends at a seed. */
  method Chain(g: Graph, seeds: seq<bool>, reaches: seq<bool>, via: seq<Option<nat>>, ghost rank: seq<nat>, f: nat)
    returns (chain: seq<nat>)
    requires ViaOk(g, seeds, reaches, via, rank) && f < |g| && reaches[f]
    ensures 0 < |chain| <= 8 && chain[0] == f
    ensures Walk(g, chain)
    ensures forall i :: 0 <= i < |chain| ==> reaches[chain[i]]
    ensures forall i, j :: 0 <= i < j < |chain| ==> chain[i] != chain[j]
    ensures forall i :: 0 <= i < |chain| - 1 ==> via[chain[i]] == Some(chain[i + 1])
    ensures |chain| < 8 ==> seeds[chain[|chain| - 1]]
  {
    chain := [];
    var current := Some(f);
    while current.Some? && |chain| < MAX_DEPTH
      invariant |chain| <= MAX_DEPTH
      invariant chain == [] ==> current == Some(f)
      invariant chain != [] ==> chain[0] == f && Walk(g, chain) && current == via[chain[|chain| - 1]]
      invariant current.Some? ==> current.value < |g| && reaches[current.value]
      invariant forall i :: 0 <= i < |chain| ==> chain[i] < |g| && reaches[chain[i]]
      invariant forall i :: 0 <= i < |chain| - 1 ==> via[chain[i]] == Some(chain[i + 1])
      invariant forall i, j :: 0 <= i < j < |chain| ==> rank[chain[j]] < rank[chain[i]]
      invariant current.Some? ==> forall i :: 0 <= i < |chain| ==> rank[current.value] < rank[chain[i]]
      decreases MAX_DEPTH - |chain|
    {
      assert ViaOkAt(g, seeds, reaches, via, rank, current.value);
      if chain != [] {
        assert ViaOkAt(g, seeds, reaches, via, rank, chain[|chain| - 1]);
      }
      chain := chain + [current.value];
      current := via[current.value];
    }
    assert ViaOkAt(g, seeds, reaches, via, rank, chain[|chain| - 1]);
  }

  ghost predicate SiteTouches(site: CallSite, reaches: seq<bool>) {
    DirectCall(site) || exists t: nat :: t < |reaches| && reaches[t] && Fn(t) in site.targets
  }

  /** Call `k` is the first of the block that touches the database. */
  ghost predicate FirstTouch(body: seq<CallSite>, reaches: seq<bool>, k: nat)
    requires k < |body|
  {
    SiteTouches(body[k], reaches) && forall j :: 0 <= j < k ==> !SiteTouches(body[j], reaches)
  }

  /** The report is empty for a direct call, and otherwise starts at a target. */
  ghost predicate Reports(site: CallSite, chain: seq<nat>) {
    if DirectCall(site) then chain == [] else chain != [] && Fn(chain[0]) in site.targets
  }

  /** `try_reaches`: a try block is reported exactly when one of its calls is a
      database call or has a marked target; the report is empty for a direct
      call and otherwise a chain that starts at a callee. */
  method TryReaches(
      g: Graph, seeds: seq<bool>, reaches: seq<bool>, via: seq<Option<nat>>, ghost rank: seq<nat>, body: seq<CallSite>)
    returns (report: Option<seq<nat>>)
    requires ViaOk(g, seeds, reaches, via, rank)
    requires forall k, t: nat :: 0 <= k < |body| && Fn(t) in body[k].targets ==> t < |g|
    ensures report.None? <==> forall k :: 0 <= k < |body| ==> !SiteTouches(body[k], reaches)
    ensures report.Some? ==>
              exists k :: 0 <= k < |body| && FirstTouch(body, reaches, k) && Reports(body[k], report.value)
    ensures report.Some? && report.value != [] ==>
              && Walk(g, report.value)
              && (|report.value| < 8 ==> seeds[report.value[|report.value| - 1]])
  {
    for k := 0 to |body|
      invariant forall j :: 0 <= j < k ==> !SiteTouches(body[j], reaches)
    {
      var site := body[k];
      if site.targets == [] && site.isDbCall {
        assert DirectCall(body[k]);
        return Some([]);
      }
      for i := 0 to |site.targets|
        invariant forall j :: 0 <= j < i && site.targets[j].Fn? ==> !reaches[site.targets[j].index]
      {
        if site.targets[i].Fn? && reaches[site.targets[i].index] {
          assert Fn(site.targets[i].index) in site.targets;
          var chain := Chain(g, seeds, reaches, via, rank, site.targets[i].index);
          return Some(chain);
        }
      }
    }
    return None;
  }

  // ----- class-hierarchy worklists -----

  ghost function Elements(s: seq<nat>): set<nat> {
    set x | x in s
  }

  ghost predicate Distinct(s: seq<nat>) {
    forall i, j :: 0 <= i < j < |s| ==> s[i] != s[j]
  }

  ghost predicate FoundFrom(g: Graph, from: seq<nat>, x: nat) {
    x < |g| && exists r :: r in from && Reaches(g, r, x)
  }

  ghost function Unvisited(g: Graph, done: seq<nat>): set<nat> {
    (set i: nat | i < |g| && g[i] == g[i]) - Elements(done)
  }

  /** Every edge out of `inside` leads into `outside`. */
  ghost predicate EdgesInto(g: Graph, inside: set<nat>, outside: set<nat>) {
    forall x, y :: x in inside && x < |g| && y in g[x] ==> y in outside
  }

  /** The first occurrences in a list, in order. */
  function Firsts(s: seq<nat>): seq<nat> {
    if s == [] then []
    else
      var rest := Firsts(s[..|s| - 1]);
      if s[|s| - 1] in rest then rest else rest + [s[|s| - 1]]
  }

  /** The edges out of the given nodes, node by node. */
  ghost function Flat(g: Graph, nodes: seq<nat>): seq<nat>
    requires forall k :: 0 <= k < |nodes| ==> nodes[k] < |g|
  {
    if nodes == [] then [] else Flat(g, nodes[..|nodes| - 1]) + g[nodes[|nodes| - 1]]
  }

  /** `done` is in breadth-first order: the first occurrences in the list of the
      starting nodes followed by the edges of `done`'s own nodes, in turn. */
  ghost predicate BreadthFirst(g: Graph, from: seq<nat>, done: seq<nat>) {
    (forall k :: 0 <= k < |done| ==> done[k] < |g|) && done == Firsts(from + Flat(g, done))
  }

  lemma FirstsStep(s: seq<nat>, x: nat)
    ensures Firsts(s + [x]) == if x in Firsts(s) then Firsts(s) else Firsts(s) + [x]
  {
    assert (s + [x])[..|s|] == s;
  }

  lemma FlatStep(g: Graph, nodes: seq<nat>, x: nat)
    requires (forall k :: 0 <= k < |nodes| ==> nodes[k] < |g|) && x < |g|
    ensures Flat(g, nodes + [x]) == Flat(g, nodes) + g[x]
  {
    assert (nodes + [x])[..|nodes|] == nodes;
  }

  /** The queue's account: what was taken and what waits is the start followed by the
      edges of what is done, and done are the first occurrences of what was taken. */
  ghost predicate Queued(g: Graph, from: seq<nat>, done: seq<nat>, taken: seq<nat>, waiting: seq<nat>)
    requires forall k :: 0 <= k < |done| ==> done[k] < |g|
  {
    Firsts(taken) == done && taken + waiting == from + Flat(g, done)
  }

  lemma TakeSeen(g: Graph, from: seq<nat>, done: seq<nat>, taken: seq<nat>, waiting: seq<nat>)
    requires (forall k :: 0 <= k < |done| ==> done[k] < |g|) && Queued(g, from, done, taken, waiting)
    requires waiting != [] && waiting[0] in done
    ensures Queued(g, from, done, taken + [waiting[0]], waiting[1..])
  {
    FirstsStep(taken, waiting[0]);
    assert taken + [waiting[0]] + waiting[1..] == taken + waiting;
  }

  lemma TakeNew(g: Graph, from: seq<nat>, done: seq<nat>, taken: seq<nat>, waiting: seq<nat>, longer: seq<nat>)
    requires (forall k :: 0 <= k < |done| ==> done[k] < |g|) && Queued(g, from, done, taken, waiting)
    requires waiting != [] && waiting[0] !in done && waiting[0] < |g| && longer == done + [waiting[0]]
    ensures Queued(g, from, longer, taken + [waiting[0]], waiting[1..] + g[waiting[0]])
  {
    FirstsStep(taken, waiting[0]);
    FlatStep(g, done, waiting[0]);
    Regroup(taken, waiting, from, Flat(g, done), g[waiting[0]]);
  }

  lemma Regroup(taken: seq<nat>, waiting: seq<nat>, from: seq<nat>, flat: seq<nat>, more: seq<nat>)
    requires waiting != [] && taken + waiting == from + flat
    ensures taken + [waiting[0]] + (waiting[1..] + more) == from + (flat + more)
  {
    assert taken + [waiting[0]] + (waiting[1..] + more) == taken + waiting + more;
    assert from + (flat + more) == from + flat + more;
  }

  /** Visiting a new node, or skipping an old one, loses nothing. */
  lemma VisitStep(g: Graph, done: seq<nat>, waiting: seq<nat>, current: nat, rest: seq<nat>)
    requires current < |g| && Elements(waiting) == {current} + Elements(rest)
    requires EdgesInto(g, Elements(done), Elements(done) + Elements(waiting))
    ensures current !in done ==>
              && Unvisited(g, done + [current]) < Unvisited(g, done)
              && Elements(done + [current]) == Elements(done) + {current}
              && Elements(rest + g[current]) == Elements(rest) + Elements(g[current])
              && EdgesInto(g, Elements(done + [current]), Elements(done + [current]) + Elements(rest + g[current]))
    ensures current in done ==> Elements(done) + Elements(rest) == Elements(done) + Elements(waiting)
  {
    if current !in done {
      assert current in Unvisited(g, done) && current !in Unvisited(g, done + [current]);
      assert Elements(done + [current]) == Elements(done) + {current};
      assert Elements(rest + g[current]) == Elements(rest) + Elements(g[current]);
      var outside := Elements(done + [current]) + Elements(rest + g[current]);
      assert Elements(done) + Elements(waiting) <= outside;
      forall x, y | x in Elements(done + [current]) && x < |g| && y in g[x] ensures y in outside {
        assert x == current ==> y in Elements(g[current]);
      }
    } else {
      assert current in Elements(done);
    }
  }

  /** The worklist both hierarchy walks share; they differ in the end they take
      the next element from. The result is the least set that holds `from` and
      is closed under edges: it lies inside any such set `reach`. */
  method Explore(g: Graph, from: seq<nat>, fifo: bool, ghost reach: set<nat>) returns (done: seq<nat>)
    requires Closed(g) && forall k :: 0 <= k < |from| ==> from[k] < |g|
    requires Elements(from) <= reach && EdgesInto(g, reach, reach)
    ensures Distinct(done) && Elements(from) <= Elements(done) <= reach
    ensures EdgesInto(g, Elements(done), Elements(done))
    ensures fifo && from != [] ==> done != [] && done[0] == from[0]
    ensures fifo ==> BreadthFirst(g, from, done)
  {
    done := [];
    var waiting: seq<nat> := from;
    ghost var taken: seq<nat> := [];
    while waiting != []
      invariant Distinct(done) && Elements(done) <= reach && Elements(waiting) <= reach
      invariant Elements(from) <= Elements(done) + Elements(waiting)
      invariant EdgesInto(g, Elements(done), Elements(done) + Elements(waiting))
      invariant forall k :: 0 <= k < |waiting| ==> waiting[k] < |g|
      invariant fifo && from != [] ==> done + waiting != [] && (done + waiting)[0] == from[0]
      invariant forall k :: 0 <= k < |done| ==> done[k] < |g|
      invariant fifo ==> Queued(g, from, done, taken, waiting)
      decreases Unvisited(g, done), |waiting|
    {
      var current: nat, rest: seq<nat>;
      if fifo {
        current, rest := waiting[0], waiting[1..];
      } else {
        current, rest := waiting[|waiting| - 1], waiting[..|waiting| - 1];
      }
      assert Elements(waiting) == {current} + Elements(rest);
      if fifo && current in done {
        TakeSeen(g, from, done, taken, waiting);
      } else if fifo {
        TakeNew(g, from, done, taken, waiting, done + [current]);
      }
      taken := taken + [current];
      VisitStep(g, done, waiting, current, rest);
      if current !in done {
        done, waiting := done + [current], rest + g[current];
      } else {
        waiting := rest;
      }
    }
    assert taken + waiting == taken;
  }

  // ----- what breadth-first order means -----

  /** The nodes at most `k` edges away. */
  ghost function Within(g: Graph, from: seq<nat>, k: nat): set<nat> {
    if k == 0 then Elements(from)
    else Elements(from) + set x, y | x in Within(g, from, k - 1) && x < |g| && y in g[x] :: y
  }

  lemma {:induction false} FirstsHold(s: seq<nat>)
    ensures Elements(Firsts(s)) == Elements(s)
  {
    if s != [] {
      var rest, last := s[..|s| - 1], s[|s| - 1];
      FirstsHold(rest);
      assert Elements(s) == Elements(rest) + {last};
      assert last in Firsts(rest) ==> last in Elements(Firsts(rest));
    }
  }

  /** The first occurrences in a prefix are a prefix of the first occurrences. */
  lemma {:induction false} FirstsOfPrefix(s: seq<nat>, n: nat)
    requires n <= |s|
    ensures |Firsts(s[..n])| <= |Firsts(s)| && Firsts(s[..n]) == Firsts(s)[..|Firsts(s[..n])|]
    decreases |s|
  {
    if n < |s| {
      FirstsOfPrefix(s[..|s| - 1], n);
      assert s[..|s| - 1][..n] == s[..n];
    } else {
      assert s[..n] == s;
    }
  }

  lemma {:induction false} FlatOfPrefix(g: Graph, nodes: seq<nat>, n: nat)
    requires n <= |nodes| && forall k :: 0 <= k < |nodes| ==> nodes[k] < |g|
    ensures Flat(g, nodes[..n]) <= Flat(g, nodes)
    decreases |nodes|
  {
    if n < |nodes| {
      FlatOfPrefix(g, nodes[..|nodes| - 1], n);
      assert nodes[..|nodes| - 1][..n] == nodes[..n];
    } else {
      assert nodes[..n] == nodes;
    }
  }

  lemma {:induction false} FlatHolds(g: Graph, nodes: seq<nat>, y: nat)
    requires forall k :: 0 <= k < |nodes| ==> nodes[k] < |g|
    ensures y in Flat(g, nodes) <==> exists x :: x in nodes && x < |g| && y in g[x]
  {
    if nodes != [] {
      var n := |nodes| - 1;
      FlatHolds(g, nodes[..n], y);
      assert nodes == nodes[..n] + [nodes[n]];
    }
  }

  /** Nearer nodes come first: for every `k`, the nodes at most `k` edges away are
      exactly the first ones of the order. */
  lemma {:induction false} NearerFirst(g: Graph, from: seq<nat>, done: seq<nat>, k: nat) returns (p: nat)
    requires BreadthFirst(g, from, done)
    ensures p <= |done| && Elements(done[..p]) == Within(g, from, k)
  {
    var all := from + Flat(g, done);
    if k == 0 {
      FirstsOfPrefix(all, |from|);
      assert all[..|from|] == from;
      FirstsHold(from);
      p := |Firsts(from)|;
    } else {
      var q := NearerFirst(g, from, done, k - 1);
      FlatOfPrefix(g, done, q);
      var n := |from| + |Flat(g, done[..q])|;
      assert all[..n] == from + Flat(g, done[..q]);
      FirstsOfPrefix(all, n);
      FirstsHold(all[..n]);
      p := |Firsts(all[..n])|;
      assert Elements(done[..p]) == Elements(all[..n]);
      forall y ensures y in all[..n] <==> y in Within(g, from, k) {
        FlatHolds(g, done[..q], y);
        assert forall x :: x in done[..q] <==> x in Within(g, from, k - 1);
      }
    }
  }

  /** The elements found from `from` form a set closed under edges, and no
      smaller closed set contains `from`. */
  lemma FoundIsLeastClosed(g: Graph, from: seq<nat>, done: seq<nat>)
    requires Closed(g) && Elements(from) <= Elements(done) && EdgesInto(g, Elements(done), Elements(done))
    ensures forall x :: FoundFrom(g, from, x) ==> x in done
  {
    forall x | FoundFrom(g, from, x) ensures x in done {
      var r :| r in from && Reaches(g, r, x);
      var path :| WalkFromTo(g, path, r, x);
      assert r in Elements(done);
      ClosedSetHoldsWalk(g, Elements(done), path, |path| - 1);
    }
  }

  ghost function FoundSet(g: Graph, from: seq<nat>): (reach: set<nat>)
    requires Closed(g) && forall k :: 0 <= k < |from| ==> from[k] < |g|
    ensures Elements(from) <= reach && EdgesInto(g, reach, reach)
    ensures forall x :: x in reach <==> FoundFrom(g, from, x)
  {
    var reach := set x: nat | x < |g| && FoundFrom(g, from, x);
    assert Elements(from) <= reach by {
      forall r | r in from ensures FoundFrom(g, from, r) { ReachesSelf(g, r); }
    }
    assert EdgesInto(g, reach, reach) by {
      forall x, y | x in reach && x < |g| && y in g[x] ensures y in reach {
        var r :| r in from && Reaches(g, r, x);
        ReachesSnoc(g, r, x, y);
      }
    }
    reach
  }

  /** `_mro`: a queue over parents. The result has no duplicate, starts with the
      class itself, holds exactly its ancestors, cyclic hierarchies included, and
      is in breadth-first order. */
  method Mro(parents: Graph, cls: nat) returns (order: seq<nat>)
    requires Closed(parents) && cls < |parents|
    ensures Distinct(order) && order != [] && order[0] == cls
    ensures forall x :: x in order <==> FoundFrom(parents, [cls], x)
    ensures BreadthFirst(parents, [cls], order)
  {
    order := Explore(parents, [cls], true, FoundSet(parents, [cls]));
    FoundIsLeastClosed(parents, [cls], order);
    assert forall x :: x in order ==> x in Elements(order);
  }

  /** `_descendants`: a stack over children, without the class unless it is its
      own descendant. */
  method Descendants(children: Graph, cls: nat) returns (found: seq<nat>)
    requires Closed(children) && cls < |children|
    ensures Distinct(found)
    ensures forall x :: x in found <==> FoundFrom(children, children[cls], x)
  {
    found := Explore(children, children[cls], false, FoundSet(children, children[cls]));
    FoundIsLeastClosed(children, children[cls], found);
    assert forall x :: x in found ==> x in Elements(found);
  }
}
