/** Two fixpoints of the test guards over class definitions read from source:
    which error category a class name inherits, and which class names belong to
    a family. Parsing is an input. */
module ErrorCategories {
  import opened Prelude

  type Name = string

  /** A category, or `None` for "inherits from something unknown". */
  type Mark = Option<string>

  datatype Definition = Definition(name: Name, bases: set<Name>)

  type Table = map<Name, set<Mark>>

  // ----- meaning -----

  ghost predicate Defined(defs: seq<Definition>, x: Name) {
    exists i :: 0 <= i < |defs| && defs[i].name == x
  }

  ghost predicate Inherits(defs: seq<Definition>, x: Name, base: Name) {
    exists i :: 0 <= i < |defs| && defs[i].name == x && base in defs[i].bases
  }

  /** `x` contributes `mark` by itself: it is a shared class of that category,
      or it is unknown, or one of its definitions has no base. */
  ghost predicate Origin(seed: map<Name, string>, defs: seq<Definition>, x: Name, mark: Mark) {
    match mark
    case Some(category) => x in seed && seed[x] == category
    case None =>
      || (x !in seed && !Defined(defs, x))
      || exists i :: 0 <= i < |defs| && defs[i].name == x && defs[i].bases == {}
  }

  ghost predicate Lineage(defs: seq<Definition>, path: seq<Name>) {
    path != [] && forall i :: 0 <= i < |path| - 1 ==> Inherits(defs, path[i], path[i + 1])
  }

  ghost predicate LineageTo(seed: map<Name, string>, defs: seq<Definition>, path: seq<Name>, x: Name, mark: Mark) {
    Lineage(defs, path) && path[0] == x && Origin(seed, defs, path[|path| - 1], mark)
  }

  /** The declarative meaning: some line of ancestors of `x` ends in `mark`. */
  ghost predicate Carries(seed: map<Name, string>, defs: seq<Definition>, x: Name, mark: Mark) {
    exists path :: LineageTo(seed, defs, path, x, mark)
  }

  /** `Carries` satisfies the recursive equation the rounds iterate. */
  lemma CarriesUnfolds(seed: map<Name, string>, defs: seq<Definition>, x: Name, mark: Mark)
    ensures Carries(seed, defs, x, mark)
       <==> Origin(seed, defs, x, mark) || exists b :: Inherits(defs, x, b) && Carries(seed, defs, b, mark)
  {
    if Carries(seed, defs, x, mark) {
      var path :| LineageTo(seed, defs, path, x, mark);
      if |path| > 1 {
        var up := path[1..];
        forall i | 0 <= i < |up| - 1 ensures Inherits(defs, up[i], up[i + 1]) {
          assert Inherits(defs, path[i + 1], path[i + 1 + 1]);
        }
        assert LineageTo(seed, defs, up, path[1], mark);
        assert Inherits(defs, path[0], path[0 + 1]);
      }
    }
    if Origin(seed, defs, x, mark) {
      assert LineageTo(seed, defs, [x], x, mark);
    }
    forall b | Inherits(defs, x, b) && Carries(seed, defs, b, mark) ensures Carries(seed, defs, x, mark) {
      var up :| LineageTo(seed, defs, up, b, mark);
      var path := [x] + up;
      forall i | 0 <= i < |path| - 1 ensures Inherits(defs, path[i], path[i + 1]) {
        if i > 0 {
          assert Inherits(defs, up[i - 1], up[i - 1 + 1]);
        }
      }
      assert LineageTo(seed, defs, path, x, mark);
    }
  }

  /** A carried mark originates in `x` or comes from a base other than `x`. */
  lemma {:induction false} CarriesLeaves(
      seed: map<Name, string>, defs: seq<Definition>, path: seq<Name>, x: Name, mark: Mark)
    requires LineageTo(seed, defs, path, x, mark)
    ensures Origin(seed, defs, x, mark) || exists b :: b != x && Inherits(defs, x, b) && Carries(seed, defs, b, mark)
    decreases |path|
  {
    if |path| > 1 {
      var up := path[1..];
      forall i | 0 <= i < |up| - 1 ensures Inherits(defs, up[i], up[i + 1]) {
        assert Inherits(defs, path[i + 1], path[i + 1 + 1]);
      }
      assert LineageTo(seed, defs, up, path[1], mark);
      assert Inherits(defs, path[0], path[0 + 1]);
      if path[1] == x {
        CarriesLeaves(seed, defs, up, x, mark);
      }
    }
  }

  // ----- one round -----

  function Lookup(table: Table, x: Name): set<Mark> {
    if x in table then table[x] else {None}
  }

  /** `mark` reaches definition `d` through one of its bases. */
  ghost predicate Gives(table: Table, d: Definition, mark: Mark) {
    if d.bases == {} then mark == None else exists b :: b in d.bases && mark in Lookup(table, b)
  }

  function Inherited(table: Table, bases: set<Name>): (marks: set<Mark>)
    ensures forall m :: m in marks <==> Gives(table, Definition("", bases), m)
  {
    if bases == {} then {None} else set b, m | b in bases && m in Lookup(table, b) :: m
  }

  function SeedTable(seed: map<Name, string>): Table {
    map x | x in seed :: {Some(seed[x])}
  }

  ghost predicate Names(seed: map<Name, string>, defs: seq<Definition>, x: Name) {
    x in seed || Defined(defs, x)
  }

  /** `next` is what one round makes of `table`, rebuilt from the seed. */
  ghost predicate IsRound(seed: map<Name, string>, defs: seq<Definition>, table: Table, next: Table) {
    && (forall x :: x in next <==> Names(seed, defs, x))
    && forall x, m :: x in next ==> (m in next[x] <==> InRound(seed, defs, table, x, m))
  }

  ghost predicate InRound(seed: map<Name, string>, defs: seq<Definition>, table: Table, x: Name, m: Mark) {
    || (x in seed && m == Some(seed[x]))
    || exists i :: 0 <= i < |defs| && defs[i].name == x && Gives(table, defs[i], m)
  }

  method Round(seed: map<Name, string>, defs: seq<Definition>, table: Table) returns (next: Table)
    ensures IsRound(seed, defs, table, next)
  {
    next := SeedTable(seed);
    for k := 0 to |defs|
      invariant forall x :: x in next <==> Names(seed, defs[..k], x)
      invariant forall x, m :: x in next ==> (m in next[x] <==> InRound(seed, defs[..k], table, x, m))
    {
      var d := defs[k];
      var so_far: set<Mark> := if d.name in next then next[d.name] else {};
      assert forall i :: 0 <= i < k ==> defs[..k + 1][i] == defs[..k][i];
      assert defs[..k + 1][k] == d;
      assert forall m :: Gives(table, Definition("", d.bases), m) <==> Gives(table, d, m);
      next := next[d.name := so_far + Inherited(table, d.bases)];
    }
    assert defs[..|defs|] == defs;
  }

  // ----- settling -----

  /** The table says about `x` exactly what its lineages say. */
  ghost predicate Settled(seed: map<Name, string>, defs: seq<Definition>, table: Table, x: Name) {
    forall m :: m in Lookup(table, x) <==> Carries(seed, defs, x, m)
  }

  /** Names outside the definitions are settled in every table the loop builds. */
  ghost predicate OuterSettled(seed: map<Name, string>, defs: seq<Definition>, table: Table) {
    forall x :: !Defined(defs, x) ==> Settled(seed, defs, table, x)
  }

  /** No cycle but one: bases are known by their last name only, so a class may
      seem to be its own base (`class NotFoundError(lib.NotFoundError)`). */
  ghost predicate Acyclic(defs: seq<Definition>, rank: Name -> nat) {
    forall x, b :: Inherits(defs, x, b) && Defined(defs, b) && b != x ==> rank(b) < rank(x)
  }

  /** In `k` steps up, `x` comes to a class that is still to be resolved when the
      rounds begin. */
  ghost predicate Unresolved(seed: map<Name, string>, defs: seq<Definition>, x: Name, k: nat)
    decreases k
  {
    if k == 0 then Defined(defs, x) && x !in seed
    else exists b :: Inherits(defs, x, b) && Unresolved(seed, defs, b, k - 1)
  }

  /** Names that are their own base inherit from no class still to be resolved, or
      from something unknown anyway. */
  ghost predicate SelfBasesOk(seed: map<Name, string>, defs: seq<Definition>) {
    forall x :: Inherits(defs, x, x) ==> Carries(seed, defs, x, None) || Steady(seed, defs, x)
  }

  ghost predicate Steady(seed: map<Name, string>, defs: seq<Definition>, x: Name) {
    forall k: nat :: !Unresolved(seed, defs, x, k)
  }

  lemma SteadyAbove(seed: map<Name, string>, defs: seq<Definition>, x: Name, b: Name)
    requires Steady(seed, defs, x) && Inherits(defs, x, b)
    ensures Steady(seed, defs, b)
  {
    forall k: nat ensures !Unresolved(seed, defs, b, k) {
      assert !Unresolved(seed, defs, x, k + 1);
    }
  }

  /** The table says nothing false, except "unknown" of names that are not steady. */
  ghost predicate Sound(seed: map<Name, string>, defs: seq<Definition>, table: Table) {
    forall x, m :: m in Lookup(table, x) && (m.Some? || Steady(seed, defs, x)) ==> Carries(seed, defs, x, m)
  }

  lemma SoundStart(seed: map<Name, string>, defs: seq<Definition>)
    ensures Sound(seed, defs, SeedTable(seed))
  {
    forall x, m | m in Lookup(SeedTable(seed), x) && (m.Some? || Steady(seed, defs, x))
      ensures Carries(seed, defs, x, m)
    {
      CarriesUnfolds(seed, defs, x, m);
      if m.None? {
        assert !Unresolved(seed, defs, x, 0);
      }
    }
  }

  lemma SoundKept(seed: map<Name, string>, defs: seq<Definition>, table: Table, next: Table)
    requires Sound(seed, defs, table) && IsRound(seed, defs, table, next)
    ensures Sound(seed, defs, next)
  {
    forall x, m | m in Lookup(next, x) && (m.Some? || Steady(seed, defs, x)) ensures Carries(seed, defs, x, m) {
      CarriesUnfolds(seed, defs, x, m);
      if x in next && !(x in seed && m == Some(seed[x])) {
        assert InRound(seed, defs, table, x, m);
        var i :| 0 <= i < |defs| && defs[i].name == x && Gives(table, defs[i], m);
        if defs[i].bases != {} {
          var b :| b in defs[i].bases && m in Lookup(table, b);
          assert Inherits(defs, x, b);
          if m.None? {
            SteadyAbove(seed, defs, x, b);
          }
        }
      }
    }
  }

  lemma OuterMeaning(seed: map<Name, string>, defs: seq<Definition>, x: Name, m: Mark)
    requires !Defined(defs, x)
    ensures Carries(seed, defs, x, m) <==> m == if x in seed then Some(seed[x]) else None
  {
    CarriesUnfolds(seed, defs, x, m);
  }

  lemma OuterStart(seed: map<Name, string>, defs: seq<Definition>)
    ensures OuterSettled(seed, defs, SeedTable(seed))
  {
    forall x, m | !Defined(defs, x) ensures m in Lookup(SeedTable(seed), x) <==> Carries(seed, defs, x, m) {
      OuterMeaning(seed, defs, x, m);
    }
  }

  /** All that `x` inherits from is settled, or is `x` itself and not wrong. */
  ghost predicate BasesSettled(seed: map<Name, string>, defs: seq<Definition>, table: Table, x: Name) {
    && (forall b :: Inherits(defs, x, b) && b != x ==> Settled(seed, defs, table, b))
    && (Inherits(defs, x, x) ==> forall m :: m in Lookup(table, x) ==> Carries(seed, defs, x, m))
  }

  /** A round settles every name whose bases were settled before it. */
  lemma RoundSettles(seed: map<Name, string>, defs: seq<Definition>, table: Table, next: Table, x: Name)
    requires IsRound(seed, defs, table, next) && BasesSettled(seed, defs, table, x)
    ensures Settled(seed, defs, next, x)
  {
    forall m ensures m in Lookup(next, x) <==> Carries(seed, defs, x, m) {
      CarriesUnfolds(seed, defs, x, m);
      if x in next {
        RoundIsSound(seed, defs, table, x, m);
        RoundIsComplete(seed, defs, table, x, m);
      } else {
        OuterMeaning(seed, defs, x, m);
      }
    }
  }

  lemma RoundIsSound(seed: map<Name, string>, defs: seq<Definition>, table: Table, x: Name, m: Mark)
    requires Names(seed, defs, x) && BasesSettled(seed, defs, table, x)
    ensures InRound(seed, defs, table, x, m) ==> Carries(seed, defs, x, m)
  {
    CarriesUnfolds(seed, defs, x, m);
    if InRound(seed, defs, table, x, m) && !(x in seed && m == Some(seed[x])) {
      var i :| 0 <= i < |defs| && defs[i].name == x && Gives(table, defs[i], m);
      if defs[i].bases != {} {
        var b :| b in defs[i].bases && m in Lookup(table, b);
        assert Inherits(defs, x, b);
        assert b != x ==> Settled(seed, defs, table, b);
      }
    }
  }

  lemma RoundIsComplete(seed: map<Name, string>, defs: seq<Definition>, table: Table, x: Name, m: Mark)
    requires Names(seed, defs, x) && BasesSettled(seed, defs, table, x)
    ensures Carries(seed, defs, x, m) ==> InRound(seed, defs, table, x, m)
  {
    if Carries(seed, defs, x, m) {
      var path :| LineageTo(seed, defs, path, x, m);
      CarriesLeaves(seed, defs, path, x, m);
      if !Origin(seed, defs, x, m) {
        var b :| b != x && Inherits(defs, x, b) && Carries(seed, defs, b, m);
        var i :| 0 <= i < |defs| && defs[i].name == x && b in defs[i].bases;
        assert Settled(seed, defs, table, b);
        assert Gives(table, defs[i], m);
      }
    }
  }

  lemma OuterKept(seed: map<Name, string>, defs: seq<Definition>, table: Table, next: Table)
    requires IsRound(seed, defs, table, next)
    ensures OuterSettled(seed, defs, next)
  {
    forall x | !Defined(defs, x) ensures Settled(seed, defs, next, x) {
      RoundSettles(seed, defs, table, next, x);
    }
  }

  /** A round settles a name whose other bases are settled, if the table is sound
      and names that are their own base are in order. */
  lemma SoundRoundSettles(seed: map<Name, string>, defs: seq<Definition>, table: Table, next: Table, x: Name)
    requires SelfBasesOk(seed, defs) && Sound(seed, defs, table) && IsRound(seed, defs, table, next)
    requires forall b :: Inherits(defs, x, b) && b != x ==> Settled(seed, defs, table, b)
    ensures Settled(seed, defs, next, x)
  {
    RoundSettles(seed, defs, table, next, x);
  }

  /** An early stop is sound: a table that is its own round is settled
      everywhere, so the recursive equation has one solution. */
  lemma {:induction false} FixpointIsSettled(
      seed: map<Name, string>, defs: seq<Definition>, table: Table, rank: Name -> nat, x: Name)
    requires Acyclic(defs, rank) && SelfBasesOk(seed, defs) && Sound(seed, defs, table)
    requires IsRound(seed, defs, table, table) && OuterSettled(seed, defs, table)
    ensures Settled(seed, defs, table, x)
    decreases rank(x)
  {
    if Defined(defs, x) {
      forall b | Inherits(defs, x, b) && b != x ensures Settled(seed, defs, table, b) {
        if Defined(defs, b) {
          FixpointIsSettled(seed, defs, table, rank, b);
        }
      }
      SoundRoundSettles(seed, defs, table, table, x);
    }
  }

  // ----- why names that are their own base must be in order -----

  /** "Unknown" has come down to every name that an unresolved class is `k` steps
      above. */
  ghost predicate Tainted(seed: map<Name, string>, defs: seq<Definition>, table: Table, k: nat) {
    forall x :: Unresolved(seed, defs, x, k) ==> None in Lookup(table, x)
  }

  /** One round brings "unknown" one step down. */
  lemma TaintComesDown(seed: map<Name, string>, defs: seq<Definition>, table: Table, next: Table, k: nat)
    requires IsRound(seed, defs, table, next) && Tainted(seed, defs, table, k)
    ensures Tainted(seed, defs, next, k + 1)
  {
    forall x | Unresolved(seed, defs, x, k + 1) ensures None in Lookup(next, x) {
      var b :| Inherits(defs, x, b) && Unresolved(seed, defs, b, k);
      var i :| 0 <= i < |defs| && defs[i].name == x && b in defs[i].bases;
      assert Gives(table, defs[i], None);
      assert InRound(seed, defs, table, x, None);
    }
  }

  lemma {:induction false} FixpointIsTainted(
      seed: map<Name, string>, defs: seq<Definition>, table: Table, k: nat, later: nat)
    requires IsRound(seed, defs, table, table) && Tainted(seed, defs, table, k) && k <= later
    ensures Tainted(seed, defs, table, later)
    decreases later - k
  {
    if k < later {
      TaintComesDown(seed, defs, table, table, k);
      FixpointIsTainted(seed, defs, table, k + 1, later);
    }
  }

  /** A name that is its own base can wait on itself any number of steps. */
  lemma {:induction false} SelfBaseWaits(seed: map<Name, string>, defs: seq<Definition>, x: Name, k: nat, longer: nat)
    requires Inherits(defs, x, x) && Unresolved(seed, defs, x, k) && k <= longer
    ensures Unresolved(seed, defs, x, longer)
    decreases longer
  {
    if k < longer {
      SelfBaseWaits(seed, defs, x, k, longer - 1);
    }
  }

  /** A line of that many defined names, all ranked no higher than `x`. */
  ghost predicate LineBelow(defs: seq<Definition>, rank: Name -> nat, x: Name, line: set<Name>, near: nat) {
    line <= DefinedNames(defs) && |line| == near + 1 && forall y :: y in line ==> rank(y) <= rank(x)
  }

  /** `x` is `near` steps below an unresolved class, along a line of distinct names. */
  ghost predicate IsNear(seed: map<Name, string>, defs: seq<Definition>, rank: Name -> nat, x: Name, near: nat) {
    Unresolved(seed, defs, x, near) && exists line :: LineBelow(defs, rank, x, line, near)
  }

  lemma StartsNear(seed: map<Name, string>, defs: seq<Definition>, rank: Name -> nat, x: Name)
    requires Unresolved(seed, defs, x, 0)
    ensures IsNear(seed, defs, rank, x, 0)
  {
    assert LineBelow(defs, rank, x, {x}, 0);
  }

  lemma StaysNear(seed: map<Name, string>, defs: seq<Definition>, rank: Name -> nat, x: Name, b: Name, near: nat)
    requires Acyclic(defs, rank) && Inherits(defs, x, b) && b != x && IsNear(seed, defs, rank, b, near)
    ensures IsNear(seed, defs, rank, x, near + 1)
  {
    UnresolvedIsDefined(seed, defs, b, near);
    var line :| LineBelow(defs, rank, b, line, near);
    assert Defined(defs, x) && x !in line;
    assert LineBelow(defs, rank, x, line + {x}, near + 1);
  }

  /** An unresolved class above is at most as many steps up as there are definitions. */
  lemma {:induction false} UnresolvedIsNear(
      seed: map<Name, string>, defs: seq<Definition>, rank: Name -> nat, x: Name, k: nat)
    returns (near: nat)
    requires Acyclic(defs, rank) && Unresolved(seed, defs, x, k)
    ensures IsNear(seed, defs, rank, x, near)
    decreases k
  {
    if k == 0 {
      near := 0;
      StartsNear(seed, defs, rank, x);
    } else {
      var b :| Inherits(defs, x, b) && Unresolved(seed, defs, b, k - 1);
      near := UnresolvedIsNear(seed, defs, rank, b, k - 1);
      if b != x {
        StaysNear(seed, defs, rank, x, b, near);
        near := near + 1;
      }
    }
  }

  lemma UnresolvedIsDefined(seed: map<Name, string>, defs: seq<Definition>, x: Name, k: nat)
    requires Unresolved(seed, defs, x, k)
    ensures Defined(defs, x)
  {
  }

  /** A table tainted from as far as there are definitions is wrong about some name
      unless all names that are their own base are in order. */
  lemma SettledNeedsOrder(seed: map<Name, string>, defs: seq<Definition>, table: Table, rank: Name -> nat, k: nat)
    requires Acyclic(defs, rank) && k >= |defs| && Tainted(seed, defs, table, k)
    requires forall x :: Settled(seed, defs, table, x)
    ensures SelfBasesOk(seed, defs)
  {
    forall x | Inherits(defs, x, x) && !Steady(seed, defs, x) ensures Carries(seed, defs, x, None) {
      var far: nat :| Unresolved(seed, defs, x, far);
      var near := UnresolvedIsNear(seed, defs, rank, x, far);
      var line :| LineBelow(defs, rank, x, line, near);
      SubsetSize(line, DefinedNames(defs));
      SelfBaseWaits(seed, defs, x, near, k);
      assert Settled(seed, defs, table, x);
    }
  }

  // ----- how many rounds -----

  ghost function DefinedNames(defs: seq<Definition>): (names: set<Name>)
    ensures forall x :: x in names <==> Defined(defs, x)
    ensures |names| <= |defs|
  {
    if defs == [] then {}
    else
      var rest := DefinedNames(defs[1..]);
      assert forall x :: Defined(defs, x) ==> defs[0].name == x || Defined(defs[1..], x) by {
        forall x | Defined(defs, x) ensures defs[0].name == x || Defined(defs[1..], x) {
          var i :| 0 <= i < |defs| && defs[i].name == x;
          if i > 0 { assert defs[1..][i - 1] == defs[i]; }
        }
      }
      assert forall x :: Defined(defs[1..], x) ==> Defined(defs, x) by {
        forall x | Defined(defs[1..], x) ensures Defined(defs, x) {
          var i :| 0 <= i < |defs[1..]| && defs[1..][i].name == x;
          assert defs[i + 1].name == x;
        }
      }
      {defs[0].name} + rest
  }

  /** The defined names all of whose other defined bases lie in `ready`. */
  ghost function Advance(defs: seq<Definition>, ready: set<Name>): set<Name> {
    set x | x in DefinedNames(defs) && forall b :: Inherits(defs, x, b) && Defined(defs, b) && b != x ==> b in ready
  }

  lemma {:induction false} LowestRank(names: set<Name>, rank: Name -> nat) returns (low: Name)
    requires names != {}
    ensures low in names && forall x :: x in names ==> rank(low) <= rank(x)
    decreases |names|
  {
    low :| low in names;
    if x :| x in names && rank(x) < rank(low) {
      var others := names - {low};
      assert x in others;
      low := LowestRank(others, rank);
    }
  }

  /** In an acyclic hierarchy every round gains at least one name until all are
      in, and loses none. */
  lemma AdvanceGrows(defs: seq<Definition>, ready: set<Name>, rank: Name -> nat)
    requires Acyclic(defs, rank) && ready <= Advance(defs, ready)
    ensures Advance(defs, ready) <= Advance(defs, Advance(defs, ready))
    ensures ready == DefinedNames(defs) || |ready| < |Advance(defs, ready)|
  {
    if ready != DefinedNames(defs) {
      assert ready <= DefinedNames(defs);
      var missing := DefinedNames(defs) - ready;
      assert missing != {};
      var low := LowestRank(missing, rank);
      assert low in Advance(defs, ready);
      CardinalityGrows(ready, Advance(defs, ready), low);
    }
  }

  lemma CardinalityGrows(small: set<Name>, big: set<Name>, extra: Name)
    requires small <= big && extra in big && extra !in small
    ensures |small| < |big|
  {
    SubsetSize(small, big - {extra});
  }

  // ----- the whole resolution -----

  /** The one mark of `x` is a category. */
  ghost predicate Resolves(seed: map<Name, string>, defs: seq<Definition>, x: Name, category: string) {
    forall m :: Carries(seed, defs, x, m) <==> m == Some(category)
  }

  function OnlyCategory(marks: set<Mark>): (r: Option<string>)
    ensures r.Some? <==> exists c :: marks == {Some(c)}
    ensures r.Some? ==> marks == {r}
  {
    if |marks| != 1 then
      None
    else
      SingletonIs(marks);
      var m :| m in marks;
      assert marks == {m};
      m
  }

  lemma SingletonIs(marks: set<Mark>)
    requires |marks| == 1
    ensures forall a, b :: a in marks && b in marks ==> a == b
  {
    forall a, b | a in marks && b in marks ensures a == b {
      assert |marks - {a}| == 0;
    }
  }

  /** The round loop of `_error_class_categories`: for every acyclic hierarchy the
      bounded, rebuilt-from-the-seed rounds reach the lineage meaning of every name
      exactly when the names that are their own base are in order, whether the
      rounds stop early or use all `len(definitions) + 1`. */
  method ResolveTable(seed: map<Name, string>, defs: seq<Definition>, ghost rank: Name -> nat) returns (table: Table)
    requires Acyclic(defs, rank)
    ensures forall x :: x in table <==> Names(seed, defs, x)
    ensures (forall x :: Settled(seed, defs, table, x)) <==> SelfBasesOk(seed, defs)
  {
    table := SeedTable(seed);
    OuterStart(seed, defs);
    SoundStart(seed, defs);
    ghost var ready: set<Name> := {};
    for round := 0 to |defs| + 1
      invariant UpTo(seed, defs, table, round) && Progress(seed, defs, table, ready, round)
      invariant round > 0 ==> forall x :: x in table <==> Names(seed, defs, x)
    {
      var following := Round(seed, defs, table);
      if following == table {
        FixpointIsExact(seed, defs, table, rank, round);
        return;
      }
      UpToStep(seed, defs, table, following, round);
      ProgressStep(seed, defs, table, following, rank, ready, round);
      table := following;
      ready := Advance(defs, ready);
    }
    LastRoundIsExact(seed, defs, table, rank, ready);
  }

  /** What every table keeps: nothing false but early unknowns, which come down one
      step a round. */
  ghost predicate UpTo(seed: map<Name, string>, defs: seq<Definition>, table: Table, round: nat) {
    OuterSettled(seed, defs, table) && Sound(seed, defs, table) && Tainted(seed, defs, table, round)
  }

  lemma UpToStep(seed: map<Name, string>, defs: seq<Definition>, table: Table, next: Table, round: nat)
    requires UpTo(seed, defs, table, round) && IsRound(seed, defs, table, next)
    ensures UpTo(seed, defs, next, round + 1)
  {
    OuterKept(seed, defs, table, next);
    SoundKept(seed, defs, table, next);
    TaintComesDown(seed, defs, table, next, round);
  }

  /** At least one name a round is settled, if they all can be. */
  ghost predicate Progress(seed: map<Name, string>, defs: seq<Definition>, table: Table, ready: set<Name>, round: nat) {
    && ready <= Advance(defs, ready) && (|ready| >= round || ready == DefinedNames(defs))
    && (SelfBasesOk(seed, defs) ==> forall x :: x in ready ==> Settled(seed, defs, table, x))
  }

  lemma ProgressStep(
      seed: map<Name, string>, defs: seq<Definition>, table: Table, next: Table, rank: Name -> nat, ready: set<Name>,
      round: nat)
    requires Acyclic(defs, rank) && UpTo(seed, defs, table, round) && Progress(seed, defs, table, ready, round)
    requires IsRound(seed, defs, table, next)
    ensures Progress(seed, defs, next, Advance(defs, ready), round + 1)
  {
    AdvanceGrows(defs, ready, rank);
    if ready == DefinedNames(defs) {
      assert Advance(defs, ready) == ready;
    }
    if SelfBasesOk(seed, defs) {
      forall x | x in Advance(defs, ready) ensures Settled(seed, defs, next, x) {
        SoundRoundSettles(seed, defs, table, next, x);
      }
    }
  }

  lemma LastRoundIsExact(
      seed: map<Name, string>, defs: seq<Definition>, table: Table, rank: Name -> nat, ready: set<Name>)
    requires Acyclic(defs, rank)
    requires UpTo(seed, defs, table, |defs| + 1) && Progress(seed, defs, table, ready, |defs| + 1)
    ensures (forall x :: Settled(seed, defs, table, x)) <==> SelfBasesOk(seed, defs)
  {
    FullIsAll(defs, ready);
    if forall x :: Settled(seed, defs, table, x) {
      SettledNeedsOrder(seed, defs, table, rank, |defs| + 1);
    }
  }

  lemma FixpointIsExact(seed: map<Name, string>, defs: seq<Definition>, table: Table, rank: Name -> nat, round: nat)
    requires Acyclic(defs, rank) && Sound(seed, defs, table) && Tainted(seed, defs, table, round)
    requires IsRound(seed, defs, table, table) && OuterSettled(seed, defs, table)
    ensures (forall x :: Settled(seed, defs, table, x)) <==> SelfBasesOk(seed, defs)
  {
    if SelfBasesOk(seed, defs) {
      forall x ensures Settled(seed, defs, table, x) {
        FixpointIsSettled(seed, defs, table, rank, x);
      }
    }
    if forall x :: Settled(seed, defs, table, x) {
      var later := if round >= |defs| then round else |defs|;
      FixpointIsTainted(seed, defs, table, round, later);
      SettledNeedsOrder(seed, defs, table, rank, later);
    }
  }

  lemma FullIsAll(defs: seq<Definition>, ready: set<Name>)
    requires ready <= DefinedNames(defs) && (|ready| > |defs| || ready == DefinedNames(defs))
    ensures forall x :: Defined(defs, x) ==> x in ready
  {
    SubsetSize(ready, DefinedNames(defs));
  }

  /** `_error_class_categories`: a name is mapped to a category exactly when all
      its lineages end in that one category. */
  method ErrorClassCategories(seed: map<Name, string>, defs: seq<Definition>, ghost rank: Name -> nat)
    returns (categories: map<Name, string>)
    requires Acyclic(defs, rank)
    ensures SelfBasesOk(seed, defs) ==>
              forall x, c ::
                (x in categories && categories[x] == c) <==> Names(seed, defs, x) && Resolves(seed, defs, x, c)
  {
    var table := ResolveTable(seed, defs, rank);
    categories := map x | x in table && OnlyCategory(table[x]).Some? :: OnlyCategory(table[x]).value;
    if SelfBasesOk(seed, defs) {
      forall x, c
        ensures (x in categories && categories[x] == c) <==> Names(seed, defs, x) && Resolves(seed, defs, x, c)
      {
        if x in table {
          CategoryIsMeaning(seed, defs, table, x, c);
        }
      }
    }
  }

  lemma CategoryIsMeaning(seed: map<Name, string>, defs: seq<Definition>, table: Table, x: Name, c: string)
    requires x in table && Settled(seed, defs, table, x)
    ensures OnlyCategory(table[x]) == Some(c) <==> Resolves(seed, defs, x, c)
  {
    assert Lookup(table, x) == table[x];
    if Resolves(seed, defs, x, c) {
      assert table[x] == {Some(c)};
    }
  }

  // ----- a name that is its own base and does not resolve -----

  const SEED: map<Name, string> := map["X" := "c", "S" := "c"]
  const DEFS := [Definition("X", {"X", "Y"}), Definition("Y", {"S"})]

  /** `X`, shared under category `c`, is redefined on itself and on `Y`, whose own
      base is a shared class of `c`. All its lineages end in `c`; but the first round
      takes the unresolved `Y` for unknown, and `X` never forgets it. */
  lemma SelfBaseOnUnresolved()
    ensures !SelfBasesOk(SEED, DEFS) && Resolves(SEED, DEFS, "X", "c")
  {
    assert DEFS[0].name == "X" && "X" in DEFS[0].bases && "Y" in DEFS[0].bases;
    assert DEFS[1].name == "Y" && "S" in DEFS[1].bases;
    assert Inherits(DEFS, "X", "X") && Inherits(DEFS, "X", "Y") && Defined(DEFS, "Y");
    assert Unresolved(SEED, DEFS, "Y", 0) && Unresolved(SEED, DEFS, "X", 1);
    forall m ensures Carries(SEED, DEFS, "X", m) <==> m == Some("c") {
      if Carries(SEED, DEFS, "X", m) {
        var path :| LineageTo(SEED, DEFS, path, "X", m);
        AllEndInC(path, "X", m);
      }
      CarriesUnfolds(SEED, DEFS, "X", m);
    }
  }

  lemma {:induction false} AllEndInC(path: seq<Name>, x: Name, m: Mark)
    requires x in {"X", "Y", "S"} && LineageTo(SEED, DEFS, path, x, m)
    ensures m == Some("c")
    decreases |path|
  {
    assert DEFS[1].name == "Y" && "S" in DEFS[1].bases && "X" in DEFS[0].bases;
    assert Defined(DEFS, "Y");
    if |path| > 1 {
      var up := path[1..];
      assert Inherits(DEFS, path[0], path[0 + 1]);
      forall i | 0 <= i < |up| - 1 ensures Inherits(DEFS, up[i], up[i + 1]) {
        assert Inherits(DEFS, path[i + 1], path[i + 1 + 1]);
      }
      AllEndInC(up, path[1], m);
    }
  }

  // ----- class families -----

  /** A line of subclassing from `path[0]` up to a root, through class names
      that are not excluded. */
  ghost predicate FamilyLine(parents: map<Name, set<Name>>, roots: set<Name>, exclude: set<Name>, path: seq<Name>) {
    && path != [] && path[|path| - 1] in roots
    && forall i :: 0 <= i < |path| - 1 ==>
         path[i] in parents && path[i] !in exclude && path[i + 1] in parents[path[i]]
  }

  ghost predicate Member(parents: map<Name, set<Name>>, roots: set<Name>, exclude: set<Name>, x: Name) {
    exists path :: FamilyLine(parents, roots, exclude, path) && path[0] == x
  }

  lemma MemberCons(parents: map<Name, set<Name>>, roots: set<Name>, exclude: set<Name>, x: Name, base: Name)
    requires Member(parents, roots, exclude, base) && x in parents && x !in exclude && base in parents[x]
    ensures Member(parents, roots, exclude, x)
  {
    var path :| FamilyLine(parents, roots, exclude, path) && path[0] == base;
    var longer := [x] + path;
    forall i | 0 <= i < |longer| - 1
      ensures longer[i] in parents && longer[i] !in exclude && longer[i + 1] in parents[longer[i]]
    {
      if i > 0 {
        assert longer[i] == path[i - 1] && longer[i + 1] == path[i - 1 + 1];
      }
    }
    assert FamilyLine(parents, roots, exclude, longer);
  }

  lemma {:induction false} LineStaysInside(
      parents: map<Name, set<Name>>, roots: set<Name>, exclude: set<Name>, names: set<Name>, path: seq<Name>)
    requires FamilyLine(parents, roots, exclude, path) && roots <= names
    requires forall c :: c in parents && parents[c] * names != {} && c !in exclude ==> c in names
    ensures path[0] in names
  {
    if |path| > 1 {
      var up := path[1..];
      forall i | 0 <= i < |up| - 1
        ensures up[i] in parents && up[i] !in exclude && up[i + 1] in parents[up[i]]
      {
        assert up[i] == path[i + 1] && up[i + 1] == path[i + 1 + 1];
      }
      LineStaysInside(parents, roots, exclude, names, up);
      assert path[0 + 1] in parents[path[0]];
      assert path[1] in parents[path[0]] * names;
    }
  }

  /** `_class_family`: the roots and every class with a line of subclassing up
      to a root that avoids the excluded names. */
  method ClassFamily(parents: map<Name, set<Name>>, roots: set<Name>, exclude: set<Name>) returns (names: set<Name>)
    ensures forall x :: x in names <==> Member(parents, roots, exclude, x)
  {
    names := roots;
    forall x | x in roots ensures Member(parents, roots, exclude, x) {
      assert FamilyLine(parents, roots, exclude, [x]);
    }
    var grown := (set c | c in parents && parents[c] * names != {}) - names - exclude;
    while grown != {}
      invariant grown == (set c | c in parents && parents[c] * names != {}) - names - exclude
      invariant roots <= names && forall x :: x in names ==> Member(parents, roots, exclude, x)
      decreases parents.Keys - names
    {
      forall x | x in grown ensures Member(parents, roots, exclude, x) {
        var base :| base in parents[x] * names;
        MemberCons(parents, roots, exclude, x, base);
      }
      var c :| c in grown;
      assert c in parents.Keys - names && c !in parents.Keys - (names + grown);
      names := names + grown;
      grown := (set c | c in parents && parents[c] * names != {}) - names - exclude;
    }
    forall x | Member(parents, roots, exclude, x) ensures x in names {
      var path :| FamilyLine(parents, roots, exclude, path) && path[0] == x;
      forall c | c in parents && parents[c] * names != {} && c !in exclude ensures c in names {
        assert c !in grown;
      }
      LineStaysInside(parents, roots, exclude, names, path);
    }
  }
}
