/** Provisioning of the test stack's template database: build under a scratch
    name, then rename. Workers share a lock, may crash between any two
    statements, and drop their run databases without the lock. */
module TemplateBuild {
  import opened Prelude
  import opened KeyText

  // ----- names -----

  const IDENTIFIER_MAX := 63

  function Take(s: string, n: nat): string {
    if |s| <= n then s else s[..n]
  }

  /** `service`, `run` and `worker` stand for the sanitised values. */
  function TemplateName(service: string, key: string): string {
    Take(service, 16) + "_tmpl_" + Take(key, 10)
  }

  function BuildingName(service: string, key: string): string {
    TemplateName(service, key) + "_building"
  }

  function RunName(service: string, key: string, run: string, worker: string): string {
    Take(service, 16) + "_" + Take(key, 10) + "_" + Take(run, 10) + "_" + Take(worker, 6)
  }

  function RunDatabase(service: string, key: string, run: string, worker: string): string {
    var name := RunName(service, key, run, worker);
    if |name| > IDENTIFIER_MAX then name[..IDENTIFIER_MAX] else name
  }

  /** The key is a prefix of a SHA-256 hex digest. */
  predicate HexKey(key: string) {
    |key| >= 10 && forall i :: 0 <= i < |key| ==> '0' <= key[i] <= '9' || 'a' <= key[i] <= 'f'
  }

  lemma RunNameFits(service: string, key: string, run: string, worker: string)
    ensures RunDatabase(service, key, run, worker) == RunName(service, key, run, worker)
    ensures |RunDatabase(service, key, run, worker)| <= IDENTIFIER_MAX
  {
  }

  /** A run database has an underscore among its last seven characters; neither
      a template nor a scratch name has one there. So no run database, of any
      service, run or worker, bears the name of a template or scratch database. */
  lemma RunNeverNamesTemplate(service: string, key: string, run: string, worker: string, service': string, key': string)
    requires HexKey(key')
    ensures RunDatabase(service, key, run, worker) != TemplateName(service', key')
    ensures RunDatabase(service, key, run, worker) != BuildingName(service', key')
    ensures TemplateName(service', key') != BuildingName(service', key')
  {
    RunNameFits(service, key, run, worker);
    var name := RunName(service, key, run, worker);
    var tail := |Take(worker, 6)|;
    assert 0 <= tail <= 6 && name[|name| - 1 - tail] == '_';
    var template := TemplateName(service', key');
    assert template[|template| - 1 - tail] == Take(key', 10)[9 - tail];
    var building := BuildingName(service', key');
    assert building[|building| - 1 - tail] == "_building"[8 - tail];
    assert template[|template| - 1 - tail] != '_';
    assert building[|building| - 1 - tail] != '_';
  }

  /** Two run databases share a name exactly when what is kept of run and worker,
      joined, is the same. */
  lemma RunNamesDiffer(service: string, key: string, run: string, worker: string, run': string, worker': string)
    ensures RunDatabase(service, key, run, worker) == RunDatabase(service, key, run', worker')
       <==> Take(run, 10) + "_" + Take(worker, 6) == Take(run', 10) + "_" + Take(worker', 6)
  {
    RunNameFits(service, key, run, worker);
    RunNameFits(service, key, run', worker');
    var head := Take(service, 16) + "_" + Take(key, 10) + "_";
    var x, y := Take(run, 10) + "_" + Take(worker, 6), Take(run', 10) + "_" + Take(worker', 6);
    assert RunName(service, key, run, worker) == head + x && RunName(service, key, run', worker') == head + y;
    if head + x == head + y {
      assert x == (head + x)[|head|..] && y == (head + y)[|head|..];
    }
  }

  /** So two workers of one run get different databases exactly when the first six
      characters of their names differ. */
  lemma WorkersDiffer(service: string, key: string, run: string, worker: string, worker': string)
    ensures RunDatabase(service, key, run, worker) == RunDatabase(service, key, run, worker')
       <==> Take(worker, 6) == Take(worker', 6)
  {
    RunNamesDiffer(service, key, run, worker, run, worker');
    var head := Take(run, 10) + "_";
    if head + Take(worker, 6) == head + Take(worker', 6) {
      assert (head + Take(worker, 6))[|head|..] == Take(worker, 6);
      assert (head + Take(worker', 6))[|head|..] == Take(worker', 6);
    }
  }

  // ----- the protocol -----

  type Worker = nat

  /** `total` is how many layout and migration statements make a database fully
      migrated. `locked` says whether workers take the file lock; the code does. */
  datatype Setup = Setup(
    service: string, key: string, runId: Worker -> string, workerId: Worker -> string, total: nat, locked: bool)
  {
    function Template(): string { TemplateName(service, key) }
    function Building(): string { BuildingName(service, key) }
    function RunDb(w: Worker): string { RunDatabase(service, key, runId(w), workerId(w)) }
  }

  /** What a worker knows of its own progress. It never looks into a database. */
  datatype Place =
    | Idle
    | Provisioning             // inside the lock, has not looked for the template yet
    | Absent                   // the template did not exist
    | ScratchDropped
    | Migrating(applied: nat)  // created the scratch database, and ran this many statements
    | Migrated                 // the migration process returned 0
    | Failed                   // it returned something else, scratch not dropped yet
    | Cloning                  // `create_run_database`, inside the lock
    | RunDropped

  /** `databases` maps a name to the number of statements applied to it. */
  datatype State = State(databases: map<string, nat>, holder: Option<Worker>, place: map<Worker, Place>)

  const INITIAL := State(map[], None, map[])

  datatype Action =
    | Provision(w: Worker)
    | Wipe(w: Worker)              // a fresh container was asked for
    | LookForTemplate(w: Worker)
    | DropScratch(w: Worker)
    | CreateScratch(w: Worker)
    | ApplyStatement(w: Worker)
    | MigrationEnds(w: Worker)
    | MigrationFails(w: Worker)
    | DropFailed(w: Worker)
    | Rename(w: Worker)
    | StartClone(w: Worker)
    | DropOldRun(w: Worker)
    | Clone(w: Worker)
    | UseRun(w: Worker, content: nat)
    | DropRun(w: Worker)           // teardown, without the lock
    | Crash(w: Worker)

  function At(s: State, w: Worker): Place {
    if w in s.place then s.place[w] else Idle
  }

  function Move(s: State, w: Worker, p: Place): State {
    s.(place := s.place[w := p])
  }

  /** The worker leaves the locked section; a crash releases the file lock too. */
  function Leave(s: State, w: Worker): State {
    Move(s, w, Idle).(holder := if s.holder == Some(w) then None else s.holder)
  }

  /** Takes the lock, or walks past it in a setup without one. */
  function Enter(setup: Setup, s: State, w: Worker, p: Place): Option<State> {
    if !At(s, w).Idle? || (setup.locked && s.holder.Some?) then None
    else Some(Move(s, w, p).(holder := if setup.locked then Some(w) else s.holder))
  }

  function Apply(setup: Setup, s: State, a: Action): Option<State> {
    var w := a.w;
    var p := At(s, w);
    var template, building, runDb := setup.Template(), setup.Building(), setup.RunDb(w);
    match a
    case Provision(_) => Enter(setup, s, w, Provisioning)
    case Wipe(_) => if !p.Provisioning? then None else Some(s.(databases := map[]))
    case LookForTemplate(_) =>
      if !p.Provisioning? then None
      else if template in s.databases then Some(Leave(s, w)) else Some(Move(s, w, Absent))
    case DropScratch(_) =>
      if !p.Absent? then None else Some(Move(s, w, ScratchDropped).(databases := s.databases - {building}))
    case CreateScratch(_) =>
      if !p.ScratchDropped? then None
      else if building in s.databases then Some(Leave(s, w))
      else Some(Move(s, w, Migrating(0)).(databases := s.databases[building := 0]))
    case ApplyStatement(_) =>
      if !p.Migrating? || p.applied >= setup.total then None
      else if building !in s.databases then Some(Move(s, w, Failed))
      else Some(Move(s, w, Migrating(p.applied + 1)).(databases := s.databases[building := s.databases[building] + 1]))
    case MigrationEnds(_) =>
      if !p.Migrating? || p.applied != setup.total then None else Some(Move(s, w, Migrated))
    case MigrationFails(_) => if !p.Migrating? then None else Some(Move(s, w, Failed))
    case DropFailed(_) =>
      if !p.Failed? then None else Some(Leave(s, w).(databases := s.databases - {building}))
    case Rename(_) =>
      if !p.Migrated? then None
      else if building !in s.databases || template in s.databases then Some(Leave(s, w))
      else Some(Leave(s, w).(databases := (s.databases - {building})[template := s.databases[building]]))
    case StartClone(_) => Enter(setup, s, w, Cloning)
    case DropOldRun(_) =>
      if !p.Cloning? then None else Some(Move(s, w, RunDropped).(databases := s.databases - {runDb}))
    case Clone(_) =>
      if !p.RunDropped? then None
      else if template !in s.databases || runDb in s.databases then Some(Leave(s, w))
      else Some(Leave(s, w).(databases := s.databases[runDb := s.databases[template]]))
    case UseRun(_, content) =>
      if runDb !in s.databases then None else Some(s.(databases := s.databases[runDb := content]))
    case DropRun(_) => Some(s.(databases := s.databases - {runDb}))
    case Crash(_) => Some(Leave(s, w))
  }

  ghost function RunFrom(setup: Setup, s: State, actions: seq<Action>): Option<State> {
    if actions == [] then Some(s)
    else
      var before := RunFrom(setup, s, actions[..|actions| - 1]);
      if before.None? then None else Apply(setup, before.value, actions[|actions| - 1])
  }

  ghost function Run(setup: Setup, actions: seq<Action>): Option<State> {
    RunFrom(setup, INITIAL, actions)
  }

  // ----- what every step keeps -----

  ghost predicate TemplateOk(setup: Setup, s: State) {
    setup.Template() in s.databases ==> s.databases[setup.Template()] == setup.total
  }

  /** The scratch database holds exactly what its builder ran. */
  ghost predicate ScratchIs(setup: Setup, s: State, applied: nat) {
    setup.Building() in s.databases && s.databases[setup.Building()] == applied
  }

  /** Only the lock holder is inside; while it builds there is no template and the
      scratch database is as far as the holder is, and while it clones its old run
      database is gone. */
  ghost predicate LockOk(setup: Setup, s: State) {
    forall w: Worker :: InsideOk(setup, s, w)
  }

  ghost predicate InsideOk(setup: Setup, s: State, w: Worker) {
    && (!At(s, w).Idle? ==> s.holder == Some(w))
    && (Building(At(s, w)) ==> setup.Template() !in s.databases)
    && (At(s, w).Migrating? ==> ScratchIs(setup, s, At(s, w).applied))
    && (At(s, w).Migrated? ==> ScratchIs(setup, s, setup.total))
    && (At(s, w).RunDropped? ==> setup.RunDb(w) !in s.databases)
  }

  predicate Building(p: Place) {
    p.Absent? || p.ScratchDropped? || p.Migrating? || p.Migrated? || p.Failed?
  }

  lemma StepKeepsInv(setup: Setup, s: State, a: Action)
    requires HexKey(setup.key) && setup.locked && TemplateOk(setup, s) && LockOk(setup, s) && Apply(setup, s, a).Some?
    ensures TemplateOk(setup, Apply(setup, s, a).value) && LockOk(setup, Apply(setup, s, a).value)
  {
    var t := Apply(setup, s, a).value;
    RunNeverNamesTemplate(setup.service, setup.key, setup.runId(a.w), setup.workerId(a.w), setup.service, setup.key);
    assert InsideOk(setup, s, a.w);
    forall v: Worker ensures InsideOk(setup, t, v) {
      assert InsideOk(setup, s, v);
      RunNeverNamesTemplate(setup.service, setup.key, setup.runId(v), setup.workerId(v), setup.service, setup.key);
    }
  }

  lemma {:induction false} ReachableInv(setup: Setup, actions: seq<Action>)
    requires HexKey(setup.key) && setup.locked && Run(setup, actions).Some?
    ensures TemplateOk(setup, Run(setup, actions).value) && LockOk(setup, Run(setup, actions).value)
  {
    if actions != [] {
      ReachableInv(setup, actions[..|actions| - 1]);
      StepKeepsInv(setup, Run(setup, actions[..|actions| - 1]).value, actions[|actions| - 1]);
    }
  }

  /** In every reachable state, whatever crashed in between, a database bearing
      the template name is fully migrated. */
  lemma TemplateIsFullyMigrated(setup: Setup, actions: seq<Action>)
    requires HexKey(setup.key) && setup.locked && Run(setup, actions).Some?
    requires setup.Template() in Run(setup, actions).value.databases
    ensures Run(setup, actions).value.databases[setup.Template()] == setup.total
  {
    ReachableInv(setup, actions);
  }

  /** A run database starts as a fresh clone of a fully migrated template; it
      keeps nothing of an older run database of the same name. */
  lemma CloneIsFullyMigrated(setup: Setup, actions: seq<Action>, w: Worker)
    requires HexKey(setup.key) && setup.locked && Run(setup, actions).Some?
    requires At(Run(setup, actions).value, w).RunDropped? && setup.Template() in Run(setup, actions).value.databases
    ensures var after := Apply(setup, Run(setup, actions).value, Clone(w)).value;
            setup.RunDb(w) in after.databases && after.databases[setup.RunDb(w)] == setup.total
  {
    ReachableInv(setup, actions);
    assert InsideOk(setup, Run(setup, actions).value, w);
  }

  /** The database is in both states or in neither, with the same content. */
  ghost predicate Untouched(s: State, t: State, name: string) {
    (name in s.databases <==> name in t.databases) && (name in s.databases ==> t.databases[name] == s.databases[name])
  }

  /** The unlocked teardown drops the worker's own run database and no other: the
      template, the scratch database and everyone else's stay as they are. */
  lemma TeardownSparesTemplate(setup: Setup, s: State, w: Worker)
    requires HexKey(setup.key)
    ensures var after := Apply(setup, s, DropRun(w)).value;
            && Untouched(s, after, setup.Template()) && Untouched(s, after, setup.Building())
            && setup.RunDb(w) !in after.databases
            && (forall name :: name != setup.RunDb(w) ==> Untouched(s, after, name))
            && after.holder == s.holder && after.place == s.place
  {
    RunNeverNamesTemplate(setup.service, setup.key, setup.runId(w), setup.workerId(w), setup.service, setup.key);
  }

  // ----- the lock is what carries this -----

  /** Extends a run by one enabled step. */
  lemma Go(setup: Setup, s: State, actions: seq<Action>, t: State, a: Action) returns (longer: seq<Action>, u: State)
    requires RunFrom(setup, s, actions) == Some(t) && Apply(setup, t, a).Some?
    ensures longer == actions + [a] && RunFrom(setup, s, longer) == Some(u) && Some(u) == Apply(setup, t, a)
  {
    longer, u := actions + [a], Apply(setup, t, a).value;
    assert longer[..|actions|] == actions;
  }

  /** A worker that has just created the scratch database runs its statements. */
  lemma {:induction false} Migrate(setup: Setup, s: State, actions: seq<Action>, t: State, w: Worker, k: nat)
    returns (longer: seq<Action>, u: State)
    requires RunFrom(setup, s, actions) == Some(t) && k <= setup.total
    requires At(t, w) == Migrating(k) && ScratchIs(setup, t, k)
    ensures RunFrom(setup, s, longer) == Some(u)
    ensures u == Move(t, w, Migrated).(databases := t.databases[setup.Building() := setup.total])
    decreases setup.total - k
  {
    if k == setup.total {
      longer, u := Go(setup, s, actions, t, MigrationEnds(w));
      assert u.databases == t.databases[setup.Building() := setup.total];
    } else {
      longer, u := Go(setup, s, actions, t, ApplyStatement(w));
      longer, u := Migrate(setup, s, longer, u, w, k + 1);
      assert u.place == Move(t, w, Migrated).place;
      assert u.databases == t.databases[setup.Building() := setup.total];
    }
  }

  /** An idle worker looks for the template and finds none. */
  lemma FindNone(setup: Setup, s: State, actions: seq<Action>, t: State, w: Worker)
    returns (longer: seq<Action>, u: State)
    requires RunFrom(setup, s, actions) == Some(t) && At(t, w).Idle? && setup.Template() !in t.databases
    requires setup.locked ==> t.holder.None?
    ensures RunFrom(setup, s, longer) == Some(u)
    ensures u == Move(t, w, Absent).(holder := if setup.locked then Some(w) else t.holder)
  {
    longer, u := Go(setup, s, actions, t, Provision(w));
    longer, u := Go(setup, s, longer, u, LookForTemplate(w));
    assert u.place == Move(t, w, Absent).place;
  }

  /** It then gets as far as a fresh scratch database, whatever bore that name. */
  lemma StartBuild(setup: Setup, s: State, actions: seq<Action>, t: State, w: Worker)
    returns (longer: seq<Action>, u: State)
    requires RunFrom(setup, s, actions) == Some(t) && At(t, w).Absent?
    ensures RunFrom(setup, s, longer) == Some(u)
    ensures u == Move(t, w, Migrating(0)).(databases := t.databases[setup.Building() := 0])
  {
    longer, u := Go(setup, s, actions, t, DropScratch(w));
    longer, u := Go(setup, s, longer, u, CreateScratch(w));
    assert u.place == Move(t, w, Migrating(0)).place;
    assert u.databases == t.databases[setup.Building() := 0];
  }

  /** A crash never wedges the build: from every reachable state in which the lock
      is free and there is no template, any idle worker can still build it, whatever
      half-built scratch database was left behind. */
  lemma CrashedBuildIsRecovered(setup: Setup, before: seq<Action>, w: Worker) returns (after: seq<Action>)
    requires HexKey(setup.key) && setup.locked && Run(setup, before).Some?
    requires var s := Run(setup, before).value; s.holder.None? && setup.Template() !in s.databases
    ensures var s := RunFrom(setup, Run(setup, before).value, after);
            s.Some? && setup.Template() in s.value.databases && s.value.databases[setup.Template()] == setup.total
  {
    var s := Run(setup, before).value;
    ReachableInv(setup, before);
    assert InsideOk(setup, s, w);
    RunNeverNamesTemplate(setup.service, setup.key, "", "", setup.service, setup.key);
    var t;
    after, t := FindNone(setup, s, [], s, w);
    after, t := StartBuild(setup, s, after, t, w);
    after, t := Migrate(setup, s, after, t, w, 0);
    after, t := Go(setup, s, after, t, Rename(w));
  }

  /** Without the lock a second worker re-creates the scratch database between the
      first one's exit code and its rename, and an empty database becomes the
      template. */
  lemma UnlockedRenameBreaks(setup: Setup) returns (actions: seq<Action>)
    requires HexKey(setup.key) && !setup.locked && setup.total > 0
    ensures Run(setup, actions).Some? && !TemplateOk(setup, Run(setup, actions).value)
  {
    var s;
    RunNeverNamesTemplate(setup.service, setup.key, "", "", setup.service, setup.key);
    actions, s := FindNone(setup, INITIAL, [], INITIAL, 0);
    actions, s := StartBuild(setup, INITIAL, actions, s, 0);
    actions, s := Migrate(setup, INITIAL, actions, s, 0, 0);
    actions, s := FindNone(setup, INITIAL, actions, s, 1);
    actions, s := StartBuild(setup, INITIAL, actions, s, 1);
    actions, s := Go(setup, INITIAL, actions, s, Rename(0));
  }

  /** Every run keeps the template fully migrated exactly when workers take the
      lock. */
  lemma TemplateOkIffLocked(setup: Setup)
    requires HexKey(setup.key) && setup.total > 0
    ensures (forall actions: seq<Action> :: Run(setup, actions).Some? ==> TemplateOk(setup, Run(setup, actions).value))
       <==> setup.locked
  {
    if setup.locked {
      forall actions: seq<Action> | Run(setup, actions).Some? ensures TemplateOk(setup, Run(setup, actions).value) {
        ReachableInv(setup, actions);
      }
    } else {
      var actions := UnlockedRenameBreaks(setup);
      assert Run(setup, actions).Some? && !TemplateOk(setup, Run(setup, actions).value);
    }
  }

  // ----- a failed migration leaves nothing behind -----

  /** From every reachable state in which a worker migrates, the migration may fail;
      the worker then drops the scratch database and leaves the lock, and there is
      neither a scratch database nor a template. */
  lemma FailureCleansUp(setup: Setup, actions: seq<Action>, w: Worker)
    requires HexKey(setup.key) && setup.locked && Run(setup, actions).Some?
    requires At(Run(setup, actions).value, w).Migrating?
    ensures var failed := Apply(setup, Run(setup, actions).value, MigrationFails(w));
            && failed.Some?
            && var dropped := Apply(setup, failed.value, DropFailed(w));
               && dropped.Some? && dropped.value.holder.None? && At(dropped.value, w).Idle?
               && setup.Building() !in dropped.value.databases && setup.Template() !in dropped.value.databases
  {
    ReachableInv(setup, actions);
    assert InsideOk(setup, Run(setup, actions).value, w);
  }
}
