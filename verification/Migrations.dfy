/**
 * Versioned migrations and the fresh-schema seed: one run of each as a method, then any number of
 * containers running them under the shared setup lock, crashing wherever they like.
 */
module Migrations {
  import opened Results

  datatype Effect = SchemaFile(name: string) | Migration(name: string)

  datatype Db = Db(ledgerTable: bool, ledger: seq<string>, effects: seq<Effect>)

  predicate HasAppliedMigrations(db: Db) {
    db.ledgerTable && |db.ledger| > 0
  }

  /** One committed migration transaction: the file's effects and its ledger row together. */
  function Migrated(db: Db, name: string): Db {
    db.(ledger := db.ledger + [name], effects := db.effects + [Migration(name)])
  }

  /** One schema file, run outside any transaction of ours. */
  function Seeded(db: Db, name: string): Db {
    db.(effects := db.effects + [SchemaFile(name)])
  }

  // ---------- One run ----------

  function Pending(files: seq<string>, applied: set<string>): seq<string> {
    if files == [] then []
    else (if files[0] in applied then [] else [files[0]]) + Pending(files[1..], applied)
  }

  /** The part of a list before the first name whose SQL fails. */
  function UntilFailure(names: seq<string>, fails: string -> bool): (done: seq<string>)
    ensures done <= names
  {
    if names == [] || fails(names[0]) then [] else [names[0]] + UntilFailure(names[1..], fails)
  }

  function MigratedAll(db: Db, names: seq<string>): Db
    decreases |names|
  {
    if names == [] then db else MigratedAll(Migrated(db, names[0]), names[1..])
  }

  function SeededAll(db: Db, names: seq<string>): Db
    decreases |names|
  {
    if names == [] then db else SeededAll(Seeded(db, names[0]), names[1..])
  }

  datatype SetupError = SqlFailed(name: string) | NoSchemaFiles

  /** Seeding happens only while no migration is ledgered, and stops at the first file that fails. */
  function SeedResult(db: Db, files: seq<string>, fails: string -> bool): Result<Option<nat>, SetupError> {
    if HasAppliedMigrations(db) then Ok(None)
    else if files == [] then Err(NoSchemaFiles)
    else
      var done := |UntilFailure(files, fails)|;
      if done == |files| then Ok(Some(|files|)) else Err(SqlFailed(files[done]))
  }

  function SeedEffect(db: Db, files: seq<string>, fails: string -> bool): Db {
    if HasAppliedMigrations(db) then db else SeededAll(db, UntilFailure(files, fails))
  }

  /** The effects of schema files, in order. */
  function SchemaFiles(files: seq<string>): (effects: seq<Effect>)
    ensures |effects| == |files| && forall i :: 0 <= i < |files| ==> effects[i] == SchemaFile(files[i])
  {
    seq(|files|, i requires 0 <= i < |files| => SchemaFile(files[i]))
  }

  lemma {:induction false} SeededAppends(db: Db, names: seq<string>)
    ensures SeededAll(db, names) == db.(effects := db.effects + SchemaFiles(names))
    decreases |names|
  {
    if names == [] {
      assert db.effects + SchemaFiles(names) == db.effects;
    } else {
      SeededAppends(Seeded(db, names[0]), names[1..]);
      assert (db.effects + [SchemaFile(names[0])]) + SchemaFiles(names[1..]) == db.effects + SchemaFiles(names);
    }
  }

  /** What a seed leaves of the schema, told by its report; the ledger is not its business. */
  lemma SeedMeans(db: Db, files: seq<string>, fails: string -> bool)
    ensures var r, after := SeedResult(db, files, fails), SeedEffect(db, files, fails);
            && after.ledger == db.ledger && after.ledgerTable == db.ledgerTable
            && (r == Ok(None) <==> db.ledgerTable && db.ledger != [])
            && (r == Ok(None) || r == Err(NoSchemaFiles) ==> after == db)
            && (r == Err(NoSchemaFiles) ==> files == [])
            && (r.Ok? && r.value.Some? ==> r.value.value == |files| && after.effects == db.effects + SchemaFiles(files)
                                            && forall i :: 0 <= i < |files| ==> !fails(files[i]))
            && (r.Err? && r.error.SqlFailed? ==>
                  exists k: nat :: k < |files| && r.error.name == files[k] && fails(files[k])
                    && after.effects == db.effects + SchemaFiles(files[..k]) && forall i :: 0 <= i < k ==> !fails(files[i]))
  {
    var done := UntilFailure(files, fails);
    UntilFailureLength(files, fails);
    UntilFailurePasses(files, fails);
    SeededAppends(db, done);
    assert done == files[..|done|];
  }

  lemma {:induction false} UntilFailurePasses(names: seq<string>, fails: string -> bool)
    ensures forall i :: 0 <= i < |UntilFailure(names, fails)| ==> !fails(names[i])
  {
    if names != [] && !fails(names[0]) {
      UntilFailurePasses(names[1..], fails);
      forall i | 0 <= i < |UntilFailure(names, fails)| ensures !fails(names[i]) {
        if i > 0 { assert names[i] == names[1..][i - 1]; }
      }
    }
  }

  class Database {
    var db: Db
    var locked: bool

    constructor (initial: Db)
      ensures db == initial && !locked
    {
      db, locked := initial, false;
    }

    /** One transaction per file; a failing file rolls back and ends the run. */
    method ApplyFile(name: string, fails: string -> bool) returns (ok: bool)
      modifies this`db
      ensures ok == !fails(name)
      ensures db == if ok then Migrated(old(db), name) else old(db)
    {
      var begun := db;
      db := db.(effects := db.effects + [Migration(name)]);
      if fails(name) {
        db := begun;
        return false;
      }
      db := db.(ledger := db.ledger + [name]);
      ok := true;
    }

    method Migrate(files: seq<string>, fails: string -> bool) returns (r: Result<nat, SetupError>)
      requires !locked
      modifies this
      ensures !locked
      ensures var todo := Pending(files, set n | n in old(db).ledger);
              var done := UntilFailure(todo, fails);
              && db == MigratedAll(old(db).(ledgerTable := true), done)
              && (r.Ok? <==> done == todo) && (r.Ok? ==> r.value == |todo|)
              && (r.Err? ==> |done| < |todo| && r.error == SqlFailed(todo[|done|]))
    {
      locked := true;
      db := db.(ledgerTable := true);
      var applied := set n | n in db.ledger;
      ghost var start := db;
      var appliedCount := 0;
      r := Ok(0);
      for i := 0 to |files|
        invariant locked && r == Ok(0)
        invariant MigratedAll(start, UntilFailure(Pending(files, applied), fails))
               == MigratedAll(db, UntilFailure(Pending(files[i..], applied), fails))
        invariant appliedCount + |UntilFailure(Pending(files[i..], applied), fails)|
               == |UntilFailure(Pending(files, applied), fails)|
        invariant appliedCount <= |Pending(files, applied)|
               && Pending(files, applied)[appliedCount..] == Pending(files[i..], applied)
      {
        PendingStep(files, i, applied);
        if files[i] in applied {
          continue;
        }
        ghost var rest := Pending(files[i..], applied);
        ghost var before := db;
        var ok := ApplyFile(files[i], fails);
        if !ok {
          UntilFailureLength(Pending(files, applied), fails);
          r := Err(SqlFailed(files[i]));
          break;
        }
        MigratedAllHead(before, rest, fails);
        appliedCount := appliedCount + 1;
      }
      UntilFailureLength(Pending(files, applied), fails);
      if r.Ok? {
        r := Ok(appliedCount);
      }
      locked := false;
    }

    method ApplyFreshSchemaIfNeeded(files: seq<string>, fails: string -> bool)
      returns (r: Result<Option<nat>, SetupError>)
      modifies this`db
      ensures r == SeedResult(old(db), files, fails) && db == SeedEffect(old(db), files, fails)
    {
      if HasAppliedMigrations(db) {
        return Ok(None);
      }
      if files == [] {
        return Err(NoSchemaFiles);
      }
      for i := 0 to |files|
        invariant SeededAll(old(db), UntilFailure(files, fails)) == SeededAll(db, UntilFailure(files[i..], fails))
        invariant |UntilFailure(files, fails)| == i + |UntilFailure(files[i..], fails)|
      {
        assert files[i..][0] == files[i] && files[i..][1..] == files[i + 1..];
        if fails(files[i]) {
          return Err(SqlFailed(files[i]));
        }
        db := Seeded(db, files[i]);
      }
      UntilFailureLength(files, fails);
      r := Ok(Some(|files|));
    }

    method ApplySchema(files: seq<string>, fails: string -> bool) returns (r: Result<Option<nat>, SetupError>)
      requires !locked
      modifies this
      ensures !locked && r == SeedResult(old(db), files, fails) && db == SeedEffect(old(db), files, fails)
      ensures db.ledger == old(db).ledger && db.ledgerTable == old(db).ledgerTable
      ensures r == Ok(None) <==> old(db).ledgerTable && old(db).ledger != []
      ensures r.Ok? && r.value == None ==> db == old(db)
      ensures r.Ok? && r.value.Some? ==> r.value.value == |files| && db.effects == old(db).effects + SchemaFiles(files)
      ensures r == Err(NoSchemaFiles) ==> files == [] && db == old(db)
      ensures r.Err? && r.error.SqlFailed? ==>
                exists k: nat :: k < |files| && r.error.name == files[k] && fails(files[k])
                  && db.effects == old(db).effects + SchemaFiles(files[..k])
    {
      locked := true;
      r := ApplyFreshSchemaIfNeeded(files, fails);
      SeedingKeepsLedger(old(db), UntilFailure(files, fails));
      SeedMeans(old(db), files, fails);
      locked := false;
    }
  }

  lemma {:induction false} UntilFailureLength(names: seq<string>, fails: string -> bool)
    ensures UntilFailure(names, fails) <= names
    ensures |UntilFailure(names, fails)| == |names| ==> UntilFailure(names, fails) == names
    ensures |UntilFailure(names, fails)| < |names| ==> fails(names[|UntilFailure(names, fails)|])
  {
    if names != [] && !fails(names[0]) {
      UntilFailureLength(names[1..], fails);
      assert names == [names[0]] + names[1..];
    }
  }

  lemma PendingStep(files: seq<string>, i: nat, applied: set<string>)
    requires i < |files|
    ensures files[i] in applied ==> Pending(files[i..], applied) == Pending(files[i + 1..], applied)
    ensures files[i] !in applied ==>
              var rest := Pending(files[i..], applied);
              rest != [] && rest[0] == files[i] && rest[1..] == Pending(files[i + 1..], applied)
  {
    assert files[i..][0] == files[i] && files[i..][1..] == files[i + 1..];
  }

  lemma MigratedAllHead(db: Db, names: seq<string>, fails: string -> bool)
    requires names != [] && !fails(names[0])
    ensures MigratedAll(db, UntilFailure(names, fails)) == MigratedAll(Migrated(db, names[0]), UntilFailure(names[1..], fails))
  {
    assert UntilFailure(names, fails)[1..] == UntilFailure(names[1..], fails);
  }

  lemma {:induction false} SeedingKeepsLedger(db: Db, names: seq<string>)
    ensures SeededAll(db, names).ledger == db.ledger && SeededAll(db, names).ledgerTable == db.ledgerTable
    decreases |names|
  {
    if names != [] { SeedingKeepsLedger(Seeded(db, names[0]), names[1..]); }
  }

  predicate Distinct(files: seq<string>) {
    forall i, j :: 0 <= i < j < |files| ==> files[i] != files[j]
  }

  /** With a fixed list and a ledger that is a prefix of it, exactly the rest is pending, in order. */
  lemma {:induction false} PendingIsTheRest(files: seq<string>, applied: set<string>, n: nat)
    requires Distinct(files) && n <= |files| && forall i :: 0 <= i < |files| ==> (files[i] in applied <==> i < n)
    ensures Pending(files, applied) == files[n..]
  {
    if files != [] {
      PendingIsTheRest(files[1..], applied, if n == 0 then 0 else n - 1);
      assert files == [files[0]] + files[1..];
    }
  }

  // ---------- Containers ----------

  datatype Phase =
    | WaitMigrate | TableEnsured | Walking(applied: set<string>, next: nat) | InTransaction(applied: set<string>, next: nat)
    | WaitSeed | Seeding(next: nat)
    | LockHeldMigrate | LockHeldSeed | Unlocking(ok: bool, migrate: bool) | Ended(ok: bool, migrate: bool)

  datatype State = State(db: Db, lock: Option<nat>, runs: seq<Phase>)

  datatype Step =
    | StartMigrate
    | StartSeed
    | Lock(t: nat)
    | EnsureTable(t: nat)
    | LoadApplied(t: nat)
    | Skip(t: nat)
    | BeginFile(t: nat)
    | CommitFile(t: nat)
    | FailFile(t: nat)
    | CheckSeed(t: nat)
    | SeedFile(t: nat)
    | FailSeed(t: nat)
    | Stop(t: nat)      // nothing left to do
    | Unlock(t: nat)
    | Crash(t: nat)     // the connection dies: open transaction gone, session lock gone

  predicate HoldsLock(p: Phase) {
    !p.WaitMigrate? && !p.WaitSeed? && !p.Ended?
  }

  predicate Enabled(files: seq<string>, schema: seq<string>, s: State, step: Step) {
    match step
    case StartMigrate => true
    case StartSeed => true
    case Lock(t) => t < |s.runs| && (s.runs[t].WaitMigrate? || s.runs[t].WaitSeed?) && s.lock == None
    case EnsureTable(t) => t < |s.runs| && s.runs[t].LockHeldMigrate?
    case LoadApplied(t) => t < |s.runs| && s.runs[t].TableEnsured?
    case Skip(t) => t < |s.runs| && s.runs[t].Walking? && s.runs[t].next < |files| && files[s.runs[t].next] in s.runs[t].applied
    case BeginFile(t) => t < |s.runs| && s.runs[t].Walking? && s.runs[t].next < |files| && files[s.runs[t].next] !in s.runs[t].applied
    case CommitFile(t) => t < |s.runs| && s.runs[t].InTransaction? && s.runs[t].next < |files|
    case FailFile(t) => t < |s.runs| && s.runs[t].InTransaction?
    case CheckSeed(t) => t < |s.runs| && s.runs[t].LockHeldSeed?
    case SeedFile(t) => t < |s.runs| && s.runs[t].Seeding? && s.runs[t].next < |schema|
    case FailSeed(t) => t < |s.runs| && s.runs[t].Seeding?
    case Stop(t) =>
      t < |s.runs| && ((s.runs[t].Walking? && s.runs[t].next >= |files|) || (s.runs[t].Seeding? && s.runs[t].next >= |schema|))
    case Unlock(t) => t < |s.runs| && s.runs[t].Unlocking?
    case Crash(t) => t < |s.runs| && !s.runs[t].Ended?
  }

  function Go(s: State, t: nat, p: Phase): State
    requires t < |s.runs|
  {
    s.(runs := s.runs[t := p])
  }

  predicate IsMigrate(p: Phase) {
    p.WaitMigrate? || p.LockHeldMigrate? || p.TableEnsured? || p.Walking? || p.InTransaction?
    || (p.Unlocking? && p.migrate) || (p.Ended? && p.migrate)
  }

  function Apply(files: seq<string>, schema: seq<string>, s: State, step: Step): State
    requires Enabled(files, schema, s, step)
  {
    match step
    case StartMigrate => s.(runs := s.runs + [WaitMigrate])
    case StartSeed => s.(runs := s.runs + [WaitSeed])
    case Lock(t) => Go(s, t, if s.runs[t].WaitMigrate? then LockHeldMigrate else LockHeldSeed).(lock := Some(t))
    case EnsureTable(t) => Go(s, t, TableEnsured).(db := s.db.(ledgerTable := true))
    case LoadApplied(t) => Go(s, t, Walking(set n | n in s.db.ledger, 0))
    case Skip(t) => Go(s, t, Walking(s.runs[t].applied, s.runs[t].next + 1))
    case BeginFile(t) => Go(s, t, InTransaction(s.runs[t].applied, s.runs[t].next))
    case CommitFile(t) =>
      Go(s, t, Walking(s.runs[t].applied, s.runs[t].next + 1)).(db := Migrated(s.db, files[s.runs[t].next]))
    case FailFile(t) => Go(s, t, Unlocking(false, true))
    case CheckSeed(t) =>
      Go(s, t, if HasAppliedMigrations(s.db) then Unlocking(true, false)
               else if schema == [] then Unlocking(false, false) else Seeding(0))
    case SeedFile(t) => Go(s, t, Seeding(s.runs[t].next + 1)).(db := Seeded(s.db, schema[s.runs[t].next]))
    case FailSeed(t) => Go(s, t, Unlocking(false, false))
    case Stop(t) => Go(s, t, Unlocking(true, s.runs[t].Walking?))
    case Unlock(t) => Go(s, t, Ended(s.runs[t].ok, s.runs[t].migrate)).(lock := None)
    case Crash(t) =>
      Go(s, t, Ended(false, IsMigrate(s.runs[t]))).(lock := if s.lock == Some(t) then None else s.lock)
  }

  ghost predicate Run(files: seq<string>, schema: seq<string>, s: State, steps: seq<Step>, s': State)
    decreases |steps|
  {
    if steps == [] then s == s'
    else Enabled(files, schema, s, steps[0]) && Run(files, schema, Apply(files, schema, s, steps[0]), steps[1..], s')
  }

  function MigrationsIn(effects: seq<Effect>): seq<string> {
    if effects == [] then []
    else
      var last := effects[|effects| - 1];
      MigrationsIn(effects[..|effects| - 1]) + (if last.Migration? then [last.name] else [])
  }

  /** The ledger is a prefix of the list, the migration effects are the ledger, seeds come before them all. */
  ghost predicate Consistent(files: seq<string>, db: Db) {
    && db.ledger <= files && MigrationsIn(db.effects) == db.ledger && (db.ledger != [] ==> db.ledgerTable)
    && forall i, j :: 0 <= i < j < |db.effects| && db.effects[i].Migration? ==> db.effects[j].Migration?
  }

  /** Where a run stands in the list, given the ledger it loaded. */
  ghost predicate RunOk(files: seq<string>, db: Db, p: Phase) {
    match p
    case Walking(applied, next) => next <= |files| && WalkOk(files, db, applied, next)
    case InTransaction(applied, next) => next < |files| && WalkOk(files, db, applied, next) && files[next] !in applied
    case Seeding(_) => db.ledger == []
    case TableEnsured => db.ledgerTable
    case Unlocking(ok, migrate) => ok && migrate ==> db.ledger == files
    case _ => true
  }

  ghost predicate WalkOk(files: seq<string>, db: Db, applied: set<string>, next: nat)
    requires next <= |files|
  {
    && db.ledgerTable && (forall i :: 0 <= i < next ==> files[i] in db.ledger)
    && (forall n :: n in applied ==> n in db.ledger)
    && (forall n :: n in db.ledger && n !in applied ==> n in files[..next])
  }

  ghost predicate Inv(files: seq<string>, s: State) {
    && Distinct(files) && Consistent(files, s.db)
    && (forall t :: 0 <= t < |s.runs| && HoldsLock(s.runs[t]) ==> s.lock == Some(t) && RunOk(files, s.db, s.runs[t]))
    && (s.lock.Some? ==> s.lock.value < |s.runs| && HoldsLock(s.runs[s.lock.value]))
    && (forall t :: 0 <= t < |s.runs| && s.runs[t].Ended? && s.runs[t].ok && s.runs[t].migrate ==> s.db.ledger == files)
  }

  /** The next file a walk commits is exactly the first one missing from the ledger. */
  lemma WalkCommitsNext(files: seq<string>, db: Db, applied: set<string>, next: nat)
    requires Distinct(files) && db.ledger <= files && next < |files|
    requires WalkOk(files, db, applied, next) && files[next] !in applied
    ensures |db.ledger| == next
  {
    if |db.ledger| < next {
      LedgerEndsAt(files, db.ledger, |db.ledger|);
      assert false;
    }
  }

  lemma LedgerEndsAt(files: seq<string>, ledger: seq<string>, n: nat)
    requires Distinct(files) && ledger <= files && |ledger| <= n < |files|
    ensures files[n] !in ledger
  {
    forall k | 0 <= k < |ledger| ensures ledger[k] != files[n] {
      assert ledger[k] == files[k];
    }
  }

  lemma WalkFinished(files: seq<string>, db: Db, applied: set<string>)
    requires Distinct(files) && db.ledger <= files && WalkOk(files, db, applied, |files|)
    ensures db.ledger == files
  {
    if |db.ledger| < |files| {
      LedgerEndsAt(files, db.ledger, |db.ledger|);
      assert false;
    }
  }

  lemma CommitKeepsConsistent(files: seq<string>, db: Db)
    requires Consistent(files, db) && db.ledgerTable && |db.ledger| < |files|
    ensures Consistent(files, Migrated(db, files[|db.ledger|]))
  {
    var db' := Migrated(db, files[|db.ledger|]);
    assert db'.effects[..|db'.effects| - 1] == db.effects;
  }

  lemma SeedKeepsConsistent(files: seq<string>, db: Db, name: string)
    requires Consistent(files, db) && db.ledger == []
    ensures Consistent(files, Seeded(db, name))
  {
    var db' := Seeded(db, name);
    assert db'.effects[..|db'.effects| - 1] == db.effects;
    NoMigrations(db.effects);
  }

  lemma {:induction false} NoMigrations(effects: seq<Effect>)
    requires MigrationsIn(effects) == []
    ensures forall i :: 0 <= i < |effects| ==> effects[i].SchemaFile?
  {
    if effects != [] {
      NoMigrations(effects[..|effects| - 1]);
    }
  }

  /** The effects of migration files, in order. */
  function MigrationFiles(files: seq<string>): (effects: seq<Effect>)
    ensures |effects| == |files| && forall i :: 0 <= i < |files| ==> effects[i] == Migration(files[i])
  {
    seq(|files|, i requires 0 <= i < |files| => Migration(files[i]))
  }

  lemma {:induction false} MigratedAppends(db: Db, names: seq<string>)
    ensures MigratedAll(db, names) == Db(db.ledgerTable, db.ledger + names, db.effects + MigrationFiles(names))
    decreases |names|
  {
    if names == [] {
      assert db.ledger + names == db.ledger && db.effects + MigrationFiles(names) == db.effects;
    } else {
      MigratedAppends(Migrated(db, names[0]), names[1..]);
      assert (db.ledger + [names[0]]) + names[1..] == db.ledger + names;
      assert (db.effects + [Migration(names[0])]) + MigrationFiles(names[1..]) == db.effects + MigrationFiles(names);
    }
  }

  lemma {:induction false} MigratedAllKeepsConsistent(files: seq<string>, db: Db, names: seq<string>)
    requires Consistent(files, db) && db.ledgerTable && db.ledger + names <= files
    ensures Consistent(files, MigratedAll(db, names)) && MigratedAll(db, names).ledger == db.ledger + names
    decreases |names|
  {
    if names != [] {
      assert names[0] == (db.ledger + names)[|db.ledger|];
      CommitKeepsConsistent(files, db);
      assert db.ledger + names == (db.ledger + [names[0]]) + names[1..];
      MigratedAllKeepsConsistent(files, Migrated(db, names[0]), names[1..]);
    } else {
      assert db.ledger + names == db.ledger;
    }
  }

  /**
   * What `Migrate` leaves behind, from any consistent database: again a consistent one, its ledger longer by
   * exactly the files before the first failing one, and equal to the whole list when none of the rest fails.
   */
  lemma MigrateResult(files: seq<string>, db: Db, fails: string -> bool)
    requires Distinct(files) && Consistent(files, db)
    ensures var todo := Pending(files, set n | n in db.ledger);
            var after := MigratedAll(db.(ledgerTable := true), UntilFailure(todo, fails));
            && todo == files[|db.ledger|..] && Consistent(files, after)
            && after.ledger == db.ledger + UntilFailure(files[|db.ledger|..], fails)
            && (after.ledger == files <==> forall n :: n in files[|db.ledger|..] ==> !fails(n))
            && after.effects == db.effects + MigrationFiles(UntilFailure(files[|db.ledger|..], fails))
            && (db.ledger == files ==> after.effects == db.effects)
  {
    var rest := files[|db.ledger|..];
    var done := UntilFailure(rest, fails);
    PendingAfterLedger(files, db.ledger);
    UntilFailureLength(rest, fails);
    UntilFailureFails(rest, fails);
    PrefixOfRest(files, db.ledger, done);
    var begun := db.(ledgerTable := true);
    assert Consistent(files, begun);
    MigratedAllKeepsConsistent(files, begun, done);
    MigratedAppends(begun, done);
  }

  lemma PendingAfterLedger(files: seq<string>, ledger: seq<string>)
    requires Distinct(files) && ledger <= files
    ensures Pending(files, set x | x in ledger) == files[|ledger|..]
  {
    var applied := set x | x in ledger;
    forall i | 0 <= i < |files| ensures files[i] in applied <==> i < |ledger| {
      if i < |ledger| { assert ledger[i] == files[i]; } else { LedgerEndsAt(files, ledger, i); }
    }
    PendingIsTheRest(files, applied, |ledger|);
  }

  lemma PrefixOfRest(files: seq<string>, ledger: seq<string>, done: seq<string>)
    requires ledger <= files && done <= files[|ledger|..]
    ensures ledger + done <= files
    ensures ledger + done == files <==> done == files[|ledger|..]
  {
    assert files == ledger + files[|ledger|..];
    if ledger + done == files {
      assert (ledger + done)[|ledger|..] == done;
    }
  }

  lemma {:induction false} UntilFailureFails(names: seq<string>, fails: string -> bool)
    ensures UntilFailure(names, fails) == names <==> forall n :: n in names ==> !fails(n)
  {
    UntilFailureLength(names, fails);
    if names != [] && !fails(names[0]) {
      UntilFailureFails(names[1..], fails);
      assert UntilFailure(names, fails)[1..] == UntilFailure(names[1..], fails);
      assert names == [names[0]] + names[1..];
    }
  }

  /** A step of the run that holds the lock: only its own place and the data have to be shown. */
  lemma HolderStepKeepsInv(files: seq<string>, s: State, t: nat, p: Phase, db: Db)
    requires Inv(files, s) && t < |s.runs| && HoldsLock(s.runs[t])
    requires HoldsLock(p) && RunOk(files, db, p) && Consistent(files, db)
    requires s.db.ledger == files ==> db.ledger == files
    ensures Inv(files, Go(s, t, p).(db := db))
  {
  }

  lemma CommitFileKeepsInv(files: seq<string>, schema: seq<string>, s: State, t: nat)
    requires Inv(files, s) && Enabled(files, schema, s, CommitFile(t))
    ensures Inv(files, Apply(files, schema, s, CommitFile(t)))
  {
    var p := s.runs[t];
    assert HoldsLock(p) && RunOk(files, s.db, p);
    WalkCommitsNext(files, s.db, p.applied, p.next);
    CommitKeepsConsistent(files, s.db);
    var db' := Migrated(s.db, files[p.next]);
    assert files[..p.next + 1] == files[..p.next] + [files[p.next]];
    assert forall n :: n in db'.ledger ==> n in s.db.ledger || n == files[p.next];
    HolderStepKeepsInv(files, s, t, Walking(p.applied, p.next + 1), db');
  }

  lemma WalkStepKeepsInv(files: seq<string>, schema: seq<string>, s: State, step: Step)
    requires Inv(files, s) && Enabled(files, schema, s, step)
    requires step.EnsureTable? || step.LoadApplied? || step.Skip? || step.BeginFile? || step.FailFile?
    ensures Inv(files, Apply(files, schema, s, step))
  {
    var p := s.runs[step.t];
    var s' := Apply(files, schema, s, step);
    assert HoldsLock(p) && RunOk(files, s.db, p);
    if step.Skip? {
      assert files[..p.next + 1] == files[..p.next] + [files[p.next]];
      assert WalkOk(files, s.db, p.applied, p.next + 1);
    }
    HolderStepKeepsInv(files, s, step.t, s'.runs[step.t], s'.db);
  }

  lemma SeedStepKeepsInv(files: seq<string>, schema: seq<string>, s: State, step: Step)
    requires Inv(files, s) && Enabled(files, schema, s, step)
    requires step.CheckSeed? || step.SeedFile? || step.FailSeed? || step.Stop?
    ensures Inv(files, Apply(files, schema, s, step))
  {
    var p := s.runs[step.t];
    var s' := Apply(files, schema, s, step);
    assert HoldsLock(p) && RunOk(files, s.db, p);
    if step.SeedFile? { SeedKeepsConsistent(files, s.db, schema[p.next]); }
    if step.Stop? && p.Walking? { WalkFinished(files, s.db, p.applied); }
    HolderStepKeepsInv(files, s, step.t, s'.runs[step.t], s'.db);
  }

  lemma LockStepKeepsInv(files: seq<string>, schema: seq<string>, s: State, step: Step)
    requires Inv(files, s) && Enabled(files, schema, s, step)
    requires step.StartMigrate? || step.StartSeed? || step.Lock? || step.Unlock? || step.Crash?
    ensures Inv(files, Apply(files, schema, s, step))
  {
    if step.Unlock? { assert HoldsLock(s.runs[step.t]) && RunOk(files, s.db, s.runs[step.t]); }
  }

  lemma StepKeepsInv(files: seq<string>, schema: seq<string>, s: State, step: Step)
    requires Inv(files, s) && Enabled(files, schema, s, step)
    ensures Inv(files, Apply(files, schema, s, step))
  {
    if step.CommitFile? {
      CommitFileKeepsInv(files, schema, s, step.t);
    } else if step.EnsureTable? || step.LoadApplied? || step.Skip? || step.BeginFile? || step.FailFile? {
      WalkStepKeepsInv(files, schema, s, step);
    } else if step.CheckSeed? || step.SeedFile? || step.FailSeed? || step.Stop? {
      SeedStepKeepsInv(files, schema, s, step);
    } else {
      LockStepKeepsInv(files, schema, s, step);
    }
  }

  lemma {:induction false} RunKeepsInv(files: seq<string>, schema: seq<string>, s: State, steps: seq<Step>, s': State)
    requires Inv(files, s) && Run(files, schema, s, steps, s')
    ensures Inv(files, s')
    decreases |steps|
  {
    if steps != [] {
      StepKeepsInv(files, schema, s, steps[0]);
      RunKeepsInv(files, schema, Apply(files, schema, s, steps[0]), steps[1..], s');
    }
  }

  /**
   * Any number of containers, crashes and failures: the ledger stays a prefix of the list, the migration
   * effects are exactly the ledgered files in order, each once, all after every seed; and a migrate run
   * that ended well has ledgered every file.
   */
  lemma MigrationsAreCrashSafe(files: seq<string>, schema: seq<string>, db: Db, steps: seq<Step>, s: State)
    requires Distinct(files) && Consistent(files, db) && Run(files, schema, State(db, None, []), steps, s)
    ensures Consistent(files, s.db)
    ensures (exists t :: 0 <= t < |s.runs| && s.runs[t].Ended? && s.runs[t].ok && s.runs[t].migrate) ==> s.db.ledger == files
  {
    RunKeepsInv(files, schema, State(db, None, []), steps, s);
  }

  /** Once a migration has committed, no step of anybody seeds the schema; the ledger only grows. */
  lemma SeedsAreOver(files: seq<string>, schema: seq<string>, s: State, step: Step)
    requires Inv(files, s) && Enabled(files, schema, s, step)
    ensures s.db.ledger <= Apply(files, schema, s, step).db.ledger
    ensures s.db.effects <= Apply(files, schema, s, step).db.effects
    ensures s.db.ledger != [] ==> !step.SeedFile?
  {
    if step.SeedFile? { assert HoldsLock(s.runs[step.t]); }
  }

  /** With every file ledgered nothing changes any more: a rerun of anything is a no-op on the data. */
  lemma RerunIsNoOp(files: seq<string>, schema: seq<string>, s: State, step: Step)
    requires Inv(files, s) && Enabled(files, schema, s, step) && s.db.ledger == files && files != []
    ensures Apply(files, schema, s, step).db == s.db
  {
    if step.SeedFile? || step.CommitFile? { assert HoldsLock(s.runs[step.t]); }
    if step.CommitFile? {
      WalkCommitsNext(files, s.db, s.runs[step.t].applied, s.runs[step.t].next);
    }
  }

  // ---------- What finished seed calls leave ----------

  predicate SchemaAt(effects: seq<Effect>, schema: seq<string>, p: nat) {
    p + |schema| <= |effects| && effects[p..p + |schema|] == SchemaFiles(schema)
  }

  /** All the schema files stand in the effects, together and in order. */
  ghost predicate HasSchema(effects: seq<Effect>, schema: seq<string>) {
    exists p: nat :: SchemaAt(effects, schema, p)
  }

  /** The files seeded so far end the effects. */
  predicate EndsWith(effects: seq<Effect>, part: seq<Effect>) {
    |part| <= |effects| && effects[|effects| - |part|..] == part
  }

  ghost predicate SeedOk(schema: seq<string>, db: Db, p: Phase) {
    && (p.Seeding? ==> p.next <= |schema| && EndsWith(db.effects, SchemaFiles(schema[..p.next])))
    && ((p.Unlocking? || p.Ended?) && p.ok && !p.migrate && db.ledger == [] ==> HasSchema(db.effects, schema))
  }

  ghost predicate SeedInv(schema: seq<string>, s: State) {
    forall t :: 0 <= t < |s.runs| ==> SeedOk(schema, s.db, s.runs[t])
  }

  lemma SchemaStays(effects: seq<Effect>, more: seq<Effect>, schema: seq<string>)
    requires HasSchema(effects, schema)
    ensures HasSchema(effects + more, schema)
  {
    var p: nat :| SchemaAt(effects, schema, p);
    assert (effects + more)[p..p + |schema|] == effects[p..p + |schema|];
    assert SchemaAt(effects + more, schema, p);
  }

  lemma SeedGoesOn(effects: seq<Effect>, schema: seq<string>, next: nat)
    requires next < |schema| && EndsWith(effects, SchemaFiles(schema[..next]))
    ensures EndsWith(effects + [SchemaFile(schema[next])], SchemaFiles(schema[..next + 1]))
  {
    var longer, part := effects + [SchemaFile(schema[next])], SchemaFiles(schema[..next + 1]);
    assert part == SchemaFiles(schema[..next]) + [SchemaFile(schema[next])];
    assert longer[|longer| - |part|..] == effects[|effects| - next..] + [SchemaFile(schema[next])];
  }

  lemma SeedDone(effects: seq<Effect>, schema: seq<string>)
    requires EndsWith(effects, SchemaFiles(schema[..|schema|]))
    ensures HasSchema(effects, schema)
  {
    assert schema[..|schema|] == schema;
    var p := |effects| - |schema|;
    assert effects[p..p + |schema|] == effects[p..];
    assert SchemaAt(effects, schema, p);
  }

  /** A step of one call that leaves the database to the others as it was, or that only they can no longer seed. */
  lemma StepKeepsSeedInv(files: seq<string>, schema: seq<string>, s: State, step: Step)
    requires Inv(files, s) && SeedInv(schema, s) && Enabled(files, schema, s, step)
    ensures SeedInv(schema, Apply(files, schema, s, step))
  {
    var s' := Apply(files, schema, s, step);
    forall u: nat | u < |s'.runs| ensures SeedOk(schema, s'.db, s'.runs[u]) {
      if u < |s.runs| {
        assert SeedOk(schema, s.db, s.runs[u]);
        OneSeedOk(files, schema, s, step, u);
      }
    }
  }

  lemma OneSeedOk(files: seq<string>, schema: seq<string>, s: State, step: Step, u: nat)
    requires Inv(files, s) && Enabled(files, schema, s, step) && u < |s.runs| && SeedOk(schema, s.db, s.runs[u])
    ensures var s' := Apply(files, schema, s, step); u < |s'.runs| && SeedOk(schema, s'.db, s'.runs[u])
  {
    if step.SeedFile? {
      SeedFileKeeps(files, schema, s, step.t, u);
    } else if step.CommitFile? {
      CommitKeepsSeed(files, schema, s, step.t, u);
    } else if step.CheckSeed? || step.Stop? {
      SeedTurns(files, schema, s, step, u);
    } else {
      SameSeed(files, schema, s, step, u);
    }
  }

  lemma CommitKeepsSeed(files: seq<string>, schema: seq<string>, s: State, t: nat, u: nat)
    requires Inv(files, s) && Enabled(files, schema, s, CommitFile(t)) && u < |s.runs| && SeedOk(schema, s.db, s.runs[u])
    ensures SeedOk(schema, Apply(files, schema, s, CommitFile(t)).db, Apply(files, schema, s, CommitFile(t)).runs[u])
  {
    assert HoldsLock(s.runs[t]) && s.lock == Some(t);
    assert HoldsLock(s.runs[u]) ==> s.lock == Some(u);
  }

  /** A seed begins with none of its files, and is over with all of them. */
  lemma SeedTurns(files: seq<string>, schema: seq<string>, s: State, step: Step, u: nat)
    requires Enabled(files, schema, s, step) && (step.CheckSeed? || step.Stop?)
    requires u < |s.runs| && SeedOk(schema, s.db, s.runs[u])
    ensures var s' := Apply(files, schema, s, step); u < |s'.runs| && SeedOk(schema, s'.db, s'.runs[u])
  {
    assert SchemaFiles(schema[..0]) == [];
    if step.Stop? && step.t == u && s.runs[u].Seeding? { SeedDone(s.db.effects, schema); }
  }

  lemma SameSeed(files: seq<string>, schema: seq<string>, s: State, step: Step, u: nat)
    requires Enabled(files, schema, s, step) && !step.SeedFile? && !step.CommitFile? && !step.CheckSeed? && !step.Stop?
    requires u < |s.runs| && SeedOk(schema, s.db, s.runs[u])
    ensures var s' := Apply(files, schema, s, step); u < |s'.runs| && SeedOk(schema, s'.db, s'.runs[u])
  {
  }

  lemma OtherSeedStays(schema: seq<string>, db: Db, name: string, p: Phase)
    requires SeedOk(schema, db, p) && !p.Seeding?
    ensures SeedOk(schema, Seeded(db, name), p)
  {
    if HasSchema(db.effects, schema) { SchemaStays(db.effects, [SchemaFile(name)], schema); }
  }

  lemma OwnSeedGoesOn(schema: seq<string>, db: Db, next: nat)
    requires SeedOk(schema, db, Seeding(next)) && next < |schema|
    ensures SeedOk(schema, Seeded(db, schema[next]), Seeding(next + 1))
  {
    SeedGoesOn(db.effects, schema, next);
  }

  lemma SeedFileKeeps(files: seq<string>, schema: seq<string>, s: State, t: nat, u: nat)
    requires Inv(files, s) && Enabled(files, schema, s, SeedFile(t)) && u < |s.runs| && SeedOk(schema, s.db, s.runs[u])
    ensures SeedOk(schema, Apply(files, schema, s, SeedFile(t)).db, Apply(files, schema, s, SeedFile(t)).runs[u])
  {
    assert HoldsLock(s.runs[t]) && s.lock == Some(t);
    if u == t {
      OwnSeedGoesOn(schema, s.db, s.runs[t].next);
    } else {
      assert HoldsLock(s.runs[u]) ==> s.lock == Some(u);
      OtherSeedStays(schema, s.db, schema[s.runs[t].next], s.runs[u]);
    }
  }

  lemma {:induction false} RunKeepsSeedInv(files: seq<string>, schema: seq<string>, s: State, steps: seq<Step>, s': State)
    requires Inv(files, s) && SeedInv(schema, s) && Run(files, schema, s, steps, s')
    ensures Inv(files, s') && SeedInv(schema, s') && s.db.effects <= s'.db.effects
    decreases |steps|
  {
    if steps != [] {
      StepKeepsInv(files, schema, s, steps[0]);
      StepKeepsSeedInv(files, schema, s, steps[0]);
      SeedsAreOver(files, schema, s, steps[0]);
      RunKeepsSeedInv(files, schema, Apply(files, schema, s, steps[0]), steps[1..], s');
    }
  }

  lemma GrownKeepsSchema(effects: seq<Effect>, later: seq<Effect>, schema: seq<string>)
    requires HasSchema(effects, schema) && effects <= later
    ensures HasSchema(later, schema)
  {
    SchemaStays(effects, later[|effects|..], schema);
    assert effects + later[|effects|..] == later;
  }

  lemma FinishedSeedHasSchema(schema: seq<string>, s: State, t: nat)
    requires SeedInv(schema, s) && t < |s.runs| && s.runs[t].Ended? && s.runs[t].ok && !s.runs[t].migrate && s.db.ledger == []
    ensures HasSchema(s.db.effects, schema)
  {
    assert SeedOk(schema, s.db, s.runs[t]);
  }

  /**
   * Any number of containers, crashes and failures: once a seed call has ended well while no migration was
   * ledgered, all the schema files stand in the effects in order, then and ever after.
   */
  lemma SeedCallsSeed(
      files: seq<string>, schema: seq<string>, db: Db, first: seq<Step>, mid: State, rest: seq<Step>, s: State, t: nat)
    requires Distinct(files) && Consistent(files, db)
    requires Run(files, schema, State(db, None, []), first, mid) && Run(files, schema, mid, rest, s)
    requires t < |mid.runs| && mid.runs[t].Ended? && mid.runs[t].ok && !mid.runs[t].migrate && mid.db.ledger == []
    ensures HasSchema(mid.db.effects, schema) && HasSchema(s.db.effects, schema)
  {
    RunKeepsSeedInv(files, schema, State(db, None, []), first, mid);
    FinishedSeedHasSchema(schema, mid, t);
    RunKeepsSeedInv(files, schema, mid, rest, s);
    GrownKeepsSchema(mid.db.effects, s.db.effects, schema);
  }

  // ---------- Recovery ----------

  ghost predicate Reaches(files: seq<string>, schema: seq<string>, s: State, s': State) {
    exists steps :: Run(files, schema, s, steps, s')
  }

  lemma {:induction false} RunThen(
      files: seq<string>, schema: seq<string>, s: State, a: seq<Step>, s1: State, b: seq<Step>, s2: State)
    requires Run(files, schema, s, a, s1) && Run(files, schema, s1, b, s2)
    ensures Run(files, schema, s, a + b, s2)
    decreases |a|
  {
    if a == [] {
      assert a + b == b;
    } else {
      RunThen(files, schema, Apply(files, schema, s, a[0]), a[1..], s1, b, s2);
      assert (a + b)[0] == a[0] && (a + b)[1..] == a[1..] + b;
    }
  }

  /** One more step of somebody, which also keeps the invariant. */
  lemma ReachesNext(files: seq<string>, schema: seq<string>, s: State, s1: State, step: Step) returns (s2: State)
    requires Reaches(files, schema, s, s1) && Inv(files, s1) && Enabled(files, schema, s1, step)
    ensures s2 == Apply(files, schema, s1, step) && Reaches(files, schema, s, s2) && Inv(files, s2)
  {
    s2 := Apply(files, schema, s1, step);
    StepKeepsInv(files, schema, s1, step);
    var steps :| Run(files, schema, s, steps, s1);
    assert [step][1..] == [] && Run(files, schema, s2, [], s2);
    assert Run(files, schema, s1, [step], s2);
    RunThen(files, schema, s, steps, s1, [step], s2);
  }

  /** A walk in which no file fails comes to the end of the list. */
  lemma {:induction false} WalkGoesOn(
      files: seq<string>, schema: seq<string>, s: State, s1: State, t: nat, applied: set<string>, next: nat) returns (s2: State)
    requires Reaches(files, schema, s, s1) && Inv(files, s1) && t < |s1.runs| && s1.runs[t] == Walking(applied, next) && next <= |files|
    ensures Reaches(files, schema, s, s2) && Inv(files, s2) && t < |s2.runs| && s2.runs[t] == Walking(applied, |files|)
    decreases |files| - next
  {
    if next == |files| {
      s2 := s1;
    } else if files[next] in applied {
      var s3 := ReachesNext(files, schema, s, s1, Skip(t));
      s2 := WalkGoesOn(files, schema, s, s3, t, applied, next + 1);
    } else {
      var s3 := ReachesNext(files, schema, s, s1, BeginFile(t));
      var s4 := ReachesNext(files, schema, s, s3, CommitFile(t));
      s2 := WalkGoesOn(files, schema, s, s4, t, applied, next + 1);
    }
  }

  /** With the lock free, a call in which no file fails ends well. */
  lemma FreshCallCompletes(files: seq<string>, schema: seq<string>, s: State, s1: State) returns (s2: State)
    requires Reaches(files, schema, s, s1) && Inv(files, s1) && s1.lock == None
    ensures Reaches(files, schema, s, s2) && Inv(files, s2)
    ensures s2.db.ledger == files && s2.lock == None && |s1.runs| < |s2.runs| && s2.runs[|s1.runs|] == Ended(true, true)
  {
    var t := |s1.runs|;
    s2 := ReachesNext(files, schema, s, s1, StartMigrate);
    s2 := ReachesNext(files, schema, s, s2, Lock(t));
    s2 := ReachesNext(files, schema, s, s2, EnsureTable(t));
    s2 := ReachesNext(files, schema, s, s2, LoadApplied(t));
    s2 := WalkGoesOn(files, schema, s, s2, t, s2.runs[t].applied, 0);
    s2 := ReachesNext(files, schema, s, s2, Stop(t));
    s2 := ReachesNext(files, schema, s, s2, Unlock(t));
  }

  /**
   * Whatever containers, crashes and failures have left behind, a crash of the one in the lock and one more
   * call, started from scratch, bring the database to the whole list.
   */
  lemma AlwaysRecovers(files: seq<string>, schema: seq<string>, db: Db, steps: seq<Step>, s: State)
    requires Distinct(files) && Consistent(files, db) && Run(files, schema, State(db, None, []), steps, s)
    ensures exists s' :: Reaches(files, schema, s, s') && s'.db.ledger == files && Consistent(files, s'.db) && s'.lock == None
                      && |s.runs| < |s'.runs| && s'.runs[|s.runs|] == Ended(true, true)
  {
    RunKeepsInv(files, schema, State(db, None, []), steps, s);
    assert Run(files, schema, s, [], s);
    var free := s;
    if s.lock.Some? {
      free := ReachesNext(files, schema, s, s, Crash(s.lock.value));
    }
    var s' := FreshCallCompletes(files, schema, s, free);
  }

  /** A seed in which no file fails runs each file in turn. */
  lemma {:induction false} SeedGoesThrough(files: seq<string>, schema: seq<string>, s: State, s1: State, t: nat, next: nat)
      returns (s2: State)
    requires Reaches(files, schema, s, s1) && Inv(files, s1) && t < |s1.runs| && s1.runs[t] == Seeding(next) && next <= |schema|
    ensures Reaches(files, schema, s, s2) && Inv(files, s2) && |s2.runs| == |s1.runs| && s2.runs[t] == Seeding(|schema|)
    ensures s2.db == SeededAll(s1.db, schema[next..]) && s2.lock == s1.lock
    decreases |schema| - next
  {
    if next == |schema| {
      s2 := s1;
    } else {
      s2 := ReachesNext(files, schema, s, s1, SeedFile(t));
      s2 := SeedGoesThrough(files, schema, s, s2, t, next + 1);
      assert schema[next..][0] == schema[next] && schema[next..][1..] == schema[next + 1..];
    }
  }

  /** A call that finds the lock free and nothing ledgered, and in which no file fails, leaves exactly the schema, and counts as done. */
  lemma FreshSeedCompletes(files: seq<string>, schema: seq<string>, s: State)
    requires Inv(files, s) && s.lock == None && s.db.ledger == [] && schema != []
    ensures exists s' :: Reaches(files, schema, s, s') && s'.lock == None && |s'.runs| == |s.runs| + 1
                      && s'.runs[|s.runs|] == Ended(true, false)
                      && s'.db == s.db.(effects := s.db.effects + SchemaFiles(schema))
  {
    var t := |s.runs|;
    assert Run(files, schema, s, [], s);
    var s2 := ReachesNext(files, schema, s, s, StartSeed);
    s2 := ReachesNext(files, schema, s, s2, Lock(t));
    s2 := ReachesNext(files, schema, s, s2, CheckSeed(t));
    s2 := SeedGoesThrough(files, schema, s, s2, t, 0);
    s2 := ReachesNext(files, schema, s, s2, Stop(t));
    s2 := ReachesNext(files, schema, s, s2, Unlock(t));
    assert schema[0..] == schema;
    SeededAppends(s.db, schema);
  }

  // ---------- What the end of a call tells ----------

  /** A failing file, or a lost connection. */
  predicate Failed(steps: seq<Step>, t: nat) {
    FailFile(t) in steps || FailSeed(t) in steps || Crash(t) in steps
  }

  /** Over, well or not. */
  predicate EndedWith(p: Phase, ok: bool) {
    (p.Unlocking? || p.Ended?) && p.ok == ok
  }

  /** A call that failed is not reported well; one that is not reported well failed, or is a seed without files. */
  ghost predicate Told(schema: seq<string>, s: State, steps: seq<Step>, t: nat) {
    && (Failed(steps, t) ==> t < |s.runs| && EndedWith(s.runs[t], false))
    && (t < |s.runs| && EndedWith(s.runs[t], false) && !Failed(steps, t) ==> schema == [] && !IsMigrate(s.runs[t]))
    && (t < |s.runs| && EndedWith(s.runs[t], true) && !IsMigrate(s.runs[t]) && schema == [] ==> s.db.ledger != [])
    && (t < |s.runs| && s.runs[t].Seeding? ==> schema != [])
  }

  ghost predicate StoryOk(schema: seq<string>, s: State, steps: seq<Step>) {
    forall t: nat :: Told(schema, s, steps, t)
  }

  /** A call stays what it was started as, and once over it stays as it ended. */
  lemma KindStays(files: seq<string>, schema: seq<string>, s: State, step: Step, t: nat)
    requires Enabled(files, schema, s, step)
    ensures var s' := Apply(files, schema, s, step);
            && (t < |s.runs| ==> t < |s'.runs| && (IsMigrate(s'.runs[t]) <==> IsMigrate(s.runs[t])))
            && (t < |s.runs| && s.runs[t].Ended? ==> s'.runs[t] == s.runs[t])
            && (step.StartMigrate? ==> s'.runs == s.runs + [WaitMigrate]) && (step.StartSeed? ==> s'.runs == s.runs + [WaitSeed])
  {
  }

  lemma StepTold(files: seq<string>, schema: seq<string>, s: State, past: seq<Step>, step: Step, t: nat)
    requires Enabled(files, schema, s, step) && Told(schema, s, past, t)
    requires s.db.ledger <= Apply(files, schema, s, step).db.ledger
    ensures Told(schema, Apply(files, schema, s, step), past + [step], t)
  {
    KindStays(files, schema, s, step, t);
  }

  lemma {:induction false} RunKeepsStory(
      files: seq<string>, schema: seq<string>, s: State, past: seq<Step>, steps: seq<Step>, s': State)
    requires Inv(files, s) && StoryOk(schema, s, past) && Run(files, schema, s, steps, s')
    ensures StoryOk(schema, s', past + steps)
    decreases |steps|
  {
    if steps == [] {
      assert past + steps == past;
    } else {
      var s1 := Apply(files, schema, s, steps[0]);
      StepKeepsInv(files, schema, s, steps[0]);
      SeedsAreOver(files, schema, s, steps[0]);
      forall t: nat ensures Told(schema, s1, past + [steps[0]], t) {
        StepTold(files, schema, s, past, steps[0], t);
      }
      RunKeepsStory(files, schema, s1, past + [steps[0]], steps[1..], s');
      assert (past + [steps[0]]) + steps[1..] == past + steps;
    }
  }

  /**
   * The end of a call tells what happened to it: a migrate call ends badly iff one of its files or its connection
   * failed, a seed call iff that or there are no schema files and nothing was ledgered.
   */
  lemma EndsAreHonest(files: seq<string>, schema: seq<string>, db: Db, steps: seq<Step>, s: State, t: nat)
    requires Distinct(files) && Consistent(files, db) && Run(files, schema, State(db, None, []), steps, s)
    requires t < |s.runs| && s.runs[t].Ended?
    ensures s.runs[t].migrate || schema != [] ==> (s.runs[t].ok <==> !Failed(steps, t))
    ensures Failed(steps, t) ==> !s.runs[t].ok
    ensures schema == [] && !s.runs[t].migrate && s.runs[t].ok ==> s.db.ledger != []
  {
    var start := State(db, None, []);
    RunKeepsStory(files, schema, start, [], steps, s);
    assert [] + steps == steps && Told(schema, s, steps, t);
  }
}
