/** Bringing a database file up to date (internal/store/migrate.go): the forward-only ledger, one
    transaction per step, and the default rows reconciled on every open. An open can die between any
    two transactions, any number of times. */
module Migration {
  import opened Prelude
  import AdminGuard
  import Text

  type Tables = AdminGuard.Tables

  const MAX_VERSION := 3
  const MAX_DOCUMENT_BYTES := 8192

  /** The regular files that can be read, by path. */
  type Files = map<string, seq<byte>>

  datatype AuditRow = AuditRow(username: string, actor: string)
  datatype Doc = Doc(content: seq<byte>, updatedAt: int, updatedBy: string)

  datatype Table =
    | Users | Groups | UserGroups | Services | GroupServices | Audit | SystemConfig | TrustedNetworks
    | Documents

  datatype Column =
    | Username | PasswordHash | FullName | Email | MfaRequired | MfaSecret | MfaEnrolledAt | MfaLastStep
    | UserSettingsLocked | Name | UserId | GroupId | Description | Host | Port | Tls | TlsVerify | ServiceId
    | At | SessionId | Kind | RemoteAddr | Service | Detail | Key | Value | Cidr | Comment | Content
    | UpdatedAt | UpdatedBy | Actor

  /** The file: the schema version stamp, the columns that exist, and the rows the steps touch. */
  datatype DB = DB(
    version: nat,
    columns: set<(Table, Column)>,
    config: map<string, string>,
    docs: map<string, Doc>,
    audit: seq<AuditRow>,
    rows: Tables)               // users, groups, services and the rows joining them

  /** What foreign_key_check looks for: a row that refers to a row that does not exist. */
  predicate HasOrphans(db: DB) { !AdminGuard.Referential(db.rows) }

  const BASELINE: set<(Table, Column)> := {
    (Users, Username), (Users, PasswordHash), (Users, FullName), (Users, Email),
    (Users, MfaRequired), (Users, MfaSecret), (Users, MfaEnrolledAt),
    (Users, MfaLastStep), (Users, UserSettingsLocked),
    (Groups, Name), (UserGroups, UserId), (UserGroups, GroupId),
    (Services, Name), (Services, Description), (Services, Host), (Services, Port),
    (Services, Tls), (Services, TlsVerify),
    (GroupServices, GroupId), (GroupServices, ServiceId),
    (Audit, At), (Audit, SessionId), (Audit, Kind), (Audit, Username),
    (Audit, RemoteAddr), (Audit, Service), (Audit, Detail),
    (SystemConfig, Key), (SystemConfig, Value),
    (TrustedNetworks, Cidr), (TrustedNetworks, Comment) }

  const DOCUMENT_COLUMNS: set<(Table, Column)> := {
    (Documents, Name), (Documents, Content), (Documents, UpdatedAt), (Documents, UpdatedBy) }

  const IMPORTS: seq<(string, string)> := [("MOTD", "MOTD_FILE"), ("BRANDING", "BRANDING_FILE")]

  // ---------------------------------------------------------------- the ledger's steps

  function BackfillActor(rows: seq<AuditRow>): (r: seq<AuditRow>)
    ensures |r| == |rows|
    ensures forall i :: 0 <= i < |rows| ==> r[i] == AuditRow(rows[i].username, rows[i].username)
  {
    if rows == [] then [] else [AuditRow(rows[0].username, rows[0].username)] + BackfillActor(rows[1..])
  }

  function Clipped(s: seq<byte>): seq<byte> { if |s| <= MAX_DOCUMENT_BYTES then s else s[..MAX_DOCUMENT_BYTES] }

  /** Reads one configured legacy file; anything wrong with it leaves the document out. */
  function Import(db: DB, doc: string, key: string, files: Files, now: int): DB {
    if key !in db.config then db
    else
      var path := Text.TrimSpace(db.config[key]);
      if path == "" || path[0] != '/' || path !in files then db
      else db.(docs := db.docs[doc := Doc(Clipped(files[path]), now, "migration")])
  }

  function Imported(db: DB, n: nat, files: Files, now: int): DB
    requires n <= |IMPORTS|
  {
    if n == 0 then db else Import(Imported(db, n - 1, files, now), IMPORTS[n - 1].0, IMPORTS[n - 1].1, files, now)
  }

  /** Step v together with its version stamp. */
  function Step(db: DB, v: nat, files: Files, now: int): DB
    requires 1 <= v <= MAX_VERSION
  {
    (if v == 1 then db.(columns := db.columns + BASELINE)
     else if v == 2 then db.(columns := db.columns + {(Audit, Actor)}, audit := BackfillActor(db.audit))
     else Imported(db.(columns := db.columns + DOCUMENT_COLUMNS), |IMPORTS|, files, now)).(version := v)
  }

  function Migrated(db: DB, upto: nat, files: Files, now: int): (r: DB)
    requires db.version <= upto <= MAX_VERSION
    ensures r.version == upto
    decreases upto - db.version
  {
    if upto == db.version then db else Step(Migrated(db, upto - 1, files, now), upto, files, now)
  }

  lemma MigratedNext(db: DB, here: DB, v: nat, files: Files, now: int)
    requires db.version < v <= MAX_VERSION && here == Migrated(db, v - 1, files, now)
    ensures Migrated(db, v, files, now) == Step(here, v, files, now)
  {
  }

  // ---------------------------------------------------------------- default rows

  datatype Default =
    | EnsureGroup(name: string)
    | SeedConfig(key: string, value: string)
    | SeedDoc(name: string, content: seq<byte>)

  /** A group of this name, in any case. */
  predicate HasGroup(rows: Tables, name: string) {
    exists g :: g in rows.groups && Text.ToUpper(rows.groups[g]) == Text.ToUpper(name)
  }

  predicate Present(db: DB, d: Default) {
    match d
    case EnsureGroup(name) => HasGroup(db.rows, name)
    case SeedConfig(key, _) => key in db.config
    case SeedDoc(name, _) => name in db.docs
  }

  /** INSERT OR IGNORE. */
  function Ensured(db: DB, d: Default): DB {
    if Present(db, d) then db
    else
      match d
      case EnsureGroup(name) =>
        db.(rows := db.rows.(groups := db.rows.groups[NextId(db.rows.groups) := name]))
      case SeedConfig(key, value) => db.(config := db.config[key := value])
      case SeedDoc(name, content) => db.(docs := db.docs[name := Doc(content, 0, "")])
  }

  function Reconciled(db: DB, ds: seq<Default>): (r: DB)
    ensures r.version == db.version
  {
    if ds == [] then db else Ensured(Reconciled(db, ds[..|ds| - 1]), ds[|ds| - 1])
  }

  // ---------------------------------------------------------------- opening

  /** One open: when it runs, and how many transactions commit before it dies (enough: it does not). */
  datatype Attempt = Attempt(now: int, stop: nat)

  datatype OpenResult = Opened | NewerSchema | Orphaned | Died

  function Pending(db: DB): nat { if db.version < MAX_VERSION then MAX_VERSION - db.version else 0 }

  function ResultOf(db: DB, a: Attempt, defaults: seq<Default>): OpenResult {
    if db.version > MAX_VERSION then NewerSchema
    else if a.stop < Pending(db) then Died
    else if Pending(db) > 0 && HasOrphans(db) then Orphaned
    else if a.stop - Pending(db) < |defaults| then Died
    else Opened
  }

  function StateOf(db: DB, a: Attempt, files: Files, defaults: seq<Default>): DB {
    if db.version > MAX_VERSION then db
    else if a.stop < Pending(db) then Migrated(db, db.version + a.stop, files, a.now)
    else if Pending(db) > 0 && HasOrphans(db) then Migrated(db, MAX_VERSION, files, a.now)
    else Reconciled(Migrated(db, MAX_VERSION, files, a.now),
                    defaults[..if a.stop - Pending(db) < |defaults| then a.stop - Pending(db) else |defaults|])
  }

  class Database {
    var version: nat
    var columns: set<(Table, Column)>
    var config: map<string, string>
    var docs: map<string, Doc>
    var audit: seq<AuditRow>
    var rows: Tables

    function Snapshot(): DB
      reads this
    {
      DB(version, columns, config, docs, audit, rows)
    }

    /** One ledger step in its own transaction. */
    method RunOne(v: nat, files: Files, now: int)
      requires 1 <= v <= MAX_VERSION
      modifies `version, `columns, `docs, `audit
      ensures Snapshot() == Step(old(Snapshot()), v, files, now)
    {
      if v == 1 {
        columns := columns + BASELINE;
      } else if v == 2 {
        columns := columns + {(Audit, Actor)};
        audit := BackfillActor(audit);
      } else {
        columns := columns + DOCUMENT_COLUMNS;
        ghost var before := Snapshot();
        var i := 0;
        while i < |IMPORTS|
          invariant 0 <= i <= |IMPORTS|
          invariant Snapshot() == Imported(before, i, files, now)
        {
          var (doc, key) := IMPORTS[i];
          i := i + 1;
          if key !in config { continue; }
          var path := Text.TrimSpace(config[key]);
          if path == "" || path[0] != '/' { continue; }
          if path !in files { continue; }
          docs := docs[doc := Doc(Clipped(files[path]), now, "migration")];
        }
      }
      version := v;
    }

    method Ensure(d: Default)
      modifies this
      ensures Snapshot() == Ensured(old(Snapshot()), d)
    {
      match d {
        case EnsureGroup(name) =>
          if !HasGroup(rows, name) { rows := rows.(groups := rows.groups[NextId(rows.groups) := name]); }
        case SeedConfig(key, value) => if key !in config { config := config[key := value]; }
        case SeedDoc(name, content) => if name !in docs { docs := docs[name := Doc(content, 0, "")]; }
      }
    }

    /** The steps after `start` have run, in order, up to the version stamped. */
    ghost predicate Reached(start: DB, ran: seq<nat>, files: Files, now: int)
      reads this
    {
      && start.version <= version <= MAX_VERSION && |ran| == version - start.version && Counts(start.version, ran)
      && Snapshot() == Migrated(start, version, files, now)
    }

    method RunNext(ghost start: DB, ran: seq<nat>, files: Files, now: int) returns (more: seq<nat>)
      requires Reached(start, ran, files, now) && version < MAX_VERSION
      modifies `version, `columns, `docs, `audit
      ensures Reached(start, more, files, now) && version == old(version) + 1
    {
      var v := version + 1;
      ghost var here := Snapshot();
      assert Counts(start.version, ran + [v]) by { CountsSnoc(start.version, ran); }
      assert Migrated(start, v, files, now) == Step(here, v, files, now) by {
        MigratedNext(start, here, v, files, now);
      }
      RunOne(v, files, now);
      more := ran + [v];
    }

    /** The ledger steps up to a version, in order. */
    method RunTo(target: nat, files: Files, now: int) returns (ran: seq<nat>)
      requires version <= target <= MAX_VERSION
      modifies `version, `columns, `docs, `audit
      ensures ran == Numbers(old(version), target - old(version))
      ensures Snapshot() == Migrated(old(Snapshot()), target, files, now)
    {
      ghost var before := Snapshot();
      ran := [];
      while version < target
        invariant version <= target && Reached(before, ran, files, now)
      {
        ran := RunNext(before, ran, files, now);
      }
      CountsAll(before.version, ran);
    }

    /** The pending ledger steps in order, dying after `stop` commits. */
    method RunPending(now: int, stop: nat, files: Files) returns (ran: seq<nat>)
      requires version <= MAX_VERSION
      modifies `version, `columns, `docs, `audit
      ensures |ran| == if stop < Pending(old(Snapshot())) then stop else Pending(old(Snapshot()))
      ensures ran == Numbers(old(version), |ran|)
      ensures Snapshot() == Migrated(old(Snapshot()), old(version) + |ran|, files, now)
    {
      ran := RunTo(if stop < MAX_VERSION - version then version + stop else MAX_VERSION, files, now);
    }

    /** The pending ledger steps and the referential check, dying after `stop` commits. A database
        that has tables and a step pending is copied before anything else. */
    method RunMigrations(now: int, stop: nat, files: Files)
      returns (r: OpenResult, backups: seq<DB>, ran: seq<nat>)
      requires version <= MAX_VERSION
      modifies this
      ensures var before := old(Snapshot());
              && r == (if stop < Pending(before) then Died
                       else if Pending(before) > 0 && HasOrphans(before) then Orphaned else Opened)
              && Snapshot() == Migrated(before, if stop < Pending(before) then before.version + stop else MAX_VERSION,
                                        files, now)
              && backups == (if Pending(before) > 0 && before.columns != {} then [before] else [])
              && ran == StepsRun(before, Attempt(now, stop))
    {
      backups, ran := [], [];
      if version == MAX_VERSION { return Opened, backups, ran; }
      if columns != {} { backups := [Snapshot()]; }
      ran := RunPending(now, stop, files);
      if version < MAX_VERSION { return Died, backups, ran; }
      if !AdminGuard.Referential(rows) { return Orphaned, backups, ran; }
      return Opened, backups, ran;
    }

    /** Seeds the missing default rows, dying after `stop` statements. */
    method ReconcileDefaults(defaults: seq<Default>, stop: nat) returns (finished: bool)
      modifies this
      ensures finished == (stop >= |defaults|)
      ensures Snapshot() == Reconciled(old(Snapshot()), defaults[..if stop < |defaults| then stop else |defaults|])
    {
      var i := 0;
      while i < |defaults|
        invariant 0 <= i <= |defaults| && i <= stop
        invariant Snapshot() == Reconciled(old(Snapshot()), defaults[..i])
      {
        if i == stop { return false; }
        Ensure(defaults[i]);
        i := i + 1;
        assert defaults[..i][..i - 1] == defaults[..i - 1];
      }
      return true;
    }

    /** A whole open. */
    method Open(a: Attempt, files: Files, defaults: seq<Default>)
      returns (r: OpenResult, backups: seq<DB>, ran: seq<nat>)
      modifies this
      ensures r == ResultOf(old(Snapshot()), a, defaults)
      ensures Snapshot() == StateOf(old(Snapshot()), a, files, defaults)
      ensures backups == if Pending(old(Snapshot())) > 0 && old(columns) != {} then [old(Snapshot())] else []
      ensures ran == StepsRun(old(Snapshot()), a)
    {
      if version > MAX_VERSION { return NewerSchema, [], []; }
      r, backups, ran := RunMigrations(a.now, a.stop, files);
      if r != Opened { return r, backups, ran; }
      var finished := ReconcileDefaults(defaults, a.stop - |ran|);
      if !finished { r := Died; }
    }
  }

  /** ran is v + 1, v + 2 and so on. */
  predicate Counts(v: nat, ran: seq<nat>) { forall i :: 0 <= i < |ran| ==> ran[i] == v + 1 + i }

  lemma CountsSnoc(v: nat, ran: seq<nat>)
    requires Counts(v, ran)
    ensures Counts(v, ran + [v + |ran| + 1])
  {
  }

  lemma CountsAll(v: nat, ran: seq<nat>)
    requires Counts(v, ran)
    ensures ran == Numbers(v, |ran|)
  {
  }

  /** The n version numbers after v. */
  function Numbers(v: nat, n: nat): (r: seq<nat>)
    ensures |r| == n
  {
    seq(n, i => v + 1 + i)
  }

  function StepsRun(db: DB, a: Attempt): seq<nat> {
    Numbers(db.version, if a.stop < Pending(db) then a.stop else Pending(db))
  }

  // ---------------------------------------------------------------- crashes are invisible

  /** The same file but for the time stamped on imported documents. */
  predicate Same(a: DB, b: DB) {
    && a.(docs := b.docs) == b
    && a.docs.Keys == b.docs.Keys
    && forall n :: n in a.docs ==> a.docs[n].content == b.docs[n].content && a.docs[n].updatedBy == b.docs[n].updatedBy
  }

  lemma ImportRespects(a: DB, b: DB, doc: string, key: string, files: Files, s: int, t: int)
    requires Same(a, b)
    ensures Same(Import(a, doc, key, files, s), Import(b, doc, key, files, t))
  {
  }

  lemma {:induction false} ImportedRespects(a: DB, b: DB, n: nat, files: Files, s: int, t: int)
    requires Same(a, b) && n <= |IMPORTS|
    ensures Same(Imported(a, n, files, s), Imported(b, n, files, t))
  {
    if n > 0 {
      ImportedRespects(a, b, n - 1, files, s, t);
      ImportRespects(Imported(a, n - 1, files, s), Imported(b, n - 1, files, t),
                     IMPORTS[n - 1].0, IMPORTS[n - 1].1, files, s, t);
    }
  }

  lemma StepRespects(a: DB, b: DB, v: nat, files: Files, s: int, t: int)
    requires 1 <= v <= MAX_VERSION && Same(a, b)
    ensures Same(Step(a, v, files, s), Step(b, v, files, t))
  {
    if v == 3 {
      ImportedRespects(a.(columns := a.columns + DOCUMENT_COLUMNS), b.(columns := b.columns + DOCUMENT_COLUMNS),
                       |IMPORTS|, files, s, t);
    }
  }

  /** One more step on both sides. */
  lemma NextRespects(a: DB, b: DB, x: DB, y: DB, v: nat, files: Files, s: int, t: int)
    requires a.version < v <= MAX_VERSION && b.version < v
    requires x == Migrated(a, v - 1, files, s) && y == Migrated(b, v - 1, files, t) && Same(x, y)
    ensures Same(Migrated(a, v, files, s), Migrated(b, v, files, t))
  {
    StepRespects(x, y, v, files, s, t);
    MigratedNext(a, x, v, files, s);
    MigratedNext(b, y, v, files, t);
  }

  predicate StayTogether(a: DB, b: DB, v: nat, files: Files, s: int, t: int)
    requires a.version <= v <= MAX_VERSION && b.version <= v
  {
    Same(Migrated(a, v, files, s), Migrated(b, v, files, t))
  }

  lemma NextStaysTogether(a: DB, b: DB, v: nat, files: Files, s: int, t: int)
    requires a.version < v <= MAX_VERSION && b.version < v && StayTogether(a, b, v - 1, files, s, t)
    ensures StayTogether(a, b, v, files, s, t)
  {
    NextRespects(a, b, Migrated(a, v - 1, files, s), Migrated(b, v - 1, files, t), v, files, s, t);
  }

  lemma {:induction false} MigratedRespects(a: DB, b: DB, upto: nat, files: Files, s: int, t: int)
    requires Same(a, b) && a.version <= upto <= MAX_VERSION
    ensures StayTogether(a, b, upto, files, s, t)
    decreases upto
  {
    if upto > a.version {
      MigratedRespects(a, b, upto - 1, files, s, t);
      NextStaysTogether(a, b, upto, files, s, t);
    }
  }

  /** Stopping after step k and resuming later runs the same steps. */
  lemma {:induction false} ResumedMigration(db: DB, k: nat, upto: nat, files: Files, s: int, t: int)
    requires db.version <= k <= upto <= MAX_VERSION
    ensures Same(Migrated(Migrated(db, k, files, s), upto, files, t), Migrated(db, upto, files, t))
    decreases upto
  {
    if upto == k {
      MigratedRespects(db, db, k, files, s, t);
    } else {
      ResumedMigration(db, k, upto - 1, files, s, t);
      var half := Migrated(db, k, files, s);
      var resumed, whole := Migrated(half, upto - 1, files, t), Migrated(db, upto - 1, files, t);
      NextRespects(half, db, resumed, whole, upto, files, t, t);
    }
  }

  lemma {:induction false} ReconciledRespects(a: DB, b: DB, ds: seq<Default>)
    requires Same(a, b)
    ensures Same(Reconciled(a, ds), Reconciled(b, ds))
  {
    if ds != [] { ReconciledRespects(a, b, ds[..|ds| - 1]); }
  }

  lemma EnsuredKeeps(db: DB, e: Default, d: Default)
    requires Present(db, d)
    ensures Present(Ensured(db, e), d)
  {
    if d.EnsureGroup? {
      var g :| g in db.rows.groups && Text.ToUpper(db.rows.groups[g]) == Text.ToUpper(d.name);
      assert g in Ensured(db, e).rows.groups && Ensured(db, e).rows.groups[g] == db.rows.groups[g];
    }
  }

  lemma EnsuredHas(db: DB, d: Default)
    ensures Present(Ensured(db, d), d)
  {
    if d.EnsureGroup? && !Present(db, d) {
      var id := NextId(db.rows.groups);
      assert id in Ensured(db, d).rows.groups && Ensured(db, d).rows.groups[id] == d.name;
    }
  }

  lemma {:induction false} ReconciledKeeps(db: DB, ds: seq<Default>, d: Default)
    requires Present(db, d)
    ensures Present(Reconciled(db, ds), d)
  {
    if ds != [] {
      ReconciledKeeps(db, ds[..|ds| - 1], d);
      EnsuredKeeps(Reconciled(db, ds[..|ds| - 1]), ds[|ds| - 1], d);
    }
  }

  lemma {:induction false} ReconciledHasAll(db: DB, ds: seq<Default>, i: nat)
    requires i < |ds|
    ensures Present(Reconciled(db, ds), ds[i])
  {
    var before := Reconciled(db, ds[..|ds| - 1]);
    if i < |ds| - 1 {
      ReconciledHasAll(db, ds[..|ds| - 1], i);
      EnsuredKeeps(before, ds[|ds| - 1], ds[i]);
    } else {
      EnsuredHas(before, ds[i]);
    }
  }

  lemma {:induction false} PresentIsNoOp(db: DB, ds: seq<Default>)
    requires forall i :: 0 <= i < |ds| ==> Present(db, ds[i])
    ensures Reconciled(db, ds) == db
  {
    if ds != [] { PresentIsNoOp(db, ds[..|ds| - 1]); }
  }

  /** Dying part way through the default rows and starting them again adds nothing twice. */
  lemma {:induction false} ResumedReconciliation(db: DB, ds: seq<Default>, k: nat)
    requires k <= |ds|
    ensures Reconciled(Reconciled(db, ds[..k]), ds) == Reconciled(db, ds)
  {
    var half := Reconciled(db, ds[..k]);
    if k == |ds| {
      assert ds[..k] == ds;
      forall i | 0 <= i < |ds| ensures Present(half, ds[i]) { ReconciledHasAll(db, ds, i); }
      PresentIsNoOp(half, ds);
    } else {
      assert ds[..|ds| - 1][..k] == ds[..k];
      ResumedReconciliation(db, ds[..|ds| - 1], k);
    }
  }

  /** Reconciliation is idempotent and never touches a row that exists. */
  lemma {:induction false} ReconciliationOnlyAdds(db: DB, ds: seq<Default>)
    ensures Reconciled(Reconciled(db, ds), ds) == Reconciled(db, ds)
    ensures var r := Reconciled(db, ds);
            && (forall g :: g in db.rows.groups ==> g in r.rows.groups && r.rows.groups[g] == db.rows.groups[g])
            && (forall k :: k in db.config ==> k in r.config && r.config[k] == db.config[k])
            && (forall n :: n in db.docs ==> n in r.docs && r.docs[n] == db.docs[n])
            && r == db.(rows := db.rows.(groups := r.rows.groups), config := r.config, docs := r.docs)
  {
    assert ds[..|ds|] == ds;
    ResumedReconciliation(db, ds, |ds|);
    if ds != [] { ReconciliationOnlyAdds(db, ds[..|ds| - 1]); }
  }

  // ---------------------------------------------------------------- what an upgraded file holds

  type Docs = map<string, Doc>

  /** The parameter names a file that can be read, by an absolute path with blanks around it ignored. */
  predicate Names(config: map<string, string>, key: string, path: string, files: Files) {
    key in config && Text.Stripped(config[key], path) && path != "" && path[0] == '/' && path in files
  }

  predicate SameDoc(a: Docs, b: Docs, doc: string) { (doc in a <==> doc in b) && (doc in a ==> a[doc] == b[doc]) }

  /** The document is the file's first 8192 bytes if the parameter named one, and otherwise what it was. */
  ghost predicate FromLegacy(config: map<string, string>, before: Docs, after: Docs, doc: string, key: string,
                             files: Files, now: int)
  {
    && (forall path :: Names(config, key, path, files) ==>
          doc in after && after[doc] == Doc(if |files[path]| <= 8192 then files[path] else files[path][..8192],
                                            now, "migration"))
    && ((forall path :: !Names(config, key, path, files)) ==> SameDoc(before, after, doc))
  }

  lemma NamesExactly(config: map<string, string>, key: string, files: Files, path: string)
    requires key in config
    ensures Names(config, key, path, files) <==>
              path == Text.TrimSpace(config[key]) && path != "" && path[0] == '/' && path in files
  {
    Text.TrimSpaceStrips(config[key], path);
  }

  lemma ImportExactly(db: DB, doc: string, key: string, files: Files, now: int)
    ensures var r := Import(db, doc, key, files, now);
            && r == db.(docs := r.docs)
            && FromLegacy(db.config, db.docs, r.docs, doc, key, files, now)
            && forall n :: n != doc ==> SameDoc(db.docs, r.docs, n)
  {
    if key in db.config {
      forall path { NamesExactly(db.config, key, files, path); }
    }
  }

  /** The two imports of step 3. */
  lemma ImportsExactly(db: DB, files: Files, now: int)
    ensures var r := Imported(db, |IMPORTS|, files, now);
            && r == db.(docs := r.docs)
            && FromLegacy(db.config, db.docs, r.docs, "MOTD", "MOTD_FILE", files, now)
            && FromLegacy(db.config, db.docs, r.docs, "BRANDING", "BRANDING_FILE", files, now)
            && forall n :: n != "MOTD" && n != "BRANDING" ==> SameDoc(db.docs, r.docs, n)
  {
    var motd := Import(db, "MOTD", "MOTD_FILE", files, now);
    var both := Import(motd, "BRANDING", "BRANDING_FILE", files, now);
    ImportExactly(db, "MOTD", "MOTD_FILE", files, now);
    ImportExactly(motd, "BRANDING", "BRANDING_FILE", files, now);
    TwoImports(db, motd, both, files, now);
    assert SameDoc(motd.docs, both.docs, "MOTD") && SameDoc(db.docs, motd.docs, "BRANDING");
  }

  lemma TwoImports(db: DB, motd: DB, both: DB, files: Files, now: int)
    requires motd == Import(db, "MOTD", "MOTD_FILE", files, now)
    requires both == Import(motd, "BRANDING", "BRANDING_FILE", files, now)
    ensures Imported(db, |IMPORTS|, files, now) == both
  {
    assert Imported(db, 0, files, now) == db;
    assert Imported(db, 1, files, now) == motd;
  }

  /** Upgrading a file written before documents were stored: MOTD comes from the file MOTD_FILE names and
      BRANDING from the one BRANDING_FILE names, no other document changes, and neither do the
      configuration and the rows. */
  lemma LegacyFilesBecomeDocuments(db: DB, files: Files, now: int)
    requires db.version < 3
    ensures var r := Migrated(db, 3, files, now);
            && r.version == 3 && r.config == db.config && r.rows == db.rows
            && FromLegacy(db.config, db.docs, r.docs, "MOTD", "MOTD_FILE", files, now)
            && FromLegacy(db.config, db.docs, r.docs, "BRANDING", "BRANDING_FILE", files, now)
            && forall n :: n != "MOTD" && n != "BRANDING" ==> SameDoc(db.docs, r.docs, n)
  {
    var two := Migrated(db, 2, files, now);
    EarlierSteps(db, files, now);
    MigratedNext(db, two, 3, files, now);
    ImportsExactly(two.(columns := two.columns + DOCUMENT_COLUMNS), files, now);
  }

  /** The steps before the documents: the actor of every audit row already there becomes its user name, once;
      nothing else moves. */
  lemma {:induction false} EarlierSteps(db: DB, files: Files, now: int)
    requires db.version <= 2
    ensures var r := Migrated(db, 2, files, now);
            && r.config == db.config && r.docs == db.docs && r.rows == db.rows
            && |r.audit| == |db.audit|
            && forall i :: 0 <= i < |r.audit| ==>
                 r.audit[i] == if db.version < 2 then AuditRow(db.audit[i].username, db.audit[i].username)
                               else db.audit[i]
  {
    if db.version < 2 {
      var one := Migrated(db, 1, files, now);
      if db.version < 1 { MigratedNext(db, db, 1, files, now); }
      MigratedNext(db, one, 2, files, now);
    }
  }

  /** No step takes a column away, and a file upgraded from nothing has those the gateway reads: accounts with
      their MFA state and lock, groups, services and what joins them, the audit trail with its actor,
      parameters, trusted networks and documents. */
  lemma SchemaIsComplete(db: DB, files: Files, now: int, table: Table, column: Column)
    requires db.version == 0
    requires match table
             case Users => column in {Username, PasswordHash, FullName, Email, MfaRequired, MfaSecret, MfaEnrolledAt,
                                      MfaLastStep, UserSettingsLocked}
             case Groups => column == Name
             case UserGroups => column in {UserId, GroupId}
             case Services => column in {Name, Description, Host, Port, Tls, TlsVerify}
             case GroupServices => column in {GroupId, ServiceId}
             case Audit => column in {At, SessionId, Kind, Username, RemoteAddr, Service, Detail, Actor}
             case SystemConfig => column in {Key, Value}
             case TrustedNetworks => column in {Cidr, Comment}
             case Documents => column in {Name, Content, UpdatedAt, UpdatedBy}
    ensures (table, column) in Migrated(db, 3, files, now).columns
    ensures db.columns <= Migrated(db, 3, files, now).columns
  {
    var one, two := Migrated(db, 1, files, now), Migrated(db, 2, files, now);
    MigratedNext(db, db, 1, files, now);
    MigratedNext(db, one, 2, files, now);
    MigratedNext(db, two, 3, files, now);
    ImportsExactly(two.(columns := two.columns + DOCUMENT_COLUMNS), files, now);
  }

  /** A default row that is in the file after reconciling: the row that was there, or the default's own. */
  predicate Seeded(db: DB, r: DB, ds: seq<Default>, d: Default) {
    match d
    case EnsureGroup(name) => exists g :: g in r.rows.groups && Text.ToUpper(r.rows.groups[g]) == Text.ToUpper(name)
    case SeedConfig(key, _) =>
      key in r.config && (key in db.config || SeedConfig(key, r.config[key]) in ds)
    case SeedDoc(name, _) =>
      name in r.docs && (name in db.docs || SeedDoc(name, r.docs[name].content) in ds)
  }

  /** The rows of r that db does not have are defaults of ds. */
  predicate NewFrom(db: DB, r: DB, ds: seq<Default>) {
    && (forall k :: k in r.config && k !in db.config ==> SeedConfig(k, r.config[k]) in ds)
    && (forall n :: n in r.docs && n !in db.docs ==> SeedDoc(n, r.docs[n].content) in ds)
    && (forall g :: g in r.rows.groups && g !in db.rows.groups ==> EnsureGroup(r.rows.groups[g]) in ds)
  }

  lemma EnsuredIsNew(db: DB, before: DB, ds: seq<Default>, d: Default)
    requires NewFrom(db, before, ds)
    ensures NewFrom(db, Ensured(before, d), ds + [d])
  {
    assert d in ds + [d] && forall e :: e in ds ==> e in ds + [d];
  }

  lemma {:induction false} NewRowsAreDefaults(db: DB, ds: seq<Default>)
    ensures NewFrom(db, Reconciled(db, ds), ds)
  {
    if ds != [] {
      NewRowsAreDefaults(db, ds[..|ds| - 1]);
      EnsuredIsNew(db, Reconciled(db, ds[..|ds| - 1]), ds[..|ds| - 1], ds[|ds| - 1]);
      assert ds == ds[..|ds| - 1] + [ds[|ds| - 1]];
    }
  }

  /** After an open that succeeds every default is there: a group under its name in some case, a parameter
      and a document as they were or as a default gives them; and every row that is new is a default's. */
  lemma OpenSeedsDefaults(db: DB, a: Attempt, files: Files, ds: seq<Default>, d: Default)
    requires ResultOf(db, a, ds) == Opened && d in ds
    ensures var m, r := Migrated(db, 3, files, a.now), StateOf(db, a, files, ds);
            && r.version == 3 && Seeded(m, r, ds, d)
            && (forall k :: k in m.config ==> k in r.config && r.config[k] == m.config[k])
            && (forall n :: n in m.docs ==> n in r.docs && r.docs[n] == m.docs[n])
            && NewFrom(m, r, ds)
  {
    var m := Migrated(db, 3, files, a.now);
    assert ds[..|ds|] == ds;
    ReconciliationOnlyAdds(m, ds);
    NewRowsAreDefaults(m, ds);
    var i :| 0 <= i < |ds| && ds[i] == d;
    ReconciledHasAll(m, ds, i);
  }

  /** The file an uninterrupted open leaves when no row is orphaned. */
  function Finished(db: DB, files: Files, defaults: seq<Default>, now: int): DB
    requires db.version <= MAX_VERSION
  {
    Reconciled(Migrated(db, MAX_VERSION, files, now), defaults)
  }

  lemma AttemptKeepsGoal(db: DB, a: Attempt, files: Files, defaults: seq<Default>, now: int)
    requires db.version <= MAX_VERSION
    ensures var d := StateOf(db, a, files, defaults);
            d.version <= MAX_VERSION && Same(Finished(d, files, defaults, now), Finished(db, files, defaults, now))
  {
    var d := StateOf(db, a, files, defaults);
    if a.stop < Pending(db) {
      ResumedMigration(db, db.version + a.stop, MAX_VERSION, files, a.now, now);
      ReconciledRespects(Migrated(d, MAX_VERSION, files, now), Migrated(db, MAX_VERSION, files, now), defaults);
    } else {
      var m := Migrated(db, MAX_VERSION, files, a.now);
      MigratedRespects(db, db, MAX_VERSION, files, a.now, now);
      ReconciledRespects(m, Migrated(db, MAX_VERSION, files, now), defaults);
      assert defaults[..|defaults|] == defaults;
      if !(Pending(db) > 0 && HasOrphans(db)) {
        var left := a.stop - Pending(db);
        ResumedReconciliation(m, defaults, if left < |defaults| then left else |defaults|);
      }
    }
  }

  function StateAfter(db: DB, attempts: seq<Attempt>, files: Files, defaults: seq<Default>): DB {
    if attempts == [] then db
    else StateOf(StateAfter(db, attempts[..|attempts| - 1], files, defaults), attempts[|attempts| - 1], files, defaults)
  }

  lemma {:induction false} AttemptsKeepGoal(db: DB, attempts: seq<Attempt>, files: Files, defaults: seq<Default>,
                                            now: int)
    requires db.version <= MAX_VERSION
    ensures var d := StateAfter(db, attempts, files, defaults);
            d.version <= MAX_VERSION && Same(Finished(d, files, defaults, now), Finished(db, files, defaults, now))
  {
    if attempts != [] {
      var u := attempts[..|attempts| - 1];
      AttemptsKeepGoal(db, u, files, defaults, now);
      AttemptKeepsGoal(StateAfter(db, u, files, defaults), attempts[|attempts| - 1], files, defaults, now);
    }
  }

  /** From any supported version, however many opens died and wherever, the first open that succeeds
      leaves the same file as an open that was never interrupted, document import times apart. */
  lemma CrashesAreInvisible(db: DB, attempts: seq<Attempt>, last: Attempt, files: Files, defaults: seq<Default>)
    requires db.version <= MAX_VERSION
    requires ResultOf(StateAfter(db, attempts, files, defaults), last, defaults) == Opened
    ensures Same(StateOf(StateAfter(db, attempts, files, defaults), last, files, defaults),
                 Finished(db, files, defaults, last.now))
  {
    AttemptsKeepGoal(db, attempts, files, defaults, last.now);
    assert defaults[..|defaults|] == defaults;
  }

  lemma {:induction false} NewerStays(db: DB, attempts: seq<Attempt>, files: Files, defaults: seq<Default>)
    requires db.version > MAX_VERSION
    ensures StateAfter(db, attempts, files, defaults) == db
  {
    if attempts != [] { NewerStays(db, attempts[..|attempts| - 1], files, defaults); }
  }

  /** However often a file was opened and wherever those opens died, an open is refused as newer exactly
      when the file was newer to begin with, and then no open has changed it. */
  lemma NewerIsUntouched(db: DB, attempts: seq<Attempt>, last: Attempt, files: Files, defaults: seq<Default>)
    ensures ResultOf(StateAfter(db, attempts, files, defaults), last, defaults) == NewerSchema <==>
            db.version > MAX_VERSION
    ensures db.version > MAX_VERSION ==>
              StateOf(StateAfter(db, attempts, files, defaults), last, files, defaults) == db
  {
    if db.version > MAX_VERSION {
      NewerStays(db, attempts, files, defaults);
    } else {
      AttemptsKeepGoal(db, attempts, files, defaults, 0);
    }
  }

  // ---------------------------------------------------------------- dangling rows

  lemma {:induction false} StepsKeepRows(db: DB, upto: nat, files: Files, now: int)
    requires db.version <= upto <= MAX_VERSION
    ensures Migrated(db, upto, files, now).rows == db.rows
    decreases upto
  {
    if upto > db.version {
      StepsKeepRows(db, upto - 1, files, now);
      var d := Migrated(db, upto - 1, files, now);
      ImportsKeepRows(d.(columns := d.columns + DOCUMENT_COLUMNS), |IMPORTS|, files, now);
    }
  }

  lemma {:induction false} ImportsKeepRows(db: DB, n: nat, files: Files, now: int)
    requires n <= |IMPORTS|
    ensures Imported(db, n, files, now).rows == db.rows
  {
    if n > 0 { ImportsKeepRows(db, n - 1, files, now); }
  }

  /** The defaults only add groups, under ids above every earlier one and names not yet taken. */
  predicate OnlyAddsGroups(a: Tables, b: Tables) {
    && b == a.(groups := b.groups)
    && (forall g :: g in a.groups ==> g in b.groups && b.groups[g] == a.groups[g])
    && (forall g, h :: g in a.groups && h in b.groups && h !in a.groups ==> g < h)
    && (AdminGuard.Unique(a.groups) ==> AdminGuard.Unique(b.groups))
  }

  lemma {:induction false} DefaultsOnlyAddGroups(db: DB, ds: seq<Default>)
    ensures OnlyAddsGroups(db.rows, Reconciled(db, ds).rows)
  {
    if ds != [] {
      DefaultsOnlyAddGroups(db, ds[..|ds| - 1]);
      EnsuredOnlyAddsGroups(Reconciled(db, ds[..|ds| - 1]), ds[|ds| - 1]);
    }
  }

  lemma EnsuredOnlyAddsGroups(db: DB, d: Default)
    ensures OnlyAddsGroups(db.rows, Ensured(db, d).rows)
  {
  }

  /** A row that dangles. */
  predicate Dangles(t: Tables, m: (nat, nat)) { m in t.members && !(m.0 in t.users && m.1 in t.groups) }

  /** Rows are orphaned exactly when a membership dangles or a service link does. */
  lemma OrphansExactly(db: DB)
    ensures HasOrphans(db) <==>
              || (exists m :: Dangles(db.rows, m))
              || (exists l :: l in db.rows.links && !(l.0 in db.rows.groups && l.1 in db.rows.services))
  {
    if HasOrphans(db) && forall l :: l in db.rows.links ==> l.0 in db.rows.groups && l.1 in db.rows.services {
      var m :| m in db.rows.members && !(m.0 in db.rows.users && m.1 in db.rows.groups);
      assert Dangles(db.rows, m);
    }
  }

  /** The defaults make no membership dangle, and stop one dangling only if its user exists and its
      group id, above every id in use, is one they hand out. */
  lemma DefaultsAdopt(db: DB, ds: seq<Default>, m: (nat, nat))
    ensures var t := Reconciled(db, ds).rows;
            Dangles(t, m) <==> Dangles(db.rows, m) && !(m.0 in t.users && m.1 in t.groups)
    ensures var t := Reconciled(db, ds).rows;
            Dangles(db.rows, m) && !Dangles(t, m) ==>
              m.1 !in db.rows.groups && forall g :: g in db.rows.groups ==> g < m.1
  {
    DefaultsOnlyAddGroups(db, ds);
  }

  /** Seeding a group such as ZZADMIN into a file without it makes members of exactly the users whose
      dangling rows name the next free group id; in a file that has it nothing changes. */
  lemma SeededGroupAdopts(db: DB, name: string, u: nat)
    ensures var t := Ensured(db, EnsureGroup(name)).rows;
            AdminGuard.InGroupNamed(t, u, name) <==>
              || AdminGuard.InGroupNamed(db.rows, u, name)
              || (!HasGroup(db.rows, name) && (u, NextId(db.rows.groups)) in db.rows.members)
  {
    var id := NextId(db.rows.groups);
    var t := Ensured(db, EnsureGroup(name)).rows;
    if !HasGroup(db.rows, name) {
      assert forall g :: g in t.groups ==> (t.groups[g] == name <==> g == id);
      assert AdminGuard.InGroupNamed(t, u, name) <==> (u, id) in db.rows.members;
      assert !AdminGuard.InGroupNamed(db.rows, u, name);
    }
  }

  /** The referential check guards only an open that ran a step. An open that does not die, of a file
      with dangling rows, is refused exactly when a step was pending; no row has changed, and the next
      open succeeds with every row still there. */
  lemma OrphansRefusedOnce(db: DB, a: Attempt, again: Attempt, files: Files, defaults: seq<Default>)
    requires db.version <= MAX_VERSION && HasOrphans(db)
    requires a.stop >= MAX_VERSION + |defaults| && again.stop >= |defaults|
    ensures ResultOf(db, a, defaults) == Orphaned <==> Pending(db) > 0
    ensures Pending(db) > 0 ==> StateOf(db, a, files, defaults).rows == db.rows
    ensures ResultOf(StateOf(db, a, files, defaults), again, defaults) == Opened
    ensures OnlyAddsGroups(db.rows, StateOf(StateOf(db, a, files, defaults), again, files, defaults).rows)
  {
    var once := StateOf(db, a, files, defaults);
    var m := Migrated(db, MAX_VERSION, files, a.now);
    StepsKeepRows(db, MAX_VERSION, files, a.now);
    assert defaults[..|defaults|] == defaults;
    DefaultsOnlyAddGroups(once, defaults);
    if Pending(db) == 0 {
      ResumedReconciliation(m, defaults, |defaults|);
      DefaultsOnlyAddGroups(m, defaults);
    }
  }

  /** So a file in which ZZADMIN can lose its last real member is refused once and then opens in the
      same condition. */
  lemma RefusedFileStaysExposed(db: DB, a: Attempt, again: Attempt, files: Files, defaults: seq<Default>,
                                self: nat, admin: nat, u: nat)
    requires db.version < MAX_VERSION && a.stop >= MAX_VERSION + |defaults| && again.stop >= |defaults|
    requires AdminGuard.Unique(db.rows.groups) && AdminGuard.HasAdminGroup(db.rows, admin)
    requires AdminGuard.Exposed(db.rows, self, admin, u)
    ensures ResultOf(db, a, defaults) == Orphaned
    ensures var t := StateOf(StateOf(db, a, files, defaults), again, files, defaults).rows;
            exists c: AdminGuard.Command :: AdminGuard.LocksOut(t, self, admin, c)
  {
    AdminGuard.LockoutIsPossibleExactly(db.rows, self, admin);
    OrphansRefusedOnce(db, a, again, files, defaults);
    var t := StateOf(StateOf(db, a, files, defaults), again, files, defaults).rows;
    assert AdminGuard.MemberRows(t, admin) == AdminGuard.MemberRows(db.rows, admin);
    assert AdminGuard.RealMembers(t, admin) == AdminGuard.RealMembers(db.rows, admin);
    assert AdminGuard.Exposed(t, self, admin, u);
    AdminGuard.LockoutIsPossibleExactly(t, self, admin);
  }

  // ---------------------------------------------------------------- the ledger over a file's life

  /** A file's life: opens, and the changes a running gateway makes after an open that succeeded. */
  datatype LifeEvent = OpenIt(a: Attempt, files: Files) | Use(changed: DB)

  /** `ready` after a successful open; `log` lists every ledger step ever committed. */
  datatype Life = Life(db: DB, ready: bool, log: seq<nat>, used: bool)

  predicate CanHappen(l: Life, e: LifeEvent) {
    e.Use? ==> l.ready && e.changed.version == l.db.version
  }

  function Lived(l: Life, e: LifeEvent, defaults: seq<Default>): Life {
    match e
    case OpenIt(a, files) =>
      Life(StateOf(l.db, a, files, defaults), ResultOf(l.db, a, defaults) == Opened,
           l.log + StepsRun(l.db, a), l.used)
    case Use(changed) => if CanHappen(l, e) then Life(changed, l.ready, l.log, true) else l
  }

  function LifeOf(db: DB, es: seq<LifeEvent>, defaults: seq<Default>): Life {
    if es == [] then Life(db, false, [], false)
    else Lived(LifeOf(db, es[..|es| - 1], defaults), es[|es| - 1], defaults)
  }

  lemma NumbersJoin(v: nat, m: nat, n: nat)
    ensures Numbers(v, m) + Numbers(v + m, n) == Numbers(v, m + n)
  {
  }

  predicate Ledgered(start: nat, l: Life) {
    && start <= l.db.version <= MAX_VERSION
    && l.log == Numbers(start, l.db.version - start)
    && (l.ready || l.used ==> l.db.version == MAX_VERSION)
  }

  lemma LivedKeepsLedger(start: nat, l: Life, e: LifeEvent, defaults: seq<Default>)
    requires Ledgered(start, l)
    ensures Ledgered(start, Lived(l, e, defaults))
    ensures l.used ==> Lived(l, e, defaults).log == l.log
  {
    if e.OpenIt? {
      NumbersJoin(start, l.db.version - start, |StepsRun(l.db, e.a)|);
      if l.db.version == MAX_VERSION { assert StepsRun(l.db, e.a) == []; }
    }
  }

  /** Over a file's whole life each step commits exactly once and in order, and none commits after the
      gateway has written to the file: the actor backfill and the document import cannot overwrite
      later data. */
  lemma {:induction false} EachStepOnce(db: DB, es: seq<LifeEvent>, defaults: seq<Default>)
    requires db.version <= MAX_VERSION
    ensures Ledgered(db.version, LifeOf(db, es, defaults))
    ensures LifeOf(db, es, defaults).used ==>
              LifeOf(db, es, defaults).log == Numbers(db.version, MAX_VERSION - db.version)
  {
    if es != [] {
      EachStepOnce(db, es[..|es| - 1], defaults);
      LivedKeepsLedger(db.version, LifeOf(db, es[..|es| - 1], defaults), es[|es| - 1], defaults);
    }
  }
}
