/**
 Applying migrations: `Run`, `applyFile` and `apply` of migrater/migrater.go over a database that is a
 state table plus the list of scripts whose effects are committed.

 Whatever can go wrong outside this code is a plan: what fails before the files are looked at, and how
 each file's step fares.  A commit may be reported as failed although it went through.
 */
module Migrater {
  import opened Wrappers
  import opened GoText
  import opened MigrationFiles

  /** How one file's step fares.  `CommitLost` and `PanicAfter` happen when the commit is done. */
  datatype Fault =
    | NoFault
    | ReadFails
    | BeginFails
    | ExecFails
    | InsertFails
    | CommitFails
    | PanicBefore
    | CommitLost
    | PanicAfter

  /** `setup` covers the state table, its column, loading it and reading the directory. */
  datatype Plan = Plan(setup: bool, faults: nat -> Fault)

  datatype RunError =
    | SetupFailed
    | Duplicate(e: CollectError)
    | ReadFailed(name: string)
    | ApplyFailed(id: string)
    | Panicked

  datatype LogEvent =
    | NoPrefix(name: string)
    | AlreadyApplied(id: string)
    | Drift(id: string, stored: string, current: string)
    | Applying(id: string)
    | AppliedNow(id: string)

  /** The committed state: a row per recorded migration, with its hash or NULL, and the scripts whose
      effects are in the database, in the order they were committed. */
  datatype Db = Db(rows: map<string, Option<string>>, effects: seq<string>)

  /** bytes.ReplaceAll(content, "\r\n", "\n"). */
  function Normalise(s: string): string {
    if |s| >= 2 && s[0] == '\r' && s[1] == '\n' then "\n" + Normalise(s[2..])
    else if s == "" then ""
    else [s[0]] + Normalise(s[1..])
  }

  /** What loadApplied returns: NULL hashes read as "". */
  function Loaded(rows: map<string, Option<string>>): (m: map<string, string>)
    ensures m.Keys == rows.Keys
    ensures forall id, h :: id in rows && h != "" ==> (m[id] == h <==> rows[id] == Some(h))
  {
    map id | id in rows :: match rows[id] case None => "" case Some(h) => h
  }

  // ----- what a run does, as a function of the database

  predicate Recorded(db: Db, f: Entry) { Id(f) in db.rows }

  /** A file's effects and row, both or neither. */
  function Commit(db: Db, f: Entry, hash: string -> string): Db {
    var content := Normalise(f.content);
    Db(db.rows[Id(f) := Some(hash(content))], db.effects + [content])
  }

  function Reaches(fault: Fault): bool { fault.NoFault? || fault.CommitLost? || fault.PanicAfter? }

  function FaultError(f: Entry, fault: Fault): RunError
    requires !fault.NoFault?
  {
    match fault
    case ReadFails => ReadFailed(f.name)
    case PanicBefore => Panicked
    case PanicAfter => Panicked
    case _ => ApplyFailed(Id(f))
  }

  /** One file: skipped without an id, read before anything else, left alone when recorded. */
  function FileStep(db: Db, f: Entry, fault: Fault, hash: string -> string): (Db, Option<RunError>) {
    if Id(f) == "" then (db, None)
    else if fault.ReadFails? then (db, Some(ReadFailed(f.name)))
    else if Recorded(db, f) then (db, None)
    else (if Reaches(fault) then Commit(db, f, hash) else db,
          if fault.NoFault? then None else Some(FaultError(f, fault)))
  }

  /** The files from `i` on, up to the first that fails. */
  function FilesStep(db: Db, files: seq<Entry>, i: nat, plan: Plan, hash: string -> string): (Db, Option<RunError>)
    requires i <= |files|
    decreases |files| - i
  {
    if i == |files| then (db, None)
    else
      var (next, err) := FileStep(db, files[i], plan.faults(i), hash);
      if err.Some? then (next, err) else FilesStep(next, files, i + 1, plan, hash)
  }

  /** A whole run: nothing happens when the setup fails or two files share an id. */
  ghost predicate RunStep(db: Db, entries: seq<Entry>, plan: Plan, hash: string -> string,
                          next: Db, err: Option<RunError>)
  {
    if plan.setup then next == db && err == Some(SetupFailed)
    else if Clashing(entries) then
      next == db && err.Some? && err.value.Duplicate? && NamesClash(entries, err.value.e)
    else (next, err) == FilesStep(db, SortedFiles(entries), 0, plan, hash)
  }

  /** The files of a directory in the order they are applied. */
  function SortedFiles(entries: seq<Entry>): seq<Entry> { Sort(Candidates(entries)) }

  /** They are the one ordered arrangement of the directory's migration files, with distinct ids. */
  lemma SortedFilesAre(entries: seq<Entry>, files: seq<Entry>)
    requires DistinctNames(entries) && !Clashing(entries)
    ensures Sorted(files) && AreMigrations(files, entries) <==> files == SortedFiles(entries)
    ensures DistinctIds(SortedFiles(entries))
  {
    var candidates, sorted := Candidates(entries), SortedFiles(entries);
    CandidatesDistinct(entries);
    CandidatesAre(entries);
    ClashIff(entries);
    SortSorts(candidates);
    DistinctIdsOfSorted(sorted, candidates);
    if Sorted(files) && AreMigrations(files, entries) {
      assert multiset(files) == multiset(sorted);
      SortedUnique(files, sorted);
    }
  }

  /** What the log says of a file. */
  predicate Reported(news: seq<LogEvent>, f: Entry, known: bool, fault: Fault, err: Option<RunError>) {
    if Id(f) == "" then news == [NoPrefix(f.name)]
    else if fault.ReadFails? then news == []
    else if known then |news| == 1 && (news[0].Drift? || news[0] == AlreadyApplied(Id(f)))
    else news == [Applying(Id(f))] + if err.None? then [AppliedNow(Id(f))] else []
  }

  /** A drift of `f`: its row has a hash that is not its own. */
  predicate FileDrifts(db: Db, f: Entry, hash: string -> string, e: LogEvent) {
    var current := hash(Normalise(f.content));
    && Id(f) != "" && Id(f) in db.rows && e.Drift? && e.stored != "" && e.stored != current
    && db.rows[Id(f)] == Some(e.stored) && e == Drift(Id(f), e.stored, current)
  }

  predicate SomeDrift(db: Db, files: seq<Entry>, hash: string -> string, e: LogEvent) {
    exists i :: 0 <= i < |files| && FileDrifts(db, files[i], hash, e)
  }

  /** A migration file of the directory drifts. */
  ghost predicate Drifts(db: Db, entries: seq<Entry>, hash: string -> string, e: LogEvent) {
    exists f :: f in entries && IsMigration(f) && FileDrifts(db, f, hash, e)
  }

  lemma DriftsAre(db: Db, entries: seq<Entry>, files: seq<Entry>, hash: string -> string, e: LogEvent)
    requires AreMigrations(files, entries)
    ensures SomeDrift(db, files, hash, e) <==> Drifts(db, entries, hash, e)
  {
    forall f ensures f in files <==> f in entries && IsMigration(f) { MigrationsAre(files, entries, f); }
  }

  // ----- the code, on a database object

  class Database {
    var rows: map<string, Option<string>>
    var effects: seq<string>

    ghost function State(): Db
      reads this
    {
      Db(rows, effects)
    }

    constructor ()
      ensures State() == Db(map[], [])
    {
      rows := map[];
      effects := [];
    }
  }

  class Runner {
    const db: Database
    const hash: string -> string
    var log: seq<LogEvent>

    constructor (db: Database, hash: string -> string)
      ensures this.db == db && this.hash == hash && log == []
    {
      this.db := db;
      this.hash := hash;
      log := [];
    }

    /** Lines 424-446: script and row in one transaction.  The id is the primary key of the state table, so the
        insert fails on one that has a row. */
    method Apply(id: string, content: string, contentHash: string, fault: Fault)
      returns (err: Option<RunError>)
      requires !fault.ReadFails?
      modifies db
      ensures var taken := id in old(db.rows);
        && err == (if fault.NoFault? && !taken then None
                   else if fault.PanicBefore? || (fault.PanicAfter? && !taken) then Some(Panicked)
                   else Some(ApplyFailed(id)))
        && db.State() == (if Reaches(fault) && !taken then
                            Db(old(db.rows)[id := Some(contentHash)], old(db.effects) + [content])
                          else old(db.State()))
    {
      if fault.BeginFails? {
        return Some(ApplyFailed(id));
      }
      var txRows, txEffects := db.rows, db.effects;
      if fault.ExecFails? {
        return Some(ApplyFailed(id));
      }
      txEffects := txEffects + [content];
      if fault.PanicBefore? {
        return Some(Panicked);
      }
      if fault.InsertFails? || id in txRows {
        return Some(ApplyFailed(id));
      }
      txRows := txRows[id := Some(contentHash)];
      if fault.CommitFails? {
        return Some(ApplyFailed(id));
      }
      db.rows, db.effects := txRows, txEffects;
      match fault
      case CommitLost => return Some(ApplyFailed(id));
      case PanicAfter => return Some(Panicked);
      case _ => return None;
    }

    /** Lines 289-327, with the ids and hashes loaded when the run began. */
    method ApplyFile(f: Entry, applied: map<string, string>, fault: Fault) returns (err: Option<RunError>)
      requires Id(f) != "" ==> (Id(f) in db.rows <==> Id(f) in applied)
      modifies this, db
      ensures (db.State(), err) == FileStep(old(db.State()), f, fault, hash)
      ensures old(db.rows).Keys <= db.rows.Keys <= old(db.rows).Keys + {Id(f)}
      ensures old(log) <= log
      ensures forall e :: e in log[|old(log)|..] && e.Drift? <==>
        Id(f) != "" && !fault.ReadFails? && Id(f) in applied
        && applied[Id(f)] != "" && applied[Id(f)] != hash(Normalise(f.content))
        && e == Drift(Id(f), applied[Id(f)], hash(Normalise(f.content)))
      ensures Reported(log[|old(log)|..], f, Id(f) in applied, fault, err)
    {
      var id := MigrationID(f.name);
      if id == "" {
        log := log + [NoPrefix(f.name)];
        return None;
      }
      if fault.ReadFails? {
        return Some(ReadFailed(f.name));
      }
      var content := Normalise(f.content);
      var contentHash := hash(content);
      if id in applied {
        var stored := applied[id];
        if stored != "" && stored != contentHash {
          log := log + [Drift(id, stored, contentHash)];
        } else {
          log := log + [AlreadyApplied(id)];
        }
        return None;
      }
      log := log + [Applying(id)];
      err := Apply(id, content, contentHash, fault);
      if err.None? {
        log := log + [AppliedNow(id)];
      }
    }

    /** Lines 208-214. */
    method ApplyAll(files: seq<Entry>, applied: map<string, string>, plan: Plan) returns (err: Option<RunError>)
      requires DistinctIds(files) && applied == Loaded(db.rows)
      modifies this, db
      ensures (db.State(), err) == FilesStep(old(db.State()), files, 0, plan, hash)
      ensures old(log) <= log
      ensures forall e :: e in log[|old(log)|..] && e.Drift? ==> SomeDrift(old(db.State()), files, hash, e)
      ensures err.None? ==> forall e :: SomeDrift(old(db.State()), files, hash, e) ==> e in log[|old(log)|..]
    {
      ghost var start, n := db.State(), |log|;
      for i := 0 to |files|
        invariant forall j :: i <= j < |files| && Id(files[j]) != "" ==>
                    (Id(files[j]) in db.rows <==> Id(files[j]) in applied)
        invariant FilesStep(start, files, 0, plan, hash) == FilesStep(db.State(), files, i, plan, hash)
        invariant old(log) <= log
        invariant forall e :: e in log[n..] && e.Drift? <==> SomeDrift(start, files[..i], hash, e)
      {
        ghost var before := log;
        err := ApplyFile(files[i], applied, plan.faults(i));
        assert log[n..] == before[n..] + log[|before|..];
        forall e
          ensures SomeDrift(start, files[..i + 1], hash, e) <==>
            SomeDrift(start, files[..i], hash, e) || FileDrifts(start, files[i], hash, e)
          ensures SomeDrift(start, files[..i + 1], hash, e) ==> SomeDrift(start, files, hash, e)
        {
          DriftsAfter(start, files, i, hash, e);
        }
        if err.Some? {
          return;
        }
      }
      assert files[..|files|] == files;
      return None;
    }

    /** Lines 176-215.  The table name is a valid one. */
    method Run(entries: seq<Entry>, plan: Plan) returns (err: Option<RunError>)
      requires DistinctNames(entries)
      modifies this, db
      ensures RunStep(old(db.State()), entries, plan, hash, db.State(), err)
      ensures old(log) <= log
      ensures forall e :: e in log[|old(log)|..] && e.Drift? ==> Drifts(old(db.State()), entries, hash, e)
      ensures err.None? ==> forall e :: Drifts(old(db.State()), entries, hash, e) ==> e in log[|old(log)|..]
    {
      ghost var start := db.State();
      if plan.setup {
        return Some(SetupFailed);
      }
      var applied := Loaded(db.rows);
      var collected := CollectFiles(entries);
      if collected.Err? {
        return Some(Duplicate(collected.error));
      }
      SortedFilesAre(entries, collected.value);
      forall e ensures SomeDrift(start, collected.value, hash, e) <==> Drifts(start, entries, hash, e) {
        DriftsAre(start, entries, collected.value, hash, e);
      }
      err := ApplyAll(collected.value, applied, plan);
    }
  }

  lemma DriftsAfter(db: Db, files: seq<Entry>, i: nat, hash: string -> string, e: LogEvent)
    requires i < |files|
    ensures SomeDrift(db, files[..i + 1], hash, e) <==>
      SomeDrift(db, files[..i], hash, e) || FileDrifts(db, files[i], hash, e)
    ensures SomeDrift(db, files[..i + 1], hash, e) ==> SomeDrift(db, files, hash, e)
  {
    var before, after := files[..i], files[..i + 1];
    assert after[i] == files[i];
    if j :| 0 <= j < i && FileDrifts(db, before[j], hash, e) { assert FileDrifts(db, after[j], hash, e); }
    if j :| 0 <= j < i + 1 && FileDrifts(db, after[j], hash, e) {
      assert FileDrifts(db, files[j], hash, e);
      if j < i { assert FileDrifts(db, before[j], hash, e); }
    }
  }

  // ----- convergence

  /** The files that have an id and no row, in order. */
  function PendingBy(known: set<string>, files: seq<Entry>): seq<Entry> {
    if files == [] then []
    else
      var rest := PendingBy(known, files[1..]);
      if Id(files[0]) == "" || Id(files[0]) in known then rest else [files[0]] + rest
  }

  function Pending(db: Db, files: seq<Entry>): seq<Entry> { PendingBy(db.rows.Keys, files) }

  /** The database with the given files applied once each, in this order. */
  function CommitAll(db: Db, files: seq<Entry>, hash: string -> string): Db
    decreases |files|
  {
    if files == [] then db else CommitAll(Commit(db, files[0], hash), files[1..], hash)
  }

  function Contents(files: seq<Entry>): seq<string> {
    if files == [] then [] else [Normalise(files[0].content)] + Contents(files[1..])
  }

  function Ids(files: seq<Entry>): set<string> {
    if files == [] then {} else {Id(files[0])} + Ids(files[1..])
  }

  /** Each file's script is run once, in order, and each file gets a row. */
  lemma {:induction false} CommitAllEffects(db: Db, files: seq<Entry>, hash: string -> string)
    ensures CommitAll(db, files, hash).effects == db.effects + Contents(files)
    ensures CommitAll(db, files, hash).rows.Keys == db.rows.Keys + Ids(files)
    decreases |files|
  {
    if files != [] {
      var next := Commit(db, files[0], hash);
      CommitAllEffects(next, files[1..], hash);
      assert next.rows.Keys == db.rows.Keys + {Id(files[0])};
      assert db.effects + Contents(files) == db.effects + [Normalise(files[0].content)] + Contents(files[1..]);
    }
  }

  /** The row of an applied file has its hash; other rows are as before. */
  lemma {:induction false} CommitAllRows(db: Db, files: seq<Entry>, hash: string -> string, id: string)
    requires id in CommitAll(db, files, hash).rows
    ensures id !in Ids(files) ==> id in db.rows && CommitAll(db, files, hash).rows[id] == db.rows[id]
    ensures id in Ids(files) ==> exists f :: f in files && Id(f) == id && RowOf(db, files, hash, f)
    decreases |files|
  {
    if files != [] {
      var next, rest := Commit(db, files[0], hash), files[1..];
      CommitAllRows(next, rest, hash, id);
      if id in Ids(rest) {
        var f :| f in rest && Id(f) == id && RowOf(next, rest, hash, f);
        assert f in files && RowOf(db, files, hash, f);
      } else if id == Id(files[0]) {
        assert RowOf(db, files, hash, files[0]);
      }
    }
  }

  predicate RowOf(db: Db, files: seq<Entry>, hash: string -> string, f: Entry) {
    var rows := CommitAll(db, files, hash).rows;
    Id(f) in rows && rows[Id(f)] == Some(hash(Normalise(f.content)))
  }

  /** The pending files are those with an id and without a row, in order. */
  lemma {:induction false} PendingAre(known: set<string>, files: seq<Entry>, f: Entry)
    ensures f in PendingBy(known, files) <==> f in files && Id(f) != "" && Id(f) !in known
    ensures Sorted(files) ==> Sorted(PendingBy(known, files))
  {
    if files != [] {
      var first, rest := files[0], files[1..];
      PendingAre(known, rest, f);
      assert files == [first] + rest;
      if Sorted(files) { PendingAfterLess(known, first, rest); }
    }
  }

  lemma {:induction false} PendingAfterLess(known: set<string>, x: Entry, files: seq<Entry>)
    requires forall i :: 0 <= i < |files| ==> Less(x, files[i])
    ensures forall i :: 0 <= i < |PendingBy(known, files)| ==> Less(x, PendingBy(known, files)[i])
  {
    if files != [] { PendingAfterLess(known, x, files[1..]); }
  }

  lemma {:induction false} PendingIgnores(known: set<string>, id: string, files: seq<Entry>)
    requires forall i :: 0 <= i < |files| ==> Id(files[i]) != id
    ensures PendingBy(known + {id}, files) == PendingBy(known, files)
  {
    if files != [] {
      PendingIgnores(known, id, files[1..]);
    }
  }

  /** Recording the first k pending files leaves the others, in the same order. */
  lemma {:induction false} PendingAfter(known: set<string>, files: seq<Entry>, k: nat)
    requires DistinctIds(files) && k <= |PendingBy(known, files)|
    ensures PendingBy(known + Ids(PendingBy(known, files)[..k]), files) == PendingBy(known, files)[k..]
    decreases |files|
  {
    var p := PendingBy(known, files);
    if k == 0 {
      assert p[..0] == [] && known + Ids([]) == known;
    } else {
      var f, rest := files[0], files[1..];
      if Id(f) == "" || Id(f) in known {
        PendingAfter(known, rest, k);
      } else {
        PendingIgnores(known, Id(f), rest);
        PendingAfter(known + {Id(f)}, rest, k - 1);
        PendingAfterFirst(known, f, rest, k);
        assert files == [f] + rest;
      }
    }
  }

  lemma PendingAfterFirst(known: set<string>, f: Entry, rest: seq<Entry>, k: nat)
    requires Id(f) != "" && Id(f) !in known && 0 < k <= |PendingBy(known, [f] + rest)|
    requires var q := PendingBy(known, rest);
      && PendingBy(known + {Id(f)}, rest) == q && k - 1 <= |q|
      && PendingBy(known + {Id(f)} + Ids(q[..k - 1]), rest) == q[k - 1..]
    ensures var p := PendingBy(known, [f] + rest); PendingBy(known + Ids(p[..k]), [f] + rest) == p[k..]
  {
    var q := PendingBy(known, rest);
    assert ([f] + rest)[1..] == rest;
    assert ([f] + q)[..k] == [f] + q[..k - 1] && ([f] + q)[k..] == q[k - 1..];
    PendingAfterHead(known, f, rest, q[..k - 1]);
  }

  lemma PendingAfterHead(known: set<string>, f: Entry, rest: seq<Entry>, q: seq<Entry>)
    ensures PendingBy(known + Ids([f] + q), [f] + rest) == PendingBy(known + {Id(f)} + Ids(q), rest)
  {
    assert ([f] + q)[1..] == q && ([f] + rest)[1..] == rest;
    assert known + Ids([f] + q) == known + {Id(f)} + Ids(q);
  }

  /** `next` is `db` with the first `k` of the files `p` applied. */
  predicate AppliedPrefix(db: Db, p: seq<Entry>, k: nat, next: Db, hash: string -> string) {
    k <= |p| && next == CommitAll(db, p[..k], hash)
  }

  lemma PrefixAfter(db: Db, f: Entry, q: seq<Entry>, k: nat, next: Db, hash: string -> string)
    requires AppliedPrefix(Commit(db, f, hash), q, k, next, hash)
    ensures AppliedPrefix(db, [f] + q, k + 1, next, hash)
  {
    var first := ([f] + q)[..k + 1];
    assert first == [f] + q[..k];
    assert first[0] == f && first[1..] == q[..k];
  }

  /** A file that is pending is the first one pending, and once applied the others are left. */
  lemma PendingHead(db: Db, f: Entry, rest: seq<Entry>, hash: string -> string)
    requires Id(f) != "" && !Recorded(db, f) && forall i :: 0 <= i < |rest| ==> Id(rest[i]) != Id(f)
    ensures Pending(db, [f] + rest) == [f] + Pending(db, rest)
    ensures Pending(Commit(db, f, hash), rest) == Pending(db, rest)
  {
    assert ([f] + rest)[1..] == rest;
    PendingIgnores(db.rows.Keys, Id(f), rest);
    assert Commit(db, f, hash).rows.Keys == db.rows.Keys + {Id(f)};
  }

  /** A file that fails has been applied or not, the latter unless it failed after its commit. */
  lemma FailedFile(db: Db, f: Entry, q: seq<Entry>, fault: Fault, hash: string -> string) returns (k: nat)
    requires Id(f) != "" && !Recorded(db, f) && FileStep(db, f, fault, hash).1.Some?
    ensures AppliedPrefix(db, [f] + q, k, FileStep(db, f, fault, hash).0, hash)
  {
    k := 0;
    if Reaches(fault) {
      PrefixAfter(db, f, q, 0, Commit(db, f, hash), hash);
      k := 1;
    }
  }

  /** One file and what comes after it: a prefix of the rest becomes a prefix of the whole. */
  lemma OneFile(db: Db, f: Entry, rest: seq<Entry>, fault: Fault, hash: string -> string, j: nat, final: Db)
    returns (k: nat)
    requires Id(f) != "" ==> forall i :: 0 <= i < |rest| ==> Id(rest[i]) != Id(f)
    requires var (next, err) := FileStep(db, f, fault, hash);
      if err.Some? then final == next else AppliedPrefix(next, Pending(next, rest), j, final, hash)
    ensures AppliedPrefix(db, Pending(db, [f] + rest), k, final, hash)
    ensures var (next, err) := FileStep(db, f, fault, hash);
      err.None? && j == |Pending(next, rest)| ==> k == |Pending(db, [f] + rest)|
  {
    var (next, err) := FileStep(db, f, fault, hash);
    if Id(f) == "" || Recorded(db, f) {
      k := if err.None? then j else 0;
    } else {
      PendingHead(db, f, rest, hash);
      if err.Some? {
        k := FailedFile(db, f, Pending(db, rest), fault, hash);
      } else {
        PrefixAfter(db, f, Pending(db, rest), j, final, hash);
        k := j + 1;
      }
    }
  }

  /** Wherever a run fails, it has applied a prefix of what was pending, and all of it if it succeeds. */
  lemma {:induction false} FilesStepIsPrefix(db: Db, files: seq<Entry>, i: nat, plan: Plan, hash: string -> string)
    returns (k: nat)
    requires DistinctIds(files) && i <= |files|
    ensures AppliedPrefix(db, Pending(db, files[i..]), k, FilesStep(db, files, i, plan, hash).0, hash)
    ensures FilesStep(db, files, i, plan, hash).1.None? ==> k == |Pending(db, files[i..])|
    decreases |files| - i
  {
    k := 0;
    if i < |files| {
      var f, rest := files[i], files[i + 1..];
      assert files[i..] == [f] + rest;
      var (next, err) := FileStep(db, f, plan.faults(i), hash);
      var j := 0;
      if err.None? { j := FilesStepIsPrefix(next, files, i + 1, plan, hash); }
      k := OneFile(db, f, rest, plan.faults(i), hash, j, FilesStep(db, files, i, plan, hash).0);
    }
  }

  /** Any sequence of runs over the same directory, each with its own plan of failures. */
  ghost predicate IsHistory(dbs: seq<Db>, errs: seq<Option<RunError>>, plans: seq<Plan>,
                            entries: seq<Entry>, hash: string -> string)
  {
    && DistinctNames(entries)
    && |dbs| == |plans| + 1 && |errs| == |plans|
    && forall i :: 0 <= i < |plans| ==> RunStep(dbs[i], entries, plans[i], hash, dbs[i + 1], errs[i])
  }

  lemma {:induction false} CommitAllSplit(db: Db, files: seq<Entry>, more: seq<Entry>, hash: string -> string)
    ensures CommitAll(db, files + more, hash) == CommitAll(CommitAll(db, files, hash), more, hash)
    decreases |files|
  {
    if files == [] {
      assert files + more == more;
    } else {
      assert (files + more)[1..] == files[1..] + more;
      CommitAllSplit(Commit(db, files[0], hash), files[1..], more, hash);
    }
  }

  /** One run moves the database along the pending list it finds, to its end if it succeeds. */
  lemma RunStepIsPrefix(db: Db, entries: seq<Entry>, plan: Plan, hash: string -> string,
                        next: Db, err: Option<RunError>)
    returns (k: nat)
    requires DistinctNames(entries) && !Clashing(entries) && RunStep(db, entries, plan, hash, next, err)
    ensures var p := Pending(db, SortedFiles(entries));
      && k <= |p| && next == CommitAll(db, p[..k], hash)
      && Pending(next, SortedFiles(entries)) == p[k..]
      && (err.None? ==> k == |p|)
  {
    SortedFilesAre(entries, SortedFiles(entries));
    var files := SortedFiles(entries);
    var p := Pending(db, files);
    k := 0;
    if plan.setup {
      assert p[..0] == [] && p[0..] == p;
    } else {
      assert files[0..] == files;
      k := FilesStepIsPrefix(db, files, 0, plan, hash);
      CommitAllEffects(db, p[..k], hash);
      PendingAfter(db.rows.Keys, files, k);
    }
  }

  /** However often runs fail and wherever: the database is the initial one with a prefix of the files
      that were pending at first applied, once each and in order, and nothing else is ever applied. */
  lemma {:induction false} RunsConverge(dbs: seq<Db>, errs: seq<Option<RunError>>, plans: seq<Plan>,
                                        entries: seq<Entry>, hash: string -> string, n: nat)
    returns (k: nat)
    requires IsHistory(dbs, errs, plans, entries, hash) && !Clashing(entries) && n <= |plans|
    ensures var p := Pending(dbs[0], SortedFiles(entries));
      && k <= |p|
      && dbs[n] == CommitAll(dbs[0], p[..k], hash)
      && Pending(dbs[n], SortedFiles(entries)) == p[k..]
      && (n > 0 && errs[n - 1].None? ==> k == |p|)
  {
    if n == 0 {
      k := 0;
      var p := Pending(dbs[0], SortedFiles(entries));
      assert p[..0] == [] && p[0..] == p;
    } else {
      var j := RunsConverge(dbs, errs, plans, entries, hash, n - 1);
      assert RunStep(dbs[n - 1], entries, plans[n - 1], hash, dbs[n - 1 + 1], errs[n - 1]);
      k := RunFurther(dbs[0], j, dbs[n - 1], entries, plans[n - 1], hash, dbs[n], errs[n - 1]);
    }
  }

  /** One more run, after runs that have applied the first `j` files pending at `first`. */
  lemma RunFurther(first: Db, j: nat, db: Db, entries: seq<Entry>, plan: Plan, hash: string -> string,
                   next: Db, err: Option<RunError>)
    returns (k: nat)
    requires DistinctNames(entries) && !Clashing(entries) && RunStep(db, entries, plan, hash, next, err)
    requires var p := Pending(first, SortedFiles(entries));
      j <= |p| && db == CommitAll(first, p[..j], hash) && Pending(db, SortedFiles(entries)) == p[j..]
    ensures var p := Pending(first, SortedFiles(entries));
      && k <= |p|
      && next == CommitAll(first, p[..k], hash)
      && Pending(next, SortedFiles(entries)) == p[k..]
      && (err.None? ==> k == |p|)
  {
    var more := RunStepIsPrefix(db, entries, plan, hash, next, err);
    k := FurtherPrefix(first, Pending(first, SortedFiles(entries)), j, db, more, next, hash);
  }

  /** A prefix of what is left after a prefix is a longer prefix. */
  lemma FurtherPrefix(first: Db, p: seq<Entry>, j: nat, db: Db, more: nat, next: Db, hash: string -> string)
    returns (k: nat)
    requires AppliedPrefix(first, p, j, db, hash) && AppliedPrefix(db, p[j..], more, next, hash)
    ensures k == j + more && AppliedPrefix(first, p, k, next, hash) && p[k..] == p[j..][more..]
  {
    k := j + more;
    CommitFurther(first, p, j, more, hash);
  }

  lemma CommitFurther(db: Db, p: seq<Entry>, j: nat, more: nat, hash: string -> string)
    requires j + more <= |p|
    ensures CommitAll(CommitAll(db, p[..j], hash), p[j..][..more], hash) == CommitAll(db, p[..j + more], hash)
    ensures p[j..][more..] == p[j + more..]
  {
    CommitAllSplit(db, p[..j], p[j..][..more], hash);
    assert p[..j + more] == p[..j] + p[j..][..more];
  }

  lemma DirectoryPending(db: Db, entries: seq<Entry>, f: Entry)
    requires DistinctNames(entries) && !Clashing(entries)
    ensures var p := Pending(db, SortedFiles(entries));
      && Sorted(p) && (f in p <==> f in entries && IsMigration(f) && Id(f) != "" && !Recorded(db, f))
  {
    var files := SortedFiles(entries);
    SortedFilesAre(entries, files);
    MigrationsAre(files, entries, f);
    PendingAre(db.rows.Keys, files, f);
  }

  /** A successful run has applied everything that was pending at first: every script once, in order,
      and a row for every migration file with an id; and later runs change nothing. */
  lemma {:induction false} SuccessIsFinal(dbs: seq<Db>, errs: seq<Option<RunError>>, plans: seq<Plan>,
                                          entries: seq<Entry>, hash: string -> string, i: nat, n: nat)
    requires IsHistory(dbs, errs, plans, entries, hash) && !Clashing(entries)
    requires i < n <= |plans| && errs[i].None?
    ensures var p := Pending(dbs[0], SortedFiles(entries));
      && dbs[n] == CommitAll(dbs[0], p, hash)
      && dbs[n].effects == dbs[0].effects + Contents(p)
      && dbs[n].rows.Keys == dbs[0].rows.Keys + Ids(p)
      && Pending(dbs[n], SortedFiles(entries)) == []
    ensures forall f :: f in entries && IsMigration(f) && Id(f) != "" ==> Recorded(dbs[n], f)
  {
    var p := Pending(dbs[0], SortedFiles(entries));
    var k := RunsConverge(dbs, errs, plans, entries, hash, n);
    if n == i + 1 {
      assert k == |p|;
    } else {
      SuccessIsFinal(dbs, errs, plans, entries, hash, i, n - 1);
      assert RunStep(dbs[n - 1], entries, plans[n - 1], hash, dbs[n - 1 + 1], errs[n - 1]);
      NothingLeft(dbs[n - 1], entries, plans[n - 1], hash, dbs[n], errs[n - 1]);
    }
    CommitAllEffects(dbs[0], p, hash);
    assert p[..|p|] == p;
    forall f | f in entries && IsMigration(f) && Id(f) != "" ensures Recorded(dbs[n], f) {
      DirectoryPending(dbs[n], entries, f);
    }
  }

  lemma NothingLeft(db: Db, entries: seq<Entry>, plan: Plan, hash: string -> string, next: Db, err: Option<RunError>)
    requires DistinctNames(entries) && !Clashing(entries) && RunStep(db, entries, plan, hash, next, err)
    requires Pending(db, SortedFiles(entries)) == []
    ensures next == db
  {
    var k := RunStepIsPrefix(db, entries, plan, hash, next, err);
  }

  /** Two files with the same id stop every run before anything is applied. */
  lemma {:induction false} DuplicatesBlockEveryRun(dbs: seq<Db>, errs: seq<Option<RunError>>, plans: seq<Plan>,
                                                   entries: seq<Entry>, hash: string -> string, n: nat)
    requires IsHistory(dbs, errs, plans, entries, hash) && Clashing(entries) && n <= |plans|
    ensures dbs[n] == dbs[0] && forall i :: 0 <= i < n ==> errs[i].Some?
  {
    if n > 0 {
      DuplicatesBlockEveryRun(dbs, errs, plans, entries, hash, n - 1);
      assert RunStep(dbs[n - 1], entries, plans[n - 1], hash, dbs[n], errs[n - 1]);
    }
  }

  // ----- drift

  /** A migration file that some run has applied has the row of its content. */
  lemma AppliedRow(dbs: seq<Db>, errs: seq<Option<RunError>>, plans: seq<Plan>,
                   entries: seq<Entry>, hash: string -> string, n: nat, f: Entry)
    requires IsHistory(dbs, errs, plans, entries, hash) && !Clashing(entries) && n <= |plans|
    requires f in entries && IsMigration(f) && !Recorded(dbs[0], f) && Recorded(dbs[n], f)
    ensures dbs[n].rows[Id(f)] == Some(hash(Normalise(f.content)))
  {
    var files := SortedFiles(entries);
    var p := Pending(dbs[0], files);
    var k := RunsConverge(dbs, errs, plans, entries, hash, n);
    CommitAllRows(dbs[0], p[..k], hash, Id(f));
    var g :| g in p[..k] && Id(g) == Id(f) && RowOf(dbs[0], p[..k], hash, g);
    DirectoryPending(dbs[0], entries, g);
    SortedFilesAre(entries, files);
    MigrationsAre(files, entries, f);
    MigrationsAre(files, entries, g);
    OneById(files, f, g);
  }

  lemma OneById(files: seq<Entry>, f: Entry, g: Entry)
    requires DistinctIds(files) && f in files && g in files && Id(f) == Id(g) != ""
    ensures f == g
  {
    var i :| 0 <= i < |files| && files[i] == f;
    var j :| 0 <= j < |files| && files[j] == g;
  }

  /** Once runs have applied `f`, a file with its id drifts if and only if it reads differently by its hash, and
      then as a change from the one hash to the other. */
  lemma DriftsIffChanged(dbs: seq<Db>, errs: seq<Option<RunError>>, plans: seq<Plan>,
                         entries: seq<Entry>, hash: string -> string, n: nat, f: Entry, g: Entry, e: LogEvent)
    requires IsHistory(dbs, errs, plans, entries, hash) && !Clashing(entries) && n <= |plans|
    requires f in entries && IsMigration(f) && !Recorded(dbs[0], f) && Recorded(dbs[n], f)
    requires Id(g) == Id(f) != "" && hash(Normalise(f.content)) != ""
    ensures var was, now := hash(Normalise(f.content)), hash(Normalise(g.content));
      FileDrifts(dbs[n], g, hash, e) <==> was != now && e == Drift(Id(f), was, now)
  {
    AppliedRow(dbs, errs, plans, entries, hash, n, f);
  }

  // ----- how a run ends

  /** The fault meets the file: it has an id, and it cannot be read, or has no row and is not applied cleanly. */
  predicate Hits(db: Db, f: Entry, fault: Fault) {
    Id(f) != "" && (fault.ReadFails? || (!Recorded(db, f) && !fault.NoFault?))
  }

  /** The error names the file and says what was tried. */
  predicate Names(e: RunError, f: Entry, fault: Fault) {
    match e
    case ReadFailed(name) => fault.ReadFails? && name == f.name
    case Panicked => fault.PanicBefore? || fault.PanicAfter?
    case ApplyFailed(id) => !fault.ReadFails? && !fault.PanicBefore? && !fault.PanicAfter? && id == Id(f)
    case _ => false
  }

  /** Number `j` is the first of the files that its fault meets, if there is one. */
  ghost predicate FirstHit(db: Db, files: seq<Entry>, plan: Plan, i: nat, j: nat) {
    && i <= j <= |files|
    && (forall m :: i <= m < j ==> !Hits(db, files[m], plan.faults(m)))
    && (j < |files| ==> Hits(db, files[j], plan.faults(j)))
  }

  /** The file is committed, and what goes wrong comes after. */
  predicate TooLate(fault: Fault) { fault.CommitLost? || fault.PanicAfter? }

  /** What has been applied when the files before `j` went well and file `j` did not. */
  function Done(db: Db, files: seq<Entry>, plan: Plan, i: nat, j: nat): seq<Entry>
    requires i <= j <= |files|
  {
    Pending(db, files[i..j]) + if j < |files| && TooLate(plan.faults(j)) then [files[j]] else []
  }

  ghost predicate EndsAt(db: Db, files: seq<Entry>, plan: Plan, hash: string -> string, i: nat, j: nat, next: Db,
                         err: Option<RunError>)
    requires i <= j <= |files|
  {
    && (err.None? <==> j == |files|)
    && (err.Some? ==> Names(err.value, files[j], plan.faults(j)))
    && next == CommitAll(db, Done(db, files, plan, i, j), hash)
  }

  /** The files go well up to the first that its fault meets; the error is that file's, and the database has
      those before it, and that file itself only when what went wrong came after its commit. */
  lemma {:induction false} FilesEnd(db: Db, files: seq<Entry>, i: nat, plan: Plan, hash: string -> string)
    returns (j: nat)
    requires DistinctIds(files) && i <= |files|
    ensures FirstHit(db, files, plan, i, j)
    ensures var (next, err) := FilesStep(db, files, i, plan, hash); EndsAt(db, files, plan, hash, i, j, next, err)
    decreases |files| - i
  {
    j := i;
    if i == |files| {
      assert Done(db, files, plan, i, j) == [];
    } else if Hits(db, files[i], plan.faults(i)) {
      assert Pending(db, files[i..i]) == [];
      if TooLate(plan.faults(i)) { CommitOne(db, files[i], hash); }
    } else {
      var next := FileStep(db, files[i], plan.faults(i), hash).0;
      j := FilesEnd(next, files, i + 1, plan, hash);
      SameHits(db, files, i, plan, hash, j);
      DoneWithFirst(db, files, i, plan, hash, j);
    }
  }

  lemma CommitOne(db: Db, f: Entry, hash: string -> string)
    ensures CommitAll(db, [] + [f], hash) == Commit(db, f, hash)
  {
    assert [] + [f] == [f] && [f][1..] == [];
  }

  /** Applying one file changes nothing about the others. */
  lemma SameHits(db: Db, files: seq<Entry>, i: nat, plan: Plan, hash: string -> string, j: nat)
    requires DistinctIds(files) && i < |files| && !Hits(db, files[i], plan.faults(i))
    requires FirstHit(FileStep(db, files[i], plan.faults(i), hash).0, files, plan, i + 1, j)
    ensures FirstHit(db, files, plan, i, j)
  {
    var next := FileStep(db, files[i], plan.faults(i), hash).0;
    forall m | i < m < |files|
      ensures Hits(db, files[m], plan.faults(m)) <==> Hits(next, files[m], plan.faults(m))
    {
      assert Id(files[m]) != "" && Id(files[i]) != "" ==> Id(files[i]) != Id(files[m]);
    }
  }

  lemma DoneWithFirst(db: Db, files: seq<Entry>, i: nat, plan: Plan, hash: string -> string, j: nat)
    requires DistinctIds(files) && i < j <= |files| && !Hits(db, files[i], plan.faults(i))
    ensures var next := FileStep(db, files[i], plan.faults(i), hash).0;
      CommitAll(db, Done(db, files, plan, i, j), hash) == CommitAll(next, Done(next, files, plan, i + 1, j), hash)
  {
    var f, rest := files[i], files[i + 1..j];
    assert files[i..j] == [f] + rest && ([f] + rest)[1..] == rest;
    if Id(f) != "" && !Recorded(db, f) {
      forall m | 0 <= m < |rest| ensures Id(rest[m]) != Id(f) { assert rest[m] == files[i + 1 + m]; }
      PendingHead(db, f, rest, hash);
      var next := Commit(db, f, hash);
      var more := Done(next, files, plan, i + 1, j);
      assert Done(db, files, plan, i, j) == [f] + more;
      assert ([f] + more)[1..] == more;
    }
  }

  /** When a run succeeds, and otherwise with which error: the setup, two files with one id, or the first file
      that its fault meets. */
  lemma RunSucceedsIff(db: Db, entries: seq<Entry>, plan: Plan, hash: string -> string, next: Db,
                       err: Option<RunError>)
    returns (j: nat)
    requires DistinctNames(entries) && RunStep(db, entries, plan, hash, next, err)
    ensures plan.setup ==> err == Some(SetupFailed) && next == db
    ensures !plan.setup && Clashing(entries) ==>
      err.Some? && err.value.Duplicate? && NamesClash(entries, err.value.e) && next == db
    ensures !plan.setup && !Clashing(entries) ==>
      var files := SortedFiles(entries);
      && FirstHit(db, files, plan, 0, j) && EndsAt(db, files, plan, hash, 0, j, next, err)
  {
    j := 0;
    if !plan.setup && !Clashing(entries) {
      SortedFilesAre(entries, SortedFiles(entries));
      j := FilesEnd(db, SortedFiles(entries), 0, plan, hash);
    }
  }

  /** A run that nothing disturbs succeeds. */
  lemma {:induction false} UndisturbedFilesSucceed(db: Db, files: seq<Entry>, i: nat, plan: Plan,
                                                   hash: string -> string)
    requires i <= |files| && forall j :: plan.faults(j).NoFault?
    ensures FilesStep(db, files, i, plan, hash).1.None?
    decreases |files| - i
  {
    if i < |files| {
      UndisturbedFilesSucceed(FileStep(db, files[i], plan.faults(i), hash).0, files, i + 1, plan, hash);
    }
  }

  // ----- line endings

  /** The text a checkout with CRLF line endings has in place of `s`. */
  function Crlf(s: string): string {
    if s == "" then "" else (if s[0] == '\n' then "\r\n" else [s[0]]) + Crlf(s[1..])
  }

  predicate HasCrlf(s: string) {
    exists i :: 0 <= i < |s| - 1 && s[i] == '\r' && s[i + 1] == '\n'
  }

  lemma {:induction false} NormaliseCrlf(s: string)
    ensures Normalise(Crlf(s)) == s
  {
    if s != "" {
      NormaliseCrlf(s[1..]);
      var t := Crlf(s[1..]);
      if s[0] == '\n' {
        assert ("\r\n" + t)[2..] == t;
      } else {
        assert ([s[0]] + t)[1..] == t;
      }
    }
  }

  lemma {:induction false} NormaliseIsIdentityIff(s: string)
    ensures Normalise(s) == s <==> !HasCrlf(s)
    ensures |Normalise(s)| <= |s|
  {
    if |s| >= 2 && s[0] == '\r' && s[1] == '\n' {
      NormaliseIsIdentityIff(s[2..]);
    } else if s != "" {
      NormaliseIsIdentityIff(s[1..]);
      if i :| 0 <= i < |s| - 1 && s[i] == '\r' && s[i + 1] == '\n' {
        assert s[1..][i - 1] == '\r' && s[1..][i] == '\n';
      }
      if i :| 0 <= i < |s[1..]| - 1 && s[1..][i] == '\r' && s[1..][i + 1] == '\n' {
        assert s[i + 1] == '\r' && s[i + 2] == '\n';
      }
    }
  }

  /** A file reads the same with LF and with CRLF line endings exactly when its LF form has no CRLF. */
  lemma LineEndingsDoNotDriftIff(s: string)
    ensures Normalise(Crlf(s)) == Normalise(s) <==> !HasCrlf(s)
  {
    NormaliseCrlf(s);
    NormaliseIsIdentityIff(s);
  }
}
