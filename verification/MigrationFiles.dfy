/**
 Collecting and ordering migration files: lines 217-284 and 457-465 of migrater/migrater.go.
 */
module MigrationFiles {
  import opened Wrappers
  import opened GoText

  /** A directory entry with the bytes the file holds. */
  datatype Entry = Entry(name: string, isDir: bool, content: string)

  // ----- ids and keys

  /** The longest prefix of digits. */
  function LeadingDigits(name: string): (id: string)
    ensures id <= name && AllDigits(id)
    ensures |id| < |name| ==> !IsDigit(name[|id|])
  {
    if name == "" || !IsDigit(name[0]) then "" else [name[0]] + LeadingDigits(name[1..])
  }

  /** migrationID: lines 459-465. */
  method MigrationID(filename: string) returns (id: string)
    ensures id == LeadingDigits(filename)
  {
    var end := 0;
    while end < |filename| && '0' <= filename[end] <= '9'
      invariant end <= |filename| && AllDigits(filename[..end])
    {
      end := end + 1;
    }
    return filename[..end];
  }

  function NumericKey(id: string): int {
    if id == "" then 0
    else match Atoi(id) case None => MAX_INT64 case Some(n) => n
  }

  /** The key of an id is its number, saturated at the largest int. */
  lemma NumericKeySaturates(id: string)
    requires AllDigits(id)
    ensures NumericKey(id) == if DigitsValue(id) <= MAX_INT64 then DigitsValue(id) else MAX_INT64
  {
    if id != "" { assert IsDigit(id[0]); }
  }

  // ----- the order of sort.Slice

  /** Byte-wise order of names, as `<` on strings. */
  predicate NameLess(a: string, b: string) {
    b != "" && (a == "" || a[0] < b[0] || (a[0] == b[0] && NameLess(a[1..], b[1..])))
  }

  lemma {:induction false} NameLessTotal(a: string, b: string)
    ensures NameLess(a, b) || a == b || NameLess(b, a)
    ensures !(NameLess(a, b) && NameLess(b, a))
  {
    if a != "" && b != "" && a[0] == b[0] {
      NameLessTotal(a[1..], b[1..]);
      assert a == [a[0]] + a[1..] && b == [b[0]] + b[1..];
    }
  }

  lemma {:induction false} NameLessTransitive(a: string, b: string, c: string)
    requires NameLess(a, b) && NameLess(b, c)
    ensures NameLess(a, c)
  {
    if a != "" && a[0] == b[0] && b[0] == c[0] {
      NameLessTransitive(a[1..], b[1..], c[1..]);
    }
  }

  /** The names agree up to some place, where `a` ends first or has the smaller byte. */
  predicate FirstDifference(a: string, b: string, n: nat) {
    n <= |a| && n < |b| && a[..n] == b[..n] && (n == |a| || a[n] < b[n])
  }

  lemma {:induction false} NameLessIff(a: string, b: string)
    ensures NameLess(a, b) <==> exists n: nat :: FirstDifference(a, b, n)
  {
    if b != "" {
      if a == "" || a[0] != b[0] {
        assert FirstDifference(a, b, 0) <==> NameLess(a, b);
        if n: nat :| FirstDifference(a, b, n) { assert n > 0 ==> a[..n][0] == b[..n][0]; }
      } else {
        NameLessIff(a[1..], b[1..]);
        forall n: nat ensures FirstDifference(a[1..], b[1..], n) <==> FirstDifference(a, b, n + 1) {
          DifferenceShifts(a, b, n);
        }
        if n: nat :| FirstDifference(a, b, n) { assert FirstDifference(a[1..], b[1..], n - 1); }
      }
    }
  }

  lemma DifferenceShifts(a: string, b: string, n: nat)
    requires a != "" && b != "" && a[0] == b[0]
    ensures FirstDifference(a[1..], b[1..], n) <==> FirstDifference(a, b, n + 1)
  {
    if n < |a| && n < |b| {
      assert a[..n + 1] == [a[0]] + a[1..][..n] && b[..n + 1] == [b[0]] + b[1..][..n];
    }
  }

  function Key(e: Entry): int { NumericKey(LeadingDigits(e.name)) }

  /** The comparison that `collectFiles` hands to sort.Slice. */
  predicate Less(x: Entry, y: Entry) {
    Key(x) < Key(y) || (Key(x) == Key(y) && NameLess(x.name, y.name))
  }

  lemma LessTotal(x: Entry, y: Entry)
    ensures Less(x, y) || x.name == y.name || Less(y, x)
    ensures !(Less(x, y) && Less(y, x))
  {
    NameLessTotal(x.name, y.name);
  }

  lemma LessTransitive(x: Entry, y: Entry, z: Entry)
    requires Less(x, y) && Less(y, z)
    ensures Less(x, z)
  {
    if Key(x) == Key(y) == Key(z) { NameLessTransitive(x.name, y.name, z.name); }
  }

  predicate Sorted(s: seq<Entry>) {
    forall i, j :: 0 <= i < j < |s| ==> Less(s[i], s[j])
  }

  predicate DistinctNames(s: seq<Entry>) {
    forall i, j :: 0 <= i < j < |s| ==> s[i].name != s[j].name
  }

  /** Stands in for sort.Slice.  `SortedUnique` shows that which algorithm is used does not matter. */
  function Sort(s: seq<Entry>): seq<Entry> {
    if s == [] then [] else Insert(s[|s| - 1], Sort(s[..|s| - 1]))
  }

  function Insert(x: Entry, s: seq<Entry>): seq<Entry> {
    if s == [] then [x]
    else if Less(x, s[0]) then [x] + s
    else [s[0]] + Insert(x, s[1..])
  }

  lemma {:induction false} InsertMembers(x: Entry, s: seq<Entry>)
    ensures multiset(Insert(x, s)) == multiset(s) + multiset{x}
  {
    if s != [] {
      assert s == [s[0]] + s[1..];
      if !Less(x, s[0]) { InsertMembers(x, s[1..]); }
    }
  }

  lemma {:induction false} InsertKeeps(x: Entry, s: seq<Entry>)
    requires Sorted(s) && forall i :: 0 <= i < |s| ==> s[i].name != x.name
    ensures Sorted(Insert(x, s))
  {
    if s != [] {
      LessTotal(x, s[0]);
      if Less(x, s[0]) {
        forall j | 0 <= j < |s| ensures Less(x, s[j]) {
          if j > 0 { LessTransitive(x, s[0], s[j]); }
        }
      } else {
        InsertKeeps(x, s[1..]);
        InsertMembers(x, s[1..]);
        var t := Insert(x, s[1..]);
        forall j | 0 <= j < |t| ensures Less(s[0], t[j]) {
          assert t[j] in multiset(t);
          assert t[j] in s[1..] || t[j] == x;
        }
      }
    }
  }

  lemma SameMembers(s: seq<Entry>, t: seq<Entry>)
    requires multiset(s) == multiset(t)
    ensures forall i :: 0 <= i < |s| ==> s[i] in t
    ensures |s| == |t|
  {
    forall i | 0 <= i < |s| ensures s[i] in t { assert s[i] in multiset(s); }
    assert |s| == |multiset(s)| == |multiset(t)| == |t|;
  }

  lemma OtherNames(t: seq<Entry>, s: seq<Entry>, n: nat)
    requires DistinctNames(s) && n < |s| && multiset(t) == multiset(s[..n])
    ensures forall i :: 0 <= i < |t| ==> t[i].name != s[n].name
  {
    SameMembers(t, s[..n]);
    forall i | 0 <= i < |t| ensures t[i].name != s[n].name {
      var j :| 0 <= j < n && s[..n][j] == t[i];
      assert s[j].name != s[n].name;
    }
  }

  lemma {:induction false} SortSorts(s: seq<Entry>)
    requires DistinctNames(s)
    ensures Sorted(Sort(s)) && multiset(Sort(s)) == multiset(s)
  {
    if s != [] {
      var n := |s| - 1;
      var before := s[..n];
      assert s == before + [s[n]] && DistinctNames(before);
      SortSorts(before);
      OtherNames(Sort(before), s, n);
      InsertKeeps(s[n], Sort(before));
      InsertMembers(s[n], Sort(before));
      assert Sort(s) == Insert(s[n], Sort(before));
      assert multiset(s) == multiset(before) + multiset{s[n]};
    }
  }

  /** There is one sorted arrangement of the same files. */
  lemma {:induction false} SortedUnique(s: seq<Entry>, t: seq<Entry>)
    requires Sorted(s) && Sorted(t) && multiset(s) == multiset(t)
    ensures s == t
  {
    SameMembers(s, t);
    if s != [] {
      SameLeast(s, t);
      TailMembers(s);
      TailMembers(t);
      SortedUnique(s[1..], t[1..]);
      assert s == [s[0]] + s[1..] && t == [t[0]] + t[1..];
    }
  }

  lemma TailMembers(s: seq<Entry>)
    requires s != []
    ensures multiset(s[1..]) == multiset(s) - multiset{s[0]}
  {
    assert s == [s[0]] + s[1..];
  }

  lemma SameLeast(s: seq<Entry>, t: seq<Entry>)
    requires Sorted(s) && Sorted(t) && multiset(s) == multiset(t) && s != [] && t != []
    ensures s[0] == t[0]
  {
    SameMembers(s, t);
    SameMembers(t, s);
    LessTotal(s[0], t[0]);
    var i :| 0 <= i < |t| && t[i] == s[0];
    var j :| 0 <= j < |s| && s[j] == t[0];
  }

  // ----- collectFiles: lines 225-264

  predicate HasSuffix(name: string, suffix: string) {
    |name| >= |suffix| && name[|name| - |suffix|..] == suffix
  }

  lemma SuffixIff(name: string, suffix: string)
    ensures HasSuffix(name, suffix) <==> exists stem: string :: name == stem + suffix
  {
    if HasSuffix(name, suffix) { assert name == name[..|name| - |suffix|] + suffix; }
  }

  predicate IsCandidate(e: Entry) { !e.isDir && HasSuffix(e.name, ".sql") }

  function Candidates(entries: seq<Entry>): seq<Entry> {
    if entries == [] then []
    else
      var n := |entries| - 1;
      Candidates(entries[..n]) + (if IsCandidate(entries[n]) then [entries[n]] else [])
  }

  function Id(e: Entry): string { LeadingDigits(e.name) }

  /** Two migration files share a non-empty id. */
  predicate HasDuplicate(files: seq<Entry>) {
    exists i, j :: 0 <= i < j < |files| && Id(files[i]) != "" && Id(files[i]) == Id(files[j])
  }

  /** A migration file: a file whose name ends in ".sql". */
  ghost predicate IsMigration(e: Entry) {
    !e.isDir && exists stem: string :: e.name == stem + ".sql"
  }

  /** The migration files of the directory, each as often as it is there. */
  ghost predicate AreMigrations(files: seq<Entry>, entries: seq<Entry>) {
    forall e :: multiset(files)[e] == if IsMigration(e) then multiset(entries)[e] else 0
  }

  lemma {:induction false} CandidatesAre(entries: seq<Entry>)
    ensures AreMigrations(Candidates(entries), entries)
  {
    if entries != [] {
      var n := |entries| - 1;
      CandidatesAre(entries[..n]);
      assert entries == entries[..n] + [entries[n]];
      SuffixIff(entries[n].name, ".sql");
      assert IsCandidate(entries[n]) <==> IsMigration(entries[n]);
    }
  }

  lemma MigrationsAre(files: seq<Entry>, entries: seq<Entry>, e: Entry)
    requires AreMigrations(files, entries)
    ensures e in files <==> e in entries && IsMigration(e)
  {
    assert e in files <==> multiset(files)[e] > 0;
    assert e in entries <==> multiset(entries)[e] > 0;
  }

  lemma {:induction false} CandidatesDistinct(entries: seq<Entry>)
    requires DistinctNames(entries)
    ensures DistinctNames(Candidates(entries))
  {
    if entries != [] {
      var n := |entries| - 1;
      CandidatesDistinct(entries[..n]);
      var files := Candidates(entries[..n]);
      CandidatesAre(entries[..n]);
      forall i | 0 <= i < |files| ensures files[i].name != entries[n].name {
        MigrationsAre(files, entries[..n], files[i]);
      }
    }
  }

  /** Two migration files of the directory share the id. */
  ghost predicate Clash(entries: seq<Entry>, i: int, j: int, id: string) {
    && 0 <= i < j < |entries| && IsMigration(entries[i]) && IsMigration(entries[j])
    && Id(entries[i]) == id == Id(entries[j]) && id != ""
  }

  ghost predicate Clashing(entries: seq<Entry>) { exists i, j, id :: Clash(entries, i, j, id) }

  /** `e` names two migration files that share the id, in the order of the directory. */
  ghost predicate NamesClash(entries: seq<Entry>, e: CollectError) {
    exists i, j :: Clash(entries, i, j, e.id) && entries[i].name == e.first && entries[j].name == e.second
  }

  /** Duplicates among the candidates are those in the directory. */
  lemma ClashIff(entries: seq<Entry>)
    ensures HasDuplicate(Candidates(entries)) <==> Clashing(entries)
    ensures forall e :: Reports(Candidates(entries), e) ==> NamesClash(entries, e)
  {
    var files := Candidates(entries);
    if i, j :| 0 <= i < j < |files| && Id(files[i]) != "" && Id(files[i]) == Id(files[j]) {
      ReportClashes(entries, DuplicateId(Id(files[i]), files[i].name, files[j].name));
    }
    forall e | Reports(files, e) ensures NamesClash(entries, e) { ReportClashes(entries, e); }
    if p, q, id :| Clash(entries, p, q, id) {
      var i, j := PlacesInFiles(entries, p, q);
    }
  }

  lemma ReportClashes(entries: seq<Entry>, e: CollectError)
    requires Reports(Candidates(entries), e)
    ensures NamesClash(entries, e)
  {
    var files := Candidates(entries);
    var i, j :| 0 <= i < j < |files| && e.id != "" && Id(files[i]) == e.id == Id(files[j])
      && files[i].name == e.first && files[j].name == e.second;
    var p, q := PlacesInDirectory(entries, i, j);
    assert Clash(entries, p, q, e.id);
  }

  /** The order of the directory is kept. */
  lemma {:induction false} PlacesInDirectory(entries: seq<Entry>, i: nat, j: nat) returns (p: nat, q: nat)
    requires i < j < |Candidates(entries)|
    ensures p < q < |entries| && entries[p] == Candidates(entries)[i] && entries[q] == Candidates(entries)[j]
    ensures IsMigration(entries[p]) && IsMigration(entries[q])
    decreases |entries|
  {
    var n := |entries| - 1;
    var before := Candidates(entries[..n]);
    if j < |before| {
      p, q := PlacesInDirectory(entries[..n], i, j);
    } else {
      CandidatesAre(entries[..n]);
      MigrationsAre(before, entries[..n], before[i]);
      SuffixIff(entries[n].name, ".sql");
      p :| 0 <= p < n && entries[..n][p] == before[i];
      q := n;
    }
  }

  lemma {:induction false} PlacesInFiles(entries: seq<Entry>, p: nat, q: nat) returns (i: nat, j: nat)
    requires p < q < |entries| && IsMigration(entries[p]) && IsMigration(entries[q])
    ensures i < j < |Candidates(entries)|
    ensures Candidates(entries)[i] == entries[p] && Candidates(entries)[j] == entries[q]
    decreases |entries|
  {
    var n := |entries| - 1;
    var before := Candidates(entries[..n]);
    if q < n {
      i, j := PlacesInFiles(entries[..n], p, q);
    } else {
      CandidatesAre(entries[..n]);
      MigrationsAre(before, entries[..n], entries[..n][p]);
      SuffixIff(entries[n].name, ".sql");
      i :| 0 <= i < |before| && before[i] == entries[p];
      j := |before|;
    }
  }

  datatype CollectError = DuplicateId(id: string, first: string, second: string)

  /** A file called `name` with this id is among `files`. */
  predicate Seen(files: seq<Entry>, id: string, name: string) {
    exists i :: 0 <= i < |files| && Id(files[i]) == id && files[i].name == name
  }

  /** The error names an id and two files that share it. */
  predicate Reports(files: seq<Entry>, e: CollectError) {
    exists i, j :: 0 <= i < j < |files| && e.id != "" && Id(files[i]) == e.id == Id(files[j])
      && files[i].name == e.first && files[j].name == e.second
  }

  /** The files of a directory in the order they are applied, or a duplicate id. */
  method CollectFiles(entries: seq<Entry>) returns (r: Result<seq<Entry>, CollectError>)
    requires DistinctNames(entries)
    ensures r.Err? <==> Clashing(entries)
    ensures r.Err? ==> NamesClash(entries, r.error)
    ensures r.Ok? ==> Sorted(r.value) && AreMigrations(r.value, entries)
  {
    var files: seq<Entry> := [];
    var seen: map<string, string> := map[];
    for k := 0 to |entries|
      invariant files == Candidates(entries[..k]) && Scanned(files, seen)
    {
      assert entries[..k + 1][..k] == entries[..k];
      var e := entries[k];
      if e.isDir || !HasSuffix(e.name, ".sql") {
        continue;
      }
      var id := MigrationID(e.name);
      ghost var before := seen;
      if id != "" {
        if id in seen {
          r := Err(DuplicateId(id, seen[id], e.name));
          DuplicateFound(entries, k, r.error);
          return;
        }
        seen := seen[id := e.name];
      }
      ScanNext(files, before, e);
      files := files + [e];
    }
    assert entries[..|entries|] == entries;
    AllCollected(entries);
    return Ok(Sort(files));
  }

  lemma AllCollected(entries: seq<Entry>)
    requires DistinctNames(entries) && !HasDuplicate(Candidates(entries))
    ensures !Clashing(entries)
    ensures Sorted(Sort(Candidates(entries))) && AreMigrations(Sort(Candidates(entries)), entries)
  {
    ClashIff(entries);
    CandidatesAre(entries);
    CandidatesDistinct(entries);
    SortSorts(Candidates(entries));
  }

  /** Entry `k` has the id of a file before it. */
  lemma DuplicateFound(entries: seq<Entry>, k: nat, error: CollectError)
    requires k < |entries| && IsCandidate(entries[k])
    requires error.id != "" && Seen(Candidates(entries[..k]), error.id, error.first)
    requires Id(entries[k]) == error.id && entries[k].name == error.second
    ensures Clashing(entries) && NamesClash(entries, error)
  {
    assert entries[..k + 1][..k] == entries[..k];
    FoundDuplicate(Candidates(entries[..k]), entries[k], error);
    CandidatesGrow(entries, k + 1);
    ClashIff(entries);
  }

  /** The files so far have distinct ids, and `seen` has each of them with the name of its file. */
  ghost predicate Scanned(files: seq<Entry>, seen: map<string, string>) {
    && (forall id :: id in seen ==> id != "" && Seen(files, id, seen[id]))
    && (forall i :: 0 <= i < |files| && Id(files[i]) != "" ==> Id(files[i]) in seen)
    && !HasDuplicate(files)
  }

  lemma ScanNext(files: seq<Entry>, seen: map<string, string>, e: Entry)
    requires Scanned(files, seen) && Id(e) !in seen
    ensures Scanned(files + [e], if Id(e) == "" then seen else seen[Id(e) := e.name])
  {
    SeenStays(files, e);
  }

  lemma FoundDuplicate(files: seq<Entry>, e: Entry, error: CollectError)
    requires error.id != "" && Seen(files, error.id, error.first) && Id(e) == error.id && e.name == error.second
    ensures Reports(files + [e], error)
  {
    var i :| 0 <= i < |files| && Id(files[i]) == error.id && files[i].name == error.first;
    assert (files + [e])[i] == files[i] && (files + [e])[|files|] == e;
  }

  lemma SeenStays(files: seq<Entry>, e: Entry)
    ensures forall id, name :: Seen(files, id, name) ==> Seen(files + [e], id, name)
    ensures Seen(files + [e], Id(e), e.name)
  {
    forall id, name | Seen(files, id, name) ensures Seen(files + [e], id, name) {
      var i :| 0 <= i < |files| && Id(files[i]) == id && files[i].name == name;
      assert (files + [e])[i] == files[i];
    }
    assert (files + [e])[|files|] == e;
  }

  lemma {:induction false} CandidatesGrow(entries: seq<Entry>, k: nat)
    requires k <= |entries|
    ensures Candidates(entries[..k]) <= Candidates(entries)
    ensures HasDuplicate(Candidates(entries[..k])) ==> HasDuplicate(Candidates(entries))
    ensures forall e :: Reports(Candidates(entries[..k]), e) ==>
      Reports(Candidates(entries), e) && HasDuplicate(Candidates(entries))
  {
    if k == |entries| {
      assert entries[..k] == entries;
    } else {
      var n := |entries| - 1;
      assert entries[..n][..k] == entries[..k];
      CandidatesGrow(entries[..n], k);
    }
  }

  /** Ids that are not above the largest int come in true numeric order, however they are padded. */
  lemma NumericOrder(files: seq<Entry>, i: nat, j: nat)
    requires Sorted(files) && i < j < |files|
    requires DigitsValue(Id(files[i])) <= MAX_INT64
    ensures DigitsValue(Id(files[i])) <= DigitsValue(Id(files[j]))
  {
    assert Less(files[i], files[j]);
    NumericKeySaturates(Id(files[i]));
    NumericKeySaturates(Id(files[j]));
  }

  predicate DistinctIds(files: seq<Entry>) {
    forall i, j :: 0 <= i < j < |files| && Id(files[i]) != "" ==> Id(files[i]) != Id(files[j])
  }

  /** The same files have a duplicate id in whatever order they are. */
  lemma {:induction false} DistinctIdsOfSorted(files: seq<Entry>, candidates: seq<Entry>)
    requires Sorted(files) && multiset(files) == multiset(candidates) && !HasDuplicate(candidates)
    requires DistinctNames(candidates)
    ensures DistinctIds(files)
  {
    SameMembers(files, candidates);
    forall i, j | 0 <= i < j < |files| && Id(files[i]) != "" ensures Id(files[i]) != Id(files[j]) {
      LessTotal(files[i], files[j]);
      assert files[i] != files[j];
      var a :| 0 <= a < |candidates| && candidates[a] == files[i];
      var b :| 0 <= b < |candidates| && candidates[b] == files[j];
    }
  }
}