/**
 The five-field cron specs of crontab/schedule.go: the parser that fills lookup tables in place, what
 a spec means, and the match of a table against a point in time.
 */
module CronSpec {
  import opened Wrappers
  import opened GoText

  datatype FieldName = Minute | Hour | DayOfMonth | Month | DayOfWeek

  datatype ParseError =
    | FieldCount(n: nat)
    | InvalidStep(name: FieldName, text: string)
    | InvalidValue(name: FieldName, text: string)
    | OutOfRange(name: FieldName, v: int)
    | ReversedRange(name: FieldName, text: string)

  /** What parsing comes to.  `Panics` is the runtime panic of an index out of range. */
  datatype Verdict<+T> = Accepted(value: T) | Rejected(error: ParseError) | Panics

  datatype Range = Range(lo: int, hi: int, step: int)

  predicate FieldBounds(minVal: int, maxVal: int) { 0 <= minVal <= maxVal <= 59 }

  // ----- the pure part: lines 92-155

  function ParseValue(s: string, minVal: int, maxVal: int, name: FieldName): Result<int, ParseError> {
    match Atoi(s)
    case None => Err(InvalidValue(name, s))
    case Some(v) => if v < minVal || v > maxVal then Err(OutOfRange(name, v)) else Ok(v)
  }

  function ParseRange(part: string, minVal: int, maxVal: int, name: FieldName, hasStep: bool)
    : (r: Result<(int, int), ParseError>)
    ensures minVal <= maxVal && r.Ok? ==> minVal <= r.value.0 <= r.value.1 <= maxVal
  {
    if part == "*" then Ok((minVal, maxVal))
    else
      var (loText, hiText, found) := Cut(part, '-');
      if found then
        match ParseValue(loText, minVal, maxVal, name)
        case Err(e) => Err(e)
        case Ok(lo) =>
          match ParseValue(hiText, minVal, maxVal, name)
          case Err(e) => Err(e)
          case Ok(hi) => if hi < lo then Err(ReversedRange(name, part)) else Ok((lo, hi))
      else
        match ParseValue(part, minVal, maxVal, name)
        case Err(e) => Err(e)
        case Ok(v) => Ok((v, if hasStep then maxVal else v))
  }

  /** The step is looked at before the range, as in `parseTerm`. */
  function TermRange(term: string, minVal: int, maxVal: int, name: FieldName): (r: Result<Range, ParseError>)
    requires FieldBounds(minVal, maxVal)
    ensures r.Ok? ==> minVal <= r.value.lo <= r.value.hi <= maxVal && 0 < r.value.step <= MAX_INT64
  {
    var (rangePart, stepText, hasStep) := Cut(term, '/');
    var step := if hasStep then Atoi(stepText) else Some(1);
    if step.None? || step.value <= 0 then Err(InvalidStep(name, stepText))
    else
      match ParseRange(rangePart, minVal, maxVal, name, hasStep)
      case Err(e) => Err(e)
      case Ok((lo, hi)) => Ok(Range(lo, hi, step.value))
  }

  // ----- what a term, a field and a spec mean

  /** `x` is reached from 0 in steps of `step`. */
  predicate OnGrid(x: int, step: int)
    requires step > 0
    decreases x
  {
    x == 0 || (x >= step && OnGrid(x - step, step))
  }

  predicate InRange(r: Range, v: int)
    requires r.step > 0
  {
    r.lo <= v <= r.hi && OnGrid(v - r.lo, r.step)
  }

  function Values(r: Range): set<int>
    requires r.step > 0
  {
    set v | r.lo <= v <= r.hi && InRange(r, v)
  }

  /** The overflow of `v += step` past the largest int.  It leaves a negative `v`, which is still not
      above `hi` and is then used as an index. */
  predicate Overflows(r: Range) {
    r.lo + r.step > MAX_INT64
  }

  function TermVerdict(term: string, minVal: int, maxVal: int, name: FieldName): Verdict<set<int>>
    requires FieldBounds(minVal, maxVal)
  {
    match TermRange(term, minVal, maxVal, name)
    case Err(e) => Rejected(e)
    case Ok(r) => if Overflows(r) then Panics else Accepted(Values(r))
  }

  /** The first verdict that is not an acceptance decides; otherwise the values are united. */
  function Unite(vs: seq<Verdict<set<int>>>): Verdict<set<int>> {
    if vs == [] then Accepted({})
    else
      var n := |vs| - 1;
      match Unite(vs[..n])
      case Rejected(e) => Rejected(e)
      case Panics => Panics
      case Accepted(values) =>
        match vs[n]
        case Rejected(e) => Rejected(e)
        case Panics => Panics
        case Accepted(more) => Accepted(values + more)
  }

  function TermVerdicts(terms: seq<string>, minVal: int, maxVal: int, name: FieldName): (vs: seq<Verdict<set<int>>>)
    requires FieldBounds(minVal, maxVal)
    ensures |vs| == |terms|
    ensures forall i :: 0 <= i < |terms| ==> vs[i] == TermVerdict(terms[i], minVal, maxVal, name)
  {
    seq(|terms|, i requires 0 <= i < |terms| => TermVerdict(terms[i], minVal, maxVal, name))
  }

  function FieldVerdict(spec: string, minVal: int, maxVal: int, name: FieldName): Verdict<set<int>>
    requires FieldBounds(minVal, maxVal)
  {
    Unite(TermVerdicts(Split(spec, ','), minVal, maxVal, name))
  }

  // ----- the tables: lines 80-113

  predicate TableOf(table: seq<bool>, values: set<int>) {
    forall v :: 0 <= v < |table| ==> (table[v] <==> v in values)
  }

  lemma {:induction false} OffGrid(x: int, y: int, step: int)
    requires step > 0 && OnGrid(x, step) && x < y < x + step
    ensures !OnGrid(y, step)
    decreases x
  {
    if x != 0 {
      OffGrid(x - step, y - step, step);
    }
  }

  lemma {:induction false} GridIsMultiples(x: int, step: int)
    requires step > 0 && x >= 0
    ensures OnGrid(x, step) <==> x % step == 0
    decreases x
  {
    if x < step {
      RemainderUnique(x, step, 0, x);
    } else {
      GridIsMultiples(x - step, step);
      var q := (x - step) / step;
      RemainderUnique(x, step, q + 1, (x - step) % step);
    }
  }

  /** The loop of lines 109-111; false is the panic of indexing with a wrapped, negative `v`. */
  method Mark(range: Range, table: array<bool>) returns (ok: bool)
    requires 0 <= range.lo <= range.hi < table.Length <= 60 && 0 < range.step <= MAX_INT64
    modifies table
    ensures ok <==> !Overflows(range)
    ensures ok ==> forall u :: 0 <= u < table.Length ==> (table[u] <==> old(table[u]) || u in Values(range))
  {
    var lo, hi, step := range.lo, range.hi, range.step;
    var v := lo;
    while v <= hi
      invariant v < 0 ==> Overflows(range)
      invariant v >= 0 ==> lo <= v <= hi + step && OnGrid(v - lo, step) && (v > lo ==> !Overflows(range))
      invariant v >= 0 ==> forall u :: 0 <= u < table.Length ==>
        (table[u] <==> old(table[u]) || (u < v && InRange(range, u)))
      decreases if v < 0 then 0 else 1 + hi - v
    {
      if v < 0 || v >= table.Length {
        return false;
      }
      table[v] := true;
      forall u | v < u < v + step && InRange(range, u) ensures false {
        OffGrid(v - lo, u - lo, step);
      }
      v := Wrap64(v + step);
    }
    ok := true;
  }

  /** Marks the values of one term in `table`, in place. */
  method ParseTerm(term: string, minVal: int, maxVal: int, name: FieldName, table: array<bool>)
    returns (r: Verdict<()>)
    requires FieldBounds(minVal, maxVal) && table.Length == maxVal + 1
    modifies table
    ensures match TermVerdict(term, minVal, maxVal, name)
      case Rejected(e) => r == Rejected(e)
      case Panics => r == Panics
      case Accepted(values) =>
        && r == Accepted(())
        && forall v :: 0 <= v < table.Length ==> (table[v] <==> old(table[v]) || v in values)
  {
    var parsed := TermRange(term, minVal, maxVal, name);
    if parsed.Err? {
      return Rejected(parsed.error);
    }
    var ok := Mark(parsed.value, table);
    return if ok then Accepted(()) else Panics;
  }

  method ParseField(spec: string, minVal: int, maxVal: int, name: FieldName)
    returns (r: Verdict<array<bool>>)
    requires FieldBounds(minVal, maxVal)
    ensures match FieldVerdict(spec, minVal, maxVal, name)
      case Rejected(e) => r == Rejected(e)
      case Panics => r == Panics
      case Accepted(values) =>
        r.Accepted? && fresh(r.value) && r.value.Length == maxVal + 1 && TableOf(r.value[..], values)
  {
    var table := new bool[maxVal + 1](_ => false);
    var terms := Split(spec, ',');
    ghost var verdicts := TermVerdicts(terms, minVal, maxVal, name);
    ghost var values := {};
    for i := 0 to |terms|
      invariant Unite(verdicts[..i]) == Accepted(values)
      invariant TableOf(table[..], values)
    {
      UniteNext(verdicts, i);
      var parsed := ParseTerm(terms[i], minVal, maxVal, name, table);
      if !parsed.Accepted? {
        FirstFailureDecides(verdicts, i + 1);
        return if parsed.Panics? then Panics else Rejected(parsed.error);
      }
      values := values + verdicts[i].value;
    }
    assert verdicts[..|terms|] == verdicts;
    return Accepted(table);
  }

  lemma UniteNext(vs: seq<Verdict<set<int>>>, i: nat)
    requires i < |vs| && Unite(vs[..i]).Accepted?
    ensures match vs[i]
      case Rejected(e) => Unite(vs[..i + 1]) == Rejected(e)
      case Panics => Unite(vs[..i + 1]) == Panics
      case Accepted(more) => Unite(vs[..i + 1]) == Accepted(Unite(vs[..i]).value + more)
  {
    assert vs[..i + 1][..i] == vs[..i];
  }

  /** Terms after one that is not accepted are never looked at. */
  lemma {:induction false} FirstFailureDecides(vs: seq<Verdict<set<int>>>, i: nat)
    requires i <= |vs| && !Unite(vs[..i]).Accepted?
    ensures Unite(vs) == Unite(vs[..i])
  {
    var n := |vs| - 1;
    if i == |vs| {
      assert vs[..i] == vs;
    } else {
      assert vs[..n][..i] == vs[..i];
      FirstFailureDecides(vs[..n], i);
    }
  }

  lemma {:induction false} UniteAccepts(vs: seq<Verdict<set<int>>>)
    ensures Unite(vs).Accepted? <==> forall i :: 0 <= i < |vs| ==> vs[i].Accepted?
    ensures Unite(vs).Accepted? ==>
      forall x :: x in Unite(vs).value <==> exists i :: 0 <= i < |vs| && x in vs[i].value
  {
    if vs != [] {
      var n := |vs| - 1;
      UniteAccepts(vs[..n]);
      assert forall i :: 0 <= i < n ==> vs[..n][i] == vs[i];
    }
  }

  /** Verdict `i` is `v`, and all before it are acceptances. */
  predicate StopsAt(vs: seq<Verdict<set<int>>>, i: int, v: Verdict<set<int>>) {
    0 <= i < |vs| && vs[i] == v && Unite(vs[..i]).Accepted?
  }

  lemma {:induction false} UniteStops(vs: seq<Verdict<set<int>>>, v: Verdict<set<int>>)
    requires !v.Accepted?
    ensures Unite(vs) == v <==> exists i :: StopsAt(vs, i, v)
  {
    if vs != [] {
      var n := |vs| - 1;
      UniteStops(vs[..n], v);
      forall i | 0 <= i < n ensures StopsAt(vs[..n], i, v) <==> StopsAt(vs, i, v) {
        assert vs[..n][..i] == vs[..i];
      }
      if i :| StopsAt(vs[..n], i, v) { assert StopsAt(vs, i, v); }
      if i :| StopsAt(vs, i, v) {
        if i == n { UniteAccepts(vs[..n]); } else { assert StopsAt(vs[..n], i, v); }
      }
      if Unite(vs[..n]).Accepted? && vs[n] == v { assert StopsAt(vs, n, v); }
    }
  }

  // ----- a whole spec: lines 41-78

  /** The tables are indexed by the value itself, so those of day and month have an unused 0. */
  datatype Schedule = Schedule(
    minute: seq<bool>, hour: seq<bool>, dom: seq<bool>, month: seq<bool>, dow: seq<bool>,
    domStar: bool, dowStar: bool)

  datatype Meaning = Meaning(
    minute: set<int>, hour: set<int>, dom: set<int>, month: set<int>, dow: set<int>,
    domStar: bool, dowStar: bool)

  /** The values a spec names, field by field, before Sunday is folded. */
  function SpecVerdict(spec: string): Verdict<Meaning> {
    var f := Fields(spec);
    if |f| != 5 then Rejected(FieldCount(|f|))
    else
      InTurn(FieldVerdict(f[0], 0, 59, Minute), FieldVerdict(f[1], 0, 23, Hour), FieldVerdict(f[2], 1, 31, DayOfMonth),
             FieldVerdict(f[3], 1, 12, Month), FieldVerdict(f[4], 0, 7, DayOfWeek), f[2] == "*", f[4] == "*")
  }

  /** The first field that is not accepted decides. */
  function InTurn(
    minute: Verdict<set<int>>, hour: Verdict<set<int>>, dom: Verdict<set<int>>, month: Verdict<set<int>>,
    dow: Verdict<set<int>>, domStar: bool, dowStar: bool): Verdict<Meaning>
  {
    match minute
    case Rejected(e) => Rejected(e) case Panics => Panics case Accepted(minute) =>
    match hour
    case Rejected(e) => Rejected(e) case Panics => Panics case Accepted(hour) =>
    match dom
    case Rejected(e) => Rejected(e) case Panics => Panics case Accepted(dom) =>
    match month
    case Rejected(e) => Rejected(e) case Panics => Panics case Accepted(month) =>
    match dow
    case Rejected(e) => Rejected(e) case Panics => Panics case Accepted(dow) =>
    Accepted(Meaning(minute, hour, dom, month, dow, domStar, dowStar))
  }

  /** Day of week 7 is Sunday, which is 0. */
  function FoldSunday(dow: set<int>): set<int> {
    if 7 in dow then dow + {0} else dow
  }

  predicate Represents(s: Schedule, m: Meaning) {
    && |s.minute| == 60 && TableOf(s.minute, m.minute)
    && |s.hour| == 24 && TableOf(s.hour, m.hour)
    && |s.dom| == 32 && TableOf(s.dom, m.dom)
    && |s.month| == 13 && TableOf(s.month, m.month)
    && |s.dow| == 8 && TableOf(s.dow, FoldSunday(m.dow))
    && s.domStar == m.domStar && s.dowStar == m.dowStar
  }

  /** The parser accepts, rejects and panics exactly as `SpecVerdict` says, with its tables. */
  method Parse(spec: string) returns (r: Verdict<Schedule>)
    ensures match SpecVerdict(spec)
      case Rejected(e) => r == Rejected(e)
      case Panics => r == Panics
      case Accepted(m) => r.Accepted? && Represents(r.value, m)
  {
    var fields := Fields(spec);
    if |fields| != 5 {
      return Rejected(FieldCount(|fields|));
    }
    var minute := ParseField(fields[0], 0, 59, Minute);
    if !minute.Accepted? {
      return if minute.Panics? then Panics else Rejected(minute.error);
    }
    var hour := ParseField(fields[1], 0, 23, Hour);
    if !hour.Accepted? {
      return if hour.Panics? then Panics else Rejected(hour.error);
    }
    var dom := ParseField(fields[2], 1, 31, DayOfMonth);
    if !dom.Accepted? {
      return if dom.Panics? then Panics else Rejected(dom.error);
    }
    var month := ParseField(fields[3], 1, 12, Month);
    if !month.Accepted? {
      return if month.Panics? then Panics else Rejected(month.error);
    }
    var dow := ParseField(fields[4], 0, 7, DayOfWeek);
    if !dow.Accepted? {
      return if dow.Panics? then Panics else Rejected(dow.error);
    }
    if dow.value[7] {
      dow.value[0] := true;
    }
    return Accepted(Schedule(
      minute.value[..], hour.value[..], dom.value[..], month.value[..], dow.value[..],
      fields[2] == "*", fields[4] == "*"));
  }

  // ----- matching: lines 19-35

  /** A point in time as `time.Time` reports it in the scheduler's location. */
  datatype Clock = Clock(minute: int, hour: int, day: int, month: int, weekday: int)

  predicate ValidClock(t: Clock) {
    0 <= t.minute < 60 && 0 <= t.hour < 24 && 1 <= t.day <= 31 && 1 <= t.month <= 12 && 0 <= t.weekday < 7
  }

  predicate ValidTables(s: Schedule) {
    |s.minute| == 60 && |s.hour| == 24 && |s.dom| == 32 && |s.month| == 13 && |s.dow| == 8
  }

  predicate Match(s: Schedule, t: Clock)
    requires ValidTables(s) && ValidClock(t)
  {
    if !s.minute[t.minute] || !s.hour[t.hour] || !s.month[t.month] then false
    else if !s.domStar && !s.dowStar then s.dom[t.day] || s.dow[t.weekday]
    else s.dom[t.day] && s.dow[t.weekday]
  }

  // ----- what acceptance means

  /** `sep` occurs in `s` first at `i`. */
  predicate FirstAt(s: string, sep: char, i: int) {
    0 <= i < |s| && s[i] == sep && forall j :: 0 <= j < i ==> s[j] != sep
  }

  lemma CutAtFirst(s: string, sep: char, i: int)
    requires FirstAt(s, sep, i)
    ensures Cut(s, sep) == (s[..i], s[i + 1..], true)
  {
    assert IndexOf(s, sep) == i;
  }

  lemma CutNowhere(s: string, sep: char)
    ensures Cut(s, sep).2 ==> FirstAt(s, sep, IndexOf(s, sep))
    ensures sep !in s <==> !Cut(s, sep).2
    ensures sep !in s ==> Cut(s, sep) == (s, "", false)
  {
  }

  /** `part` is a range part with a dash and denotes [lo, hi]. */
  ghost predicate DerivesBounds(part: string, minVal: int, maxVal: int, lo: int, hi: int) {
    exists i :: FirstAt(part, '-', i)
      && Atoi(part[..i]) == Some(lo) && Atoi(part[i + 1..]) == Some(hi) && minVal <= lo <= hi <= maxVal
  }

  /** `part` is a range part and denotes [lo, hi].  A bare value before a step is open. */
  ghost predicate DerivesPart(part: string, minVal: int, maxVal: int, open: bool, lo: int, hi: int) {
    || (part == "*" && lo == minVal && hi == maxVal)
    || ('-' !in part && Atoi(part) == Some(lo) && minVal <= lo <= maxVal && hi == (if open then maxVal else lo))
    || DerivesBounds(part, minVal, maxVal, lo, hi)
  }

  ghost predicate DerivesStepped(term: string, minVal: int, maxVal: int, r: Range) {
    exists i :: FirstAt(term, '/', i)
      && Atoi(term[i + 1..]) == Some(r.step) && r.step > 0 && DerivesPart(term[..i], minVal, maxVal, true, r.lo, r.hi)
  }

  /** The grammar of a term: a range part alone, or a range part, a slash and a positive step. */
  ghost predicate Derives(term: string, minVal: int, maxVal: int, r: Range) {
    || ('/' !in term && r.step == 1 && DerivesPart(term, minVal, maxVal, false, r.lo, r.hi))
    || DerivesStepped(term, minVal, maxVal, r)
  }

  lemma StarIsNotANumber()
    ensures Atoi("*") == None
  {
    assert !IsDigit("*"[0]);
  }

  lemma BoundsAt(part: string, minVal: int, maxVal: int, name: FieldName, open: bool, i: int, lo: int, hi: int)
    requires FirstAt(part, '-', i)
    ensures ParseRange(part, minVal, maxVal, name, open) == Ok((lo, hi)) <==>
      Atoi(part[..i]) == Some(lo) && Atoi(part[i + 1..]) == Some(hi) && minVal <= lo <= hi <= maxVal
  {
    CutAtFirst(part, '-', i);
    assert part[i] != "*"[0];
  }

  lemma BoundsGrammar(part: string, minVal: int, maxVal: int, name: FieldName, open: bool, lo: int, hi: int)
    requires '-' in part
    ensures ParseRange(part, minVal, maxVal, name, open) == Ok((lo, hi))
       <==> DerivesBounds(part, minVal, maxVal, lo, hi)
  {
    CutNowhere(part, '-');
    forall i | FirstAt(part, '-', i)
      ensures ParseRange(part, minVal, maxVal, name, open) == Ok((lo, hi)) <==>
        Atoi(part[..i]) == Some(lo) && Atoi(part[i + 1..]) == Some(hi) && minVal <= lo <= hi <= maxVal
    {
      BoundsAt(part, minVal, maxVal, name, open, i, lo, hi);
    }
  }

  lemma PartGrammar(part: string, minVal: int, maxVal: int, name: FieldName, open: bool, lo: int, hi: int)
    ensures ParseRange(part, minVal, maxVal, name, open) == Ok((lo, hi))
       <==> DerivesPart(part, minVal, maxVal, open, lo, hi)
  {
    CutNowhere(part, '-');
    if part == "*" {
      StarIsNotANumber();
      assert '-' !in part;
    } else if '-' in part {
      BoundsGrammar(part, minVal, maxVal, name, open, lo, hi);
    }
  }

  lemma SteppedAt(term: string, minVal: int, maxVal: int, name: FieldName, i: int, r: Range)
    requires FieldBounds(minVal, maxVal) && FirstAt(term, '/', i)
    ensures TermRange(term, minVal, maxVal, name) == Ok(r) <==>
      Atoi(term[i + 1..]) == Some(r.step) && r.step > 0 && DerivesPart(term[..i], minVal, maxVal, true, r.lo, r.hi)
  {
    CutAtFirst(term, '/', i);
    PartGrammar(term[..i], minVal, maxVal, name, true, r.lo, r.hi);
  }

  /** `parseTerm` accepts exactly the terms of the grammar, with the bounds and step they denote. */
  lemma TermGrammar(term: string, minVal: int, maxVal: int, name: FieldName, r: Range)
    requires FieldBounds(minVal, maxVal)
    ensures TermRange(term, minVal, maxVal, name) == Ok(r) <==> Derives(term, minVal, maxVal, r)
  {
    CutNowhere(term, '/');
    if '/' in term {
      forall i | FirstAt(term, '/', i)
        ensures TermRange(term, minVal, maxVal, name) == Ok(r) <==>
          Atoi(term[i + 1..]) == Some(r.step) && r.step > 0 && DerivesPart(term[..i], minVal, maxVal, true, r.lo, r.hi)
      {
        SteppedAt(term, minVal, maxVal, name, i, r);
      }
    } else {
      PartGrammar(term, minVal, maxVal, name, false, r.lo, r.hi);
    }
  }

  /** A step "reaches" a value when it divides the distance from the lower bound. */
  lemma ValuesAreMultiples(r: Range, v: int)
    requires r.step > 0
    ensures v in Values(r) <==> r.lo <= v <= r.hi && (v - r.lo) % r.step == 0
  {
    if r.lo <= v {
      GridIsMultiples(v - r.lo, r.step);
    }
  }

  /** `v` is a value of the term: the term denotes a range with a step that reaches `v`. */
  ghost predicate TermHas(term: string, minVal: int, maxVal: int, v: int) {
    exists r :: Derives(term, minVal, maxVal, r) && r.step > 0 && v in Values(r)
  }

  /** `spec` is the terms with a comma between any two. */
  predicate IsList(spec: string, terms: seq<string>) {
    terms != [] && Without(terms, ',') && Join(terms, ',') == spec
  }

  ghost predicate SomeTermHas(terms: seq<string>, minVal: int, maxVal: int, v: int) {
    exists term :: term in terms && TermHas(term, minVal, maxVal, v)
  }

  ghost predicate FieldHas(spec: string, minVal: int, maxVal: int, v: int) {
    exists terms :: IsList(spec, terms) && SomeTermHas(terms, minVal, maxVal, v)
  }

  lemma TermsOfField(spec: string)
    ensures IsList(spec, Split(spec, ',')) && forall terms :: IsList(spec, terms) ==> terms == Split(spec, ',')
  {
    SplitIff(spec, ',', Split(spec, ','));
    forall terms | IsList(spec, terms) ensures terms == Split(spec, ',') { SplitIff(spec, ',', terms); }
  }

  lemma TermMeaning(term: string, minVal: int, maxVal: int, name: FieldName, values: set<int>, v: int)
    requires FieldBounds(minVal, maxVal) && TermVerdict(term, minVal, maxVal, name) == Accepted(values)
    ensures v in values <==> TermHas(term, minVal, maxVal, v)
  {
    var r := TermRange(term, minVal, maxVal, name).value;
    TermGrammar(term, minVal, maxVal, name, r);
    forall q | Derives(term, minVal, maxVal, q) ensures q == r {
      TermGrammar(term, minVal, maxVal, name, q);
    }
  }

  lemma FieldMeaningOf(spec: string, minVal: int, maxVal: int, name: FieldName, values: set<int>, v: int)
    requires FieldBounds(minVal, maxVal) && FieldVerdict(spec, minVal, maxVal, name) == Accepted(values)
    ensures v in values <==> FieldHas(spec, minVal, maxVal, v)
  {
    TermsOfField(spec);
    TermsMeaning(Split(spec, ','), minVal, maxVal, name, values, v);
  }

  lemma TermsMeaning(terms: seq<string>, minVal: int, maxVal: int, name: FieldName, values: set<int>, v: int)
    requires FieldBounds(minVal, maxVal) && Unite(TermVerdicts(terms, minVal, maxVal, name)) == Accepted(values)
    ensures v in values <==> SomeTermHas(terms, minVal, maxVal, v)
  {
    var vs := TermVerdicts(terms, minVal, maxVal, name);
    UniteAccepts(vs);
    if v in values {
      var i :| 0 <= i < |vs| && v in vs[i].value;
      TermMeaning(terms[i], minVal, maxVal, name, vs[i].value, v);
    }
    if SomeTermHas(terms, minVal, maxVal, v) {
      var term :| term in terms && TermHas(term, minVal, maxVal, v);
      var i :| 0 <= i < |terms| && terms[i] == term;
      TermMeaning(terms[i], minVal, maxVal, name, vs[i].value, v);
    }
  }

  lemma TermBounds(term: string, minVal: int, maxVal: int, name: FieldName, values: set<int>)
    requires FieldBounds(minVal, maxVal) && TermVerdict(term, minVal, maxVal, name) == Accepted(values)
    ensures values != {} && forall v :: v in values ==> minVal <= v <= maxVal
  {
    assert TermRange(term, minVal, maxVal, name).value.lo in values;
  }

  /** The values of an accepted field are those its terms denote; there is one, and all are in range. */
  lemma FieldMeaning(spec: string, minVal: int, maxVal: int, name: FieldName, values: set<int>)
    requires FieldBounds(minVal, maxVal) && FieldVerdict(spec, minVal, maxVal, name) == Accepted(values)
    ensures forall v :: v in values <==> FieldHas(spec, minVal, maxVal, v)
    ensures values != {} && forall v :: v in values ==> minVal <= v <= maxVal
  {
    forall v ensures v in values <==> FieldHas(spec, minVal, maxVal, v) {
      FieldMeaningOf(spec, minVal, maxVal, name, values, v);
    }
    FieldBounded(spec, minVal, maxVal, name, values);
  }

  lemma FieldBounded(spec: string, minVal: int, maxVal: int, name: FieldName, values: set<int>)
    requires FieldBounds(minVal, maxVal) && FieldVerdict(spec, minVal, maxVal, name) == Accepted(values)
    ensures values != {} && forall v :: v in values ==> minVal <= v <= maxVal
  {
    var terms := Split(spec, ',');
    var vs := TermVerdicts(terms, minVal, maxVal, name);
    UniteAccepts(vs);
    TermBounds(terms[0], minVal, maxVal, name, vs[0].value);
    forall v | v in values ensures minVal <= v <= maxVal {
      var i :| 0 <= i < |vs| && v in vs[i].value;
      TermBounds(terms[i], minVal, maxVal, name, vs[i].value);
    }
  }

  /** When the day rule of Vixie cron holds: either field if both are restricted, both otherwise. */
  ghost predicate DayHas(dom: string, dow: string, t: Clock) {
    var inDom := FieldHas(dom, 1, 31, t.day);
    var inDow := FieldHas(dow, 0, 7, t.weekday) || (t.weekday == 0 && FieldHas(dow, 0, 7, 7));
    if dom != "*" && dow != "*" then inDom || inDow else inDom && inDow
  }

  lemma MatchTables(s: Schedule, m: Meaning, t: Clock)
    requires Represents(s, m) && ValidClock(t)
    ensures ValidTables(s)
    ensures Match(s, t) <==>
      && t.minute in m.minute && t.hour in m.hour && t.month in m.month
      && var inDow := t.weekday in m.dow || (t.weekday == 0 && 7 in m.dow);
         if m.domStar || m.dowStar then t.day in m.dom && inDow else t.day in m.dom || inDow
  {
  }

  /** A job of an accepted spec, five words in whatever gaps, is due at `t` exactly when every word names `t`'s
      value. */
  lemma AcceptedSpecMatches(words: seq<string>, gaps: seq<string>, s: Schedule, m: Meaning, t: Clock)
    requires WellSpaced(words, gaps) && ValidTables(s) && ValidClock(t)
    ensures SpecVerdict(Lay(words, gaps)) == Accepted(m) && Represents(s, m) ==>
      && |words| == 5
      && (Match(s, t) <==>
            && FieldHas(words[0], 0, 59, t.minute)
            && FieldHas(words[1], 0, 23, t.hour)
            && FieldHas(words[3], 1, 12, t.month)
            && DayHas(words[2], words[4], t))
  {
    FieldsOfLaid(words, gaps);
    if SpecVerdict(Lay(words, gaps)) == Accepted(m) && Represents(s, m) {
      MatchTables(s, m, t);
      FieldMeaningOf(words[0], 0, 59, Minute, m.minute, t.minute);
      FieldMeaningOf(words[1], 0, 23, Hour, m.hour, t.hour);
      FieldMeaningOf(words[2], 1, 31, DayOfMonth, m.dom, t.day);
      FieldMeaningOf(words[3], 1, 12, Month, m.month, t.month);
      FieldMeaningOf(words[4], 0, 7, DayOfWeek, m.dow, t.weekday);
      FieldMeaningOf(words[4], 0, 7, DayOfWeek, m.dow, 7);
    }
  }

  // ----- when parsing panics

  /** The term is well formed and its step takes the loop past the largest int. */
  ghost predicate TermOverflows(term: string, minVal: int, maxVal: int) {
    exists r :: Derives(term, minVal, maxVal, r) && r.lo + r.step > MAX_INT64
  }

  ghost predicate TermFine(term: string, minVal: int, maxVal: int) {
    exists r :: Derives(term, minVal, maxVal, r) && r.lo + r.step <= MAX_INT64
  }

  lemma TermOutcome(term: string, minVal: int, maxVal: int, name: FieldName)
    requires FieldBounds(minVal, maxVal)
    ensures TermVerdict(term, minVal, maxVal, name).Accepted? <==> TermFine(term, minVal, maxVal)
    ensures TermVerdict(term, minVal, maxVal, name).Panics? <==> TermOverflows(term, minVal, maxVal)
  {
    var parsed := TermRange(term, minVal, maxVal, name);
    if parsed.Ok? { TermGrammar(term, minVal, maxVal, name, parsed.value); }
    forall q | Derives(term, minVal, maxVal, q) ensures parsed == Ok(q) {
      TermGrammar(term, minVal, maxVal, name, q);
    }
  }

  ghost predicate AllFine(terms: seq<string>, minVal: int, maxVal: int) {
    forall i :: 0 <= i < |terms| ==> TermFine(terms[i], minVal, maxVal)
  }

  ghost predicate FirstOverflow(terms: seq<string>, minVal: int, maxVal: int, i: int) {
    && 0 <= i < |terms|
    && TermOverflows(terms[i], minVal, maxVal)
    && forall j :: 0 <= j < i ==> TermFine(terms[j], minVal, maxVal)
  }

  ghost predicate SomeOverflow(terms: seq<string>, minVal: int, maxVal: int) {
    exists i :: FirstOverflow(terms, minVal, maxVal, i)
  }

  /** A field is accepted if and only if all its terms are well formed and none overflows. */
  lemma FieldAcceptedIff(spec: string, terms: seq<string>, minVal: int, maxVal: int, name: FieldName)
    requires FieldBounds(minVal, maxVal) && IsList(spec, terms)
    ensures FieldVerdict(spec, minVal, maxVal, name).Accepted? <==> AllFine(terms, minVal, maxVal)
  {
    TermsOfField(spec);
    TermsAcceptedIff(terms, minVal, maxVal, name);
  }

  lemma TermsAcceptedIff(terms: seq<string>, minVal: int, maxVal: int, name: FieldName)
    requires FieldBounds(minVal, maxVal)
    ensures Unite(TermVerdicts(terms, minVal, maxVal, name)).Accepted? <==> AllFine(terms, minVal, maxVal)
  {
    var vs := TermVerdicts(terms, minVal, maxVal, name);
    UniteAccepts(vs);
    forall i | 0 <= i < |terms| ensures vs[i].Accepted? <==> TermFine(terms[i], minVal, maxVal) {
      TermOutcome(terms[i], minVal, maxVal, name);
    }
    if i :| 0 <= i < |vs| && !vs[i].Accepted? { assert !TermFine(terms[i], minVal, maxVal); }
  }

  /** A field panics if and only if one of its terms overflows and all terms before that one are fine. */
  lemma FieldPanicsIff(spec: string, terms: seq<string>, minVal: int, maxVal: int, name: FieldName)
    requires FieldBounds(minVal, maxVal) && IsList(spec, terms)
    ensures FieldVerdict(spec, minVal, maxVal, name).Panics? <==> SomeOverflow(terms, minVal, maxVal)
  {
    TermsOfField(spec);
    TermsPanicIff(terms, minVal, maxVal, name);
  }

  lemma TermsPanicIff(terms: seq<string>, minVal: int, maxVal: int, name: FieldName)
    requires FieldBounds(minVal, maxVal)
    ensures Unite(TermVerdicts(terms, minVal, maxVal, name)).Panics? <==> SomeOverflow(terms, minVal, maxVal)
  {
    var vs := TermVerdicts(terms, minVal, maxVal, name);
    UniteStops(vs, Panics);
    forall i | 0 <= i < |terms| ensures FirstOverflow(terms, minVal, maxVal, i) <==> StopsAt(vs, i, Panics) {
      PrefixFine(terms, minVal, maxVal, name, i);
      TermOutcome(terms[i], minVal, maxVal, name);
    }
    if i :| StopsAt(vs, i, Panics) { assert FirstOverflow(terms, minVal, maxVal, i); }
  }

  lemma PrefixFine(terms: seq<string>, minVal: int, maxVal: int, name: FieldName, i: int)
    requires FieldBounds(minVal, maxVal) && 0 <= i < |terms|
    ensures Unite(TermVerdicts(terms, minVal, maxVal, name)[..i]).Accepted?
       <==> forall j :: 0 <= j < i ==> TermFine(terms[j], minVal, maxVal)
  {
    var vs := TermVerdicts(terms, minVal, maxVal, name);
    UniteAccepts(vs[..i]);
    forall j | 0 <= j < i ensures vs[j].Accepted? <==> TermFine(terms[j], minVal, maxVal) {
      TermOutcome(terms[j], minVal, maxVal, name);
    }
    assert forall j :: 0 <= j < i ==> vs[..i][j] == vs[j];
  }

  /** Every open term "a/n" that panics: those with a + n above the largest int. */
  lemma OpenTermPanicsIff(a: nat, n: nat, minVal: int, maxVal: int, name: FieldName)
    requires FieldBounds(minVal, maxVal) && minVal <= a <= maxVal && 0 < n <= MAX_INT64
    ensures TermVerdict(Decimal(a) + "/" + Decimal(n), minVal, maxVal, name).Panics? <==> a + n > MAX_INT64
  {
    var term := Decimal(a) + "/" + Decimal(n);
    OpenTermDerives(a, n, minVal, maxVal);
    TermGrammar(term, minVal, maxVal, name, Range(a, maxVal, n));
  }

  lemma OpenTermDerives(a: nat, n: nat, minVal: int, maxVal: int)
    requires FieldBounds(minVal, maxVal) && minVal <= a <= maxVal && 0 < n <= MAX_INT64
    ensures Derives(Decimal(a) + "/" + Decimal(n), minVal, maxVal, Range(a, maxVal, n))
  {
    var lo, step := Decimal(a), Decimal(n);
    var term := lo + "/" + step;
    AtoiOfDecimal(a);
    AtoiOfDecimal(n);
    assert forall i :: 0 <= i < |lo| ==> term[i] == lo[i] && IsDigit(lo[i]);
    assert FirstAt(term, '/', |lo|);
    assert term[..|lo|] == lo && term[|lo| + 1..] == step;
    assert '-' !in lo;
  }

  // ----- which rejection

  /** `text` is no value of the field, and `e` says why. */
  predicate BadValue(text: string, minVal: int, maxVal: int, name: FieldName, e: ParseError) {
    || (Atoi(text) == None && e == InvalidValue(name, text))
    || (Atoi(text).Some? && !GoodValue(text, minVal, maxVal) && e == OutOfRange(name, Atoi(text).value))
  }

  predicate GoodValue(text: string, minVal: int, maxVal: int) {
    Atoi(text).Some? && minVal <= Atoi(text).value <= maxVal
  }

  /** Of a part with a dash at `i`, the lower value is looked at first, then the upper one, then their order. */
  predicate BoundsReject(part: string, minVal: int, maxVal: int, name: FieldName, e: ParseError, i: int)
    requires FirstAt(part, '-', i)
  {
    var lo, hi := part[..i], part[i + 1..];
    || BadValue(lo, minVal, maxVal, name, e)
    || (GoodValue(lo, minVal, maxVal) && BadValue(hi, minVal, maxVal, name, e))
    || (GoodValue(lo, minVal, maxVal) && GoodValue(hi, minVal, maxVal)
        && Atoi(hi).value < Atoi(lo).value && e == ReversedRange(name, part))
  }

  ghost predicate PartRejects(part: string, minVal: int, maxVal: int, name: FieldName, e: ParseError) {
    || ('-' !in part && part != "*" && BadValue(part, minVal, maxVal, name, e))
    || exists i :: FirstAt(part, '-', i) && BoundsReject(part, minVal, maxVal, name, e, i)
  }

  predicate IsStep(text: string) { Atoi(text).Some? && Atoi(text).value > 0 }

  /** The step is looked at before the range. */
  ghost predicate SteppedRejects(term: string, minVal: int, maxVal: int, name: FieldName, e: ParseError, i: int)
    requires FirstAt(term, '/', i)
  {
    var step := term[i + 1..];
    if IsStep(step) then PartRejects(term[..i], minVal, maxVal, name, e) else e == InvalidStep(name, step)
  }

  ghost predicate TermRejects(term: string, minVal: int, maxVal: int, name: FieldName, e: ParseError) {
    || ('/' !in term && PartRejects(term, minVal, maxVal, name, e))
    || exists i :: FirstAt(term, '/', i) && SteppedRejects(term, minVal, maxVal, name, e, i)
  }

  lemma PartRejection(part: string, minVal: int, maxVal: int, name: FieldName, open: bool, e: ParseError)
    ensures ParseRange(part, minVal, maxVal, name, open) == Err(e) <==> PartRejects(part, minVal, maxVal, name, e)
  {
    CutNowhere(part, '-');
    forall i | FirstAt(part, '-', i)
      ensures ParseRange(part, minVal, maxVal, name, open) == Err(e) <==> BoundsReject(part, minVal, maxVal, name, e, i)
    {
      BoundsRejection(part, minVal, maxVal, name, open, e, i);
    }
    if part == "*" { assert '-' !in part; }
  }

  lemma BoundsRejection(
    part: string, minVal: int, maxVal: int, name: FieldName, open: bool, e: ParseError, i: int)
    requires FirstAt(part, '-', i)
    ensures ParseRange(part, minVal, maxVal, name, open) == Err(e) <==> BoundsReject(part, minVal, maxVal, name, e, i)
  {
    CutAtFirst(part, '-', i);
    assert part[i] != "*"[0];
    ValueRejection(part[..i], minVal, maxVal, name, e);
    ValueRejection(part[i + 1..], minVal, maxVal, name, e);
  }

  lemma ValueRejection(text: string, minVal: int, maxVal: int, name: FieldName, e: ParseError)
    ensures ParseValue(text, minVal, maxVal, name) == Err(e) <==> BadValue(text, minVal, maxVal, name, e)
    ensures ParseValue(text, minVal, maxVal, name).Ok? <==> GoodValue(text, minVal, maxVal)
  {
  }

  /** A term that is not of the grammar is rejected with the error of the first text in it that is at fault: the
      step, then the lower value, then the upper one, then their order. */
  lemma TermRejection(term: string, minVal: int, maxVal: int, name: FieldName, e: ParseError)
    requires FieldBounds(minVal, maxVal)
    ensures TermRange(term, minVal, maxVal, name) == Err(e) <==> TermRejects(term, minVal, maxVal, name, e)
  {
    CutNowhere(term, '/');
    forall i | FirstAt(term, '/', i)
      ensures TermRange(term, minVal, maxVal, name) == Err(e) <==> SteppedRejects(term, minVal, maxVal, name, e, i)
    {
      CutAtFirst(term, '/', i);
      PartRejection(term[..i], minVal, maxVal, name, true, e);
    }
    if '/' !in term { PartRejection(term, minVal, maxVal, name, false, e); }
  }

  ghost predicate RejectsAt(
    terms: seq<string>, minVal: int, maxVal: int, name: FieldName, e: ParseError, i: int)
  {
    && 0 <= i < |terms|
    && TermRejects(terms[i], minVal, maxVal, name, e)
    && forall j :: 0 <= j < i ==> TermFine(terms[j], minVal, maxVal)
  }

  ghost predicate SomeRejects(terms: seq<string>, minVal: int, maxVal: int, name: FieldName, e: ParseError) {
    exists i :: RejectsAt(terms, minVal, maxVal, name, e, i)
  }

  /** A field is rejected with `e` if and only if a term is, and all before it are fine. */
  lemma FieldRejectsIff(spec: string, terms: seq<string>, minVal: int, maxVal: int, name: FieldName, e: ParseError)
    requires FieldBounds(minVal, maxVal) && IsList(spec, terms)
    ensures FieldVerdict(spec, minVal, maxVal, name) == Rejected(e) <==> SomeRejects(terms, minVal, maxVal, name, e)
  {
    TermsOfField(spec);
    var vs := TermVerdicts(terms, minVal, maxVal, name);
    UniteStops(vs, Rejected(e));
    forall i ensures RejectsAt(terms, minVal, maxVal, name, e, i) <==> StopsAt(vs, i, Rejected(e)) {
      RejectsAtIff(terms, minVal, maxVal, name, e, i);
    }
  }

  lemma RejectsAtIff(terms: seq<string>, minVal: int, maxVal: int, name: FieldName, e: ParseError, i: int)
    requires FieldBounds(minVal, maxVal)
    ensures RejectsAt(terms, minVal, maxVal, name, e, i)
       <==> StopsAt(TermVerdicts(terms, minVal, maxVal, name), i, Rejected(e))
  {
    if 0 <= i < |terms| {
      PrefixFine(terms, minVal, maxVal, name, i);
      TermRejection(terms[i], minVal, maxVal, name, e);
    }
  }

  // ----- the outcome of a whole spec

  datatype Column = Column(minVal: int, maxVal: int, name: FieldName)

  const COLUMNS: seq<Column> := [
    Column(0, 59, Minute), Column(0, 23, Hour), Column(1, 31, DayOfMonth), Column(1, 12, Month),
    Column(0, 7, DayOfWeek)]

  ghost predicate WordFine(word: string, c: Column) {
    exists terms :: IsList(word, terms) && AllFine(terms, c.minVal, c.maxVal)
  }

  ghost predicate WordOverflows(word: string, c: Column) {
    exists terms :: IsList(word, terms) && SomeOverflow(terms, c.minVal, c.maxVal)
  }

  ghost predicate WordRejects(word: string, c: Column, e: ParseError) {
    exists terms :: IsList(word, terms) && SomeRejects(terms, c.minVal, c.maxVal, c.name, e)
  }

  /** The words before number `i` are fine. */
  ghost predicate FineUpTo(words: seq<string>, i: nat)
    requires i <= |words| == 5
  {
    forall j :: 0 <= j < i ==> WordFine(words[j], COLUMNS[j])
  }

  function WordVerdict(word: string, c: Column): Verdict<set<int>>
    requires c in COLUMNS
  {
    FieldVerdict(word, c.minVal, c.maxVal, c.name)
  }

  lemma WordOutcome(word: string, c: Column, e: ParseError)
    requires c in COLUMNS
    ensures WordVerdict(word, c).Accepted? <==> WordFine(word, c)
    ensures WordVerdict(word, c).Panics? <==> WordOverflows(word, c)
    ensures WordVerdict(word, c) == Rejected(e) <==> WordRejects(word, c, e)
  {
    TermsOfField(word);
    var terms := Split(word, ',');
    FieldAcceptedIff(word, terms, c.minVal, c.maxVal, c.name);
    FieldPanicsIff(word, terms, c.minVal, c.maxVal, c.name);
    FieldRejectsIff(word, terms, c.minVal, c.maxVal, c.name, e);
  }

  /** The first word that is not accepted decides. */
  lemma FirstWordDecides(words: seq<string>, gaps: seq<string>) returns (n: nat)
    requires WellSpaced(words, gaps) && |words| == 5
    ensures n <= 5 && forall i: nat :: i < n ==> WordVerdict(words[i], COLUMNS[i]).Accepted?
    ensures n < 5 ==> Stops(SpecVerdict(Lay(words, gaps)), WordVerdict(words[n], COLUMNS[n]))
    ensures n == 5 ==> SpecVerdict(Lay(words, gaps)).Accepted?
  {
    FieldsOfLaid(words, gaps);
    var vs := [WordVerdict(words[0], COLUMNS[0]), WordVerdict(words[1], COLUMNS[1]), WordVerdict(words[2], COLUMNS[2]),
               WordVerdict(words[3], COLUMNS[3]), WordVerdict(words[4], COLUMNS[4])];
    n := FirstInTurn(vs, words[2] == "*", words[4] == "*");
    forall i: nat | i < 5 ensures vs[i] == WordVerdict(words[i], COLUMNS[i]) { }
  }

  lemma FirstInTurn(vs: seq<Verdict<set<int>>>, domStar: bool, dowStar: bool) returns (n: nat)
    requires |vs| == 5
    ensures n <= 5 && forall i: nat :: i < n ==> vs[i].Accepted?
    ensures var v := InTurn(vs[0], vs[1], vs[2], vs[3], vs[4], domStar, dowStar);
      if n == 5 then v.Accepted? else Stops(v, vs[n])
  {
    n := 0;
    while n < 5 && vs[n].Accepted?
      invariant n <= 5 && forall i: nat :: i < n ==> vs[i].Accepted?
    {
      n := n + 1;
    }
  }

  /** `v` is the failure `w`. */
  predicate Stops<T, U>(v: Verdict<T>, w: Verdict<U>) {
    match w
    case Accepted(_) => false
    case Panics => v.Panics?
    case Rejected(e) => v.Rejected? && v.error == e
  }

  /** A spec is accepted if and only if it has five words and all are fine; with five words the first that is not
      decides whether it is rejected, with that word's error, or panics. */
  lemma SpecOutcome(words: seq<string>, gaps: seq<string>, e: ParseError)
    requires WellSpaced(words, gaps)
    ensures var v := SpecVerdict(Lay(words, gaps));
      if |words| != 5 then v == Rejected(FieldCount(|words|))
      else
        && (v.Accepted? <==> FineUpTo(words, 5))
        && (v.Panics? <==> exists i: nat :: i < 5 && FineUpTo(words, i) && WordOverflows(words[i], COLUMNS[i]))
        && (v == Rejected(e) <==> exists i: nat :: i < 5 && FineUpTo(words, i) && WordRejects(words[i], COLUMNS[i], e))
  {
    FieldsOfLaid(words, gaps);
    if |words| == 5 {
      var n := FirstWordDecides(words, gaps);
      forall i: nat | i < 5
        ensures WordVerdict(words[i], COLUMNS[i]).Accepted? <==> WordFine(words[i], COLUMNS[i])
        ensures WordVerdict(words[i], COLUMNS[i]).Panics? <==> WordOverflows(words[i], COLUMNS[i])
        ensures WordVerdict(words[i], COLUMNS[i]) == Rejected(e) <==> WordRejects(words[i], COLUMNS[i], e)
      {
        WordOutcome(words[i], COLUMNS[i], e);
      }
      forall i: nat | i < 5 && FineUpTo(words, i) && !WordFine(words[i], COLUMNS[i]) ensures i == n {
        if n < i { assert false; }
      }
      assert FineUpTo(words, n);
    }
  }
}
