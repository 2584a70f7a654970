/**
 What httpclient decides from a single attempt's outcome: the lookup sets and the classifier of classify.go,
 and the Retry-After arithmetic of retry_transport.go.
 */
module RetryAfter {
  import opened Wrappers
  import opened GoText

  const RETRYABLE_STATUSES: set<int> := {429, 500, 502, 503, 504}

  const IDEMPOTENT_METHODS: set<string> := {"GET", "HEAD", "OPTIONS", "PUT", "DELETE", "TRACE"}

  /** The errors of one `RoundTrip`.  `Other` is an error from below: what `errors.Is` and `errors.As` can
      find in its chain, and the delay it hints at, 0 for none. */
  datatype Error =
    | NonReplayableBody
    | BudgetExhausted
    | AttemptTimeout
    | CallerDead
    | RetryableStatus(status: int, delay: int)
    | Other(isContext: bool, timeout: bool, refused: bool, hint: int)

  /** Lines 31-33 of classify.go. */
  predicate IsCallerContext(e: Error) {
    e.CallerDead? || (e.Other? && e.isContext)
  }

  /** Lines 39-58 of classify.go. */
  predicate DefaultRetryIf(e: Error) {
    !IsCallerContext(e)
    && (e.AttemptTimeout? || e.RetryableStatus? || (e.Other? && (e.timeout || e.refused)))
  }

  function HintOf(e: Error): int {
    match e
    case RetryableStatus(_, delay) => delay
    case Other(_, _, _, hint) => hint
    case _ => 0
  }

  // ----- Retry-After: lines 217-245 of retry_transport.go

  const SECOND := 1_000_000_000

  /** Go's integer division, which truncates toward zero. */
  function Quot(a: int, b: int): int
    requires b > 0
  {
    if a >= 0 then a / b else -(-a / b)
  }

  /** `date` is the time left until the header read as an HTTP-date, 0 when it is none. */
  function Parse(cap: int, status: int, header: string, date: int): int {
    if status != 429 && status != 503 then 0
    else
      match Atoi(header)
      case Some(secs) =>
        if secs > 0 then
          if secs > Wrap64(Quot(cap, SECOND) + 1) then Wrap64(cap + SECOND) else Wrap64(secs * SECOND)
        else if date > 0 then date else 0
      case None => if date > 0 then date else 0
  }

  /** The delay to honour, or None when it is past the cap. */
  function Delay(cap: int, status: int, header: string, date: int): (delay: Option<int>) {
    var d := Parse(cap, status, header, date);
    if d > cap then None else Some(d)
  }

  /** The promise: a number of seconds is honoured in full when within the cap, else refused. */
  predicate KeepsPromise(cap: int, status: int, secs: int, delay: Option<int>) {
    delay == if secs * SECOND <= cap then Some(secs * SECOND) else None
  }

  /** `header` is a positive number of seconds. */
  predicate Seconds(header: string, secs: int) {
    Atoi(header) == Some(secs) && secs > 0
  }

  /** On a 429 or 503, for every number of seconds: the promise is kept for all of them exactly when the cap
      leaves a second of room below the largest duration. */
  lemma PromiseKeptIff(cap: int, status: int, date: int)
    requires IsInt64(cap) && (status == 429 || status == 503)
    ensures (forall header, secs :: Seconds(header, secs) ==>
               KeepsPromise(cap, status, secs, Delay(cap, status, header, date)))
       <==> cap <= MAX_INT64 - SECOND
  {
    if cap > MAX_INT64 - SECOND {
      var secs := cap / SECOND + 2;
      var header := Decimal(secs);
      AtoiOfDecimal(secs);
      assert Seconds(header, secs);
      PastCapWraps(cap, status, header, secs, date);
    }
  }

  /** The header does not count on any other status; and on these, without a positive number of seconds, a date that
      is still to come does. */
  lemma OtherHeaders(cap: int, status: int, header: string, date: int)
    requires (status != 429 && status != 503) || forall secs :: !Seconds(header, secs)
    ensures var wait := if (status == 429 || status == 503) && date > 0 then date else 0;
      Delay(cap, status, header, date) == if wait <= cap then Some(wait) else None
  {
    if Atoi(header).Some? { assert !Seconds(header, Atoi(header).value) || (status != 429 && status != 503); }
  }

  /** With less room, a number of seconds far past the cap gives a negative delay, which counts as within it. */
  lemma PastCapWraps(cap: int, status: int, header: string, secs: int, date: int)
    requires MAX_INT64 - SECOND < cap <= MAX_INT64 && (status == 429 || status == 503)
    requires Seconds(header, secs) && secs > cap / SECOND + 1
    ensures Delay(cap, status, header, date) == Some(cap + SECOND - TWO_64)
    ensures !KeepsPromise(cap, status, secs, Delay(cap, status, header, date))
  {
    assert cap + SECOND - MIN_INT64 == (cap + SECOND - MIN_INT64 - TWO_64) + TWO_64;
    assert Wrap64(cap + SECOND) == cap + SECOND - TWO_64;
  }
}
