/**
 The retrier of retry/retry.go: its delays in 64-bit arithmetic, and its loop over a function whose results,
 like the context's and the random source's, are parameters.
 */
module Retry {
  import opened Wrappers
  import opened GoText

  datatype Config = Config(maxRetries: int, delayStep: int, jitter: bool)

  predicate InRange(c: Config) { IsInt64(c.maxRetries) && IsInt64(c.delayStep) }

  function Max(a: int, b: int): int { if a < b then b else a }

  // ----- construction: lines 90-109 and retry/options.go:32-58

  const DEFAULT := Config(3, 1_000_000_000, true)

  datatype Setting = MaxRetries(n: int) | DelayStep(step: int) | Jitter(on: bool) | Nil

  function Set(c: Config, s: Setting): Config {
    match s
    case MaxRetries(n) => c.(maxRetries := n)
    case DelayStep(d) => c.(delayStep := d)
    case Jitter(on) => c.(jitter := on)
    case Nil => c
  }

  /** Setting `k` is the last of its kind among the first `n`. */
  predicate Decides(settings: seq<Setting>, k: int, n: nat)
    requires n <= |settings|
  {
    0 <= k < n && forall j :: k < j < n ==> !SameKind(settings[k], settings[j])
  }

  predicate SameKind(a: Setting, b: Setting) {
    (a.MaxRetries? && b.MaxRetries?) || (a.DelayStep? && b.DelayStep?) || (a.Jitter? && b.Jitter?)
  }

  const DEFAULTS := [MaxRetries(3), DelayStep(1_000_000_000), Jitter(true)]

  /** What the setting asks for is what the configuration has. */
  predicate Honours(c: Config, s: Setting) {
    match s
    case MaxRetries(n) => c.maxRetries == n
    case DelayStep(d) => c.delayStep == d
    case Jitter(on) => c.jitter == on
    case Nil => true
  }

  /** Each setting that decides is in force. */
  ghost predicate InForce(c: Config, settings: seq<Setting>, n: nat)
    requires n <= |settings|
  {
    forall k :: Decides(settings, k, n) ==> Honours(c, settings[k])
  }

  /** The last setting of each kind counts, the defaults being the first ones; a number of attempts below
      one counts as one. */
  method New(settings: seq<Setting>) returns (c: Config)
    ensures exists asked ::
      InForce(asked, DEFAULTS + settings, |DEFAULTS + settings|) && c == asked.(maxRetries := Max(asked.maxRetries, 1))
  {
    c := DEFAULT;
    ghost var all := DEFAULTS + settings;
    for i := 0 to |settings|
      invariant InForce(c, all, |DEFAULTS| + i)
    {
      SetInForce(c, all, |DEFAULTS| + i);
      c := Set(c, settings[i]);
    }
    ghost var asked := c;
    if c.maxRetries < 1 {
      c := c.(maxRetries := 1);
    }
    assert c == asked.(maxRetries := Max(asked.maxRetries, 1));
  }

  lemma SetInForce(c: Config, settings: seq<Setting>, i: nat)
    requires i < |settings| && InForce(c, settings, i)
    ensures InForce(Set(c, settings[i]), settings, i + 1)
  {
    var d := Set(c, settings[i]);
    forall k | Decides(settings, k, i + 1) ensures Honours(d, settings[k]) {
      if k < i {
        assert Decides(settings, k, i);
        assert !SameKind(settings[k], settings[i]);
      }
    }
  }

  // ----- delays: lines 197-223

  /** What a random source may give: for a positive bound, a number from 0 up to it. */
  ghost predicate Fair(roll: int -> int) {
    forall n :: n > 0 ==> 0 <= roll(n) < n
  }

  function CalculateJitter(delay: int, roll: int -> int): int {
    if delay <= 0 then 0 else roll(delay)
  }

  /** The wait after the attempt numbered `i` from 0; `hint` is the delay that the error carries, 0 for none. */
  function NextDelay(c: Config, i: nat, hint: int, roll: int -> int): int {
    if hint > 0 then
      if c.jitter then Wrap64(hint + CalculateJitter(hint / 10, roll)) else hint
    else
      var delay := Wrap64(c.delayStep * (i + 1));
      if c.jitter then CalculateJitter(delay, roll) else delay
  }

  predicate HintHonoured(hint: int, delay: int) {
    hint <= delay < hint + Max(hint / 10, 1)
  }

  /** A hint is a floor with up to a tenth on top, for every roll, exactly when the top fits in 64 bits. */
  lemma HintHonouredIff(c: Config, i: nat, hint: int)
    requires 0 < hint && IsInt64(hint)
    ensures (forall roll :: Fair(roll) ==> HintHonoured(hint, NextDelay(c, i, hint, roll)))
       <==> (c.jitter ==> hint + Max(hint / 10, 1) - 1 <= MAX_INT64)
  {
    if c.jitter && hint + Max(hint / 10, 1) - 1 > MAX_INT64 {
      var roll := (n: int) => n - 1;
      assert Fair(roll) && hint / 10 > 1;
      assert !HintHonoured(hint, NextDelay(c, i, hint, roll));
    }
  }

  /** And every wait in that range is taken by some roll, so the jitter is spread over all of it. */
  lemma HintIsSpread(c: Config, i: nat, hint: int, delay: int)
    requires 0 < hint && hint + Max(hint / 10, 1) - 1 <= MAX_INT64 && c.jitter && HintHonoured(hint, delay)
    ensures exists roll :: Fair(roll) && NextDelay(c, i, hint, roll) == delay
  {
    var roll := (n: int) => if delay - hint < n then delay - hint else 0;
    assert Fair(roll);
    assert NextDelay(c, i, hint, roll) == delay;
  }

  lemma BackoffIsSpread(c: Config, i: nat, delay: int)
    requires c.jitter && IsInt64(c.delayStep * (i + 1)) && 0 <= delay < Max(c.delayStep * (i + 1), 1)
    ensures exists roll :: Fair(roll) && NextDelay(c, i, 0, roll) == delay
  {
    var roll := (n: int) => if delay < n then delay else 0;
    assert Fair(roll);
    assert NextDelay(c, i, 0, roll) == delay;
  }

  /** Without a hint: the step times the attempt's number if and only if that fits; with jitter, for every roll,
      anything from 0 up to it if and only if it has not wrapped to something above it, as only a negative one
      can. */
  lemma BackoffRangeIff(c: Config, i: nat)
    ensures var x := c.delayStep * (i + 1);
      if !c.jitter then forall roll :: NextDelay(c, i, 0, roll) == x <==> IsInt64(x)
      else (forall roll :: Fair(roll) ==> 0 <= NextDelay(c, i, 0, roll) < Max(x, 1)) <==> Wrap64(x) <= Max(x, 1)
    ensures c.delayStep >= 0 ==> Wrap64(c.delayStep * (i + 1)) <= c.delayStep * (i + 1)
  {
    var x := c.delayStep * (i + 1);
    if c.delayStep >= 0 { assert x >= 0; }
    if c.jitter && Wrap64(x) > Max(x, 1) {
      var roll := (n: int) => n - 1;
      assert Fair(roll);
      assert NextDelay(c, i, 0, roll) == Wrap64(x) - 1;
    }
  }

  // ----- the loop: lines 128-154

  /** What happens to one run of `DoCtx`, by the number of the attempt. */
  datatype Env<!E> = Env(
    fn: nat -> Option<E>,
    retryIf: (nat, E) -> bool,
    dead: nat -> Option<E>,
    interrupted: nat -> Option<E>,
    hint: E -> int,
    roll: (nat, int) -> int)

  /** The error returned, the calls made to `fn`, and the sleeps begun. */
  datatype Run<+E> = Run(err: Option<E>, calls: nat, sleeps: seq<int>)

  function Attempts(c: Config): (n: nat)
    ensures n >= 1
  {
    Max(c.maxRetries, 1)
  }

  function Delay<E>(c: Config, env: Env<E>, i: nat, e: E): int {
    NextDelay(c, i, env.hint(e), (n: int) => env.roll(i, n))
  }

  /** The run from attempt `i` on. */
  function DoFrom<E>(c: Config, env: Env<E>, i: nat): (r: Run<E>)
    requires i < Attempts(c)
    decreases Attempts(c) - i
  {
    match env.dead(i)
    case Some(_) => Run(env.dead(i), 0, [])
    case None =>
      match env.fn(i)
      case None => Run(None, 1, [])
      case Some(e) =>
        if !env.retryIf(i, e) || i == Attempts(c) - 1 then Run(env.fn(i), 1, [])
        else
          var delay := Delay(c, env, i, e);
          match env.interrupted(i)
          case Some(_) => Run(env.interrupted(i), 1, [delay])
          case None =>
            var rest := DoFrom(c, env, i + 1);
            Run(rest.err, 1 + rest.calls, [delay] + rest.sleeps)
  }

  method DoCtx<E>(c: Config, env: Env<E>) returns (r: Run<E>)
    ensures r == DoFrom(c, env, 0)
  {
    var err: Option<E> := None;
    var sleeps: seq<int> := [];
    for i := 0 to Attempts(c)
      invariant i < Attempts(c) && DoFrom(c, env, 0) == After(i, sleeps, DoFrom(c, env, i))
    {
      if env.dead(i).Some? {
        return Run(env.dead(i), i, sleeps);
      }
      err := env.fn(i);
      if err.None? {
        return Run(None, i + 1, sleeps);
      }
      if !env.retryIf(i, err.value) {
        return Run(err, i + 1, sleeps);
      }
      if i == Attempts(c) - 1 {
        return Run(err, i + 1, sleeps);
      }
      var delay := Delay(c, env, i, err.value);
      sleeps := sleeps + [delay];
      if env.interrupted(i).Some? {
        return Run(env.interrupted(i), i + 1, sleeps);
      }
    }
  }

  /** A run whose first `calls` calls and `sleeps` are followed by `rest`. */
  function After<E>(calls: nat, sleeps: seq<int>, rest: Run<E>): Run<E> {
    Run(rest.err, calls + rest.calls, sleeps + rest.sleeps)
  }

  // ----- what a run means

  /** The attempts before number `n` all failed, were to be retried, and slept undisturbed. */
  ghost predicate Retried<E>(c: Config, env: Env<E>, n: nat) {
    forall i :: 0 <= i < n ==> RetriedAt(env, i)
  }

  predicate RetriedAt<E>(env: Env<E>, i: nat) {
    env.dead(i).None? && env.fn(i).Some? && env.retryIf(i, env.fn(i).value) && env.interrupted(i).None?
  }

  datatype Ending = DeadBefore | Succeeded | Refused | Exhausted | Interrupted

  /** How a run ends if it ends at attempt `n`. */
  function EndingAt<E>(c: Config, env: Env<E>, n: nat): Ending {
    if env.dead(n).Some? then DeadBefore
    else if env.fn(n).None? then Succeeded
    else if !env.retryIf(n, env.fn(n).value) then Refused
    else if n == Attempts(c) - 1 then Exhausted
    else Interrupted
  }

  /** What `DoCtx` returns for an ending: the context's error, nothing, or the error of the last attempt. */
  function ErrorOf<E>(env: Env<E>, n: nat, e: Ending): Option<E> {
    match e
    case DeadBefore => env.dead(n)
    case Succeeded => None
    case Refused => env.fn(n)
    case Exhausted => env.fn(n)
    case Interrupted => env.interrupted(n)
  }

  /** From attempt `i` the run goes on to attempt `n` and ends there. */
  ghost predicate Ends<E>(c: Config, env: Env<E>, i: nat, n: nat, e: Ending, r: Run<E>) {
    && i <= n < Attempts(c) && e == EndingAt(c, env, n) && (e.Interrupted? ==> env.interrupted(n).Some?)
    && r.err == ErrorOf(env, n, e)
    && r.calls == n - i + (if e.DeadBefore? then 0 else 1)
    && |r.sleeps| == n - i + (if e.Interrupted? then 1 else 0)
  }

  /** The wait after each attempt is the one due to its error. */
  ghost predicate Waits<E>(c: Config, env: Env<E>, i: nat, sleeps: seq<int>) {
    forall j :: i <= j < i + |sleeps| ==> env.fn(j).Some? && sleeps[j - i] == Delay(c, env, j, env.fn(j).value)
  }

  /** Every run is a number of attempts that led to another, each followed by the wait due to its error, and
      one of five endings; `fn` is called at most max(maxRetries, 1) times. */
  lemma DoMeaning<E>(c: Config, env: Env<E>) returns (n: nat, e: Ending)
    ensures var r := DoFrom(c, env, 0);
      && Retried(c, env, n) && Ends(c, env, 0, n, e, r) && Waits(c, env, 0, r.sleeps)
      && r.calls <= Max(c.maxRetries, 1)
  {
    n, e := MeaningFrom(c, env, 0);
  }

  lemma {:induction false} MeaningFrom<E>(c: Config, env: Env<E>, i: nat) returns (n: nat, e: Ending)
    requires i < Attempts(c) && Retried(c, env, i)
    ensures Retried(c, env, n) && Ends(c, env, i, n, e, DoFrom(c, env, i)) && Waits(c, env, i, DoFrom(c, env, i).sleeps)
    decreases Attempts(c) - i
  {
    if RetriedAt(env, i) && i < Attempts(c) - 1 {
      n, e := MeaningFrom(c, env, i + 1);
      WaitsCons(c, env, i, DoFrom(c, env, i + 1).sleeps);
      assert DoFrom(c, env, i).sleeps == [Delay(c, env, i, env.fn(i).value)] + DoFrom(c, env, i + 1).sleeps;
      assert Waits(c, env, i, DoFrom(c, env, i).sleeps);
    } else {
      n, e := i, EndingAt(c, env, i);
      if e.Interrupted? {
        WaitsCons(c, env, i, []);
        var delay := Delay(c, env, i, env.fn(i).value);
        assert DoFrom(c, env, i).sleeps == [delay] + [];
        assert Waits(c, env, i, DoFrom(c, env, i).sleeps);
      } else {
        assert DoFrom(c, env, i).sleeps == [];
      }
    }
  }

  lemma WaitsCons<E>(c: Config, env: Env<E>, i: nat, rest: seq<int>)
    requires env.fn(i).Some? && Waits(c, env, i + 1, rest)
    ensures Waits(c, env, i, [Delay(c, env, i, env.fn(i).value)] + rest)
  {
    var sleeps := [Delay(c, env, i, env.fn(i).value)] + rest;
    forall j | i <= j < i + |sleeps|
      ensures env.fn(j).Some? && sleeps[j - i] == Delay(c, env, j, env.fn(j).value)
    {
      if j > i { assert sleeps[j - i] == rest[j - (i + 1)]; }
    }
  }

  function Total(sleeps: seq<int>): int {
    if sleeps == [] then 0 else sleeps[0] + Total(sleeps[1..])
  }

  /** Without jitter and hints, the delays of a run that exhausts its n attempts add up to step * n(n-1)/2 if and
      only if the last of them fits in 64 bits. */
  lemma BackoffTotalIff<E>(c: Config, env: Env<E>)
    requires !c.jitter && AllFail(c, env)
    ensures var n := Attempts(c);
      && DoFrom(c, env, 0).calls == n
      && (2 * Total(DoFrom(c, env, 0).sleeps) == c.delayStep * (n * (n - 1)) <==> IsInt64(c.delayStep * (n - 1)))
  {
    TotalFrom(c, env, 0);
    var n := Attempts(c);
    if n == 1 { assert c.delayStep * (n - 1) == 0; }
  }

  /** Every attempt fails without a hint, and all but the last lead to another. */
  ghost predicate AllFail<E>(c: Config, env: Env<E>) {
    forall i :: 0 <= i < Attempts(c) ==> FailsAt(c, env, i)
  }

  predicate FailsAt<E>(c: Config, env: Env<E>, i: nat) {
    && env.dead(i).None? && env.fn(i).Some? && env.hint(env.fn(i).value) <= 0
    && (i < Attempts(c) - 1 ==> RetriedAt(env, i))
  }

  /** `twice` is two times the sum of the delays from attempt `i` on, or short of it by what wrapping takes. */
  predicate AddsUp(step: int, n: nat, i: nat, twice: int) {
    var exact, last := step * (n * (n - 1) - i * (i + 1)), step * (n - 1);
    && (IsInt64(last) ==> twice == exact)
    && (last > MAX_INT64 ==> twice <= exact && (i < n - 1 ==> twice < exact))
    && (last < MIN_INT64 ==> twice >= exact && (i < n - 1 ==> twice > exact))
  }

  lemma OneDelayMore(step: int, n: nat, i: nat, twice: int)
    requires i < n - 1 && AddsUp(step, n, i + 1, twice)
    ensures AddsUp(step, n, i, 2 * Wrap64(step * (i + 1)) + twice)
  {
    StepBetween(step, i + 1, n - 1);
    Expand(step, i, n);
    if i == n - 2 { assert step * (i + 1) == step * (n - 1); }
  }

  lemma {:induction false} TotalFrom<E>(c: Config, env: Env<E>, i: nat)
    requires i < Attempts(c) && !c.jitter && AllFail(c, env)
    ensures DoFrom(c, env, i).calls == Attempts(c) - i
    ensures AddsUp(c.delayStep, Attempts(c), i, 2 * Total(DoFrom(c, env, i).sleeps))
    decreases Attempts(c) - i
  {
    var n := Attempts(c);
    assert FailsAt(c, env, i);
    if i == n - 1 {
      assert n * (n - 1) - i * (i + 1) == 0;
      RunOfLast(c, env, i);
    } else {
      TotalFrom(c, env, i + 1);
      RunOfOther(c, env, i);
      OneDelayMore(c.delayStep, n, i, 2 * Total(DoFrom(c, env, i + 1).sleeps));
    }
  }

  lemma RunOfLast<E>(c: Config, env: Env<E>, i: nat)
    requires i == Attempts(c) - 1 && FailsAt(c, env, i)
    ensures DoFrom(c, env, i) == Run(env.fn(i), 1, []) && Total(DoFrom(c, env, i).sleeps) == 0
  {
  }

  lemma RunOfOther<E>(c: Config, env: Env<E>, i: nat)
    requires i < Attempts(c) - 1 && !c.jitter && FailsAt(c, env, i)
    ensures var run, rest := DoFrom(c, env, i), DoFrom(c, env, i + 1);
      && run.calls == 1 + rest.calls
      && Total(run.sleeps) == Wrap64(c.delayStep * (i + 1)) + Total(rest.sleeps)
  {
    var delay := Delay(c, env, i, env.fn(i).value);
  }

  /** An earlier multiple of the step is nearer to 0. */
  lemma StepBetween(step: int, i: nat, n: nat)
    requires i <= n
    ensures if step >= 0 then 0 <= step * i <= step * n else step * n <= step * i <= 0
  {
    assert step * n == step * i + step * (n - i);
    if step < 0 { assert step * (n - i) <= 0 && step * i <= 0; } else { assert step * (n - i) >= 0 && step * i >= 0; }
  }

  lemma Expand(step: int, i: int, n: int)
    ensures 2 * (step * (i + 1)) + step * (n * (n - 1) - (i + 1) * (i + 2)) == step * (n * (n - 1) - i * (i + 1))
  {
    assert (i + 1) * (i + 2) == i * (i + 1) + 2 * (i + 1);
    var a, b := n * (n - 1), i * (i + 1);
    assert step * (a - (b + 2 * (i + 1))) == step * a - step * b - 2 * (step * (i + 1));
  }
}
