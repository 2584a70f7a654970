/**
 The scheduler of crontab/crontab.go as a system of atomic steps: the ticker goroutine in `runDue`,
 one goroutine in `fire` for every dispatch, and any number of callers of `Shutdown` and `AddJob`.

 Minutes are absolute instants.  What a minute looks like on the wall clock of the scheduler's
 location is a parameter, so daylight saving is any `zone`.
 */
module CronScheduler {
  import opened Wrappers
  import opened Sums
  import opened CronSpec

  type Instant = int

  datatype Env = Env(overlap: bool, zone: Instant -> Clock)

  ghost predicate ValidEnv(e: Env) { forall m :: ValidClock(e.zone(m)) }

  datatype Job = Job(sched: Schedule, running: bool, last: Option<Instant>)

  /** The read-write mutex c.mu.  Only the ticker reads; who writes is history. */
  datatype Lock = Free | Read | WriteStop(k: nat) | WriteAdd(k: nat)

  datatype Ticker =
    | Asleep
    | AtRLock(minute: Instant)
    | AtStoppedCheck(minute: Instant)
    | AtJob(minute: Instant, i: nat)        // head of the loop over jobs
    | AtSwap(minute: Instant, i: nat)       // due and not fired at this instant; at the CAS of running
    | AtAdd(minute: Instant, i: nat)        // the slot is claimed; at last = minute and wg.Add
    | AtGo(minute: Instant, i: nat)         // counted; at go c.fire(j)
    | AtRUnlock(minute: Instant, looped: bool)

  datatype Phase =
    | InJob                                 // in j.fn
    | InHandler                             // j.fn panicked; in c.onPanic, which may panic too
    | AtClear                               // at running.Store(false)
    | AtDone                                // at wg.Done
    | Gone

  datatype Fire = Fire(job: nat, phase: Phase)

  datatype Stopper =
    | NotStopping
    | AtOnce                                // at once.Do
    | AtLock                                // inside once.Do, at c.mu.Lock
    | AtFlip                                // holds c.mu, at stopped.Store(true)
    | AtUnlock
    | AtCloseStop                           // at close(c.stop)
    | AtSelect                              // the waiter goroutine is in wg.Wait
    | AtSelectDone                          // wg.Wait has returned and closed done
    | ReturnedNil
    | ReturnedErr

  datatype Adder =
    | NotAdding
    | AddAtLock(sched: Schedule)
    | AddAtCheck(sched: Schedule)           // holds c.mu
    | AddAtUnlock(added: bool)
    | Added(added: bool)                    // returned nil, or ErrClosed

  datatype Once = Fresh | Busy(k: nat) | Done

  datatype Event = Event(job: nat, minute: Instant)

  /** `dispatched`, `skipped` and `lastTick` are history: what `runDue` fired, what it passed over
      because the previous run was still in flight, and the minute of the latest tick. */
  datatype State = State(
    lock: Lock,
    jobs: seq<Job>,
    stopped: bool,
    once: Once,
    stopCloses: nat,
    wg: int,
    ticker: Ticker,
    fires: seq<Fire>,
    stoppers: seq<Stopper>,
    adders: seq<Adder>,
    dispatched: seq<Event>,
    skipped: set<Event>,
    lastTick: Option<Instant>)

  datatype Action =
    | Tick(minute: Instant)
    | TickerStep
    | FireStep(f: nat, panics: bool)
    | CallShutdown(k: nat)
    | StopperStep(k: nat, expired: bool)    // `expired`: the context's deadline wins the select
    | CallAdd(k: nat, sched: Schedule)
    | AdderStep(k: nat)

  predicate Init(s: State) {
    && s.lock == Free && s.jobs == [] && !s.stopped && s.once == Fresh && s.stopCloses == 0 && s.wg == 0
    && s.ticker == Asleep && s.fires == [] && s.dispatched == [] && s.skipped == {} && s.lastTick == None
    && (forall k :: 0 <= k < |s.stoppers| ==> s.stoppers[k] == NotStopping)
    && (forall k :: 0 <= k < |s.adders| ==> s.adders[k] == NotAdding)
  }

  predicate TickerInLoop(t: Ticker) { t.AtJob? || t.AtSwap? || t.AtAdd? || t.AtGo? }

  predicate Enabled(s: State, a: Action) {
    match a
    case Tick(_) => s.ticker.Asleep?
    case TickerStep =>
      (match s.ticker
       case Asleep => false
       case AtRLock(_) => s.lock.Free? || s.lock.Read?
       case AtSwap(_, i) => i < |s.jobs|
       case AtAdd(_, i) => i < |s.jobs|
       case AtGo(_, i) => i < |s.jobs|
       case AtJob(_, i) => i < |s.jobs| ==> ValidTables(s.jobs[i].sched)
       case _ => true)
    case FireStep(f, _) => f < |s.fires| && !s.fires[f].phase.Gone? && s.fires[f].job < |s.jobs|
    case CallShutdown(k) => k < |s.stoppers| && s.stoppers[k].NotStopping?
    case StopperStep(k, expired) =>
      k < |s.stoppers|
      && (match s.stoppers[k]
          case NotStopping => false
          case AtOnce => !s.once.Busy?
          case AtLock => s.lock.Free?
          case AtSelect => expired || s.wg == 0
          case ReturnedNil => false
          case ReturnedErr => false
          case _ => true)
    case CallAdd(k, sched) => k < |s.adders| && s.adders[k].NotAdding? && ValidTables(sched)
    case AdderStep(k) =>
      k < |s.adders|
      && (match s.adders[k]
          case NotAdding => false
          case AddAtLock(_) => s.lock.Free?
          case Added(_) => false
          case _ => true)
  }

  /** Lines 188-209, one step at a time. */
  function StepTicker(e: Env, s: State): State
    requires Enabled(s, TickerStep) && ValidEnv(e)
  {
    match s.ticker
    case Asleep => s
    case AtRLock(minute) => s.(lock := Read, ticker := AtStoppedCheck(minute))
    case AtStoppedCheck(minute) =>
      s.(ticker := if s.stopped then AtRUnlock(minute, false) else AtJob(minute, 0))
    case AtJob(minute, i) =>
      if i >= |s.jobs| then s.(ticker := AtRUnlock(minute, true))
      else if !Match(s.jobs[i].sched, e.zone(minute)) then s.(ticker := AtJob(minute, i + 1))
      else if s.jobs[i].last == Some(minute) then s.(ticker := AtJob(minute, i + 1))
      else s.(ticker := AtSwap(minute, i))
    case AtSwap(minute, i) =>
      if e.overlap then s.(ticker := AtAdd(minute, i))
      else if s.jobs[i].running then
        s.(ticker := AtJob(minute, i + 1), skipped := s.skipped + {Event(i, minute)})
      else
        s.(ticker := AtAdd(minute, i), jobs := s.jobs[i := s.jobs[i].(running := true)])
    case AtAdd(minute, i) =>
      s.(ticker := AtGo(minute, i), jobs := s.jobs[i := s.jobs[i].(last := Some(minute))],
         wg := s.wg + 1, dispatched := s.dispatched + [Event(i, minute)])
    case AtGo(minute, i) =>
      s.(ticker := AtJob(minute, i + 1), fires := s.fires + [Fire(i, InJob)])
    case AtRUnlock(_, _) => s.(ticker := Asleep, lock := Free)
  }

  /** Lines 215-229: the deferred calls run last in, first out. */
  function StepFire(e: Env, s: State, f: nat, panics: bool): State
    requires Enabled(s, FireStep(f, panics))
  {
    var fire := s.fires[f];
    var unwound := if e.overlap then AtDone else AtClear;
    match fire.phase
    case InJob => s.(fires := s.fires[f := fire.(phase := if panics then InHandler else unwound)])
    case InHandler => s.(fires := s.fires[f := fire.(phase := unwound)])
    case AtClear =>
      s.(fires := s.fires[f := fire.(phase := AtDone)],
         jobs := s.jobs[fire.job := s.jobs[fire.job].(running := false)])
    case AtDone => s.(fires := s.fires[f := fire.(phase := Gone)], wg := s.wg - 1)
    case Gone => s
  }

  function SetStopper(s: State, k: nat, p: Stopper): State
    requires k < |s.stoppers|
  {
    s.(stoppers := s.stoppers[k := p])
  }

  /** Lines 238-258. */
  function StepStopper(s: State, k: nat, expired: bool): State
    requires Enabled(s, StopperStep(k, expired))
  {
    match s.stoppers[k]
    case NotStopping => s
    case AtOnce =>
      if s.once.Done? then SetStopper(s, k, AtSelect) else SetStopper(s, k, AtLock).(once := Busy(k))
    case AtLock => SetStopper(s, k, AtFlip).(lock := WriteStop(k))
    case AtFlip => SetStopper(s, k, AtUnlock).(stopped := true)
    case AtUnlock => SetStopper(s, k, AtCloseStop).(lock := Free)
    case AtCloseStop => SetStopper(s, k, AtSelect).(once := Once.Done, stopCloses := s.stopCloses + 1)
    case AtSelect => SetStopper(s, k, if expired then ReturnedErr else AtSelectDone)
    case AtSelectDone => SetStopper(s, k, if expired then ReturnedErr else ReturnedNil)
    case ReturnedNil => s
    case ReturnedErr => s
  }

  function SetAdder(s: State, k: nat, p: Adder): State
    requires k < |s.adders|
  {
    s.(adders := s.adders[k := p])
  }

  /** Lines 131-137. */
  function StepAdder(s: State, k: nat): State
    requires Enabled(s, AdderStep(k))
  {
    match s.adders[k]
    case NotAdding => s
    case AddAtLock(sched) => SetAdder(s, k, AddAtCheck(sched)).(lock := WriteAdd(k))
    case AddAtCheck(sched) =>
      if s.stopped then SetAdder(s, k, AddAtUnlock(false))
      else SetAdder(s, k, AddAtUnlock(true)).(jobs := s.jobs + [Job(sched, false, None)])
    case AddAtUnlock(added) => SetAdder(s, k, Added(added)).(lock := Free)
    case Added(_) => s
  }

  function Step(e: Env, s: State, a: Action): State
    requires Enabled(s, a) && ValidEnv(e)
  {
    match a
    case Tick(minute) => s.(ticker := AtRLock(minute), lastTick := Some(minute))
    case TickerStep => StepTicker(e, s)
    case FireStep(f, panics) => StepFire(e, s, f, panics)
    case CallShutdown(k) => SetStopper(s, k, AtOnce)
    case StopperStep(k, expired) => StepStopper(s, k, expired)
    case CallAdd(k, sched) => SetAdder(s, k, AddAtLock(sched))
    case AdderStep(k) => StepAdder(s, k)
  }

  /** The wall clock does not step back. */
  predicate Allowed(s: State, a: Action) {
    a.Tick? && s.lastTick.Some? ==> s.lastTick.value <= a.minute
  }

  // ----- the invariant, part by part

  predicate StopperOk(s: State, k: nat)
    requires k < |s.stoppers|
  {
    var p := s.stoppers[k];
    && (p.AtFlip? || p.AtUnlock? <==> s.lock == WriteStop(k))
    && (p.AtLock? || p.AtFlip? || p.AtUnlock? || p.AtCloseStop? <==> s.once == Busy(k))
    && (p.AtSelect? || p.AtSelectDone? || p.ReturnedNil? || p.ReturnedErr? ==> s.once.Done?)
    && (p.AtUnlock? || p.AtCloseStop? ==> s.stopped)
    && (p.AtLock? || p.AtFlip? ==> !s.stopped)
  }

  predicate AdderOk(s: State, k: nat)
    requires k < |s.adders|
  {
    var p := s.adders[k];
    && (p.AddAtCheck? || p.AddAtUnlock? <==> s.lock == WriteAdd(k))
    && (p.AddAtLock? || p.AddAtCheck? ==> ValidTables(p.sched))
  }

  /** Who holds c.mu, how far the one-time part of `Shutdown` is, and that `runDue` is in its loop only
      before the flip. */
  ghost predicate Control(s: State) {
    && (forall k :: 0 <= k < |s.stoppers| ==> StopperOk(s, k))
    && (forall k :: 0 <= k < |s.adders| ==> AdderOk(s, k))
    && (s.lock.WriteStop? ==> s.lock.k < |s.stoppers|)
    && (s.lock.WriteAdd? ==> s.lock.k < |s.adders|)
    && (s.once.Busy? ==> s.once.k < |s.stoppers|)
    && (s.once.Fresh? ==> !s.stopped)
    && (s.once.Done? ==> s.stopped)
    && s.stopCloses == (if s.once.Done? then 1 else 0)
    && (s.ticker.Asleep? || s.ticker.AtRLock? <==> !s.lock.Read?)
    && (TickerInLoop(s.ticker) ==> !s.stopped)
    && (s.ticker.AtSwap? || s.ticker.AtAdd? || s.ticker.AtGo? ==> s.ticker.i < |s.jobs|)
    && (s.ticker.AtJob? ==> s.ticker.i <= |s.jobs|)
    && (forall j :: 0 <= j < |s.jobs| ==> ValidTables(s.jobs[j].sched))
  }

  function Alive(f: Fire): int { if f.phase.Gone? then 0 else 1 }

  /** 1 for a fire of job `j` that has not cleared the job's flag. */
  function Occupies(j: nat): Fire -> int {
    (f: Fire) => if f.job == j && (f.phase.InJob? || f.phase.InHandler? || f.phase.AtClear?) then 1 else 0
  }

  function Claimed(t: Ticker, j: nat): int {
    if (t.AtAdd? || t.AtGo?) && t.i == j then 1 else 0
  }

  /** The WaitGroup counts the fires that are not gone, and the one about to start. */
  ghost predicate WgExact(s: State) {
    && s.wg == Sum(s.fires, Alive) + (if s.ticker.AtGo? then 1 else 0)
    && (forall f :: 0 <= f < |s.fires| ==> s.fires[f].job < |s.jobs|)
  }

  /** Without overlap a job's flag counts its fires in flight, and the one about to start. */
  ghost predicate FlagExact(e: Env, s: State, j: nat)
    requires j < |s.jobs|
  {
    && (!e.overlap ==> Sum(s.fires, Occupies(j)) + Claimed(s.ticker, j) == (if s.jobs[j].running then 1 else 0))
    && (e.overlap ==> !s.jobs[j].running)
  }

  predicate EventOk(e: Env, s: State, d: nat)
    requires d < |s.dispatched| && ValidEnv(e)
  {
    var v := s.dispatched[d];
    && v.job < |s.jobs| && ValidTables(s.jobs[v.job].sched)
    && Match(s.jobs[v.job].sched, e.zone(v.minute))
    && s.jobs[v.job].last.Some? && v.minute <= s.jobs[v.job].last.value
  }

  /** What was dispatched was due, each job's minutes increase, and `last` is one of them. */
  ghost predicate Log(e: Env, s: State)
    requires ValidEnv(e)
  {
    && (forall j :: 0 <= j < |s.jobs| && s.jobs[j].last.Some? ==> Event(j, s.jobs[j].last.value) in s.dispatched)
    && (forall d :: 0 <= d < |s.dispatched| ==> EventOk(e, s, d))
    && (forall c, d :: 0 <= c < d < |s.dispatched| && s.dispatched[c].job == s.dispatched[d].job
          ==> s.dispatched[c].minute < s.dispatched[d].minute)
  }

  predicate LastOk(s: State, j: nat)
    requires j < |s.jobs|
  {
    s.jobs[j].last.Some? ==> s.lastTick.Some? && s.jobs[j].last.value <= s.lastTick.value
  }

  /** No job fired after the latest tick, and the ticker is at a job that is due. */
  ghost predicate Due(e: Env, s: State)
    requires ValidEnv(e)
  {
    && (forall j :: 0 <= j < |s.jobs| ==> LastOk(s, j))
    && (!s.ticker.Asleep? ==> s.lastTick == Some(s.ticker.minute))
    && (s.ticker.AtSwap? || s.ticker.AtAdd? ==>
          s.ticker.i < |s.jobs| && ValidTables(s.jobs[s.ticker.i].sched)
          && Match(s.jobs[s.ticker.i].sched, e.zone(s.ticker.minute))
          && s.jobs[s.ticker.i].last != Some(s.ticker.minute))
  }

  /** One fire for each dispatch, in order. */
  predicate FiresLogged(s: State) {
    && |s.fires| + (if s.ticker.AtGo? then 1 else 0) == |s.dispatched|
    && (forall f :: 0 <= f < |s.fires| ==> s.fires[f].job == s.dispatched[f].job)
    && (s.ticker.AtGo? ==> s.dispatched[|s.fires|].job == s.ticker.i)
  }

  /** The tick has dealt with job `j`: not due, fired at this very minute, or still in flight. */
  ghost predicate Covered(e: Env, s: State, minute: Instant, j: nat)
    requires j < |s.jobs| && ValidTables(s.jobs[j].sched) && ValidEnv(e)
  {
    Match(s.jobs[j].sched, e.zone(minute)) ==>
      s.jobs[j].last == Some(minute) || Event(j, minute) in s.skipped
  }

  ghost predicate Progress(e: Env, s: State)
    requires ValidEnv(e) && Control(s)
  {
    && (TickerInLoop(s.ticker) ==>
          forall j :: 0 <= j < s.ticker.i && j < |s.jobs| ==> Covered(e, s, s.ticker.minute, j))
    && (s.ticker.AtRUnlock? && s.ticker.looped ==> forall j :: 0 <= j < |s.jobs| ==> Covered(e, s, s.ticker.minute, j))
    && (s.ticker.AtGo? ==> s.jobs[s.ticker.i].last == Some(s.ticker.minute))
  }

  /** A `Shutdown` whose wait is over saw the WaitGroup at zero, and it has stayed there. */
  predicate Drained(s: State) {
    forall k :: 0 <= k < |s.stoppers| && (s.stoppers[k].AtSelectDone? || s.stoppers[k].ReturnedNil?) ==> s.wg == 0
  }

  ghost predicate Inv(e: Env, s: State)
    requires ValidEnv(e)
  {
    && Control(s)
    && WgExact(s)
    && (forall j :: 0 <= j < |s.jobs| ==> FlagExact(e, s, j))
    && Log(e, s)
    && Due(e, s)
    && FiresLogged(s)
    && Progress(e, s)
    && Drained(s)
  }

  // ----- every step keeps the invariant

  lemma InitKeepsInv(e: Env, s: State)
    requires ValidEnv(e) && Init(s)
    ensures Inv(e, s)
  {
  }

  lemma StopperKeepsControl(s: State, k: nat, expired: bool)
    requires Control(s) && Enabled(s, StopperStep(k, expired))
    ensures Control(StepStopper(s, k, expired))
  {
    var s' := StepStopper(s, k, expired);
    assert StopperOk(s, k);
    forall h | 0 <= h < |s'.stoppers| ensures StopperOk(s', h) { assert StopperOk(s, h); }
    forall h | 0 <= h < |s'.adders| ensures AdderOk(s', h) { assert AdderOk(s, h); }
  }

  lemma AdderKeepsControl(s: State, k: nat)
    requires Control(s) && Enabled(s, AdderStep(k))
    ensures Control(StepAdder(s, k))
  {
    var s' := StepAdder(s, k);
    assert AdderOk(s, k);
    forall h | 0 <= h < |s'.stoppers| ensures StopperOk(s', h) { assert StopperOk(s, h); }
    forall h | 0 <= h < |s'.adders| ensures AdderOk(s', h) { assert AdderOk(s, h); }
  }

  lemma TickerKeepsControl(e: Env, s: State)
    requires ValidEnv(e) && Control(s) && Enabled(s, TickerStep)
    ensures Control(StepTicker(e, s))
  {
    var s' := StepTicker(e, s);
    forall h | 0 <= h < |s'.stoppers| ensures StopperOk(s', h) { assert StopperOk(s, h); }
    forall h | 0 <= h < |s'.adders| ensures AdderOk(s', h) { assert AdderOk(s, h); }
  }

  /** All that `Control` speaks of is the same. */
  predicate SameControl(s: State, s': State) {
    && s'.lock == s.lock && s'.stopped == s.stopped && s'.once == s.once && s'.stopCloses == s.stopCloses
    && s'.ticker == s.ticker && s'.stoppers == s.stoppers && s'.adders == s.adders
    && |s'.jobs| == |s.jobs| && forall j :: 0 <= j < |s.jobs| ==> s'.jobs[j].sched == s.jobs[j].sched
  }

  lemma ControlFramed(s: State, s': State)
    requires Control(s) && SameControl(s, s')
    ensures Control(s')
  {
    forall h | 0 <= h < |s'.stoppers| ensures StopperOk(s', h) { assert StopperOk(s, h); }
    forall h | 0 <= h < |s'.adders| ensures AdderOk(s', h) { assert AdderOk(s, h); }
  }

  lemma FireKeepsControl(e: Env, s: State, f: nat, panics: bool)
    requires Control(s) && Enabled(s, FireStep(f, panics))
    ensures Control(StepFire(e, s, f, panics))
  {
    ControlFramed(s, StepFire(e, s, f, panics));
  }

  lemma CallKeepsControl(e: Env, s: State, a: Action)
    requires ValidEnv(e) && Control(s) && Enabled(s, a) && (a.Tick? || a.CallShutdown? || a.CallAdd?)
    ensures Control(Step(e, s, a))
  {
    var s' := Step(e, s, a);
    forall h | 0 <= h < |s'.stoppers| ensures StopperOk(s', h) { assert StopperOk(s, h); }
    forall h | 0 <= h < |s'.adders| ensures AdderOk(s', h) { assert AdderOk(s, h); }
  }

  lemma StepKeepsControl(e: Env, s: State, a: Action)
    requires ValidEnv(e) && Control(s) && Enabled(s, a)
    ensures Control(Step(e, s, a))
  {
    match a
    case TickerStep => TickerKeepsControl(e, s);
    case FireStep(f, panics) => FireKeepsControl(e, s, f, panics);
    case StopperStep(k, expired) => StopperKeepsControl(s, k, expired);
    case AdderStep(k) => AdderKeepsControl(s, k);
    case _ => CallKeepsControl(e, s, a);
  }

  predicate ByCaller(a: Action) { a.CallShutdown? || a.StopperStep? || a.CallAdd? || a.AdderStep? }

  predicate IsNewJob(j: Job) { j.last.None? && !j.running }

  /** The calls of `Shutdown` and `AddJob` touch nothing of the ticker's or the fires', and at most add a job
      that has never fired. */
  predicate CallerFrame(s: State, s': State) {
    && s'.fires == s.fires && s'.wg == s.wg && s'.ticker == s.ticker
    && s'.dispatched == s.dispatched && s'.skipped == s.skipped && s'.lastTick == s.lastTick
    && |s.jobs| <= |s'.jobs| <= |s.jobs| + 1 && s'.jobs[..|s.jobs|] == s.jobs
    && (|s'.jobs| > |s.jobs| ==> IsNewJob(s'.jobs[|s.jobs|]))
  }

  lemma CallersFrame(e: Env, s: State, a: Action)
    requires ValidEnv(e) && Enabled(s, a) && ByCaller(a)
    ensures CallerFrame(s, Step(e, s, a))
  {
  }

  lemma CallerFrameJob(s: State, s': State, j: nat)
    requires CallerFrame(s, s') && j < |s.jobs|
    ensures s'.jobs[j] == s.jobs[j]
  {
    assert s'.jobs[..|s.jobs|][j] == s.jobs[j];
  }

  lemma WgKeptByFire(e: Env, s: State, f: nat, panics: bool)
    requires WgExact(s) && Enabled(s, FireStep(f, panics))
    ensures WgExact(StepFire(e, s, f, panics))
  {
    SumUpdate(s.fires, Alive, f, StepFire(e, s, f, panics).fires[f]);
  }

  lemma WgKeptByTicker(e: Env, s: State)
    requires ValidEnv(e) && Control(s) && WgExact(s) && Enabled(s, TickerStep)
    ensures WgExact(StepTicker(e, s))
  {
    if s.ticker.AtGo? { SumAppend(s.fires, Alive, Fire(s.ticker.i, InJob)); }
  }

  lemma WgKept(e: Env, s: State, a: Action)
    requires ValidEnv(e) && Control(s) && WgExact(s) && Enabled(s, a)
    ensures WgExact(Step(e, s, a))
  {
    if ByCaller(a) {
      CallersFrame(e, s, a);
    } else if a.FireStep? {
      WgKeptByFire(e, s, a.f, a.panics);
    } else if a.TickerStep? {
      WgKeptByTicker(e, s);
    }
  }

  lemma FlagKeptByFire(e: Env, s: State, f: nat, panics: bool, j: nat)
    requires Enabled(s, FireStep(f, panics)) && j < |s.jobs| && FlagExact(e, s, j)
    ensures FlagExact(e, StepFire(e, s, f, panics), j)
  {
    SumBounds(s.fires, Occupies(j));
    SumUpdate(s.fires, Occupies(j), f, StepFire(e, s, f, panics).fires[f]);
  }

  lemma FlagKeptByTicker(e: Env, s: State, j: nat)
    requires ValidEnv(e) && Enabled(s, TickerStep) && j < |s.jobs| && FlagExact(e, s, j)
    ensures FlagExact(e, StepTicker(e, s), j)
  {
    SumBounds(s.fires, Occupies(j));
    if s.ticker.AtGo? { SumAppend(s.fires, Occupies(j), Fire(s.ticker.i, InJob)); }
  }

  lemma FlagKept(e: Env, s: State, a: Action, j: nat)
    requires ValidEnv(e) && Control(s) && Enabled(s, a) && j < |s.jobs| && FlagExact(e, s, j)
    ensures j < |Step(e, s, a).jobs| && FlagExact(e, Step(e, s, a), j)
  {
    if ByCaller(a) {
      CallersFrame(e, s, a);
      CallerFrameJob(s, Step(e, s, a), j);
    } else if a.FireStep? {
      FlagKeptByFire(e, s, a.f, a.panics, j);
    } else if a.TickerStep? {
      FlagKeptByTicker(e, s, j);
    }
  }

  lemma JobsGrow(e: Env, s: State, a: Action)
    requires ValidEnv(e) && Enabled(s, a)
    ensures |s.jobs| <= |Step(e, s, a).jobs| <= |s.jobs| + 1
    ensures !ByCaller(a) ==> |Step(e, s, a).jobs| == |s.jobs|
  {
    if ByCaller(a) { CallersFrame(e, s, a); }
  }

  lemma NewJobFlag(e: Env, s: State, a: Action)
    requires ValidEnv(e) && Control(s) && WgExact(s) && Enabled(s, a)
    ensures |s.jobs| <= |Step(e, s, a).jobs| <= |s.jobs| + 1
    ensures |s.jobs| < |Step(e, s, a).jobs| ==> FlagExact(e, Step(e, s, a), |s.jobs|)
  {
    JobsGrow(e, s, a);
    if |s.jobs| < |Step(e, s, a).jobs| {
      CallersFrame(e, s, a);
      SumZero(s.fires, Occupies(|s.jobs|));
    }
  }

  /** Of what the history depends on, only dispatching changes anything, but for new jobs. */
  predicate LogFrame(s: State, s': State) {
    && s'.dispatched == s.dispatched && |s.jobs| <= |s'.jobs|
    && (forall j :: 0 <= j < |s.jobs| ==> s'.jobs[j].sched == s.jobs[j].sched && s'.jobs[j].last == s.jobs[j].last)
    && (forall j :: |s.jobs| <= j < |s'.jobs| ==> s'.jobs[j].last.None?)
  }

  lemma StepsFrameLog(e: Env, s: State, a: Action)
    requires ValidEnv(e) && Enabled(s, a) && !(a.TickerStep? && s.ticker.AtAdd?)
    ensures LogFrame(s, Step(e, s, a))
  {
    var s' := Step(e, s, a);
    if ByCaller(a) {
      CallersFrame(e, s, a);
      forall j | 0 <= j < |s.jobs| ensures s'.jobs[j] == s.jobs[j] { CallerFrameJob(s, s', j); }
    }
  }

  lemma LogFramed(e: Env, s: State, s': State)
    requires ValidEnv(e) && Log(e, s) && LogFrame(s, s')
    ensures Log(e, s')
  {
    forall d | 0 <= d < |s.dispatched| ensures EventOk(e, s', d) { assert EventOk(e, s, d); }
  }

  lemma LogKept(e: Env, s: State, a: Action)
    requires ValidEnv(e) && Control(s) && Log(e, s) && Due(e, s) && Enabled(s, a)
    ensures Log(e, Step(e, s, a))
  {
    if a.TickerStep? && s.ticker.AtAdd? {
      AddKeepsLog(e, s);
    } else {
      StepsFrameLog(e, s, a);
      LogFramed(e, s, Step(e, s, a));
    }
  }

  lemma AddKeepsLog(e: Env, s: State)
    requires ValidEnv(e) && Control(s) && Log(e, s) && Due(e, s) && s.ticker.AtAdd?
    ensures Log(e, Step(e, s, TickerStep))
  {
    var s' := Step(e, s, TickerStep);
    assert LastOk(s, s.ticker.i);
    forall d | 0 <= d < |s.dispatched|
      ensures s.dispatched[d].job == s.ticker.i ==> s.dispatched[d].minute < s.ticker.minute
      ensures EventOk(e, s', d)
    {
      assert EventOk(e, s, d);
    }
  }

  lemma DueKeptByTicker(e: Env, s: State)
    requires ValidEnv(e) && Control(s) && Due(e, s) && Enabled(s, TickerStep)
    ensures Due(e, StepTicker(e, s))
  {
    var s' := StepTicker(e, s);
    forall j | 0 <= j < |s'.jobs| ensures LastOk(s', j) { assert LastOk(s, j); }
  }

  lemma DueFramed(e: Env, s: State, s': State)
    requires ValidEnv(e) && Control(s) && Due(e, s)
    requires LogFrame(s, s') && s'.ticker == s.ticker && s'.lastTick == s.lastTick
    ensures Due(e, s')
  {
    forall j | 0 <= j < |s'.jobs| ensures LastOk(s', j) {
      if j < |s.jobs| { assert LastOk(s, j); }
    }
  }

  lemma DueKept(e: Env, s: State, a: Action)
    requires ValidEnv(e) && Control(s) && Due(e, s) && Enabled(s, a) && Allowed(s, a)
    ensures Due(e, Step(e, s, a))
  {
    var s' := Step(e, s, a);
    if a.TickerStep? {
      DueKeptByTicker(e, s);
    } else if a.Tick? {
      forall j | 0 <= j < |s'.jobs| ensures LastOk(s', j) { assert LastOk(s, j); }
    } else {
      StepsFrameLog(e, s, a);
      if ByCaller(a) { CallersFrame(e, s, a); }
      DueFramed(e, s, s');
    }
  }

  lemma FiresLoggedKept(e: Env, s: State, a: Action)
    requires ValidEnv(e) && FiresLogged(s) && Enabled(s, a)
    ensures FiresLogged(Step(e, s, a))
  {
    if ByCaller(a) {
      CallersFrame(e, s, a);
    } else if a.FireStep? {
      FiresLoggedKeptByFire(e, s, a.f, a.panics);
    } else if a.TickerStep? {
      FiresLoggedKeptByTicker(e, s);
    }
  }

  lemma FiresLoggedKeptByFire(e: Env, s: State, f: nat, panics: bool)
    requires FiresLogged(s) && Enabled(s, FireStep(f, panics))
    ensures FiresLogged(StepFire(e, s, f, panics))
  {
  }

  lemma FiresLoggedKeptByTicker(e: Env, s: State)
    requires ValidEnv(e) && FiresLogged(s) && Enabled(s, TickerStep)
    ensures FiresLogged(StepTicker(e, s))
  {
  }

  /** While the ticker is in `runDue`, nobody adds jobs. */
  lemma LoopFreezesJobs(e: Env, s: State, a: Action)
    requires ValidEnv(e) && Control(s) && Enabled(s, a) && s.lock.Read? && !a.TickerStep?
    ensures var s' := Step(e, s, a);
      && s'.ticker == s.ticker && s'.skipped == s.skipped && |s'.jobs| == |s.jobs|
      && forall j :: 0 <= j < |s.jobs| ==> s'.jobs[j].sched == s.jobs[j].sched && s'.jobs[j].last == s.jobs[j].last
  {
    if a.AdderStep? { AdderIsOk(s, a.k); }
  }

  lemma AdderIsOk(s: State, k: nat)
    requires Control(s) && k < |s.adders|
    ensures AdderOk(s, k)
  {
  }

  lemma TickerKeepsProgress(e: Env, s: State)
    requires ValidEnv(e) && Control(s) && Progress(e, s) && Enabled(s, TickerStep)
    requires Control(Step(e, s, TickerStep))
    ensures Progress(e, Step(e, s, TickerStep))
  {
    var s' := Step(e, s, TickerStep);
    if TickerInLoop(s.ticker) {
      forall j | 0 <= j < s.ticker.i ensures Covered(e, s', s.ticker.minute, j) {
        assert Covered(e, s, s.ticker.minute, j);
      }
    }
  }

  lemma ProgressKept(e: Env, s: State, a: Action)
    requires ValidEnv(e) && Control(s) && Progress(e, s) && Enabled(s, a) && Control(Step(e, s, a))
    ensures Progress(e, Step(e, s, a))
  {
    if a.TickerStep? {
      TickerKeepsProgress(e, s);
    } else if s.lock.Read? {
      LoopFreezesJobs(e, s, a);
      forall j | 0 <= j < |s.jobs| && Covered(e, s, s.ticker.minute, j)
        ensures Covered(e, Step(e, s, a), s.ticker.minute, j)
      {
      }
    }
  }

  /** Once stopped is set: no job is added or dispatched, nothing is added to the WaitGroup. */
  lemma StoppedStepAddsNothing(e: Env, s: State, a: Action)
    requires ValidEnv(e) && Control(s) && Enabled(s, a) && s.stopped
    ensures var s' := Step(e, s, a);
      && s'.stopped && s'.wg <= s.wg && |s'.fires| == |s.fires|
      && s'.dispatched == s.dispatched && |s'.jobs| == |s.jobs|
  {
  }

  lemma DrainedKept(e: Env, s: State, a: Action)
    requires ValidEnv(e) && Control(s) && WgExact(s) && Drained(s) && Enabled(s, a)
    ensures Drained(Step(e, s, a))
  {
    SumBounds(s.fires, Alive);
    var s' := Step(e, s, a);
    if k :| 0 <= k < |s.stoppers| && (s.stoppers[k].AtSelectDone? || s.stoppers[k].ReturnedNil?) {
      assert StopperOk(s, k);
      StoppedStepAddsNothing(e, s, a);
      assert forall f :: 0 <= f < |s.fires| ==> Alive(s.fires[f]) <= 0;
    }
  }

  lemma FlagsKept(e: Env, s: State, a: Action)
    requires ValidEnv(e) && Control(s) && WgExact(s) && Enabled(s, a)
    requires forall j :: 0 <= j < |s.jobs| ==> FlagExact(e, s, j)
    ensures var s' := Step(e, s, a); forall j :: 0 <= j < |s'.jobs| ==> FlagExact(e, s', j)
  {
    NewJobFlag(e, s, a);
    forall j | 0 <= j < |Step(e, s, a).jobs| ensures FlagExact(e, Step(e, s, a), j) {
      if j < |s.jobs| { FlagKept(e, s, a, j); }
    }
  }

  lemma StepKeepsInv(e: Env, s: State, a: Action)
    requires ValidEnv(e) && Inv(e, s) && Enabled(s, a) && Allowed(s, a)
    ensures Inv(e, Step(e, s, a))
  {
    StepKeepsControl(e, s, a);
    WgKept(e, s, a);
    FlagsKept(e, s, a);
    LogKept(e, s, a);
    DueKept(e, s, a);
    FiresLoggedKept(e, s, a);
    ProgressKept(e, s, a);
    DrainedKept(e, s, a);
  }

  // ----- runs

  /** Any interleaving from a fresh scheduler. */
  ghost predicate IsTrace(e: Env, states: seq<State>, actions: seq<Action>) {
    && ValidEnv(e)
    && |states| == |actions| + 1
    && Init(states[0])
    && forall i :: 0 <= i < |actions| ==>
         Enabled(states[i], actions[i]) && states[i + 1] == Step(e, states[i], actions[i])
  }

  /** An interleaving in which the wall clock never steps back. */
  ghost predicate IsRun(e: Env, states: seq<State>, actions: seq<Action>) {
    && IsTrace(e, states, actions)
    && forall i :: 0 <= i < |actions| ==> Allowed(states[i], actions[i])
  }

  lemma {:induction false} ReachableInv(e: Env, states: seq<State>, actions: seq<Action>, i: nat)
    requires IsRun(e, states, actions) && i < |states|
    ensures Inv(e, states[i])
  {
    if i == 0 {
      InitKeepsInv(e, states[0]);
    } else {
      ReachableInv(e, states, actions, i - 1);
      StepKeepsInv(e, states[i - 1], actions[i - 1]);
    }
  }

  /** A job fires at most once per absolute minute, in increasing order of minutes, and only at minutes
      its schedule matches. */
  lemma AtMostOncePerMinute(e: Env, states: seq<State>, actions: seq<Action>, i: nat)
    requires IsRun(e, states, actions) && i < |states|
    ensures var log := states[i].dispatched;
      && (forall c, d :: 0 <= c < d < |log| && log[c].job == log[d].job ==> log[c].minute < log[d].minute)
      && (forall d :: 0 <= d < |log| ==>
            && log[d].job < |states[i].jobs| && ValidTables(states[i].jobs[log[d].job].sched)
            && Match(states[i].jobs[log[d].job].sched, e.zone(log[d].minute)))
  {
    ReachableInv(e, states, actions, i);
    var s := states[i];
    forall d | 0 <= d < |s.dispatched|
      ensures s.dispatched[d].job < |s.jobs| && ValidTables(s.jobs[s.dispatched[d].job].sched)
      ensures Match(s.jobs[s.dispatched[d].job].sched, e.zone(s.dispatched[d].minute))
    {
      assert EventOk(e, s, d);
    }
  }

  predicate InFlight(f: Fire) { f.phase.InJob? || f.phase.InHandler? }

  /** Without overlap no two fires of a job are in flight, panicking ones included. */
  lemma NoOverlap(e: Env, states: seq<State>, actions: seq<Action>, i: nat, f: nat, g: nat)
    requires IsRun(e, states, actions) && i < |states| && !e.overlap
    requires f < g < |states[i].fires|
    requires InFlight(states[i].fires[f]) && InFlight(states[i].fires[g])
    ensures states[i].fires[f].job != states[i].fires[g].job
  {
    ReachableInv(e, states, actions, i);
    var s := states[i];
    var j := s.fires[f].job;
    assert FlagExact(e, s, j);
    if s.fires[g].job == j { SumTwo(s.fires, Occupies(j), f, g); }
  }

  /** This call of `Shutdown` has started its goroutine in wg.Wait, which outlives a call that times out. */
  predicate HasWaiter(p: Stopper) { p.AtSelect? || p.AtSelectDone? || p.ReturnedNil? || p.ReturnedErr? }

  /** The WaitGroup counts the dispatched fires that have not finished, and it never goes negative; the
      stop channel is closed at most once; and when it is raised nobody waits on it, or ever has. */
  lemma WaitGroupIsExact(e: Env, states: seq<State>, actions: seq<Action>, i: nat)
    requires IsRun(e, states, actions) && i < |states|
    ensures var s := states[i];
      && s.wg == Sum(s.fires, Alive) + |s.dispatched| - |s.fires| >= 0
      && s.stopCloses <= 1
      && (s.ticker.AtAdd? ==> forall k :: 0 <= k < |s.stoppers| ==> !HasWaiter(s.stoppers[k]))
  {
    ReachableInv(e, states, actions, i);
    var s := states[i];
    SumBounds(s.fires, Alive);
    forall k | 0 <= k < |s.stoppers| && s.ticker.AtAdd? ensures !HasWaiter(s.stoppers[k]) {
      assert StopperOk(s, k);
    }
  }

  lemma {:induction false} StoppedAddsNothing(e: Env, states: seq<State>, actions: seq<Action>, i: nat, j: nat)
    requires IsRun(e, states, actions) && i <= j < |states| && states[i].stopped
    ensures states[j].stopped && states[j].wg <= states[i].wg
    ensures states[j].dispatched == states[i].dispatched && |states[j].jobs| == |states[i].jobs|
    decreases j
  {
    if i < j {
      StoppedAddsNothing(e, states, actions, i, j - 1);
      ReachableInv(e, states, actions, j - 1);
      StoppedStepAddsNothing(e, states[j - 1], actions[j - 1]);
    }
  }

  /** When `Shutdown` has returned nil, and ever after: every dispatched fire has finished, none can
      start, and every job's running flag is clear. */
  lemma ShutdownNilMeansDrained(e: Env, states: seq<State>, actions: seq<Action>, i: nat, j: nat, k: nat)
    requires IsRun(e, states, actions) && i <= j < |states|
    requires k < |states[i].stoppers| && states[i].stoppers[k].ReturnedNil?
    ensures var s := states[j];
      && s.wg == 0 && |s.fires| == |s.dispatched| && s.dispatched == states[i].dispatched
      && (forall f :: 0 <= f < |s.fires| ==> s.fires[f].phase.Gone?)
      && (forall q :: 0 <= q < |s.jobs| ==> !s.jobs[q].running)
      && !TickerInLoop(s.ticker)
  {
    ReachableInv(e, states, actions, i);
    ReachableInv(e, states, actions, j);
    assert StopperOk(states[i], k);
    StoppedAddsNothing(e, states, actions, i, j);
    var s := states[j];
    SumBounds(s.fires, Alive);
    assert forall f :: 0 <= f < |s.fires| ==> Alive(s.fires[f]) <= 0;
    forall q | 0 <= q < |s.jobs| ensures !s.jobs[q].running {
      assert FlagExact(e, s, q);
      SumZero(s.fires, Occupies(q));
    }
  }

  // ----- how `Shutdown` and `AddJob` return

  /** At step `j` the deadline of call `k` wins one of the two selects. */
  predicate Expires(states: seq<State>, actions: seq<Action>, k: nat, j: nat)
    requires j < |actions| && |states| == |actions| + 1
  {
    && actions[j] == StopperStep(k, true) && k < |states[j].stoppers|
    && (states[j].stoppers[k].AtSelect? || states[j].stoppers[k].AtSelectDone?)
  }

  /** At step `j` call `k` finds its wait over and its deadline not expired. */
  predicate Completes(states: seq<State>, actions: seq<Action>, k: nat, j: nat)
    requires j < |actions| && |states| == |actions| + 1
  {
    actions[j] == StopperStep(k, false) && k < |states[j].stoppers| && states[j].stoppers[k].AtSelectDone?
  }

  ghost predicate HasExpired(states: seq<State>, actions: seq<Action>, k: nat, i: nat)
    requires i <= |actions| && |states| == |actions| + 1
  {
    exists j: nat :: j < i && Expires(states, actions, k, j)
  }

  ghost predicate HasCompleted(states: seq<State>, actions: seq<Action>, k: nat, i: nat)
    requires i <= |actions| && |states| == |actions| + 1
  {
    exists j: nat :: j < i && Completes(states, actions, k, j)
  }

  lemma StopperReturns(e: Env, s: State, a: Action, k: nat)
    requires ValidEnv(e) && Enabled(s, a) && k < |s.stoppers|
    ensures var s' := Step(e, s, a);
      && |s'.stoppers| == |s.stoppers|
      && (s'.stoppers[k].ReturnedErr? <==>
            || s.stoppers[k].ReturnedErr?
            || (a == StopperStep(k, true) && (s.stoppers[k].AtSelect? || s.stoppers[k].AtSelectDone?)))
      && (s'.stoppers[k].ReturnedNil? <==>
            s.stoppers[k].ReturnedNil? || (a == StopperStep(k, false) && s.stoppers[k].AtSelectDone?))
  {
  }

  /** `Shutdown` has returned the context's error if and only if its deadline expired at one of its two selects,
      and nil if and only if it found its wait over with the deadline not expired. */
  lemma {:induction false} ShutdownReturns(e: Env, states: seq<State>, actions: seq<Action>, k: nat, i: nat)
    requires IsTrace(e, states, actions) && i <= |actions| && k < |states[0].stoppers|
    ensures |states[i].stoppers| == |states[0].stoppers|
    ensures states[i].stoppers[k].ReturnedErr? <==> HasExpired(states, actions, k, i)
    ensures states[i].stoppers[k].ReturnedNil? <==> HasCompleted(states, actions, k, i)
  {
    if i > 0 {
      var n := i - 1;
      ShutdownReturns(e, states, actions, k, n);
      StopperReturns(e, states[n], actions[n], k);
      assert states[n + 1] == Step(e, states[n], actions[n]);
      assert HasExpired(states, actions, k, i) <==>
        HasExpired(states, actions, k, n) || Expires(states, actions, k, n);
      assert HasCompleted(states, actions, k, i) <==>
        HasCompleted(states, actions, k, n) || Completes(states, actions, k, n);
    }
  }

  lemma StopperBegins(e: Env, s: State, a: Action, s': State, k: nat)
    requires ValidEnv(e) && Enabled(s, a) && k < |s.stoppers| && s' == Step(e, s, a)
    ensures |s'.stoppers| == |s.stoppers|
    ensures s'.stoppers[k].NotStopping? <==> s.stoppers[k].NotStopping? && a != CallShutdown(k)
  {
  }

  predicate Called(actions: seq<Action>, k: nat, i: nat)
    requires i <= |actions|
  {
    CallShutdown(k) in actions[..i]
  }

  lemma {:induction false} CalledIsUnderWay(e: Env, states: seq<State>, actions: seq<Action>, k: nat, i: nat)
    requires IsTrace(e, states, actions) && i <= |actions| && k < |states[0].stoppers|
    ensures |states[i].stoppers| == |states[0].stoppers|
    ensures states[i].stoppers[k].NotStopping? <==> !Called(actions, k, i)
  {
    if i > 0 {
      var n := i - 1;
      CalledIsUnderWay(e, states, actions, k, n);
      assert states[n + 1] == Step(e, states[n], actions[n]);
      StopperBegins(e, states[n], actions[n], states[n + 1], k);
      assert actions[..i] == actions[..n] + [actions[n]];
    }
  }

  /** A call of `Shutdown` whose deadline never expires returns nil: when no step is left, it has. */
  lemma PatientShutdownReturnsNil(e: Env, states: seq<State>, actions: seq<Action>, k: nat, i: nat)
    requires IsRun(e, states, actions) && i <= |actions| && k < |states[0].stoppers| && Called(actions, k, i)
    requires forall j :: 0 <= j < i ==> actions[j] != StopperStep(k, true)
    requires forall a :: Internal(a) ==> !Enabled(states[i], a)
    ensures k < |states[i].stoppers| && states[i].stoppers[k].ReturnedNil?
  {
    NothingWedges(e, states, actions, i);
    ShutdownReturns(e, states, actions, k, i);
    CalledIsUnderWay(e, states, actions, k, i);
  }

  function Listed(p: Adder): int { if p == AddAtUnlock(true) || p == Added(true) then 1 else 0 }

  predicate Offered(actions: seq<Action>, i: nat, k: nat, sched: Schedule)
    requires i <= |actions|
  {
    CallAdd(k, sched) in actions[..i]
  }

  ghost predicate InJobs(s: State, sched: Schedule) {
    exists q :: 0 <= q < |s.jobs| && s.jobs[q].sched == sched
  }

  ghost predicate AllInJobs(s: State, actions: seq<Action>, i: nat, k: nat)
    requires i <= |actions|
  {
    forall sched :: Offered(actions, i, k, sched) ==> InJobs(s, sched)
  }

  /** What call `k` of `AddJob` has done by step `i`. */
  ghost predicate AdderTracked(s: State, actions: seq<Action>, i: nat, k: nat)
    requires i <= |actions|
  {
    k < |s.adders| &&
    match s.adders[k]
    case NotAdding => forall sched :: !Offered(actions, i, k, sched)
    case AddAtLock(sched) => forall other :: Offered(actions, i, k, other) <==> other == sched
    case AddAtCheck(sched) => forall other :: Offered(actions, i, k, other) <==> other == sched
    case AddAtUnlock(added) => if added then AllInJobs(s, actions, i, k) else s.stopped
    case Added(added) => if added then AllInJobs(s, actions, i, k) else s.stopped
  }

  lemma JobsStay(e: Env, s: State, a: Action)
    requires ValidEnv(e) && Enabled(s, a)
    ensures var s' := Step(e, s, a);
      && |s.jobs| <= |s'.jobs| && (forall j :: 0 <= j < |s.jobs| ==> s'.jobs[j].sched == s.jobs[j].sched)
      && (s.stopped ==> s'.stopped)
  {
    if !(a.TickerStep? && s.ticker.AtAdd?) { StepsFrameLog(e, s, a); }
  }

  /** What action `a` makes of call `k` of `AddJob`. */
  function Moved(s: State, a: Action, k: nat): Adder
    requires k < |s.adders|
  {
    match a
    case CallAdd(l, sched) => if l == k then AddAtLock(sched) else s.adders[k]
    case AdderStep(l) =>
      if l != k then s.adders[k]
      else
        (match s.adders[k]
         case AddAtLock(sched) => AddAtCheck(sched)
         case AddAtCheck(_) => AddAtUnlock(!s.stopped)
         case AddAtUnlock(added) => Added(added)
         case p => p)
    case _ => s.adders[k]
  }

  lemma AdderMoves(e: Env, s: State, a: Action, s': State, k: nat)
    requires ValidEnv(e) && Enabled(s, a) && k < |s.adders| && s' == Step(e, s, a)
    ensures |s'.adders| == |s.adders| && s'.adders[k] == Moved(s, a, k)
    ensures a.CallAdd? && a.k == k ==> s.adders[k].NotAdding?
    ensures a == AdderStep(k) && s.adders[k].AddAtCheck? && !s.stopped ==> InJobs(s', s.adders[k].sched)
  {
    if a == AdderStep(k) && s.adders[k].AddAtCheck? && !s.stopped {
      assert s'.jobs[|s.jobs|].sched == s.adders[k].sched;
    }
  }

  lemma AdderStaysTracked(e: Env, s: State, actions: seq<Action>, i: nat, s': State, k: nat)
    requires ValidEnv(e) && i < |actions| && Enabled(s, actions[i]) && s' == Step(e, s, actions[i])
    requires AdderTracked(s, actions, i, k)
    ensures AdderTracked(s', actions, i + 1, k)
  {
    JobsStay(e, s, actions[i]);
    AdderMoves(e, s, actions[i], s', k);
    TrackedNext(s, actions, i, s', k);
  }

  lemma TrackedNext(s: State, actions: seq<Action>, i: nat, s': State, k: nat)
    requires i < |actions| && k < |s.adders| == |s'.adders| && s'.adders[k] == Moved(s, actions[i], k)
    requires AdderTracked(s, actions, i, k)
    requires |s.jobs| <= |s'.jobs| && forall j :: 0 <= j < |s.jobs| ==> s'.jobs[j].sched == s.jobs[j].sched
    requires s.stopped ==> s'.stopped
    requires actions[i].CallAdd? && actions[i].k == k ==> s.adders[k].NotAdding?
    requires actions[i] == AdderStep(k) && s.adders[k].AddAtCheck? && !s.stopped ==> InJobs(s', s.adders[k].sched)
    ensures AdderTracked(s', actions, i + 1, k)
  {
    forall sched
      ensures Offered(actions, i + 1, k, sched) <==> Offered(actions, i, k, sched) || actions[i] == CallAdd(k, sched)
    {
      assert actions[..i + 1] == actions[..i] + [actions[i]];
    }
    forall sched | InJobs(s, sched) ensures InJobs(s', sched) {
      var q :| 0 <= q < |s.jobs| && s.jobs[q].sched == sched;
      assert s'.jobs[q].sched == sched;
    }
  }

  lemma {:induction false} AddersTracked(e: Env, states: seq<State>, actions: seq<Action>, k: nat, i: nat)
    requires IsTrace(e, states, actions) && i <= |actions| && k < |states[0].adders|
    ensures AdderTracked(states[i], actions, i, k)
  {
    if i > 0 {
      AddersTracked(e, states, actions, k, i - 1);
      AdderStaysTracked(e, states[i - 1], actions, i - 1, states[i], k);
    }
  }

  /** An `AddJob` that has returned nil has left a job with its schedule, and one that has returned ErrClosed ran on
      a stopped scheduler. */
  lemma AddJobReturns(e: Env, states: seq<State>, actions: seq<Action>, k: nat, i: nat, sched: Schedule)
    requires IsTrace(e, states, actions) && i <= |actions| && k < |states[0].adders| && Offered(actions, i, k, sched)
    ensures k < |states[i].adders| && states[i].adders[k] != NotAdding
    ensures states[i].adders[k] == Added(true) ==> InJobs(states[i], sched)
    ensures states[i].adders[k] == Added(false) ==> states[i].stopped
  {
    AddersTracked(e, states, actions, k, i);
  }

  /** There is one job for each `AddJob` that was not refused, and no other. */
  lemma {:induction false} JobsAreThoseAdded(e: Env, states: seq<State>, actions: seq<Action>, i: nat)
    requires IsTrace(e, states, actions) && i <= |actions|
    ensures |states[i].jobs| == Sum(states[i].adders, Listed)
  {
    if i == 0 {
      SumZero(states[0].adders, Listed);
    } else {
      JobsAreThoseAdded(e, states, actions, i - 1);
      JobPerAdder(e, states[i - 1], actions[i - 1]);
    }
  }

  lemma JobPerAdder(e: Env, s: State, a: Action)
    requires ValidEnv(e) && Enabled(s, a)
    ensures var s' := Step(e, s, a); |s'.jobs| - |s.jobs| == Sum(s'.adders, Listed) - Sum(s.adders, Listed)
  {
    var s' := Step(e, s, a);
    if a.CallAdd? || a.AdderStep? { SumUpdate(s.adders, Listed, a.k, s'.adders[a.k]); }
  }

  // ----- ticks

  lemma {:induction false} OnlyStoppedIsIdle(e: Env, states: seq<State>, actions: seq<Action>, i: nat)
    requires IsTrace(e, states, actions) && i <= |actions|
    requires states[i].ticker.AtRUnlock? && !states[i].ticker.looped
    ensures states[i].stopped
  {
    if i > 0 {
      var s, a := states[i - 1], actions[i - 1];
      assert states[i] == Step(e, s, a);
      JobsStay(e, s, a);
      if !a.TickerStep? { OnlyStoppedIsIdle(e, states, actions, i - 1); }
    }
  }

  /** A tick that is over has fired every due job at that minute, except those it skipped, unless the scheduler was
      stopped. */
  lemma TickIsComplete(e: Env, states: seq<State>, actions: seq<Action>, i: nat, j: nat)
    requires IsRun(e, states, actions) && i < |states| && j < |states[i].jobs|
    requires states[i].ticker.AtRUnlock?
    ensures states[i].ticker.looped || states[i].stopped
    ensures var s := states[i];
      ValidTables(s.jobs[j].sched)
      && (s.ticker.looped && Match(s.jobs[j].sched, e.zone(s.ticker.minute)) ==>
            Event(j, s.ticker.minute) in s.dispatched || Event(j, s.ticker.minute) in s.skipped)
  {
    ReachableInv(e, states, actions, i);
    if !states[i].ticker.looped { OnlyStoppedIsIdle(e, states, actions, i); }
    if states[i].ticker.looped { assert Covered(e, states[i], states[i].ticker.minute, j); }
  }

  /** And a job is skipped only while a fire of it has not cleared the flag. */
  lemma SkippedMeansInFlight(e: Env, states: seq<State>, actions: seq<Action>, i: nat)
    requires IsRun(e, states, actions) && i < |actions|
    requires states[i + 1].skipped != states[i].skipped
    ensures !e.overlap && states[i].ticker.AtSwap?
    ensures states[i + 1].skipped == states[i].skipped + {Event(states[i].ticker.i, states[i].ticker.minute)}
    ensures exists f :: 0 <= f < |states[i].fires| && Occupies(states[i].ticker.i)(states[i].fires[f]) == 1
  {
    ReachableInv(e, states, actions, i);
    SkipNeedsFlag(e, states[i], actions[i]);
    FlagNeedsFire(e, states[i], states[i].ticker.i);
  }

  lemma SkipNeedsFlag(e: Env, s: State, a: Action)
    requires ValidEnv(e) && Enabled(s, a) && Step(e, s, a).skipped != s.skipped
    ensures a.TickerStep? && s.ticker.AtSwap? && !e.overlap && s.ticker.i < |s.jobs| && s.jobs[s.ticker.i].running
    ensures Step(e, s, a).skipped == s.skipped + {Event(s.ticker.i, s.ticker.minute)}
  {
    if ByCaller(a) { CallersFrame(e, s, a); }
  }

  lemma FlagNeedsFire(e: Env, s: State, j: nat)
    requires ValidEnv(e) && Inv(e, s) && !e.overlap && s.ticker.AtSwap? && j < |s.jobs| && s.jobs[j].running
    ensures exists f :: 0 <= f < |s.fires| && Occupies(j)(s.fires[f]) == 1
  {
    assert FlagExact(e, s, j);
    var f := SumWitness(s.fires, Occupies(j));
  }

  /** A step that some goroutine takes on its own, once every job and handler returns or panics. */
  predicate Internal(a: Action) {
    a.TickerStep? || a.FireStep? || a.AdderStep? || (a.StopperStep? && !a.expired)
  }

  /** Nothing wedges: when no step is left, the ticker sleeps, every fire is gone, and every call of
      `AddJob` and `Shutdown` has returned. */
  lemma NothingWedges(e: Env, states: seq<State>, actions: seq<Action>, i: nat)
    requires IsRun(e, states, actions) && i < |states|
    requires forall a :: Internal(a) ==> !Enabled(states[i], a)
    ensures var s := states[i];
      && s.ticker.Asleep? && s.lock.Free? && s.wg == 0
      && (forall f :: 0 <= f < |s.fires| ==> s.fires[f].phase.Gone?)
      && (forall k :: 0 <= k < |s.adders| ==> s.adders[k].NotAdding? || s.adders[k].Added?)
      && (forall k :: 0 <= k < |s.stoppers| ==>
            s.stoppers[k].NotStopping? || s.stoppers[k].ReturnedNil? || s.stoppers[k].ReturnedErr?)
  {
    ReachableInv(e, states, actions, i);
    var s := states[i];
    assert !Enabled(s, TickerStep);
    if !s.lock.Free? { LockHolderCanMove(e, s); }
    forall f | 0 <= f < |s.fires| ensures s.fires[f].phase.Gone? {
      assert !Enabled(s, FireStep(f, false));
    }
    SumZero(s.fires, Alive);
    if s.once.Busy? { OnceHolderCanMove(e, s); }
    forall k | 0 <= k < |s.adders| ensures s.adders[k].NotAdding? || s.adders[k].Added? {
      assert !Enabled(s, AdderStep(k));
    }
    forall k | 0 <= k < |s.stoppers|
      ensures s.stoppers[k].NotStopping? || s.stoppers[k].ReturnedNil? || s.stoppers[k].ReturnedErr?
    {
      assert !Enabled(s, StopperStep(k, false));
    }
  }

  lemma LockHolderCanMove(e: Env, s: State)
    requires ValidEnv(e) && Control(s) && !s.lock.Free?
    ensures exists a :: Internal(a) && Enabled(s, a)
  {
    if s.lock.WriteStop? {
      assert StopperOk(s, s.lock.k);
      assert Enabled(s, StopperStep(s.lock.k, false));
    } else if s.lock.WriteAdd? {
      assert AdderOk(s, s.lock.k);
      assert Enabled(s, AdderStep(s.lock.k));
    } else {
      assert Enabled(s, TickerStep);
    }
  }

  lemma OnceHolderCanMove(e: Env, s: State)
    requires ValidEnv(e) && Control(s) && s.once.Busy? && s.lock.Free?
    ensures exists a :: Internal(a) && Enabled(s, a)
  {
    assert StopperOk(s, s.once.k);
    assert Enabled(s, StopperStep(s.once.k, false));
  }

  // ----- the drain ends

  function TickerLeft(t: Ticker): int {
    match t case AtRLock(_) => 3 case AtStoppedCheck(_) => 2 case AtRUnlock(_, _) => 1 case _ => 0
  }
  function FireLeft(f: Fire): int {
    match f.phase case InJob => 4 case InHandler => 3 case AtClear => 2 case AtDone => 1 case Gone => 0
  }
  function StopperLeft(p: Stopper): int {
    match p
    case NotStopping => 8 case AtOnce => 7 case AtLock => 6 case AtFlip => 5 case AtUnlock => 4
    case AtCloseStop => 3 case AtSelect => 2 case AtSelectDone => 1 case _ => 0
  }
  function AdderLeft(p: Adder): int {
    match p
    case NotAdding => 4 case AddAtLock(_) => 3 case AddAtCheck(_) => 2 case AddAtUnlock(_) => 1 case Added(_) => 0
  }

  /** What is left to do once stopped: a tick to end, fires to finish, calls to return or to be made. */
  function Left(s: State): int {
    TickerLeft(s.ticker) + Sum(s.fires, FireLeft) + Sum(s.stoppers, StopperLeft) + Sum(s.adders, AdderLeft)
  }

  lemma LeftIsNat(s: State)
    ensures Left(s) >= 0
  {
    SumBounds(s.fires, FireLeft);
    SumBounds(s.stoppers, StopperLeft);
    SumBounds(s.adders, AdderLeft);
  }

  lemma FireLeavesLess(e: Env, s: State, f: nat, panics: bool)
    requires Enabled(s, FireStep(f, panics))
    ensures Left(StepFire(e, s, f, panics)) < Left(s)
  {
    SumUpdate(s.fires, FireLeft, f, StepFire(e, s, f, panics).fires[f]);
  }

  lemma StopperLeavesLess(s: State, k: nat, expired: bool)
    requires Enabled(s, StopperStep(k, expired))
    ensures Left(StepStopper(s, k, expired)) < Left(s)
  {
    SumUpdate(s.stoppers, StopperLeft, k, StepStopper(s, k, expired).stoppers[k]);
  }

  lemma AdderLeavesLess(s: State, k: nat)
    requires Enabled(s, AdderStep(k))
    ensures Left(StepAdder(s, k)) < Left(s)
  {
    SumUpdate(s.adders, AdderLeft, k, StepAdder(s, k).adders[k]);
  }

  lemma CallLeavesLess(e: Env, s: State, a: Action)
    requires ValidEnv(e) && Enabled(s, a) && (a.CallShutdown? || a.CallAdd?)
    ensures Left(Step(e, s, a)) < Left(s)
  {
    if a.CallShutdown? {
      SumUpdate(s.stoppers, StopperLeft, a.k, AtOnce);
    } else {
      SumUpdate(s.adders, AdderLeft, a.k, AddAtLock(a.sched));
    }
  }

  /** Once stopped, every step but a tick leaves less to do, and a tick three steps more. */
  lemma StoppedStepsLeaveLess(e: Env, s: State, a: Action)
    requires ValidEnv(e) && Control(s) && Enabled(s, a) && s.stopped
    ensures if a.Tick? then Left(Step(e, s, a)) == Left(s) + 3 else Left(Step(e, s, a)) < Left(s)
  {
    match a
    case Tick(_) =>
    case TickerStep =>
    case FireStep(f, panics) => FireLeavesLess(e, s, f, panics);
    case StopperStep(k, expired) => StopperLeavesLess(s, k, expired);
    case AdderStep(k) => AdderLeavesLess(s, k);
    case _ => CallLeavesLess(e, s, a);
  }

  function CountTicks(actions: seq<Action>, i: nat, j: nat): nat
    requires i <= j <= |actions|
    decreases j
  {
    if i == j then 0 else CountTicks(actions, i, j - 1) + (if actions[j - 1].Tick? then 1 else 0)
  }

  predicate Descends(states: seq<State>, actions: seq<Action>, k: nat)
    requires k < |actions| && |states| == |actions| + 1
  {
    if actions[k].Tick? then Left(states[k + 1]) == Left(states[k]) + 3 else Left(states[k + 1]) < Left(states[k])
  }

  lemma {:induction false} DescentsAddUp(states: seq<State>, actions: seq<Action>, i: nat, j: nat)
    requires |states| == |actions| + 1 && i <= j <= |actions|
    requires forall k: nat :: i <= k < j ==> Descends(states, actions, k)
    ensures Left(states[j]) <= Left(states[i]) + 4 * CountTicks(actions, i, j) - (j - i)
    decreases j
  {
    if i < j {
      DescentsAddUp(states, actions, i, j - 1);
      assert Descends(states, actions, j - 1);
    }
  }

  lemma StoppedStepDescends(e: Env, states: seq<State>, actions: seq<Action>, i: nat, k: nat)
    requires IsRun(e, states, actions) && i <= k < |actions| && states[i].stopped
    ensures Descends(states, actions, k)
  {
    StoppedAddsNothing(e, states, actions, i, k);
    ReachableInv(e, states, actions, k);
    StoppedStepsLeaveLess(e, states[k], actions[k]);
  }

  /** After the flip of stopped only finitely many steps are taken: as many as `Left` says, and four for each
      further tick, its own step included.  With `NothingWedges`, the drain ends. */
  lemma DrainEnds(e: Env, states: seq<State>, actions: seq<Action>, i: nat, j: nat)
    requires IsRun(e, states, actions) && i <= j < |states| && states[i].stopped
    ensures j - i <= Left(states[i]) - Left(states[j]) + 4 * CountTicks(actions, i, j)
    ensures Left(states[j]) >= 0
  {
    forall k: nat | i <= k < j ensures Descends(states, actions, k) {
      StoppedStepDescends(e, states, actions, i, k);
    }
    LeftIsNat(states[j]);
    DescentsAddUp(states, actions, i, j);
  }

  // ----- the clock that steps back

  lemma Extend(e: Env, states: seq<State>, actions: seq<Action>, a: Action)
    returns (states': seq<State>, actions': seq<Action>)
    requires IsTrace(e, states, actions) && Enabled(states[|actions|], a)
    ensures IsTrace(e, states', actions')
    ensures actions' == actions + [a] && states' == states + [Step(e, states[|actions|], a)]
  {
    states', actions' := states + [Step(e, states[|actions|], a)], actions + [a];
    forall i | 0 <= i < |actions'|
      ensures Enabled(states'[i], actions'[i]) && states'[i + 1] == Step(e, states'[i], actions'[i])
    {
      if i < |actions| {
        assert actions'[i] == actions[i] && states'[i] == states[i] && states'[i + 1] == states[i + 1];
      }
    }
  }

  /** The first half of a tick of a scheduler with one job, which is due: up to the claim. */
  lemma ExtendToAdd(e: Env, states: seq<State>, actions: seq<Action>, minute: Instant)
    returns (states': seq<State>, actions': seq<Action>)
    requires IsTrace(e, states, actions) && e.overlap
    requires var s := states[|actions|];
      && s.ticker.Asleep? && s.lock.Free? && !s.stopped
      && |s.jobs| == 1 && ValidTables(s.jobs[0].sched)
      && Match(s.jobs[0].sched, e.zone(minute)) && s.jobs[0].last != Some(minute)
    ensures IsTrace(e, states', actions')
    ensures var s := states[|actions|];
      states'[|actions'|] == s.(ticker := AtAdd(minute, 0), lock := Read, lastTick := Some(minute))
  {
    states', actions' := Extend(e, states, actions, Tick(minute));
    states', actions' := Extend(e, states', actions', TickerStep);
    states', actions' := Extend(e, states', actions', TickerStep);
    states', actions' := Extend(e, states', actions', TickerStep);
    states', actions' := Extend(e, states', actions', TickerStep);
  }

  /** The second half: dispatched, and asleep again. */
  lemma ExtendFromAdd(e: Env, states: seq<State>, actions: seq<Action>, minute: Instant)
    returns (states': seq<State>, actions': seq<Action>)
    requires IsTrace(e, states, actions)
    requires var s := states[|actions|]; s.ticker == AtAdd(minute, 0) && |s.jobs| == 1 && ValidTables(s.jobs[0].sched)
    ensures IsTrace(e, states', actions')
    ensures var s, s' := states[|actions|], states'[|actions'|];
      && s'.ticker.Asleep? && s'.lock.Free? && s'.stopped == s.stopped
      && s'.jobs == [s.jobs[0].(last := Some(minute))]
      && s'.dispatched == s.dispatched + [Event(0, minute)]
  {
    states', actions' := Extend(e, states, actions, TickerStep);
    states', actions' := Extend(e, states', actions', TickerStep);
    states', actions' := Extend(e, states', actions', TickerStep);
    states', actions' := Extend(e, states', actions', TickerStep);
  }

  /** The state between the ticks: one job that is always due. */
  predicate Ready(e: Env, s: State, last: Option<Instant>, minutes: seq<Instant>)
    requires ValidEnv(e)
  {
    && s.ticker.Asleep? && s.lock.Free? && !s.stopped
    && |s.jobs| == 1 && s.jobs[0].sched == Always() && s.jobs[0].last == last
    && |s.dispatched| == |minutes| && forall d :: 0 <= d < |minutes| ==> s.dispatched[d] == Event(0, minutes[d])
  }

  function Always(): Schedule {
    Schedule(seq(60, _ => true), seq(24, _ => true), seq(32, _ => true), seq(13, _ => true), seq(8, _ => true),
             true, true)
  }

  lemma AlwaysMatches(c: Clock)
    requires ValidClock(c)
    ensures ValidTables(Always()) && Match(Always(), c)
  {
  }

  lemma ExtendTick(e: Env, states: seq<State>, actions: seq<Action>, last: Option<Instant>, minutes: seq<Instant>,
                   minute: Instant)
    returns (states': seq<State>, actions': seq<Action>)
    requires IsTrace(e, states, actions) && e.overlap
    requires Ready(e, states[|actions|], last, minutes) && last != Some(minute)
    ensures IsTrace(e, states', actions') && Ready(e, states'[|actions'|], Some(minute), minutes + [minute])
  {
    AlwaysMatches(e.zone(minute));
    states', actions' := ExtendToAdd(e, states, actions, minute);
    states', actions' := ExtendFromAdd(e, states', actions', minute);
  }

  lemma OneJob(e: Env) returns (states: seq<State>, actions: seq<Action>)
    requires ValidEnv(e)
    ensures IsTrace(e, states, actions) && Ready(e, states[|actions|], None, [])
  {
    AlwaysMatches(e.zone(0));
    states := [State(Free, [], false, Fresh, 0, 0, Asleep, [], [], [NotAdding], [], {}, None)];
    actions := [];
    states, actions := Extend(e, states, actions, CallAdd(0, Always()));
    states, actions := Extend(e, states, actions, AdderStep(0));
    states, actions := Extend(e, states, actions, AdderStep(0));
    states, actions := Extend(e, states, actions, AdderStep(0));
  }

  /** A run in which `Shutdown` returns nil, on a scheduler without a job. */
  lemma ShutdownCanReturnNil(e: Env) returns (states: seq<State>, actions: seq<Action>)
    requires ValidEnv(e)
    ensures IsRun(e, states, actions) && states[|actions|].stoppers == [ReturnedNil]
  {
    states := [State(Free, [], false, Fresh, 0, 0, Asleep, [], [NotStopping], [], [], {}, None)];
    actions := [];
    states, actions := Extend(e, states, actions, CallShutdown(0));
    for n := 0 to 7
      invariant IsTrace(e, states, actions) && |actions| == n + 1 && AfterSteps(states[n + 1], n)
      invariant forall i :: 0 <= i < |actions| ==> !actions[i].Tick?
    {
      states, actions := Extend(e, states, actions, StopperStep(0, false));
    }
  }

  /** A lone `Shutdown` after `n` steps. */
  predicate AfterSteps(s: State, n: nat) {
    && s.wg == 0 && s.jobs == [] && |s.stoppers| == 1
    && (match n
        case 0 => s.stoppers[0].AtOnce? && s.once.Fresh? && s.lock.Free?
        case 1 => s.stoppers[0].AtLock? && s.lock.Free?
        case 2 => s.stoppers[0].AtFlip?
        case 3 => s.stoppers[0].AtUnlock?
        case 4 => s.stoppers[0].AtCloseStop?
        case 5 => s.stoppers[0].AtSelect?
        case 6 => s.stoppers[0].AtSelectDone?
        case _ => s.stoppers[0].ReturnedNil?)
  }

  /** The rule about the clock is needed: it ticks 10, steps back to 9, ticks 10 again, and a job that
      is always due fires twice at minute 10. */
  lemma ClockStepBackFiresTwice() returns (e: Env, states: seq<State>, actions: seq<Action>)
    ensures IsTrace(e, states, actions)
    ensures states[|actions|].dispatched == [Event(0, 10), Event(0, 9), Event(0, 10)]
  {
    e := Env(true, _ => Clock(0, 0, 1, 1, 0));
    states, actions := OneJob(e);
    states, actions := ExtendTick(e, states, actions, None, [], 10);
    states, actions := ExtendTick(e, states, actions, Some(10), [] + [10], 9);
    states, actions := ExtendTick(e, states, actions, Some(9), [] + [10] + [9], 10);
  }
}
