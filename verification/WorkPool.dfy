/**
 The work pool of workpool/workpool.go as a system of atomic steps.

 Goroutines that call `Do`, the workers, and goroutines that call `Run` are the indices of three
 sequences of any length.  The buffered channel is a queue with a capacity (0 is allowed: then a
 send and a receive happen together).  A task that panics is recovered by its worker, which is the
 same step as a task that returns, so a task is one step from running to ran.
 */
module WorkPool {
  import opened Wrappers
  import opened Sums

  type Task = nat

  datatype Producer =
    | Outside                  // not in Do
    | Checked(task: Task)      // saw closed == false
    | Raised(task: Task)       // running has been raised
    | Sending(task: Task)      // wg has been raised; at the channel send

  datatype Worker =
    | Receiving                // at the channel receive
    | Running(task: Task)
    | Ran                      // the task has returned or its panic was recovered
    | Lowered                  // running has been lowered
    | Exited

  datatype Runner =
    | NotCalled
    | Waiting                  // won the CAS; at wg.Wait
    | Closing                  // wg.Wait has returned; at close(queue)
    | Returned(won: bool)

  /** `accepted` and `ran` are history: the tasks that `Do` did not drop, and those that were run.
      `closes` counts the calls of close(queue). */
  datatype State = State(
    capacity: nat,
    closed: bool,
    queueClosed: bool,
    queue: seq<Task>,
    wg: int,
    running: int,
    producers: seq<Producer>,
    workers: seq<Worker>,
    runners: seq<Runner>,
    crashed: bool,
    closes: nat,
    accepted: multiset<Task>,
    ran: multiset<Task>)

  datatype Action =
    | CallDo(p: nat, task: Task)
    | Produce(p: nat)
    | Handoff(p: nat, w: nat)  // a send that meets a receive, on an unbuffered channel
    | Work(w: nat)
    | CallRun(r: nat)
    | Finish(r: nat)

  const TWO_31: int := 0x8000_0000

  /** The value an `int32` holds after arithmetic that would give `x`. */
  function Wrap32(x: int): int {
    (x + TWO_31) % (2 * TWO_31) - TWO_31
  }

  /** `New`; None is the panic of `make(chan Task, n)` for a negative n. */
  function New(workers: int, bufferSize: Option<int>, producers: nat, runners: nat): (r: Option<State>)
    ensures r.None? <==> bufferSize.Some? && bufferSize.value < 0
    ensures r.Some? ==>
      && Init(r.value) && |r.value.producers| == producers && |r.value.runners| == runners
      && |r.value.workers| >= 1 && (workers >= 1 ==> |r.value.workers| == workers)
      && (bufferSize.Some? ==> r.value.capacity == bufferSize.value)
      && (bufferSize.None? ==> r.value.capacity == 100 * |r.value.workers| + 1)
  {
    var count := if workers < 1 then 1 else workers;
    var size := if bufferSize.Some? then bufferSize.value else count * 100 + 1;
    if size < 0 then None
    else Some(State(size, false, false, [], 0, 0, seq(producers, _ => Outside), seq(count, _ => Receiving),
                    seq(runners, _ => NotCalled), false, 0, multiset{}, multiset{}))
  }

  predicate Init(s: State) {
    && !s.closed && !s.queueClosed && s.queue == [] && s.wg == 0 && s.running == 0
    && !s.crashed && s.closes == 0 && s.accepted == multiset{} && s.ran == multiset{}
    && |s.workers| >= 1
    && (forall p :: 0 <= p < |s.producers| ==> s.producers[p] == Outside)
    && (forall w :: 0 <= w < |s.workers| ==> s.workers[w] == Receiving)
    && (forall r :: 0 <= r < |s.runners| ==> s.runners[r] == NotCalled)
  }

  predicate Enabled(s: State, a: Action) {
    && !s.crashed
    && match a
       case CallDo(p, _) => p < |s.producers| && s.producers[p].Outside?
       case Produce(p) =>
         && p < |s.producers| && !s.producers[p].Outside?
         && (s.producers[p].Sending? ==> s.queueClosed || |s.queue| < s.capacity)
       case Handoff(p, w) =>
         && p < |s.producers| && s.producers[p].Sending? && w < |s.workers| && s.workers[w].Receiving?
         && s.capacity == 0 && !s.queueClosed
       case Work(w) =>
         && w < |s.workers| && !s.workers[w].Exited?
         && (s.workers[w].Receiving? ==> s.queue != [] || s.queueClosed)
       case CallRun(r) => r < |s.runners| && s.runners[r].NotCalled?
       case Finish(r) =>
         && r < |s.runners| && (s.runners[r].Waiting? || s.runners[r].Closing?)
         && (s.runners[r].Waiting? ==> s.wg == 0)
  }

  /** Lines 65-67, one step at a time. */
  function StepProduce(s: State, p: nat): State
    requires Enabled(s, Produce(p))
  {
    match s.producers[p]
    case Checked(task) => s.(producers := s.producers[p := Raised(task)], running := Wrap32(s.running + 1))
    case Raised(task) => s.(producers := s.producers[p := Sending(task)], wg := s.wg + 1)
    case Sending(task) =>
      if s.queueClosed then s.(crashed := true)
      else s.(producers := s.producers[p := Outside], queue := s.queue + [task])
  }

  /** Lines 97-112, one step at a time. */
  function StepWork(s: State, w: nat): State
    requires Enabled(s, Work(w))
  {
    match s.workers[w]
    case Receiving =>
      if s.queue != [] then s.(queue := s.queue[1..], workers := s.workers[w := Running(s.queue[0])])
      else s.(workers := s.workers[w := Exited])
    case Running(task) => s.(workers := s.workers[w := Ran], ran := s.ran + multiset{task})
    case Ran => s.(workers := s.workers[w := Lowered], running := Wrap32(s.running - 1))
    case Lowered =>
      if s.wg <= 0 then s.(crashed := true)
      else s.(workers := s.workers[w := Receiving], wg := s.wg - 1)
  }

  function Step(s: State, a: Action): State
    requires Enabled(s, a)
  {
    match a
    case CallDo(p, task) =>
      if s.closed then s
      else s.(producers := s.producers[p := Checked(task)], accepted := s.accepted + multiset{task})
    case Produce(p) => StepProduce(s, p)
    case Handoff(p, w) =>
      s.(producers := s.producers[p := Outside], workers := s.workers[w := Running(s.producers[p].task)])
    case Work(w) => StepWork(s, w)
    case CallRun(r) =>
      if s.closed then s.(runners := s.runners[r := Returned(false)])
      else s.(closed := true, runners := s.runners[r := Waiting])
    case Finish(r) =>
      if s.runners[r].Waiting? then s.(runners := s.runners[r := Closing])
      else if s.queueClosed then s.(crashed := true)
      else s.(queueClosed := true, closes := s.closes + 1, runners := s.runners[r := Returned(true)])
  }

  /** A `Do` between its closed check and its wg.Add. */
  predicate InWindow(p: Producer) { p.Checked? || p.Raised? }

  /** The documented rule, at its narrowest: when a `Run` closes the pool, no `Do` is between its
      closed check and its wg.Add. */
  predicate Allowed(s: State, a: Action) {
    a.CallRun? && !s.closed ==> forall p :: 0 <= p < |s.producers| ==> !InWindow(s.producers[p])
  }

  // ----- weights

  function ProducerWg(p: Producer): int { if p.Sending? then 1 else 0 }
  function ProducerRunning(p: Producer): int { if p.Raised? || p.Sending? then 1 else 0 }
  function ProducerHas(task: Task): Producer -> int { (p: Producer) => if !p.Outside? && p.task == task then 1 else 0 }
  function WorkerWg(w: Worker): int { if w.Running? || w.Ran? || w.Lowered? then 1 else 0 }
  function WorkerRunning(w: Worker): int { if w.Running? || w.Ran? then 1 else 0 }
  function WorkerHas(task: Task): Worker -> int { (w: Worker) => if w == Running(task) then 1 else 0 }
  function Is(task: Task): Task -> int { (t: Task) => if t == task then 1 else 0 }
  function RunnerWon(r: Runner): int { if r.Waiting? || r.Closing? || r == Returned(true) then 1 else 0 }
  function RunnerClosed(r: Runner): int { if r == Returned(true) then 1 else 0 }

  /** The tasks `running` counts: raised and not lowered. */
  function InFlight(s: State): int {
    Sum(s.producers, ProducerRunning) + |s.queue| + Sum(s.workers, WorkerRunning)
  }

  // ----- the invariant

  ghost predicate WgExact(s: State) {
    s.wg == Sum(s.producers, ProducerWg) + |s.queue| + Sum(s.workers, WorkerWg)
  }

  ghost predicate RunningExact(s: State) {
    s.running == Wrap32(InFlight(s))
  }

  /** However often a task was accepted: so often it is in a `Do`, queued, being run, or has been run. */
  ghost predicate TaskExact(s: State, task: Task) {
    s.accepted[task] ==
      Sum(s.producers, ProducerHas(task)) + Sum(s.queue, Is(task)) + Sum(s.workers, WorkerHas(task)) + s.ran[task]
  }

  ghost predicate Closure(s: State) {
    && Sum(s.runners, RunnerWon) == (if s.closed then 1 else 0)
    && s.closes == Sum(s.runners, RunnerClosed) == (if s.queueClosed then 1 else 0)
    && (s.closed ==> forall p :: 0 <= p < |s.producers| ==> !InWindow(s.producers[p]))
    && (forall r :: 0 <= r < |s.runners| && (s.runners[r].Closing? || s.runners[r] == Returned(true)) ==> s.wg == 0)
    && (forall w :: 0 <= w < |s.workers| && s.workers[w].Exited? ==> s.queueClosed)
  }

  ghost predicate Inv(s: State) {
    && !s.crashed
    && |s.workers| >= 1
    && WgExact(s)
    && RunningExact(s)
    && (forall task :: TaskExact(s, task))
    && Closure(s)
  }

  lemma InitKeepsInv(s: State)
    requires Init(s)
    ensures Inv(s)
  {
    SumZero(s.producers, ProducerWg);
    SumZero(s.producers, ProducerRunning);
    SumZero(s.workers, WorkerWg);
    SumZero(s.workers, WorkerRunning);
    SumZero(s.runners, RunnerWon);
    SumZero(s.runners, RunnerClosed);
    forall task ensures TaskExact(s, task) {
      SumZero(s.producers, ProducerHas(task));
      SumZero(s.workers, WorkerHas(task));
    }
  }

  /** The wrapped value of `x` is the one in range that differs from it by a multiple of 2^32. */
  lemma Wrap32Is(x: int, turns: int, r: int)
    requires x == r + turns * (2 * TWO_31) && -TWO_31 <= r < TWO_31
    ensures Wrap32(x) == r
  {
    var y := r + TWO_31;
    assert x + TWO_31 == y + turns * (2 * TWO_31);
  }

  lemma Wrap32Turns(x: int) returns (turns: int)
    ensures x == Wrap32(x) + turns * (2 * TWO_31) && -TWO_31 <= Wrap32(x) < TWO_31
  {
    turns := (x + TWO_31) / (2 * TWO_31);
  }

  lemma Wrap32Up(x: int)
    ensures Wrap32(Wrap32(x) + 1) == Wrap32(x + 1)
  {
    var turns := Wrap32Turns(x);
    var r := Wrap32(x);
    if r == TWO_31 - 1 {
      Wrap32Is(x + 1, turns + 1, -TWO_31);
      Wrap32Is(r + 1, 1, -TWO_31);
    } else {
      Wrap32Is(x + 1, turns, r + 1);
      Wrap32Is(r + 1, 0, r + 1);
    }
  }

  lemma Wrap32Down(x: int)
    ensures Wrap32(Wrap32(x) - 1) == Wrap32(x - 1)
  {
    var turns := Wrap32Turns(x);
    var r := Wrap32(x);
    if r == -TWO_31 {
      Wrap32Is(x - 1, turns - 1, TWO_31 - 1);
      Wrap32Is(r - 1, -1, TWO_31 - 1);
    } else {
      Wrap32Is(x - 1, turns, r - 1);
      Wrap32Is(r - 1, 0, r - 1);
    }
  }

  lemma SumsNonNegative(s: State)
    ensures Sum(s.producers, ProducerWg) >= 0 && Sum(s.workers, WorkerWg) >= 0
    ensures forall p :: 0 <= p < |s.producers| ==> ProducerWg(s.producers[p]) <= Sum(s.producers, ProducerWg)
    ensures forall w :: 0 <= w < |s.workers| ==> WorkerWg(s.workers[w]) <= Sum(s.workers, WorkerWg)
    ensures forall r :: 0 <= r < |s.runners| ==> RunnerWon(s.runners[r]) <= Sum(s.runners, RunnerWon)
    ensures forall r :: 0 <= r < |s.runners| ==> RunnerClosed(s.runners[r]) <= Sum(s.runners, RunnerClosed)
  {
    SumBounds(s.producers, ProducerWg);
    SumBounds(s.workers, WorkerWg);
    SumBounds(s.runners, RunnerWon);
    SumBounds(s.runners, RunnerClosed);
  }

  /** A closed queue has no `Do` left that could send on it. */
  lemma ClosedIsDrained(s: State)
    requires Inv(s) && s.queueClosed
    ensures s.closed && s.wg == 0 && s.queue == []
    ensures forall p :: 0 <= p < |s.producers| ==> s.producers[p].Outside?
  {
    var r := SumWitness(s.runners, RunnerClosed);
    SumsNonNegative(s);
  }

  /** Whoever is about to close the queue is the only one to have won the CAS. */
  lemma CloserIsAlone(s: State, r: nat)
    requires Inv(s) && r < |s.runners| && (s.runners[r].Waiting? || s.runners[r].Closing?)
    ensures s.closed && !s.queueClosed
  {
    SumBounds(s.runners, RunnerWon);
    if s.queueClosed {
      var q := SumWitness(s.runners, RunnerClosed);
      SumTwo(s.runners, RunnerWon, if q < r then q else r, if q < r then r else q);
    }
  }

  lemma DoKeepsInv(s: State, a: Action)
    requires Inv(s) && Enabled(s, a) && a.CallDo?
    ensures Inv(Step(s, a))
  {
    var s' := Step(s, a);
    if !s.closed {
      SumUpdate(s.producers, ProducerWg, a.p, Checked(a.task));
      SumUpdate(s.producers, ProducerRunning, a.p, Checked(a.task));
      forall task ensures TaskExact(s', task) {
        assert TaskExact(s, task);
        SumUpdate(s.producers, ProducerHas(task), a.p, Checked(a.task));
      }
    }
  }

  lemma ProduceKeepsInv(s: State, a: Action)
    requires Inv(s) && Enabled(s, a) && a.Produce?
    ensures Inv(Step(s, a))
  {
    SumsNonNegative(s);
    if s.queueClosed { ClosedIsDrained(s); }
    var s' := Step(s, a);
    Wrap32Up(InFlight(s));
    SumUpdate(s.producers, ProducerWg, a.p, s'.producers[a.p]);
    SumUpdate(s.producers, ProducerRunning, a.p, s'.producers[a.p]);
    forall task ensures TaskExact(s', task) {
      assert TaskExact(s, task);
      SumUpdate(s.producers, ProducerHas(task), a.p, s'.producers[a.p]);
      if s.producers[a.p].Sending? { SumAppend(s.queue, Is(task), s.producers[a.p].task); }
    }
  }

  lemma HandoffKeepsInv(s: State, a: Action)
    requires Inv(s) && Enabled(s, a) && a.Handoff?
    ensures Inv(Step(s, a))
  {
    SumsNonNegative(s);
    var s' := Step(s, a);
    SumUpdate(s.producers, ProducerWg, a.p, Outside);
    SumUpdate(s.producers, ProducerRunning, a.p, Outside);
    SumUpdate(s.workers, WorkerWg, a.w, s'.workers[a.w]);
    SumUpdate(s.workers, WorkerRunning, a.w, s'.workers[a.w]);
    forall task ensures TaskExact(s', task) {
      assert TaskExact(s, task);
      SumUpdate(s.producers, ProducerHas(task), a.p, Outside);
      SumUpdate(s.workers, WorkerHas(task), a.w, s'.workers[a.w]);
    }
  }

  lemma WorkKeepsTask(s: State, w: nat, task: Task)
    requires TaskExact(s, task) && Enabled(s, Work(w)) && !StepWork(s, w).crashed
    ensures TaskExact(StepWork(s, w), task)
  {
    if s.workers[w].Receiving? && s.queue != [] {
      TakingKeepsTask(s, w, task);
    } else {
      SumUpdate(s.workers, WorkerHas(task), w, StepWork(s, w).workers[w]);
    }
  }

  lemma TakingKeepsTask(s: State, w: nat, task: Task)
    requires TaskExact(s, task) && w < |s.workers| && s.workers[w].Receiving? && s.queue != []
    ensures TaskExact(s.(queue := s.queue[1..], workers := s.workers[w := Running(s.queue[0])]), task)
  {
    SumUpdate(s.workers, WorkerHas(task), w, Running(s.queue[0]));
    SumTail(s.queue, Is(task));
  }

  lemma WorkKeepsWg(s: State, w: nat)
    requires WgExact(s) && Enabled(s, Work(w)) && !s.crashed
    ensures !StepWork(s, w).crashed && WgExact(StepWork(s, w))
  {
    SumsNonNegative(s);
    SumUpdate(s.workers, WorkerWg, w, StepWork(s, w).workers[w]);
  }

  lemma WorkKeepsRunning(s: State, w: nat)
    requires RunningExact(s) && Enabled(s, Work(w)) && !StepWork(s, w).crashed
    ensures RunningExact(StepWork(s, w))
  {
    Wrap32Down(InFlight(s));
    SumUpdate(s.workers, WorkerRunning, w, StepWork(s, w).workers[w]);
  }

  lemma WorkKeepsClosure(s: State, w: nat)
    requires Inv(s) && Enabled(s, Work(w)) && !StepWork(s, w).crashed
    ensures Closure(StepWork(s, w)) && |StepWork(s, w).workers| == |s.workers|
  {
    SumsNonNegative(s);
  }

  lemma WorkKeepsInv(s: State, w: nat)
    requires Inv(s) && Enabled(s, Work(w))
    ensures Inv(StepWork(s, w))
  {
    WorkKeepsWg(s, w);
    WorkKeepsRunning(s, w);
    WorkKeepsClosure(s, w);
    forall task ensures TaskExact(StepWork(s, w), task) {
      assert TaskExact(s, task);
      WorkKeepsTask(s, w, task);
    }
  }

  lemma RunKeepsInv(s: State, a: Action)
    requires Inv(s) && Enabled(s, a) && Allowed(s, a) && (a.CallRun? || a.Finish?)
    ensures Inv(Step(s, a))
  {
    if a.Finish? { CloserIsAlone(s, a.r); }
    var s' := Step(s, a);
    SumUpdate(s.runners, RunnerWon, a.r, s'.runners[a.r]);
    SumUpdate(s.runners, RunnerClosed, a.r, s'.runners[a.r]);
    forall task ensures TaskExact(s', task) { assert TaskExact(s, task); }
  }

  lemma StepKeepsInv(s: State, a: Action)
    requires Inv(s) && Enabled(s, a) && Allowed(s, a)
    ensures Inv(Step(s, a))
  {
    match a
    case CallDo(_, _) => DoKeepsInv(s, a);
    case Produce(_) => ProduceKeepsInv(s, a);
    case Handoff(_, _) => HandoffKeepsInv(s, a);
    case Work(w) => WorkKeepsInv(s, w);
    case CallRun(_) => RunKeepsInv(s, a);
    case Finish(_) => RunKeepsInv(s, a);
  }

  // ----- runs

  /** Any interleaving of any number of goroutines. */
  ghost predicate IsTrace(states: seq<State>, actions: seq<Action>) {
    && |states| == |actions| + 1
    && Init(states[0])
    && forall i :: 0 <= i < |actions| ==> Enabled(states[i], actions[i]) && states[i + 1] == Step(states[i], actions[i])
  }

  /** An interleaving in which `Do` does not race `Run`. */
  ghost predicate IsRun(states: seq<State>, actions: seq<Action>) {
    && IsTrace(states, actions)
    && forall i :: 0 <= i < |actions| ==> Allowed(states[i], actions[i])
  }

  lemma {:induction false} ReachableInv(states: seq<State>, actions: seq<Action>, i: nat)
    requires IsRun(states, actions) && i < |states|
    ensures Inv(states[i])
  {
    if i == 0 {
      InitKeepsInv(states[0]);
    } else {
      ReachableInv(states, actions, i - 1);
      StepKeepsInv(states[i - 1], actions[i - 1]);
    }
  }

  // ----- what was given to Do

  /** Some `Run` was called in the first `i` actions. */
  predicate RunCalled(actions: seq<Action>, i: nat)
    requires i <= |actions|
  {
    exists j :: 0 <= j < i && actions[j].CallRun?
  }

  /** The tasks of the calls of `Do` in the first `i` actions that came before any call of `Run`. */
  function Given(actions: seq<Action>, i: nat): multiset<Task>
    requires i <= |actions|
  {
    if i == 0 then multiset{}
    else
      Given(actions, i - 1)
      + if actions[i - 1].CallDo? && !RunCalled(actions, i - 1) then multiset{actions[i - 1].task} else multiset{}
  }

  /** The pool is closed once `Run` was called, and until then every task given to `Do` is accepted, whatever else
      happens. */
  lemma {:induction false} AcceptedIsGiven(states: seq<State>, actions: seq<Action>, i: nat)
    requires IsTrace(states, actions) && i <= |actions|
    ensures states[i].closed <==> RunCalled(actions, i)
    ensures states[i].accepted == Given(actions, i)
  {
    if i > 0 {
      AcceptedIsGiven(states, actions, i - 1);
      StepTakes(states[i - 1], actions[i - 1]);
      assert states[i] == Step(states[i - 1], actions[i - 1]);
      assert RunCalled(actions, i) <==> RunCalled(actions, i - 1) || actions[i - 1].CallRun?;
    }
  }

  lemma StepTakes(s: State, a: Action)
    requires Enabled(s, a)
    ensures Step(s, a).closed <==> s.closed || a.CallRun?
    ensures Step(s, a).accepted == s.accepted + if a.CallDo? && !s.closed then multiset{a.task} else multiset{}
  {
  }

  /** A call of `Do` on an open pool is under way with its task, and on a closed pool changes nothing. */
  lemma CallsOfDo(states: seq<State>, actions: seq<Action>, i: nat)
    requires IsTrace(states, actions) && i < |actions| && actions[i].CallDo?
    ensures if RunCalled(actions, i) then states[i + 1] == states[i]
            else actions[i].p < |states[i + 1].producers|
                 && states[i + 1].producers[actions[i].p] == Checked(actions[i].task)
  {
    AcceptedIsGiven(states, actions, i);
  }

  /** The first call of `Run` wins, and all others return at once. */
  lemma CallsOfRun(states: seq<State>, actions: seq<Action>, i: nat)
    requires IsTrace(states, actions) && i < |actions| && actions[i].CallRun?
    ensures actions[i].r < |states[i + 1].runners|
    ensures states[i + 1].runners[actions[i].r] == if RunCalled(actions, i) then Returned(false) else Waiting
  {
    AcceptedIsGiven(states, actions, i);
  }

  /** The queue never holds more than its capacity. */
  lemma {:induction false} QueueFits(states: seq<State>, actions: seq<Action>, i: nat)
    requires IsTrace(states, actions) && i <= |actions|
    ensures |states[i].queue| <= states[i].capacity == states[0].capacity
  {
    if i > 0 { QueueFits(states, actions, i - 1); }
  }

  /** No step panics (no send on a closed channel, no second close, no negative WaitGroup), the queue
      is closed at most once, and no task has been run more often than it was accepted. */
  lemma NothingPanics(states: seq<State>, actions: seq<Action>, i: nat)
    requires IsRun(states, actions) && i < |states|
    ensures !states[i].crashed && states[i].closes <= 1 && states[i].ran <= states[i].accepted
  {
    ReachableInv(states, actions, i);
    var s := states[i];
    forall task ensures s.ran[task] <= s.accepted[task] {
      assert TaskExact(s, task);
      SumBounds(s.producers, ProducerHas(task));
      SumBounds(s.queue, Is(task));
      SumBounds(s.workers, WorkerHas(task));
    }
  }

  /** `IsRunning` reads a positive counter exactly when the number of tasks in flight does not land in
      the upper half of the 32-bit range; below 2^31 tasks it means that there is one. */
  lemma IsRunningExact(states: seq<State>, actions: seq<Action>, i: nat)
    requires IsRun(states, actions) && i < |states|
    ensures var n := InFlight(states[i]);
      && n >= 0
      && (states[i].running > 0 <==> 0 < n % (2 * TWO_31) < TWO_31)
      && (n < TWO_31 ==> (states[i].running > 0 <==> n > 0))
  {
    ReachableInv(states, actions, i);
    SumBounds(states[i].producers, ProducerRunning);
    SumBounds(states[i].workers, WorkerRunning);
    Wrap32Sign(InFlight(states[i]));
  }

  lemma Wrap32Sign(n: nat)
    ensures Wrap32(n) > 0 <==> 0 < n % (2 * TWO_31) < TWO_31
    ensures n < TWO_31 ==> Wrap32(n) == n
  {
    var turns, rest := n / (2 * TWO_31), n % (2 * TWO_31);
    if rest < TWO_31 {
      Wrap32Is(n, turns, rest);
    } else {
      Wrap32Is(n, turns + 1, rest - 2 * TWO_31);
    }
  }

  lemma {:induction false} ClosedAcceptsNothing(states: seq<State>, actions: seq<Action>, i: nat, j: nat)
    requires IsRun(states, actions) && i <= j < |states| && states[i].closed
    ensures states[j].closed && states[j].accepted == states[i].accepted
    decreases j
  {
    if i < j {
      ClosedAcceptsNothing(states, actions, i, j - 1);
    }
  }

  /** When the winning `Run` has returned, and ever after: every task given to `Do` before the first `Run` was
      called has been run, as often as it was given, and nothing else; the counters are at 0; the queue is empty
      and was closed once; and no `Do` is under way. */
  lemma RunReturnsAfterAllTasks(states: seq<State>, actions: seq<Action>, i: nat, j: nat, r: nat)
    requires IsRun(states, actions) && i <= j < |states|
    requires r < |states[i].runners| && states[i].runners[r] == Returned(true)
    ensures var s := states[j];
      && s.ran == s.accepted == Given(actions, j) == Given(actions, i)
      && s.wg == 0 && s.running == 0 && s.queue == [] && s.queueClosed && s.closes == 1
      && forall p :: 0 <= p < |s.producers| ==> s.producers[p].Outside?
    decreases j
  {
    ReachableInv(states, actions, i);
    ReachableInv(states, actions, j);
    SumsNonNegative(states[i]);
    QueueStaysClosed(states, actions, i, j);
    ClosedIsDrained(states[i]);
    ClosedAcceptsNothing(states, actions, i, j);
    AcceptedIsGiven(states, actions, i);
    AcceptedIsGiven(states, actions, j);
    DrainedRanAll(states[j]);
  }

  lemma {:induction false} QueueStaysClosed(states: seq<State>, actions: seq<Action>, i: nat, j: nat)
    requires IsRun(states, actions) && i <= j < |states| && states[i].queueClosed
    ensures states[j].queueClosed
    decreases j
  {
    if i < j {
      QueueStaysClosed(states, actions, i, j - 1);
    }
  }

  lemma DrainedRanAll(s: State)
    requires Inv(s) && s.queueClosed
    ensures s.ran == s.accepted && s.wg == 0 && s.running == 0 && s.queue == []
    ensures forall p :: 0 <= p < |s.producers| ==> s.producers[p].Outside?
  {
    ClosedIsDrained(s);
    SumsNonNegative(s);
    SumZero(s.producers, ProducerRunning);
    SumZero(s.workers, WorkerRunning);
    forall task ensures s.ran[task] == s.accepted[task] {
      assert TaskExact(s, task);
      SumZero(s.producers, ProducerHas(task));
      SumZero(s.workers, WorkerHas(task));
    }
  }

  // ----- progress

  /** A step of the pool itself, as opposed to a new call of `Do` or `Run`. */
  predicate Internal(a: Action) { !a.CallDo? && !a.CallRun? }

  /** While the WaitGroup is positive, a worker or a blocked `Do` can take a step. */
  lemma WorkIsNeverStuck(s: State) returns (a: Action)
    requires Inv(s) && s.wg > 0
    ensures Enabled(s, a) && (a.Work? || a.Handoff? || (a.Produce? && s.producers[a.p].Sending?))
  {
    if s.queueClosed { ClosedIsDrained(s); }
    if w :| 0 <= w < |s.workers| && !s.workers[w].Receiving? {
      a := Work(w);
    } else if s.queue != [] {
      a := Work(0);
    } else {
      SumZero(s.workers, WorkerWg);
      var p := SumWitness(s.producers, ProducerWg);
      a := if s.capacity == 0 then Handoff(p, 0) else Produce(p);
    }
  }

  function ProducerLeft(p: Producer): int {
    match p case Outside => 0 case Checked(_) => 7 case Raised(_) => 6 case Sending(_) => 5
  }
  function WorkerLeft(w: Worker): int {
    match w case Exited => 0 case Receiving => 1 case Lowered => 2 case Ran => 3 case Running(_) => 4
  }
  function RunnerLeft(r: Runner): int {
    match r case NotCalled => 0 case Waiting => 2 case Closing => 1 case Returned(_) => 0
  }

  /** What is left to do: blocked producers, queued tasks, phases of workers and of `Run`. */
  function Left(s: State): int {
    Sum(s.producers, ProducerLeft) + 4 * |s.queue| + Sum(s.workers, WorkerLeft) + Sum(s.runners, RunnerLeft)
  }

  lemma LeftIsNat(s: State)
    ensures Left(s) >= 0
  {
    SumBounds(s.producers, ProducerLeft);
    SumBounds(s.workers, WorkerLeft);
    SumBounds(s.runners, RunnerLeft);
  }

  lemma WorkLeavesLess(s: State, w: nat)
    requires Enabled(s, Work(w)) && !StepWork(s, w).crashed
    ensures Left(StepWork(s, w)) < Left(s)
  {
    SumUpdate(s.workers, WorkerLeft, w, StepWork(s, w).workers[w]);
  }

  lemma ProduceLeavesLess(s: State, p: nat)
    requires Enabled(s, Produce(p)) && !StepProduce(s, p).crashed
    ensures Left(StepProduce(s, p)) < Left(s)
  {
    SumUpdate(s.producers, ProducerLeft, p, StepProduce(s, p).producers[p]);
  }

  lemma HandoffLeavesLess(s: State, p: nat, w: nat)
    requires Enabled(s, Handoff(p, w))
    ensures Left(Step(s, Handoff(p, w))) < Left(s)
  {
    var s' := Step(s, Handoff(p, w));
    SumUpdate(s.producers, ProducerLeft, p, s'.producers[p]);
    SumUpdate(s.workers, WorkerLeft, w, s'.workers[w]);
  }

  lemma RunLeavesLess(s: State, a: Action)
    requires Enabled(s, a) && (a.CallRun? || a.Finish?) && !Step(s, a).crashed
    ensures a.Finish? ==> Left(Step(s, a)) < Left(s)
    ensures a.CallRun? && s.closed ==> Left(Step(s, a)) == Left(s)
  {
    SumUpdate(s.runners, RunnerLeft, a.r, Step(s, a).runners[a.r]);
  }

  /** Every step of the pool leaves less to do; calls on a closed pool leave as much. */
  lemma StepsLeaveLess(s: State, a: Action)
    requires Inv(s) && Enabled(s, a) && Allowed(s, a)
    ensures Internal(a) ==> Left(Step(s, a)) < Left(s)
    ensures !Internal(a) && s.closed ==> Left(Step(s, a)) == Left(s)
  {
    assert !Step(s, a).crashed by { StepKeepsInv(s, a); }
    match a
    case CallDo(_, _) =>
    case Produce(p) => ProduceLeavesLess(s, p);
    case Handoff(p, w) => HandoffLeavesLess(s, p, w);
    case Work(w) => WorkLeavesLess(s, w);
    case CallRun(_) => RunLeavesLess(s, a);
    case Finish(_) => RunLeavesLess(s, a);
  }

  function CountInternal(actions: seq<Action>, i: nat, j: nat): nat
    requires i <= j <= |actions|
    decreases j
  {
    if i == j then 0 else CountInternal(actions, i, j - 1) + (if Internal(actions[j - 1]) then 1 else 0)
  }

  /** A step of the pool leaves less to do, a call no more. */
  predicate Descends(states: seq<State>, actions: seq<Action>, k: nat)
    requires k < |actions| && |states| == |actions| + 1
  {
    0 <= Left(states[k + 1]) <= Left(states[k]) - if Internal(actions[k]) then 1 else 0
  }

  lemma ClosedStepDescends(states: seq<State>, actions: seq<Action>, i: nat, k: nat)
    requires IsRun(states, actions) && i <= k < |actions| && states[i].closed
    ensures Descends(states, actions, k)
  {
    ClosedAcceptsNothing(states, actions, i, k);
    ReachableInv(states, actions, k);
    StepsLeaveLess(states[k], actions[k]);
    LeftIsNat(states[k + 1]);
  }

  lemma {:induction false} DescentsAddUp(states: seq<State>, actions: seq<Action>, i: nat, j: nat)
    requires |states| == |actions| + 1 && i <= j <= |actions|
    requires forall k: nat :: i <= k < j ==> Descends(states, actions, k)
    ensures Left(states[j]) <= Left(states[i]) - CountInternal(actions, i, j)
    decreases j
  {
    if i < j {
      DescentsAddUp(states, actions, i, j - 1);
      assert Descends(states, actions, j - 1);
    }
  }

  /** After `Run` has closed the pool, at most `Left` more steps are taken, however calls interleave. */
  lemma ClosedPoolStops(states: seq<State>, actions: seq<Action>, i: nat, j: nat)
    requires IsRun(states, actions) && i <= j < |states| && states[i].closed
    ensures 0 <= Left(states[j]) <= Left(states[i]) - CountInternal(actions, i, j)
  {
    forall k: nat | i <= k < j ensures Descends(states, actions, k) {
      ClosedStepDescends(states, actions, i, k);
    }
    LeftIsNat(states[j]);
    DescentsAddUp(states, actions, i, j);
  }

  /** And when no step is left after a call of `Run`, the winning one has returned, every worker has exited, and
      what has run is what was given to `Do` before. */
  lemma StoppedPoolIsDone(states: seq<State>, actions: seq<Action>, i: nat)
    requires IsRun(states, actions) && i < |states| && RunCalled(actions, i)
    requires forall a :: Internal(a) ==> !Enabled(states[i], a)
    ensures exists r :: 0 <= r < |states[i].runners| && states[i].runners[r] == Returned(true)
    ensures forall w :: 0 <= w < |states[i].workers| ==> states[i].workers[w].Exited?
    ensures states[i].ran == Given(actions, i)
  {
    AcceptedIsGiven(states, actions, i);
    ReachableInv(states, actions, i);
    var s := states[i];
    SumsNonNegative(s);
    if s.wg > 0 {
      var a := WorkIsNeverStuck(s);
      assert false;
    }
    var r := SumWitness(s.runners, RunnerWon);
    assert !Enabled(s, Finish(r));
    assert s.runners[r] == Returned(true);
    DrainedRanAll(s);
    forall w | 0 <= w < |s.workers| ensures s.workers[w].Exited? {
      assert !Enabled(s, Work(w));
    }
  }

  // ----- the rule is needed

  lemma Extend(states: seq<State>, actions: seq<Action>, a: Action) returns (states': seq<State>, actions': seq<Action>)
    requires IsTrace(states, actions) && Enabled(states[|actions|], a)
    ensures IsTrace(states', actions')
    ensures actions' == actions + [a] && states' == states + [Step(states[|actions|], a)]
  {
    states', actions' := states + [Step(states[|actions|], a)], actions + [a];
    forall i | 0 <= i < |actions'|
      ensures Enabled(states'[i], actions'[i]) && states'[i + 1] == Step(states'[i], actions'[i])
    {
      if i < |actions| {
        assert actions'[i] == actions[i] && states'[i] == states[i] && states'[i + 1] == states[i + 1];
      }
    }
  }

  /** A `Do` that is past its closed check when `Run` closes the pool sends on a closed channel. */
  lemma DoRacingRunPanics() returns (states: seq<State>, actions: seq<Action>)
    ensures IsTrace(states, actions) && states[|actions|].crashed
  {
    var start := New(1, None, 1, 1);
    states, actions := [start.value], [];
    states, actions := Extend(states, actions, CallDo(0, 7));
    states, actions := Extend(states, actions, CallRun(0));
    states, actions := Extend(states, actions, Finish(0));
    states, actions := Extend(states, actions, Finish(0));
    states, actions := Extend(states, actions, Produce(0));
    states, actions := Extend(states, actions, Produce(0));
    states, actions := Extend(states, actions, Produce(0));
  }
}
