/**
 The keyed mutex of mutex.go as a system of atomic steps.

 Every goroutine has a program counter whose values name the points of `Lock` and `Unlock` between
 which another goroutine may run.  Goroutines are the indices of a sequence of any length, keys are
 any strings, a goroutine may hold any number of keys at once, and a `keyMutex` is an address in a
 heap that only grows, so that a deleted and a recreated entry are told apart.
 */
module KeyedMutex {
  import opened Wrappers

  type Key = string
  type Gid = nat
  type Ref = nat

  /** `key` and `owner` are history: the key the entry was created for, and the goroutine that has
      the entry's mutex locked.  No step of the code reads them. */
  datatype KeyMutex = KeyMutex(key: Key, locked: bool, owner: Option<Gid>, refcount: int)

  datatype Pc =
    | Idle
    | LockEnter(key: Key)              // about to take km.mu
    | LockInside(key: Key)             // holds km.mu, entry not looked up yet
    | LockLeave(key: Key, m: Ref)      // entry counted, about to release km.mu
    | LockWait(key: Key, m: Ref)       // at m.mu.Lock()
    | UnlockEnter(key: Key)            // about to take km.mu
    | UnlockInside(key: Key)           // holds km.mu, entry not looked up yet
    | UnlockMissing(key: Key)          // no entry, about to release km.mu and return
    | UnlockLeave(key: Key, m: Ref)    // entry discounted, about to release km.mu
    | UnlockRelease(key: Key, m: Ref)  // at m.mu.Unlock()

  /** `held` is history: the keys whose `Lock` has returned, with the entry that was locked, until
      the matching `Unlock` has looked its entry up.  `Unlock` itself is given a key and no more. */
  datatype Thread = Thread(pc: Pc, held: map<Key, Ref>)

  /** `crashed` is the fatal error of `sync.Mutex` on unlocking an unlocked mutex. */
  datatype State = State(
    globalHolder: Option<Gid>,
    locks: map<Key, Ref>,
    heap: map<Ref, KeyMutex>,
    threads: seq<Thread>,
    crashed: bool)

  datatype Action =
    | CallLock(key: Key)
    | CallUnlock(key: Key)
    | Advance(addr: Ref)               // `addr` is the address a new entry would get

  ghost predicate Init(s: State) {
    && s.globalHolder == None && s.locks == map[] && s.heap == map[] && !s.crashed
    && forall g :: 0 <= g < |s.threads| ==> s.threads[g] == Thread(Idle, map[])
  }

  predicate Enabled(s: State, g: Gid, a: Action) {
    && g < |s.threads| && !s.crashed
    && var pc := s.threads[g].pc;
       match a
       case CallLock(_) => pc.Idle?
       case CallUnlock(_) => pc.Idle?
       case Advance(addr) =>
         match pc
         case Idle => false
         case LockEnter(_) => s.globalHolder == None
         case UnlockEnter(_) => s.globalHolder == None
         case LockInside(k) => addr !in s.heap && (k in s.locks ==> s.locks[k] in s.heap)
         case UnlockInside(k) => k in s.locks ==> s.locks[k] in s.heap
         case LockWait(_, m) => m in s.heap && !s.heap[m].locked
         case UnlockRelease(_, m) => m in s.heap
         case _ => true
  }

  function SetPc(s: State, g: Gid, pc: Pc): State
    requires g < |s.threads|
  {
    s.(threads := s.threads[g := s.threads[g].(pc := pc)])
  }

  /** One atomic step of goroutine `g`. */
  function Step(s: State, g: Gid, a: Action): State
    requires Enabled(s, g, a)
  {
    match a
    case CallLock(k) => SetPc(s, g, LockEnter(k))
    case CallUnlock(k) => SetPc(s, g, UnlockEnter(k))
    case Advance(addr) =>
      match s.threads[g].pc
      case LockEnter(k) => SetPc(s, g, LockInside(k)).(globalHolder := Some(g))
      case LockInside(k) => Count(s, g, k, addr)
      case LockLeave(k, m) => SetPc(s, g, LockWait(k, m)).(globalHolder := None)
      case LockWait(k, m) => Acquire(s, g, k, m)
      case UnlockEnter(k) => SetPc(s, g, UnlockInside(k)).(globalHolder := Some(g))
      case UnlockInside(k) => Discount(s, g, k)
      case UnlockMissing(k) => SetPc(s, g, Idle).(globalHolder := None)
      case UnlockLeave(k, m) => SetPc(s, g, UnlockRelease(k, m)).(globalHolder := None)
      case UnlockRelease(k, m) => Release(s, g, m)
  }

  /** Lines 64-69: create the entry when it is absent, then count this goroutine. */
  function Count(s: State, g: Gid, k: Key, addr: Ref): State
    requires g < |s.threads| && addr !in s.heap
    requires k in s.locks ==> s.locks[k] in s.heap
  {
    var m := if k in s.locks then s.locks[k] else addr;
    var entry := if k in s.locks then s.heap[m] else KeyMutex(k, false, None, 0);
    SetPc(s, g, LockLeave(k, m)).(
      locks := s.locks[k := m],
      heap := s.heap[m := entry.(refcount := entry.refcount + 1)])
  }

  /** Line 72, once the per-key mutex is free. */
  function Acquire(s: State, g: Gid, k: Key, m: Ref): State
    requires g < |s.threads| && m in s.heap
  {
    s.(heap := s.heap[m := s.heap[m].(locked := true, owner := Some(g))],
       threads := s.threads[g := Thread(Idle, s.threads[g].held[k := m])])
  }

  /** Lines 92-100: look the entry up, discount it, delete it at zero. */
  function Discount(s: State, g: Gid, k: Key): State
    requires g < |s.threads|
    requires k in s.locks ==> s.locks[k] in s.heap
  {
    if k !in s.locks then
      SetPc(s, g, UnlockMissing(k))
    else
      var m := s.locks[k];
      var count := s.heap[m].refcount - 1;
      s.(heap := s.heap[m := s.heap[m].(refcount := count)],
         locks := if count == 0 then s.locks - {k} else s.locks,
         threads := s.threads[g := Thread(UnlockLeave(k, m), s.threads[g].held - {k})])
  }

  /** Line 103. */
  function Release(s: State, g: Gid, m: Ref): State
    requires g < |s.threads| && m in s.heap
  {
    if s.heap[m].locked then
      SetPc(s, g, Idle).(heap := s.heap[m := s.heap[m].(locked := false, owner := None)])
    else
      s.(crashed := true)
  }

  // ----- the invariant

  predicate InGlobal(pc: Pc) {
    pc.LockInside? || pc.LockLeave? || pc.UnlockInside? || pc.UnlockMissing? || pc.UnlockLeave?
  }

  /** The goroutine is in `Unlock` of a key it has already discounted. */
  predicate Releasing(t: Thread) {
    t.pc.UnlockLeave? || t.pc.UnlockRelease?
  }

  /** The goroutine has been counted and its `Lock` has not returned. */
  predicate Waiting(t: Thread) {
    t.pc.LockLeave? || t.pc.LockWait?
  }

  predicate Waits(t: Thread, k: Key) {
    Waiting(t) && t.pc.key == k
  }

  ghost function Waiters(s: State, k: Key): set<Gid> {
    set g | 0 <= g < |s.threads| && Waits(s.threads[g], k)
  }

  ghost function Holders(s: State, k: Key): set<Gid> {
    set g | 0 <= g < |s.threads| && k in s.threads[g].held
  }

  /** The number of goroutines waiting on or holding `k`. */
  ghost function Claims(s: State, k: Key): nat {
    |Waiters(s, k)| + |Holders(s, k)|
  }

  /** A key held by `g`: the map lists the entry that `g` locked, and it is locked by `g`. */
  predicate HeldOk(s: State, g: Gid, k: Key)
    requires g < |s.threads|
  {
    var held := s.threads[g].held;
    k in held ==>
      && k in s.locks && s.locks[k] == held[k]
      && held[k] in s.heap && s.heap[held[k]].owner == Some(g)
  }

  /** A goroutine in `Unlock` past the lookup: it still has the entry's mutex locked. */
  predicate ReleasingOk(s: State, g: Gid)
    requires g < |s.threads|
  {
    var t := s.threads[g];
    Releasing(t) ==>
      && t.pc.m in s.heap && s.heap[t.pc.m].owner == Some(g) && s.heap[t.pc.m].key == t.pc.key
      && t.pc.key !in t.held
  }

  ghost predicate ThreadOk(s: State, g: Gid)
    requires g < |s.threads|
  {
    var t := s.threads[g];
    && (InGlobal(t.pc) <==> s.globalHolder == Some(g))
    && (Waiting(t) ==> t.pc.key in s.locks && s.locks[t.pc.key] == t.pc.m)
    && ReleasingOk(s, g)
    && forall k :: HeldOk(s, g, k)
  }

  /** A listed entry counts the goroutines that wait on or hold its key, and there is one. */
  ghost predicate EntryOk(s: State, k: Key) {
    k in s.locks ==>
      var m := s.locks[k];
      m in s.heap && s.heap[m].key == k && s.heap[m].refcount == Claims(s, k) > 0
  }

  /** A per-key mutex is locked exactly while one goroutine holds its key or is giving it up. */
  predicate MutexOk(s: State, m: Ref) {
    m in s.heap ==>
      var e := s.heap[m];
      && (e.locked <==> e.owner.Some?)
      && (e.owner.Some? ==>
            e.owner.value < |s.threads|
            && var t := s.threads[e.owner.value];
               (e.key in t.held && t.held[e.key] == m) || (Releasing(t) && t.pc.m == m))
  }

  ghost predicate Inv(s: State) {
    && !s.crashed
    && (s.globalHolder.Some? ==> s.globalHolder.value < |s.threads|)
    && (forall g :: 0 <= g < |s.threads| ==> ThreadOk(s, g))
    && (forall k :: EntryOk(s, k))
    && (forall m :: MutexOk(s, m))
  }

  // ----- every step keeps the invariant

  lemma SameClaims(s: State, s': State, k: Key)
    requires |s.threads| == |s'.threads|
    requires forall g :: 0 <= g < |s.threads| ==>
      (Waits(s.threads[g], k) <==> Waits(s'.threads[g], k)) && (k in s.threads[g].held <==> k in s'.threads[g].held)
    ensures Waiters(s, k) == Waiters(s', k) && Holders(s, k) == Holders(s', k)
  {
  }

  /** The points at which `Lock` and `Unlock` take and release km.mu change no entry and no claim. */
  lemma MoveKeepsInv(s: State, g: Gid, a: Action)
    requires Inv(s) && Enabled(s, g, a)
    requires a.Advance? ==> var pc := s.threads[g].pc;
      !pc.LockInside? && !pc.LockWait? && !pc.UnlockInside? && !pc.UnlockRelease?
    ensures Inv(Step(s, g, a))
  {
    var s' := Step(s, g, a);
    MoveKeepsThreads(s, g, a);
    forall k ensures EntryOk(s', k) {
      assert EntryOk(s, k);
      SameClaims(s, s', k);
    }
    forall m ensures MutexOk(s', m) { assert MutexOk(s, m); }
  }

  lemma MoveKeepsThreads(s: State, g: Gid, a: Action)
    requires Inv(s) && Enabled(s, g, a)
    requires a.Advance? ==> var pc := s.threads[g].pc;
      !pc.LockInside? && !pc.LockWait? && !pc.UnlockInside? && !pc.UnlockRelease?
    ensures forall h :: 0 <= h < |s.threads| ==> ThreadOk(Step(s, g, a), h)
    ensures var s' := Step(s, g, a); s'.globalHolder.Some? ==> s'.globalHolder.value < |s.threads|
  {
    var s' := Step(s, g, a);
    assert ThreadOk(s, g);
    forall h | 0 <= h < |s.threads| ensures ThreadOk(s', h) {
      assert ThreadOk(s, h);
      forall k ensures HeldOk(s', h, k) { assert HeldOk(s, h, k); }
    }
  }

  lemma CountKeepsInv(s: State, g: Gid, addr: Ref)
    requires Inv(s) && Enabled(s, g, Advance(addr)) && s.threads[g].pc.LockInside?
    ensures Inv(Step(s, g, Advance(addr)))
  {
    var s' := Step(s, g, Advance(addr));
    var key := s.threads[g].pc.key;
    assert EntryOk(s, key);
    CountKeepsThreads(s, g, addr);
    CountKeepsEntries(s, g, addr);
    forall m ensures MutexOk(s', m) { assert MutexOk(s, m); }
  }

  lemma CountKeepsThreads(s: State, g: Gid, addr: Ref)
    requires Inv(s) && Enabled(s, g, Advance(addr)) && s.threads[g].pc.LockInside?
    ensures forall h :: 0 <= h < |s.threads| ==> ThreadOk(Step(s, g, Advance(addr)), h)
  {
    var s' := Step(s, g, Advance(addr));
    assert ThreadOk(s, g) && EntryOk(s, s.threads[g].pc.key);
    forall h | 0 <= h < |s.threads| ensures ThreadOk(s', h) {
      assert ThreadOk(s, h);
      forall k ensures HeldOk(s', h, k) { assert HeldOk(s, h, k); }
    }
  }

  lemma CountKeepsEntries(s: State, g: Gid, addr: Ref)
    requires Inv(s) && Enabled(s, g, Advance(addr)) && s.threads[g].pc.LockInside?
    ensures forall k :: EntryOk(Step(s, g, Advance(addr)), k)
  {
    var s' := Step(s, g, Advance(addr));
    var key := s.threads[g].pc.key;
    assert EntryOk(s, key);
    forall k ensures EntryOk(s', k) {
      assert EntryOk(s, k);
      if k == key {
        CountClaims(s, g, addr, key);
        if k !in s.locks {
          NoEntryNoClaims(s, k);
        }
      } else {
        SameClaims(s, s', k);
      }
    }
  }

  lemma CountClaims(s: State, g: Gid, addr: Ref, k: Key)
    requires Enabled(s, g, Advance(addr)) && s.threads[g].pc == LockInside(k)
    ensures var s' := Step(s, g, Advance(addr));
      && Waiters(s', k) == Waiters(s, k) + {g} && g !in Waiters(s, k)
      && Holders(s', k) == Holders(s, k)
  {
  }

  lemma NoEntryNoClaims(s: State, k: Key)
    requires Inv(s) && k !in s.locks
    ensures Waiters(s, k) == {} && Holders(s, k) == {}
  {
    forall g | 0 <= g < |s.threads| ensures g !in Waiters(s, k) && g !in Holders(s, k) {
      assert ThreadOk(s, g) && HeldOk(s, g, k);
    }
  }

  lemma AcquireKeepsInv(s: State, g: Gid, addr: Ref)
    requires Inv(s) && Enabled(s, g, Advance(addr)) && s.threads[g].pc.LockWait?
    ensures Inv(Step(s, g, Advance(addr)))
  {
    var s' := Step(s, g, Advance(addr));
    var key, m0 := s.threads[g].pc.key, s.threads[g].pc.m;
    assert key in s.locks && s.locks[key] == m0 && s.heap[m0].owner == None && s.heap[m0].key == key by {
      assert ThreadOk(s, g) && EntryOk(s, key) && MutexOk(s, m0);
    }
    assert key !in s.threads[g].held by { assert HeldOk(s, g, key); }
    forall h | 0 <= h < |s'.threads| ensures ThreadOk(s', h) {
      assert ThreadOk(s, h);
      forall k ensures HeldOk(s', h, k) { assert HeldOk(s, h, k); }
    }
    AcquireKeepsEntries(s, g, addr);
    forall m ensures MutexOk(s', m) { assert MutexOk(s, m); }
  }

  lemma AcquireKeepsEntries(s: State, g: Gid, addr: Ref)
    requires Inv(s) && Enabled(s, g, Advance(addr)) && s.threads[g].pc.LockWait?
    ensures forall k :: EntryOk(Step(s, g, Advance(addr)), k)
  {
    var s' := Step(s, g, Advance(addr));
    var key := s.threads[g].pc.key;
    assert key !in s.threads[g].held by {
      assert ThreadOk(s, g) && HeldOk(s, g, key) && MutexOk(s, s.threads[g].pc.m);
    }
    forall k ensures EntryOk(s', k) {
      assert EntryOk(s, k);
      if k == key {
        AcquireClaims(s, g, addr, key);
      } else {
        SameClaims(s, s', k);
      }
    }
  }

  lemma AcquireClaims(s: State, g: Gid, addr: Ref, k: Key)
    requires Enabled(s, g, Advance(addr)) && s.threads[g].pc.LockWait? && s.threads[g].pc.key == k
    requires k !in s.threads[g].held
    ensures var s' := Step(s, g, Advance(addr));
      && Waiters(s', k) == Waiters(s, k) - {g} && g in Waiters(s, k)
      && Holders(s', k) == Holders(s, k) + {g} && g !in Holders(s, k)
  {
  }

  lemma DiscountKeepsInv(s: State, g: Gid, addr: Ref)
    requires Inv(s) && Enabled(s, g, Advance(addr)) && s.threads[g].pc.UnlockInside?
    requires var k := s.threads[g].pc.key; k in s.threads[g].held || k !in s.locks
    ensures Inv(Step(s, g, Advance(addr)))
  {
    var s' := Step(s, g, Advance(addr));
    var key := s.threads[g].pc.key;
    assert ThreadOk(s, g) && HeldOk(s, g, key) && EntryOk(s, key);
    forall k ensures EntryOk(s', k) {
      assert EntryOk(s, k);
      if k == key && k in s.locks {
        assert Waiters(s', k) == Waiters(s, k);
        assert Holders(s', k) == Holders(s, k) - {g};
      } else {
        SameClaims(s, s', k);
      }
    }
    forall h | 0 <= h < |s'.threads| ensures ThreadOk(s', h) {
      assert ThreadOk(s, h);
      forall k ensures HeldOk(s', h, k) {
        assert HeldOk(s, h, k);
        if k == key && h != g { assert k in s.threads[h].held ==> {g, h} <= Holders(s, k); }
      }
      if Waits(s.threads[h], key) { assert h in Waiters(s, key) && g in Holders(s, key); }
    }
    forall m ensures MutexOk(s', m) { assert MutexOk(s, m); }
  }

  lemma ReleaseKeepsInv(s: State, g: Gid, addr: Ref)
    requires Inv(s) && Enabled(s, g, Advance(addr)) && s.threads[g].pc.UnlockRelease?
    ensures Inv(Step(s, g, Advance(addr)))
  {
    var s' := Step(s, g, Advance(addr));
    var key, m0 := s.threads[g].pc.key, s.threads[g].pc.m;
    assert ThreadOk(s, g) && ReleasingOk(s, g) && MutexOk(s, m0);
    forall h | 0 <= h < |s'.threads| ensures ThreadOk(s', h) {
      assert ThreadOk(s, h);
      forall k ensures HeldOk(s', h, k) {
        assert HeldOk(s, h, k);
        if k in s.threads[h].held { assert EntryOk(s, k); }
      }
    }
    forall k ensures EntryOk(s', k) {
      assert EntryOk(s, k);
      SameClaims(s, s', k);
    }
    forall m ensures MutexOk(s', m) { assert MutexOk(s, m); }
  }

  /** Exactly which lookups of `Unlock` keep the accounting: those of a held key, and those that find
      no entry.  `Unlock` of a key that only others hold or wait for breaks it. */
  lemma DiscountKeepsInvIff(s: State, g: Gid, addr: Ref)
    requires Inv(s) && Enabled(s, g, Advance(addr)) && s.threads[g].pc.UnlockInside?
    ensures var k := s.threads[g].pc.key;
      Inv(Step(s, g, Advance(addr))) <==> k in s.threads[g].held || k !in s.locks
  {
    var s' := Step(s, g, Advance(addr));
    var key := s.threads[g].pc.key;
    if key in s.threads[g].held || key !in s.locks {
      DiscountKeepsInv(s, g, addr);
    } else {
      assert EntryOk(s, key);
      SameClaims(s, s', key);
      if key in s'.locks {
        assert !EntryOk(s', key);
      } else {
        var h :| h in Waiters(s, key) + Holders(s, key);
        assert !ThreadOk(s', h) by {
          if h in Holders(s, key) { assert !HeldOk(s', h, key); }
        }
      }
    }
  }

  // ----- the client rule, and runs

  /** The client rule: `Unlock(k)` is called only by a goroutine that holds `k`. */
  predicate Allowed(s: State, g: Gid, a: Action)
    requires g < |s.threads|
  {
    a.CallUnlock? ==> a.key in s.threads[g].held
  }

  /** What the client rule gives inside `Unlock` before and at the lookup. */
  ghost predicate Disciplined(s: State) {
    forall g :: 0 <= g < |s.threads| ==>
      var t := s.threads[g];
      && !t.pc.UnlockMissing?
      && (t.pc.UnlockEnter? || t.pc.UnlockInside? ==> t.pc.key in t.held)
  }

  lemma InitKeepsInv(s: State)
    requires Init(s)
    ensures Inv(s) && Disciplined(s)
  {
  }

  lemma StepKeepsInv(s: State, g: Gid, a: Action)
    requires Inv(s) && Disciplined(s) && Enabled(s, g, a) && Allowed(s, g, a)
    ensures Inv(Step(s, g, a)) && Disciplined(Step(s, g, a))
  {
    var pc := s.threads[g].pc;
    if a.Advance? && pc.LockInside? {
      CountKeepsInv(s, g, a.addr);
    } else if a.Advance? && pc.LockWait? {
      AcquireKeepsInv(s, g, a.addr);
    } else if a.Advance? && pc.UnlockInside? {
      assert ThreadOk(s, g) && HeldOk(s, g, pc.key);
      DiscountKeepsInv(s, g, a.addr);
    } else if a.Advance? && pc.UnlockRelease? {
      ReleaseKeepsInv(s, g, a.addr);
    } else {
      MoveKeepsInv(s, g, a);
    }
  }

  datatype Move = Move(g: Gid, action: Action)

  /** Any interleaving of any number of goroutines. */
  ghost predicate IsTrace(states: seq<State>, moves: seq<Move>) {
    && |states| == |moves| + 1
    && Init(states[0])
    && forall i :: 0 <= i < |moves| ==>
         && Enabled(states[i], moves[i].g, moves[i].action)
         && states[i + 1] == Step(states[i], moves[i].g, moves[i].action)
  }

  /** Any interleaving of any number of goroutines that follow the client rule. */
  ghost predicate IsRun(states: seq<State>, moves: seq<Move>) {
    && IsTrace(states, moves)
    && forall i :: 0 <= i < |moves| ==> Allowed(states[i], moves[i].g, moves[i].action)
  }

  lemma {:induction false} RunKeepsInv(states: seq<State>, moves: seq<Move>, i: nat)
    requires IsRun(states, moves) && i < |states|
    ensures Inv(states[i]) && Disciplined(states[i])
  {
    if i == 0 {
      InitKeepsInv(states[0]);
    } else {
      RunKeepsInv(states, moves, i - 1);
      StepKeepsInv(states[i - 1], moves[i - 1].g, moves[i - 1].action);
    }
  }

  // ----- what every reachable state satisfies

  /** At most one goroutine is between the return of `Lock(k)` and the lookup of its `Unlock(k)`. */
  lemma MutualExclusion(states: seq<State>, moves: seq<Move>, i: nat, g: Gid, h: Gid, k: Key)
    requires IsRun(states, moves) && i < |states|
    requires g < |states[i].threads| && h < |states[i].threads|
    requires k in states[i].threads[g].held && k in states[i].threads[h].held
    ensures g == h
  {
    RunKeepsInv(states, moves, i);
    assert ThreadOk(states[i], g) && HeldOk(states[i], g, k);
    assert ThreadOk(states[i], h) && HeldOk(states[i], h, k);
  }

  predicate Quiescent(s: State) {
    forall g :: 0 <= g < |s.threads| ==> s.threads[g] == Thread(Idle, map[])
  }

  /** The map lists exactly the keys that some goroutine waits on or holds, each with the number of
      them; nobody waits on an entry that was removed from the map, or on a per-key mutex while
      holding km.mu; and when nobody uses the mutex the map is empty. */
  lemma AccountingIsExact(states: seq<State>, moves: seq<Move>, i: nat)
    requires IsRun(states, moves) && i < |states|
    ensures var s := states[i];
      && (forall k :: k in s.locks <==> Claims(s, k) > 0)
      && (forall k :: k in s.locks ==> s.locks[k] in s.heap && s.heap[s.locks[k]].refcount == Claims(s, k))
      && (forall g :: 0 <= g < |s.threads| && s.threads[g].pc.LockWait? ==>
            s.globalHolder != Some(g)
            && s.threads[g].pc.key in s.locks && s.locks[s.threads[g].pc.key] == s.threads[g].pc.m)
      && (Quiescent(s) ==> s.locks == map[])
  {
    RunKeepsInv(states, moves, i);
    var s := states[i];
    forall k ensures k in s.locks <==> Claims(s, k) > 0
      ensures k in s.locks ==> s.locks[k] in s.heap && s.heap[s.locks[k]].refcount == Claims(s, k)
    {
      assert EntryOk(s, k);
      if k !in s.locks { NoEntryNoClaims(s, k); }
    }
    forall g | 0 <= g < |s.threads| && s.threads[g].pc.LockWait?
      ensures s.globalHolder != Some(g)
      ensures s.threads[g].pc.key in s.locks && s.locks[s.threads[g].pc.key] == s.threads[g].pc.m
    {
      assert ThreadOk(s, g);
    }
    if Quiescent(s) {
      forall k ensures k !in s.locks {
        assert Waiters(s, k) == {} && Holders(s, k) == {};
      }
    }
  }

  /** `Unlock` always finds an entry, it is the one this goroutine's `Lock` locked, and unlocking it
      is never the fatal error. */
  lemma UnlockFindsWhatLockLocked(states: seq<State>, moves: seq<Move>, i: nat, g: Gid)
    requires IsRun(states, moves) && i < |states| && g < |states[i].threads|
    ensures var s, t := states[i], states[i].threads[g];
      && !s.crashed
      && !t.pc.UnlockMissing?
      && (t.pc.UnlockInside? ==>
            t.pc.key in t.held && t.pc.key in s.locks && s.locks[t.pc.key] == t.held[t.pc.key])
      && (t.pc.UnlockRelease? ==> t.pc.m in s.heap && s.heap[t.pc.m].locked)
  {
    RunKeepsInv(states, moves, i);
    var s, t := states[i], states[i].threads[g];
    assert ThreadOk(s, g);
    if t.pc.UnlockInside? { assert HeldOk(s, g, t.pc.key); }
    if t.pc.UnlockRelease? { assert Releasing(t) && MutexOk(s, t.pc.m); }
  }

  lemma UnusedAddress(used: set<Ref>) returns (addr: Ref)
    ensures addr !in used
  {
    var rest := used;
    addr := 0;
    while rest != {}
      invariant rest <= used
      invariant forall r :: r in used && r !in rest ==> r < addr
      decreases rest
    {
      var r :| r in rest;
      rest := rest - {r};
      addr := if r < addr then addr else r + 1;
    }
  }

  /** The goroutine waits for a key that a client has locked and not yet unlocked. */
  ghost predicate BlockedByClient(s: State, g: Gid)
    requires g < |s.threads|
  {
    && s.threads[g].pc.LockWait?
    && exists h :: 0 <= h < |s.threads| && s.threads[g].pc.key in s.threads[h].held
  }

  /** The protocol never stalls on its own: when no goroutine can take a step inside `Lock` or
      `Unlock`, every goroutine is outside them or waits for a key that a client still holds. */
  lemma OnlyClientsBlock(states: seq<State>, moves: seq<Move>, i: nat)
    requires IsRun(states, moves) && i < |states|
    requires forall g, addr :: !Enabled(states[i], g, Advance(addr))
    ensures forall g :: 0 <= g < |states[i].threads| ==>
      states[i].threads[g].pc.Idle? || BlockedByClient(states[i], g)
  {
    RunKeepsInv(states, moves, i);
    var s := states[i];
    var addr := UnusedAddress(s.heap.Keys);
    assert s.globalHolder == None by {
      if s.globalHolder.Some? {
        var g := s.globalHolder.value;
        assert ThreadOk(s, g) && EntryOk(s, s.threads[g].pc.key);
        assert Enabled(s, g, Advance(addr));
      }
    }
    forall g | 0 <= g < |s.threads| && !s.threads[g].pc.Idle? ensures BlockedByClient(s, g) {
      var pc := s.threads[g].pc;
      assert ThreadOk(s, g) && ReleasingOk(s, g) && !Enabled(s, g, Advance(addr));
      assert EntryOk(s, pc.key) && MutexOk(s, pc.m);
      var h := s.heap[pc.m].owner.value;
      assert ThreadOk(s, h) && ReleasingOk(s, h) && !Enabled(s, h, Advance(addr));
    }
  }

  // ----- when `Unlock` panics

  /** `Unlock` from its lookup of a listed key to its end, with no step of another goroutine in between. */
  function FinishUnlock(s: State, g: Gid): State
    requires g < |s.threads| && !s.crashed && s.threads[g].pc.UnlockInside?
    requires var k := s.threads[g].pc.key; k in s.locks && s.locks[k] in s.heap
  {
    var discounted := Step(s, g, Advance(0));
    var left := Step(discounted, g, Advance(0));
    Step(left, g, Advance(0))
  }

  /** A whole `Unlock(k)` with no step of another goroutine in between. */
  function LoneUnlock(s: State, g: Gid, k: Key): State
    requires g < |s.threads| && !s.crashed && s.threads[g].pc.Idle? && s.globalHolder == None
    requires k in s.locks && s.locks[k] in s.heap
  {
    FinishUnlock(Step(Step(s, g, CallUnlock(k)), g, Advance(0)), g)
  }

  /** Goroutine `h` has the mutex `m` of key `k` locked: it holds the key or is giving it up. */
  predicate HasLocked(s: State, h: Gid, k: Key, m: Ref)
    requires h < |s.threads|
  {
    var t := s.threads[h];
    (k in t.held && t.held[k] == m) || (Releasing(t) && t.pc.m == m)
  }

  lemma LockedIff(s: State, k: Key)
    requires Inv(s) && k in s.locks && s.locks[k] in s.heap
    ensures s.heap[s.locks[k]].locked <==> exists h :: 0 <= h < |s.threads| && HasLocked(s, h, k, s.locks[k])
  {
    var m := s.locks[k];
    assert EntryOk(s, k) && MutexOk(s, m);
    if s.heap[m].locked { assert HasLocked(s, s.heap[m].owner.value, k, m); }
    forall h | 0 <= h < |s.threads| && HasLocked(s, h, k, m) ensures s.heap[m].locked {
      assert ThreadOk(s, h) && HeldOk(s, h, k) && ReleasingOk(s, h);
    }
  }

  /** From its lookup on, an uninterrupted `Unlock` of a listed key panics if and only if the entry's mutex is not
      locked, that is, if and only if nobody holds the key or is giving it up.  So it never panics while somebody
      holds the key, whoever calls it. */
  lemma UnlockPanicsIff(s: State, g: Gid)
    requires Inv(s) && g < |s.threads| && s.threads[g].pc.UnlockInside? && s.threads[g].pc.key in s.locks
    ensures var k := s.threads[g].pc.key;
      && s.locks[k] in s.heap
      && (FinishUnlock(s, g).crashed <==> !s.heap[s.locks[k]].locked)
      && (FinishUnlock(s, g).crashed <==> !exists h :: 0 <= h < |s.threads| && HasLocked(s, h, k, s.locks[k]))
      && forall h :: 0 <= h < |s.threads| && k in s.threads[h].held ==> !FinishUnlock(s, g).crashed
  {
    var k := s.threads[g].pc.key;
    assert EntryOk(s, k);
    LockedIff(s, k);
    forall h | 0 <= h < |s.threads| && k in s.threads[h].held ensures HasLocked(s, h, k, s.locks[k]) {
      assert ThreadOk(s, h) && HeldOk(s, h, k);
    }
  }

  /** The same of a whole call: of the calls that the comment promises a panic for, those of a key that is locked
      by somebody else, none panics unless it is interrupted. */
  lemma LoneUnlockPanicsIff(s: State, g: Gid, k: Key)
    requires Inv(s) && g < |s.threads| && s.threads[g].pc.Idle? && s.globalHolder == None && k in s.locks
    ensures s.locks[k] in s.heap && (LoneUnlock(s, g, k).crashed <==> !s.heap[s.locks[k]].locked)
    ensures forall h :: 0 <= h < |s.threads| && k in s.threads[h].held ==> !LoneUnlock(s, g, k).crashed
  {
    assert EntryOk(s, k);
    var called := Step(s, g, CallUnlock(k));
    MoveKeepsInv(s, g, CallUnlock(k));
    MoveKeepsInv(called, g, Advance(0));
    var inside := Step(called, g, Advance(0));
    UnlockPanicsIff(inside, g);
    assert forall h :: 0 <= h < |s.threads| ==> inside.threads[h].held == s.threads[h].held;
  }

  // ----- three runs

  lemma Extend(states: seq<State>, moves: seq<Move>, g: Gid, a: Action)
    returns (states': seq<State>, moves': seq<Move>)
    requires IsTrace(states, moves) && Enabled(states[|moves|], g, a)
    ensures IsTrace(states', moves')
    ensures moves' == moves + [Move(g, a)] && states' == states + [Step(states[|moves|], g, a)]
  {
    states', moves' := states + [Step(states[|moves|], g, a)], moves + [Move(g, a)];
    forall i | 0 <= i < |moves'|
      ensures Enabled(states'[i], moves'[i].g, moves'[i].action)
      ensures states'[i + 1] == Step(states'[i], moves'[i].g, moves'[i].action)
    {
      if i < |moves| { assert moves'[i] == moves[i] && states'[i] == states[i] && states'[i + 1] == states[i + 1]; }
    }
  }

  /** A call of `Lock` or `Unlock` up to its lookup. */
  lemma ExtendEnter(states: seq<State>, moves: seq<Move>, g: Gid, call: Action)
    returns (states': seq<State>, moves': seq<Move>)
    requires IsTrace(states, moves) && !call.Advance?
    requires var s := states[|moves|];
      g < |s.threads| && s.threads[g].pc.Idle? && !s.crashed && s.globalHolder == None
    ensures IsTrace(states', moves') && |moves'| == |moves| + 2 && states <= states' && moves <= moves'
    ensures moves'[|moves|] == Move(g, call) && moves'[|moves| + 1] == Move(g, Advance(0))
    ensures var s := states[|moves|];
      states'[|moves'|] ==
        SetPc(s, g, if call.CallLock? then LockInside(call.key) else UnlockInside(call.key)).(globalHolder := Some(g))
  {
    states', moves' := Extend(states, moves, g, call);
    states', moves' := Extend(states', moves', g, Advance(0));
  }

  /** `Lock(k)` up to the wait for the entry's mutex. */
  lemma ExtendCount(states: seq<State>, moves: seq<Move>, g: Gid, k: Key, addr: Ref)
    returns (states': seq<State>, moves': seq<Move>)
    requires IsTrace(states, moves)
    requires var s := states[|moves|];
      && g < |s.threads| && s.threads[g].pc.Idle? && !s.crashed && s.globalHolder == None
      && addr !in s.heap && (k in s.locks ==> s.locks[k] in s.heap)
    ensures IsTrace(states', moves') && |moves'| == |moves| + 4 && states <= states' && moves <= moves'
    ensures moves'[|moves|] == Move(g, CallLock(k)) && forall i :: |moves| < i < |moves'| ==> moves'[i].action.Advance?
    ensures var s, s' := states[|moves|], states'[|moves'|];
      var m := if k in s.locks then s.locks[k] else addr;
      var entry := if k in s.locks then s.heap[m] else KeyMutex(k, false, None, 0);
      s' == s.(locks := s.locks[k := m],
               heap := s.heap[m := entry.(refcount := entry.refcount + 1)],
               threads := s.threads[g := s.threads[g].(pc := LockWait(k, m))])
  {
    states', moves' := ExtendEnter(states, moves, g, CallLock(k));
    states', moves' := Extend(states', moves', g, Advance(addr));
    states', moves' := Extend(states', moves', g, Advance(addr));
  }

  /** A whole uncontended `Lock(k)`. */
  lemma ExtendLock(states: seq<State>, moves: seq<Move>, g: Gid, k: Key, addr: Ref)
    returns (states': seq<State>, moves': seq<Move>)
    requires IsTrace(states, moves)
    requires var s := states[|moves|];
      && g < |s.threads| && s.threads[g].pc.Idle? && !s.crashed && s.globalHolder == None
      && k !in s.locks && addr !in s.heap
    ensures IsTrace(states', moves') && |moves'| == |moves| + 5 && states <= states' && moves <= moves'
    ensures moves'[|moves|] == Move(g, CallLock(k)) && forall i :: |moves| < i < |moves'| ==> moves'[i].action.Advance?
    ensures var s, s' := states[|moves|], states'[|moves'|];
      s' == s.(locks := s.locks[k := addr],
               heap := s.heap[addr := KeyMutex(k, true, Some(g), 1)],
               threads := s.threads[g := Thread(Idle, s.threads[g].held[k := addr])])
  {
    states', moves' := ExtendCount(states, moves, g, k, addr);
    states', moves' := Extend(states', moves', g, Advance(addr));
  }

  /** `Unlock(k)` by anyone, up to the release of the entry's mutex. */
  lemma ExtendDrop(states: seq<State>, moves: seq<Move>, g: Gid, k: Key, m: Ref)
    returns (states': seq<State>, moves': seq<Move>)
    requires IsTrace(states, moves)
    requires var s := states[|moves|];
      && g < |s.threads| && s.threads[g].pc.Idle? && !s.crashed && s.globalHolder == None
      && k in s.locks && s.locks[k] == m && m in s.heap
    ensures IsTrace(states', moves') && |moves'| == |moves| + 4 && states <= states' && moves <= moves'
    ensures moves'[|moves|] == Move(g, CallUnlock(k))
    ensures forall i :: |moves| < i < |moves'| ==> moves'[i].action.Advance?
    ensures var s, s' := states[|moves|], states'[|moves'|];
      var count := s.heap[m].refcount - 1;
      s' == s.(locks := if count == 0 then s.locks - {k} else s.locks,
               heap := s.heap[m := s.heap[m].(refcount := count)],
               threads := s.threads[g := Thread(UnlockRelease(k, m), s.threads[g].held - {k})])
  {
    states', moves' := ExtendEnter(states, moves, g, CallUnlock(k));
    states', moves' := Extend(states', moves', g, Advance(0));
    states', moves' := Extend(states', moves', g, Advance(0));
  }

  lemma StartTrace(n: nat) returns (states: seq<State>, moves: seq<Move>)
    ensures IsTrace(states, moves) && moves == []
    ensures states == [State(None, map[], map[], seq(n, _ => Thread(Idle, map[])), false)]
  {
    states, moves := [State(None, map[], map[], seq(n, _ => Thread(Idle, map[])), false)], [];
  }

  /** The client rule is needed: goroutine 1 unlocks a key that goroutine 0 holds, nothing panics, and
      goroutine 2 then holds the same key at the same time. */
  lemma ForeignUnlockBreaksExclusion() returns (states: seq<State>, moves: seq<Move>)
    ensures IsTrace(states, moves)
    ensures var s := states[|moves|];
      |s.threads| == 3 && !s.crashed && "a" in s.threads[0].held && "a" in s.threads[2].held
  {
    states, moves := StartTrace(3);
    states, moves := ExtendLock(states, moves, 0, "a", 0);
    states, moves := ExtendDrop(states, moves, 1, "a", 0);
    states, moves := Extend(states, moves, 1, Advance(1));
    assert "a" !in states[|moves|].locks;
    states, moves := ExtendLock(states, moves, 2, "a", 1);
  }

  /** And a foreign `Unlock` can panic, when it is interrupted: goroutine 2 unlocks a key that goroutine 0 holds
      and goroutine 1 waits for, goroutine 0 completes its own `Unlock` in between, and the release of goroutine 2
      is the fatal error. */
  lemma ForeignUnlockMayPanic() returns (states: seq<State>, moves: seq<Move>, call: nat)
    ensures IsTrace(states, moves) && states[|moves|].crashed
    ensures call < |moves| && moves[call] == Move(2, CallUnlock("a")) && |states[call].threads| == 3
    ensures "a" in states[call].threads[0].held && "a" !in states[call].threads[2].held
  {
    states, moves := HeldAndAwaited();
    call := |moves|;
    ghost var before := states[call];
    states, moves := ExtendDrop(states, moves, 2, "a", 0);
    states, moves := ExtendDrop(states, moves, 0, "a", 0);
    assert states[call] == before && moves[call] == Move(2, CallUnlock("a"));
    states, moves := Extend(states, moves, 0, Advance(0));
    states, moves := Extend(states, moves, 2, Advance(0));
  }

  /** Goroutine 0 holds a key that goroutine 1 waits for. */
  lemma HeldAndAwaited() returns (states: seq<State>, moves: seq<Move>)
    ensures IsTrace(states, moves)
    ensures states[|moves|] == State(None, map["a" := 0], map[0 := KeyMutex("a", true, Some(0), 2)],
      [Thread(Idle, map["a" := 0]), Thread(LockWait("a", 0), map[]), Thread(Idle, map[])], false)
  {
    states, moves := StartTrace(3);
    states, moves := ExtendLock(states, moves, 0, "a", 0);
    states, moves := ExtendCount(states, moves, 1, "a", 1);
  }

  /** The case the protocol is subtle about does occur: goroutine 0 has dropped the entry of its key
      from the map and not yet unlocked the entry's mutex, while goroutine 1 holds the key under a
      recreated entry. */
  lemma RecreatedWhileReleasing() returns (states: seq<State>, moves: seq<Move>)
    ensures IsRun(states, moves)
    ensures var s := states[|moves|];
      && |s.threads| == 2 && s.threads[0].pc == UnlockRelease("a", 0) && 0 in s.heap && s.heap[0].locked
      && "a" in s.threads[1].held && s.threads[1].held["a"] != 0
  {
    states, moves := StartTrace(2);
    states, moves := ExtendLock(states, moves, 0, "a", 0);
    assert "a" in states[5].threads[0].held;
    states, moves := ExtendDrop(states, moves, 0, "a", 0);
    assert "a" !in states[|moves|].locks;
    states, moves := ExtendLock(states, moves, 1, "a", 1);
    assert moves[5] == Move(0, CallUnlock("a"));
  }
}
