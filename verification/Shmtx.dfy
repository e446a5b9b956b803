// src/core/ngx_shmtx.c, the version with atomic operations: processes that share one lock
// word and one semaphore, interleaved at every read and every compare-and-set.
module Shmtx {

  const LOCK: nat := 0x8000_0000    // the bit that says the mutex is taken

  // ngx_ncpu > 1, mtx->spin, mtx->semaphore
  datatype Config = Config(multicore: bool, spin: nat, semaphore: bool)

  // Where a process stands: what it does next, and the value it has read.
  datatype Pc =
    | Idle                              // outside the mutex
    | LockRead                          // line 79
    | LockSet(val: nat)                 // lines 81-82
    | SpinRead(n: nat)                  // line 95
    | SpinSet(n: nat, val: nat)         // lines 97-98
    | WaitRead                          // line 108
    | WaitSet(val: nat)                 // lines 110-111
    | SemWait                           // line 116
    | Yield                             // line 137
    | Holding                           // returned from ngx_shmtx_lock, or got NGX_OK from trylock
    | UnlockRead                        // line 153
    | UnlockSet(old_: nat)              // line 157
    | SemPost                           // line 171
    | TryRead                           // line 62
    | TrySet(val: nat)                  // lines 64-65

  // what happens next to a process
  datatype Event =
    | Lock          // it calls ngx_shmtx_lock
    | TryLock       // it calls ngx_shmtx_trylock
    | Unlock        // it calls ngx_shmtx_unlock
    | Go            // it performs its next step
    | Interrupt     // sem_wait() fails with EINTR
    | Fail          // sem_wait() fails otherwise, or sem_post() fails

  datatype Action = Action(process: nat, event: Event)

  // The shared words, the processes, and how often sem_wait() and sem_post() failed so far.
  datatype State = State(lock: nat, sem: nat, pcs: seq<Pc>, failedWaits: nat, lostPosts: nat)

  predicate Taken(lock: nat) { lock / LOCK % 2 == 1 }        // lock & 0x80000000
  function Waiters(lock: nat): nat { lock % LOCK }           // lock & 0x7fffffff

  function InitialState(processes: nat): State {
    State(0, 0, seq(processes, i => Idle), 0, 0)
  }

  // lines 87-138, after an attempt to take the mutex failed; n is the next spin length
  function AfterAttempt(c: Config, n: nat): Pc {
    if c.multicore && n < c.spin then SpinRead(n) else if c.semaphore then WaitRead else Yield
  }

  // ngx_atomic_cmp_set(mtx->lock, val, val | 0x80000000) when the bit is clear in val
  predicate Takes(s: State, val: nat) { !Taken(val) && s.lock == val }

  // One process acts; an event that does not apply leaves the state as it is.
  function Step(c: Config, s: State, a: Action): State {
    if a.process >= |s.pcs| then s
    else
      var i := a.process;
      match (s.pcs[i], a.event)
      case (Idle, Lock) => s.(pcs := s.pcs[i := LockRead])
      case (Idle, TryLock) => s.(pcs := s.pcs[i := TryRead])
      case (Holding, Unlock) => s.(pcs := s.pcs[i := UnlockRead])
      case (TryRead, Go) => s.(pcs := s.pcs[i := TrySet(s.lock)])
      case (TrySet(val), Go) =>
        if Takes(s, val) then s.(lock := val + LOCK, pcs := s.pcs[i := Holding]) else s.(pcs := s.pcs[i := Idle])
      case (LockRead, Go) => s.(pcs := s.pcs[i := LockSet(s.lock)])
      case (LockSet(val), Go) =>
        if Takes(s, val) then s.(lock := val + LOCK, pcs := s.pcs[i := Holding])
        else s.(pcs := s.pcs[i := AfterAttempt(c, 1)])
      case (SpinRead(n), Go) => s.(pcs := s.pcs[i := SpinSet(n, s.lock)])
      case (SpinSet(n, val), Go) =>
        if Takes(s, val) then s.(lock := val + LOCK, pcs := s.pcs[i := Holding])
        else s.(pcs := s.pcs[i := AfterAttempt(c, 2 * n)])
      case (WaitRead, Go) => s.(pcs := s.pcs[i := WaitSet(s.lock)])
      case (WaitSet(val), Go) =>
        if Taken(val) && s.lock == val then s.(lock := val + 1, pcs := s.pcs[i := SemWait])
        else s.(pcs := s.pcs[i := LockRead])
      case (SemWait, Go) => if s.sem > 0 then s.(sem := s.sem - 1, pcs := s.pcs[i := LockRead]) else s
      case (SemWait, Interrupt) => s
      case (SemWait, Fail) => s.(failedWaits := s.failedWaits + 1, pcs := s.pcs[i := LockRead])
      case (Yield, Go) => s.(pcs := s.pcs[i := LockRead])
      case (UnlockRead, Go) => s.(pcs := s.pcs[i := UnlockSet(s.lock)])
      case (UnlockSet(old_), Go) =>
        var wait := Waiters(old_);
        if s.lock != old_ then s.(pcs := s.pcs[i := UnlockRead])
        else s.(lock := if wait > 0 then wait - 1 else 0,
                pcs := s.pcs[i := if wait == 0 || !c.semaphore then Idle else SemPost])
      case (SemPost, Go) => s.(sem := s.sem + 1, pcs := s.pcs[i := Idle])
      case (SemPost, Fail) => s.(lostPosts := s.lostPosts + 1, pcs := s.pcs[i := Idle])
      case _ => s
  }

  // the state after a schedule: any interleaving of any calls by any processes
  function Run(c: Config, s: State, schedule: seq<Action>): State
    decreases |schedule|
  {
    if schedule == [] then s else Step(c, Run(c, s, schedule[..|schedule| - 1]), schedule[|schedule| - 1])
  }

  // --- what processes are doing --------------------------------------------------------

  datatype Role =
    | Outside       // not using the mutex, or only trying it
    | Owner         // from taking the mutex to the store that releases it
    | Awake         // inside ngx_shmtx_lock, and going to look at the lock word again
    | Asleep        // registered as a waiter, not yet back from sem_wait()
    | Poster        // released the mutex, and about to call sem_post()

  function RoleOf(pc: Pc): Role {
    match pc
    case Idle => Outside
    case TryRead => Outside
    case TrySet(_) => Outside
    case Holding => Owner
    case UnlockRead => Owner
    case UnlockSet(_) => Owner
    case SemWait => Asleep
    case SemPost => Poster
    case _ => Awake
  }

  // how many processes have a role
  function Tally(pcs: seq<Pc>, r: Role): nat {
    if pcs == [] then 0 else Tally(pcs[..|pcs| - 1], r) + if RoleOf(pcs[|pcs| - 1]) == r then 1 else 0
  }

  lemma {:induction false} TallyUpdate(pcs: seq<Pc>, i: nat, pc: Pc, r: Role)
    requires i < |pcs|
    ensures Tally(pcs[i := pc], r)
        == Tally(pcs, r) - (if RoleOf(pcs[i]) == r then 1 else 0) + (if RoleOf(pc) == r then 1 else 0)
    decreases |pcs|
  {
    var n := |pcs| - 1;
    if i == n {
      assert pcs[i := pc][..n] == pcs[..n];
    } else {
      assert pcs[i := pc][..n] == pcs[..n][i := pc];
      TallyUpdate(pcs[..n], i, pc, r);
    }
  }

  lemma {:induction false} TallyWitness(pcs: seq<Pc>, i: nat, r: Role)
    requires i < |pcs| && RoleOf(pcs[i]) == r
    ensures Tally(pcs, r) >= 1
  {
    TallyUpdate(pcs, i, if r == Outside then Holding else Idle, r);
  }

  lemma {:induction false} TallyTwo(pcs: seq<Pc>, i: nat, j: nat, r: Role)
    requires i < |pcs| && j < |pcs| && i != j && RoleOf(pcs[i]) == r && RoleOf(pcs[j]) == r
    ensures Tally(pcs, r) >= 2
  {
    var other := if r == Outside then Holding else Idle;
    TallyUpdate(pcs, i, other, r);
    TallyWitness(pcs[i := other], j, r);
  }

  lemma {:induction false} TallyExists(pcs: seq<Pc>, r: Role) returns (i: nat)
    requires Tally(pcs, r) >= 1
    ensures i < |pcs| && RoleOf(pcs[i]) == r
    decreases |pcs|
  {
    i := |pcs| - 1;
    if RoleOf(pcs[i]) != r { i := TallyExists(pcs[..i], r); }
  }

  // no process has two roles
  lemma {:induction false} TallyBound(pcs: seq<Pc>)
    ensures Tally(pcs, Asleep) + Tally(pcs, Owner) + Tally(pcs, Poster) + Tally(pcs, Awake) + Tally(pcs, Outside)
        == |pcs|
    decreases |pcs|
  {
    if pcs != [] { TallyBound(pcs[..|pcs| - 1]); }
  }

  // --- the invariant -------------------------------------------------------------------

  predicate Semaphored(pc: Pc) { pc.WaitRead? || pc.WaitSet? || pc.SemWait? || pc.SemPost? }

  ghost predicate Inv(c: Config, s: State) {
    && s.lock < 2 * LOCK
    && Tally(s.pcs, Owner) == (if Taken(s.lock) then 1 else 0)
    && Waiters(s.lock) + s.sem + Tally(s.pcs, Poster) + s.lostPosts == Tally(s.pcs, Asleep) + s.failedWaits
    && NoSemaphore(c, s)
    && (s.lostPosts == 0 && !Taken(s.lock) && Waiters(s.lock) > 0 ==>
        s.sem + Tally(s.pcs, Poster) + Tally(s.pcs, Awake) > 0)
  }

  // the waiter count cannot spill into the lock bit
  ghost predicate Small(s: State) { |s.pcs| + s.failedWaits < LOCK }

  lemma {:induction false} NoOne(pcs: seq<Pc>, r: Role)
    requires forall i :: 0 <= i < |pcs| ==> RoleOf(pcs[i]) != r
    ensures Tally(pcs, r) == 0
    decreases |pcs|
  {
    if pcs != [] { NoOne(pcs[..|pcs| - 1], r); }
  }

  lemma InitInv(c: Config, n: nat)
    ensures Inv(c, InitialState(n))
  {
    var s := InitialState(n);
    NoOne(s.pcs, Owner); NoOne(s.pcs, Poster); NoOne(s.pcs, Asleep);
  }

  lemma LockWord(lock: nat)
    requires lock < 2 * LOCK
    ensures Taken(lock) == (lock >= LOCK) && Waiters(lock) == if lock >= LOCK then lock - LOCK else lock
  {}

  // process i moves, and nothing but the shared words and its own place changes
  ghost predicate Moves(s: State, s': State, i: nat) {
    i < |s.pcs| && |s'.pcs| == |s.pcs| && s'.pcs == s.pcs[i := s'.pcs[i]]
  }

  function Is(pc: Pc, r: Role): nat { if RoleOf(pc) == r then 1 else 0 }

  lemma Tallies(s: State, s': State, i: nat)
    requires Moves(s, s', i)
    ensures forall r {:trigger Tally(s'.pcs, r)} ::
        Tally(s'.pcs, r) == Tally(s.pcs, r) - Is(s.pcs[i], r) + Is(s'.pcs[i], r)
    ensures forall r {:trigger Is(s.pcs[i], r)} :: Tally(s.pcs, r) >= Is(s.pcs[i], r)
  {
    forall r | true
      ensures Tally(s'.pcs, r) == Tally(s.pcs, r) - Is(s.pcs[i], r) + Is(s'.pcs[i], r)
      ensures Tally(s.pcs, r) >= Is(s.pcs[i], r)
    {
      TallyUpdate(s.pcs, i, s'.pcs[i], r);
      if RoleOf(s.pcs[i]) == r { TallyWitness(s.pcs, i, r); }
    }
  }

  ghost predicate NoSemaphore(c: Config, s: State) {
    !c.semaphore ==> s.failedWaits == 0 && forall i :: 0 <= i < |s.pcs| ==> !Semaphored(s.pcs[i])
  }

  lemma NoSemaphoreFacts(c: Config, s: State)
    requires NoSemaphore(c, s) && !c.semaphore
    ensures Tally(s.pcs, Poster) == 0 && Tally(s.pcs, Asleep) == 0
  {
    forall j | 0 <= j < |s.pcs|
      ensures RoleOf(s.pcs[j]) != Poster && RoleOf(s.pcs[j]) != Asleep
    {
      assert !Semaphored(s.pcs[j]);
    }
    NoOne(s.pcs, Poster); NoOne(s.pcs, Asleep);
  }

  lemma StepNoSemaphore(c: Config, s: State, a: Action)
    requires NoSemaphore(c, s)
    ensures NoSemaphore(c, Step(c, s, a))
  {
    if !c.semaphore && a.process < |s.pcs| { assert !Semaphored(s.pcs[a.process]); }
  }

  // the mutex is taken
  lemma TakeInv(c: Config, s: State, s': State, i: nat)
    requires Inv(c, s) && Moves(s, s', i) && s' == s.(lock := s.lock + LOCK, pcs := s'.pcs) && !Taken(s.lock)
    requires NoSemaphore(c, s')
    requires (RoleOf(s.pcs[i]) == Awake || RoleOf(s.pcs[i]) == Outside) && s'.pcs[i] == Holding
    ensures Inv(c, s')
  {
    LockWord(s.lock); LockWord(s.lock + LOCK);
    Tallies(s, s', i);
  }

  // a process registers as a waiter
  lemma RegisterInv(c: Config, s: State, s': State, i: nat)
    requires Inv(c, s) && Small(s) && Moves(s, s', i) && s' == s.(lock := s.lock + 1, pcs := s'.pcs) && Taken(s.lock)
    requires NoSemaphore(c, s')
    requires RoleOf(s.pcs[i]) == Awake && s'.pcs[i] == SemWait
    ensures Inv(c, s')
  {
    LockWord(s.lock);
    TallyBound(s.pcs);
    Tallies(s, s', i);
    LockWord(s.lock + 1);
  }

  // the owner releases the mutex
  lemma ReleaseInv(c: Config, s: State, s': State, i: nat)
    requires Inv(c, s) && Moves(s, s', i) && RoleOf(s.pcs[i]) == Owner && NoSemaphore(c, s')
    requires var wait := Waiters(s.lock); s' == s.(lock := if wait > 0 then wait - 1 else 0, pcs := s'.pcs)
    requires s'.pcs[i] == (if Waiters(s.lock) == 0 || !c.semaphore then Idle else SemPost)
    ensures Inv(c, s')
  {
    Tallies(s, s', i);
    assert Is(s.pcs[i], Owner) == 1;
    LockWord(s.lock);
    if !c.semaphore { NoSemaphoreFacts(c, s); }
    LockWord(s'.lock);
  }

  // process i neither takes nor gives the mutex, and loses no wakeup
  ghost predicate Neutral(s: State, s': State, i: nat)
    requires Moves(s, s', i)
  {
    var pc, pc' := s.pcs[i], s'.pcs[i];
    && Is(pc, Owner) == Is(pc', Owner) && (s'.lostPosts == 0 ==> s.lostPosts == 0)
    && s'.sem + Is(pc', Poster) + s'.lostPosts - Is(pc', Asleep) - s'.failedWaits ==
       s.sem + Is(pc, Poster) + s.lostPosts - Is(pc, Asleep) - s.failedWaits
    && (s'.lostPosts == 0 ==> s'.sem + Is(pc', Poster) + Is(pc', Awake) >= s.sem + Is(pc, Poster) + Is(pc, Awake))
  }

  // the lock word stays as it is
  lemma OtherInv(c: Config, s: State, s': State, i: nat)
    requires Inv(c, s) && Moves(s, s', i) && s'.lock == s.lock && NoSemaphore(c, s') && Neutral(s, s', i)
    ensures Inv(c, s')
  {
    Tallies(s, s', i);
  }

  lemma StepMoves(c: Config, s: State, a: Action)
    requires Step(c, s, a) != s
    ensures Moves(s, Step(c, s, a), a.process)
  {}

  lemma StepNeutral(c: Config, s: State, a: Action)
    requires var s' := Step(c, s, a);
             && Moves(s, s', a.process) && s'.lock == s.lock
             && !(s.pcs[a.process].UnlockSet? && !s'.pcs[a.process].UnlockRead?)
    ensures Neutral(s, Step(c, s, a), a.process)
  {}

  // Every step of every process keeps the invariant.
  lemma StepInv(c: Config, s: State, a: Action)
    requires Inv(c, s) && Small(Step(c, s, a))
    ensures Inv(c, Step(c, s, a))
  {
    var s' := Step(c, s, a);
    if s' != s {
      var i := a.process;
      var pc := s.pcs[i];
      StepNoSemaphore(c, s, a);
      StepMoves(c, s, a);
      if s'.lock == s.lock && !(pc.UnlockSet? && !s'.pcs[i].UnlockRead?) {
        StepNeutral(c, s, a);
        OtherInv(c, s, s', i);
      } else if pc.UnlockSet? {
        ReleaseInv(c, s, s', i);
      } else if pc.WaitSet? {
        RegisterInv(c, s, s', i);
      } else {
        TakeInv(c, s, s', i);
      }
    }
  }

  // --- safety of every run ---------------------------------------------------------------

  lemma {:induction false} Grows(c: Config, s: State, a: Action)
    ensures var s' := Step(c, s, a);
        |s'.pcs| == |s.pcs| && s.failedWaits <= s'.failedWaits && s.lostPosts <= s'.lostPosts
  {}

  lemma {:induction false} RunInv(c: Config, n: nat, schedule: seq<Action>)
    requires Small(Run(c, InitialState(n), schedule))
    ensures Inv(c, Run(c, InitialState(n), schedule)) && |Run(c, InitialState(n), schedule).pcs| == n
    decreases |schedule|
  {
    if schedule == [] {
      InitInv(c, n);
    } else {
      var before := Run(c, InitialState(n), schedule[..|schedule| - 1]);
      Grows(c, before, schedule[|schedule| - 1]);
      RunInv(c, n, schedule[..|schedule| - 1]);
      StepInv(c, before, schedule[|schedule| - 1]);
    }
  }

  // In every interleaving at most one process owns the mutex, and the lock bit is set
  // exactly while one does.
  lemma MutualExclusion(c: Config, n: nat, schedule: seq<Action>, i: nat, j: nat)
    requires var s := Run(c, InitialState(n), schedule); Small(s) && i < |s.pcs| && j < |s.pcs|
    ensures var s := Run(c, InitialState(n), schedule);
      && (RoleOf(s.pcs[i]) == Owner && RoleOf(s.pcs[j]) == Owner ==> i == j)
      && (Taken(s.lock) <==> exists k :: 0 <= k < |s.pcs| && RoleOf(s.pcs[k]) == Owner)
  {
    var s := Run(c, InitialState(n), schedule);
    RunInv(c, n, schedule);
    if RoleOf(s.pcs[i]) == Owner && RoleOf(s.pcs[j]) == Owner && i != j { TallyTwo(s.pcs, i, j, Owner); }
    if Taken(s.lock) {
      var k := TallyExists(s.pcs, Owner);
    } else {
      forall k | 0 <= k < |s.pcs| ensures RoleOf(s.pcs[k]) != Owner {
        if RoleOf(s.pcs[k]) == Owner { TallyWitness(s.pcs, k, Owner); }
      }
    }
  }

  // Waiter count, semaphore and posts on their way make up the sleeping processes, and
  // the count never reaches the lock bit.
  lemma Accounting(c: Config, n: nat, schedule: seq<Action>)
    requires var s := Run(c, InitialState(n), schedule); Small(s)
    ensures var s := Run(c, InitialState(n), schedule);
      && Waiters(s.lock) + s.sem + Tally(s.pcs, Poster) + s.lostPosts == Tally(s.pcs, Asleep) + s.failedWaits
      && s.lock == Waiters(s.lock) + (if Taken(s.lock) then LOCK else 0) && Waiters(s.lock) + 1 < LOCK
  {
    RunInv(c, n, schedule);
    TallyBound(Run(c, InitialState(n), schedule).pcs);
    LockWord(Run(c, InitialState(n), schedule).lock);
  }

  // No lost wake-up: while sem_post() works, a free mutex with waiters is being handed on.
  lemma NoLostWakeup(c: Config, n: nat, schedule: seq<Action>)
    requires var s := Run(c, InitialState(n), schedule); Small(s) && s.lostPosts == 0
    ensures var s := Run(c, InitialState(n), schedule);
      !Taken(s.lock) && Waiters(s.lock) > 0 ==>
        s.sem > 0 || exists k :: 0 <= k < |s.pcs| && (s.pcs[k] == SemPost || RoleOf(s.pcs[k]) == Awake)
  {
    var s := Run(c, InitialState(n), schedule);
    RunInv(c, n, schedule);
    if !Taken(s.lock) && Waiters(s.lock) > 0 && s.sem == 0 {
      var k := TallyExists(s.pcs, if Tally(s.pcs, Poster) > 0 then Poster else Awake);
    }
  }

  // No deadlock: a process that sleeps is not left alone. Another one owns the mutex, is
  // about to post, or is awake in ngx_shmtx_lock, or else the sleeper itself can go on.
  lemma NoDeadlock(c: Config, n: nat, schedule: seq<Action>, i: nat)
    requires var s := Run(c, InitialState(n), schedule);
        Small(s) && s.lostPosts == 0 && i < |s.pcs| && s.pcs[i] == SemWait
    ensures var s := Run(c, InitialState(n), schedule);
      s.sem > 0 ||
        exists k :: 0 <= k < |s.pcs| && (RoleOf(s.pcs[k]) == Owner || s.pcs[k] == SemPost || RoleOf(s.pcs[k]) == Awake)
  {
    var s := Run(c, InitialState(n), schedule);
    RunInv(c, n, schedule);
    TallyWitness(s.pcs, i, Asleep);
    if s.sem == 0 {
      if Taken(s.lock) {
        var k := TallyExists(s.pcs, Owner);
      } else if Tally(s.pcs, Poster) > 0 {
        var k := TallyExists(s.pcs, Poster);
      } else {
        var k := TallyExists(s.pcs, Awake);
      }
    }
  }

  lemma Extended(c: Config, s: State, t: seq<Action>, a: Action, s1: State) returns (t': seq<Action>)
    requires Run(c, s, t) == s1
    ensures t' == t + [a] && Run(c, s, t') == Step(c, s1, a)
  {
    t' := t + [a];
    assert t'[..|t|] == t;
  }

  // process 0 gets the mutex
  lemma FirstHolds(c: Config, s: State) returns (t: seq<Action>)
    requires s.lock == 0 && s.sem == 0 && s.pcs == [Idle, Idle] && s.lostPosts == 0
    ensures Run(c, s, t) == s.(lock := LOCK, pcs := [Holding, Idle])
  {
    t := Extended(c, s, [], Action(0, Lock), s);
    t := Extended(c, s, t, Action(0, Go), s.(pcs := [LockRead, Idle]));
    t := Extended(c, s, t, Action(0, Go), s.(pcs := [LockSet(0), Idle]));
  }

  // ... process 1 goes to sleep
  lemma SecondSleeps(c: Config, s: State) returns (t: seq<Action>)
    requires s.lock == 0 && s.sem == 0 && s.pcs == [Idle, Idle] && s.lostPosts == 0 && !c.multicore && c.semaphore
    ensures Run(c, s, t) == s.(lock := LOCK + 1, pcs := [Holding, SemWait])
  {
    t := FirstHolds(c, s);
    t := Extended(c, s, t, Action(1, Lock), s.(lock := LOCK, pcs := [Holding, Idle]));
    t := Extended(c, s, t, Action(1, Go), s.(lock := LOCK, pcs := [Holding, LockRead]));
    t := Extended(c, s, t, Action(1, Go), s.(lock := LOCK, pcs := [Holding, LockSet(LOCK)]));
    t := Extended(c, s, t, Action(1, Go), s.(lock := LOCK, pcs := [Holding, WaitRead]));
    t := Extended(c, s, t, Action(1, Go), s.(lock := LOCK, pcs := [Holding, WaitSet(LOCK)]));
  }

  // ... process 0 gives the mutex back, and its post is lost
  lemma FirstLeaves(c: Config, s: State, t0: seq<Action>) returns (t: seq<Action>)
    requires s.lock == 0 && s.sem == 0 && s.pcs == [Idle, Idle] && s.lostPosts == 0 && c.semaphore
    requires Run(c, s, t0) == s.(lock := LOCK + 1, pcs := [Holding, SemWait])
    ensures Run(c, s, t) == s.(lostPosts := 1, pcs := [Idle, SemWait])
  {
    t := Extended(c, s, t0, Action(0, Unlock), s.(lock := LOCK + 1, pcs := [Holding, SemWait]));
    t := Extended(c, s, t, Action(0, Go), s.(lock := LOCK + 1, pcs := [UnlockRead, SemWait]));
    t := Extended(c, s, t, Action(0, Go), s.(lock := LOCK + 1, pcs := [UnlockSet(LOCK + 1), SemWait]));
    t := Extended(c, s, t, Action(0, Fail), s.(pcs := [SemPost, SemWait]));
  }

  // One lost post is enough to lose a wake-up: the mutex is free, process 1 sleeps, and
  // nobody is left to wake it.
  lemma LostPostLosesWakeup(c: Config, s: State) returns (t: seq<Action>)
    requires s == InitialState(2) && !c.multicore && c.semaphore
    ensures Run(c, s, t) == State(0, 0, [Idle, SemWait], 0, 1)
  {
    assert s.pcs == [Idle, Idle];
    t := SecondSleeps(c, s);
    t := FirstLeaves(c, s, t);
  }

  // Nobody is left to act: every process is outside or sleeps, and the semaphore is zero.
  ghost predicate Quiet(s: State) {
    && s.sem == 0
    && forall i {:trigger s.pcs[i]} :: 0 <= i < |s.pcs| ==> RoleOf(s.pcs[i]) == Outside || s.pcs[i] == SemWait
  }

  // Exactly how many processes are then asleep for good: the waiters of the lock word and the
  // lost posts, less the waits that failed. So while sem_wait() works, somebody is stranded if
  // and only if a post was lost.
  lemma Stranded(c: Config, n: nat, schedule: seq<Action>)
    requires var s := Run(c, InitialState(n), schedule); Small(s) && Quiet(s)
    ensures var s := Run(c, InitialState(n), schedule);
      && !Taken(s.lock)
      && Tally(s.pcs, Asleep) == Waiters(s.lock) + s.lostPosts - s.failedWaits
      && (s.lostPosts == 0 ==> Waiters(s.lock) == 0)
      && (s.failedWaits == 0 ==> (s.lostPosts > 0 <==> exists i :: 0 <= i < |s.pcs| && s.pcs[i] == SemWait))
  {
    var s := Run(c, InitialState(n), schedule);
    RunInv(c, n, schedule);
    NoOne(s.pcs, Owner); NoOne(s.pcs, Poster); NoOne(s.pcs, Awake);
    if Tally(s.pcs, Asleep) > 0 {
      var k := TallyExists(s.pcs, Asleep);
    } else if i :| 0 <= i < |s.pcs| && s.pcs[i] == SemWait {
      TallyWitness(s.pcs, i, Asleep);
    }
  }

  // When every process is outside again and nothing failed, nothing is left behind.
  lemma BackToStart(c: Config, n: nat, schedule: seq<Action>)
    requires var s := Run(c, InitialState(n), schedule);
      Small(s) && s.failedWaits == 0 && forall i :: 0 <= i < |s.pcs| ==> RoleOf(s.pcs[i]) == Outside
    ensures var s := Run(c, InitialState(n), schedule); s.lock == 0 && s.sem == 0 && s.lostPosts == 0
  {
    var s := Run(c, InitialState(n), schedule);
    RunInv(c, n, schedule);
    NoOne(s.pcs, Owner); NoOne(s.pcs, Poster); NoOne(s.pcs, Asleep);
  }

  // --- what a process gets done ------------------------------------------------------------

  // k steps of process i, one after the other
  function Goes(i: nat, k: nat): seq<Action> { seq(k, _ => Action(i, Go)) }

  // the state after k steps of process i
  function After(c: Config, s: State, i: nat, k: nat): State
    decreases k
  {
    if k == 0 then s else After(c, Step(c, s, Action(i, Go)), i, k - 1)
  }

  lemma {:induction false} AfterMore(c: Config, s: State, i: nat, k: nat)
    ensures After(c, s, i, k + 1) == Step(c, After(c, s, i, k), Action(i, Go))
    decreases k
  {
    if k > 0 { AfterMore(c, Step(c, s, Action(i, Go)), i, k - 1); }
  }

  lemma {:induction false} AfterIsRun(c: Config, s: State, i: nat, k: nat)
    ensures Run(c, s, Goes(i, k)) == After(c, s, i, k)
    decreases k
  {
    if k > 0 {
      assert Goes(i, k)[..k - 1] == Goes(i, k - 1);
      AfterIsRun(c, s, i, k - 1);
      AfterMore(c, s, i, k - 1);
    }
  }

  // a call of process i, and k steps in it
  lemma {:induction false} CallIsRun(c: Config, s: State, a: Action, i: nat, k: nat)
    ensures Run(c, s, [a] + Goes(i, k)) == After(c, Step(c, s, a), i, k)
    decreases k
  {
    var t := [a] + Goes(i, k);
    if k == 0 {
      assert t == [a] && t[..0] == [];
    } else {
      assert t[..k] == [a] + Goes(i, k - 1);
      CallIsRun(c, s, a, i, k - 1);
      AfterMore(c, Step(c, s, a), i, k - 1);
    }
  }

  // two steps of an attempt, in trylock or lock
  lemma AttemptAlone(c: Config, s: State, i: nat)
    requires i < |s.pcs| && Attempts(s.pcs[i]) && !Taken(s.lock)
    ensures After(c, s, i, 2) == s.(lock := s.lock + LOCK, pcs := s.pcs[i := Holding])
  {
    var s1 := Step(c, s, Action(i, Go));
    assert s1.pcs[i := Holding] == s.pcs[i := Holding];
    assert After(c, s, i, 2) == After(c, s1, i, 1) == Step(c, s1, Action(i, Go));
  }

  // about to read the lock word: lines 62, 79 and 95
  predicate Attempts(pc: Pc) { pc == TryRead || pc == LockRead || pc.SpinRead? }

  ghost predicate Without(t: seq<Action>, i: nat) { forall a {:trigger a in t} :: a in t ==> a.process != i }

  lemma OtherMoves(c: Config, s: State, a: Action, i: nat)
    requires i < |s.pcs| && a.process != i
    ensures |Step(c, s, a).pcs| == |s.pcs| && Step(c, s, a).pcs[i] == s.pcs[i]
  {
    if Step(c, s, a) != s { StepMoves(c, s, a); }
  }

  // what the others do leaves a process where it is
  lemma {:induction false} OthersMove(c: Config, s: State, t: seq<Action>, i: nat)
    requires i < |s.pcs| && Without(t, i)
    ensures |Run(c, s, t).pcs| == |s.pcs| && Run(c, s, t).pcs[i] == s.pcs[i]
    decreases |t|
  {
    if t != [] {
      var n := |t| - 1;
      assert t[n] in t && forall a :: a in t[..n] ==> a in t;
      OthersMove(c, s, t[..n], i);
      OtherMoves(c, Run(c, s, t[..n]), t[n], i);
    }
  }

  // ngx_shmtx_trylock, alone: it takes the mutex exactly if it is free, and changes nothing else.
  lemma TryLockAlone(c: Config, s: State, i: nat)
    requires i < |s.pcs| && s.pcs[i] == Idle
    ensures Run(c, s, [Action(i, TryLock)] + Goes(i, 2))
        == if Taken(s.lock) then s else s.(lock := s.lock + LOCK, pcs := s.pcs[i := Holding])
  {
    CallIsRun(c, s, Action(i, TryLock), i, 2);
    var s1 := Step(c, s, Action(i, TryLock));
    if Taken(s.lock) {
      var s2 := Step(c, s1, Action(i, Go));
      assert After(c, s1, i, 2) == After(c, s2, i, 1) == Step(c, s2, Action(i, Go));
      assert s2.pcs[i := Idle] == s.pcs;
    } else {
      AttemptAlone(c, s1, i);
      assert s1.pcs[i := Holding] == s.pcs[i := Holding];
    }
  }

  // ngx_shmtx_lock, alone: a free mutex is taken with the first look at it
  lemma LockAlone(c: Config, s: State, i: nat)
    requires i < |s.pcs| && s.pcs[i] == Idle && !Taken(s.lock)
    ensures Run(c, s, [Action(i, Lock)] + Goes(i, 2)) == s.(lock := s.lock + LOCK, pcs := s.pcs[i := Holding])
  {
    CallIsRun(c, s, Action(i, Lock), i, 2);
    var s1 := Step(c, s, Action(i, Lock));
    AttemptAlone(c, s1, i);
    assert s1.pcs[i := Holding] == s.pcs[i := Holding];
  }

  // In any interleaving an attempt fails exactly if the mutex was taken when the process read
  // the lock word, or the word is another one when the process compares it.
  lemma AttemptFails(c: Config, s: State, i: nat, others: seq<Action>)
    requires i < |s.pcs| && Attempts(s.pcs[i]) && Without(others, i)
    ensures var u := Run(c, Step(c, s, Action(i, Go)), others); var v := Step(c, u, Action(i, Go));
      && |v.pcs| == |s.pcs| && |u.pcs| == |s.pcs|
      && (if Taken(s.lock) || u.lock != s.lock
          then v.lock == u.lock && v.pcs[i] != Holding && (s.pcs[i] == TryRead ==> v.pcs[i] == Idle)
          else v == u.(lock := u.lock + LOCK, pcs := u.pcs[i := Holding]))
  {
    OthersMove(c, Step(c, s, Action(i, Go)), others, i);
  }

  // how many steps a process in ngx_shmtx_lock may be away from its next look at the word
  function Distance(pc: Pc): nat {
    match pc
    case LockSet(_) => 3
    case SpinSet(_, _) => 3
    case WaitRead => 2
    case WaitSet(_) => 1
    case SemWait => 1
    case Yield => 1
    case _ => 0
  }

  ghost predicate Ready(s: State, i: nat) {
    i < |s.pcs| && !Taken(s.lock) && (RoleOf(s.pcs[i]) == Awake || (s.pcs[i] == SemWait && s.sem > 0))
  }

  ghost predicate Got(s: State, v: State, i: nat)
    requires i < |s.pcs|
  {
    v == s.(lock := s.lock + LOCK, pcs := s.pcs[i := Holding], sem := if s.pcs[i] == SemWait then v.sem else s.sem)
    && (s.pcs[i] == SemWait ==> v.sem == s.sem - 1)
  }

  lemma {:induction false} GetsAfter(c: Config, s: State, i: nat) returns (k: nat)
    requires Ready(s, i)
    ensures k <= Distance(s.pcs[i]) + 2 && Got(s, After(c, s, i, k), i)
    decreases Distance(s.pcs[i])
  {
    var s1 := Step(c, s, Action(i, Go));
    if Distance(s.pcs[i]) == 0 {
      AttemptAlone(c, s, i);
      k := 2;
    } else if s1.pcs[i] == Holding {
      k := 1;
    } else {
      k := GetsAfter(c, s1, i);
      assert s1.pcs[i := Holding] == s.pcs[i := Holding];
      k := k + 1;
    }
  }

  // Nobody who waits needs another: wherever a process is in ngx_shmtx_lock, and if it sleeps
  // then with a post there, it gets a free mutex in at most five steps of its own.
  lemma GetsFree(c: Config, s: State, i: nat) returns (k: nat)
    requires Ready(s, i)
    ensures k <= Distance(s.pcs[i]) + 2 <= 5 && Got(s, Run(c, s, Goes(i, k)), i)
  {
    k := GetsAfter(c, s, i);
    AfterIsRun(c, s, i, k);
  }

  // the rounds of spinning from n on
  function Spins(n: nat, spin: nat): nat
    requires n > 0
    decreases spin - n
  {
    if n >= spin then 0 else 1 + Spins(2 * n, spin)
  }

  lemma {:induction false} SpinsOut(c: Config, s: State, i: nat, n: nat)
    requires c.multicore && i < |s.pcs| && Taken(s.lock) && n > 0 && s.pcs[i] == AfterAttempt(c, n)
    ensures After(c, s, i, 2 * Spins(n, c.spin)) == s.(pcs := s.pcs[i := if c.semaphore then WaitRead else Yield])
    decreases c.spin - n
  {
    if n < c.spin {
      var s1 := Step(c, s, Action(i, Go));
      var s2 := Step(c, s1, Action(i, Go));
      assert s2 == s.(pcs := s.pcs[i := AfterAttempt(c, 2 * n)]);
      SpinsOut(c, s2, i, 2 * n);
      assert After(c, s, i, 2 * Spins(n, c.spin)) == After(c, s1, i, 2 * Spins(n, c.spin) - 1);
    }
  }

  lemma {:induction false} AfterSum(c: Config, s: State, i: nat, j: nat, k: nat)
    ensures After(c, s, i, j + k) == After(c, After(c, s, i, j), i, k)
    decreases j
  {
    if j > 0 { AfterSum(c, Step(c, s, Action(i, Go)), i, j - 1, k); }
  }

  // the rounds of spinning of one turn
  function Rounds(c: Config): nat { if c.multicore then Spins(1, c.spin) else 0 }

  // a first look at a taken mutex, and all the spinning
  lemma Tried(c: Config, s: State, i: nat)
    requires i < |s.pcs| && s.pcs[i] == LockRead && Taken(s.lock)
    ensures After(c, s, i, 2 + 2 * Rounds(c)) == s.(pcs := s.pcs[i := if c.semaphore then WaitRead else Yield])
  {
    var s1 := Step(c, s, Action(i, Go));
    var s2 := Step(c, s1, Action(i, Go));
    assert s2 == s.(pcs := s.pcs[i := AfterAttempt(c, 1)]);
    if c.multicore { SpinsOut(c, s2, i, 1); }
    assert After(c, s, i, 2 + 2 * Rounds(c)) == After(c, s1, i, 1 + 2 * Rounds(c)) == After(c, s2, i, 2 * Rounds(c));
  }

  // the last steps before sleep
  lemma Registers(c: Config, s: State, i: nat)
    requires i < |s.pcs| && s.pcs[i] == WaitRead && Taken(s.lock)
    ensures After(c, s, i, 2) == s.(lock := s.lock + 1, pcs := s.pcs[i := SemWait])
  {
    var s1 := Step(c, s, Action(i, Go));
    assert After(c, s, i, 2) == After(c, s1, i, 1) == Step(c, s1, Action(i, Go));
    assert s1.pcs[i := SemWait] == s.pcs[i := SemWait];
  }

  lemma SleepsAfter(c: Config, s: State, i: nat, n: nat)
    requires i < |s.pcs| && s.pcs[i] == Idle && Taken(s.lock)
    requires After(c, Step(c, s, Action(i, Lock)), i, n) == s.(pcs := s.pcs[i := WaitRead])
    ensures Run(c, s, [Action(i, Lock)] + Goes(i, n + 2)) == s.(lock := s.lock + 1, pcs := s.pcs[i := SemWait])
  {
    CallIsRun(c, s, Action(i, Lock), i, n + 2);
    AfterSum(c, Step(c, s, Action(i, Lock)), i, n, 2);
    Registers(c, s.(pcs := s.pcs[i := WaitRead]), i);
    assert s.pcs[i := WaitRead][i := SemWait] == s.pcs[i := SemWait];
  }

  // ngx_shmtx_lock, alone, on a mutex that is taken: after its rounds of spinning the process is
  // counted in the lock word and sleeps.
  lemma LockSleeps(c: Config, s: State, i: nat, n: nat)
    requires i < |s.pcs| && s.pcs[i] == Idle && Taken(s.lock) && c.semaphore && n == 2 + 2 * Rounds(c)
    ensures Run(c, s, [Action(i, Lock)] + Goes(i, n + 2)) == s.(lock := s.lock + 1, pcs := s.pcs[i := SemWait])
  {
    var s0 := Step(c, s, Action(i, Lock));
    Tried(c, s0, i);
    assert s0.pcs[i := WaitRead] == s.pcs[i := WaitRead];
    SleepsAfter(c, s, i, n);
  }

  lemma YieldsAfter(c: Config, s: State, i: nat, n: nat)
    requires i < |s.pcs| && s.pcs[i] == Idle
    requires After(c, Step(c, s, Action(i, Lock)), i, n) == s.(pcs := s.pcs[i := Yield])
    ensures Run(c, s, [Action(i, Lock)] + Goes(i, n + 1)) == s.(pcs := s.pcs[i := LockRead])
  {
    CallIsRun(c, s, Action(i, Lock), i, n + 1);
    AfterMore(c, Step(c, s, Action(i, Lock)), i, n);
    assert s.pcs[i := Yield][i := LockRead] == s.pcs[i := LockRead];
  }

  // Without a semaphore it yields, and starts again.
  lemma LockYields(c: Config, s: State, i: nat, n: nat)
    requires i < |s.pcs| && s.pcs[i] == Idle && Taken(s.lock) && !c.semaphore && n == 2 + 2 * Rounds(c)
    ensures Run(c, s, [Action(i, Lock)] + Goes(i, n + 1)) == s.(pcs := s.pcs[i := LockRead])
  {
    var s0 := Step(c, s, Action(i, Lock));
    Tried(c, s0, i);
    assert s0.pcs[i := Yield] == s.pcs[i := Yield];
    YieldsAfter(c, s, i, n);
  }

  // ngx_shmtx_unlock, alone: the mutex is free, and one waiter less is counted and has a post.
  lemma UnlockAlone(c: Config, s: State, i: nat)
    requires i < |s.pcs| && s.pcs[i] == Holding && Taken(s.lock) && s.lock < 2 * LOCK
    ensures var w := s.lock - LOCK; var v := s.(lock := if w == 0 then 0 else w - 1, pcs := s.pcs[i := Idle]);
      Run(c, s, [Action(i, Unlock)] + Goes(i, 3)) == if w == 0 || !c.semaphore then v else v.(sem := s.sem + 1)
  {
    LockWord(s.lock);
    CallIsRun(c, s, Action(i, Unlock), i, 3);
    var s1 := Step(c, s, Action(i, Unlock));
    var s2 := Step(c, s1, Action(i, Go));
    var s3 := Step(c, s2, Action(i, Go));
    var s4 := Step(c, s3, Action(i, Go));
    assert After(c, s1, i, 3) == After(c, s2, i, 2) == After(c, s3, i, 1) == s4;
    assert s4.pcs == s.pcs[i := Idle];
  }

  // The mutex is handed on: in every reachable state in which i has it and j sleeps, no post was
  // lost and none is under way, i gives it back and j has it, by steps of these two alone.
  lemma HandedOn(c: Config, n: nat, schedule: seq<Action>, i: nat, j: nat) returns (k: nat)
    requires var s := Run(c, InitialState(n), schedule);
      Small(s) && s.lostPosts == 0 && i < |s.pcs| && j < |s.pcs| && s.pcs[i] == Holding && s.pcs[j] == SemWait
    requires var s := Run(c, InitialState(n), schedule); forall p :: 0 <= p < |s.pcs| ==> s.pcs[p] != SemPost
    ensures var s := Run(c, InitialState(n), schedule);
      var u := Run(c, s, [Action(i, Unlock)] + Goes(i, 3));
      k <= 3 && Run(c, u, Goes(j, k)).pcs == s.pcs[i := Idle][j := Holding]
  {
    var s := Run(c, InitialState(n), schedule);
    RunInv(c, n, schedule);
    TallyWitness(s.pcs, i, Owner);
    TallyWitness(s.pcs, j, Asleep);
    NoOne(s.pcs, Poster);
    if !c.semaphore { NoSemaphoreFacts(c, s); }
    LockWord(s.lock);
    UnlockAlone(c, s, i);
    k := GetsFree(c, Run(c, s, [Action(i, Unlock)] + Goes(i, 3)), j);
  }
}
