/** kernel/sync.c as a step system: one CPU, one program counter per thread, and each interrupts-off
    section (or single locked instruction) one step. */
module SyncSpec {
  import opened Options
  import opened Sched

  // init, posts and passed record history: the value at sema_init, the posts made, the waits let through.
  datatype Sem = Sem(count: int, init: nat, posts: nat, passed: nat)

  // owner: who took is_lock and has not put it back; holder lags behind it.
  datatype Mutex = Mutex(isLock: bool, holder: Option<Tid>, repeat: int, owner: Option<Tid>)

  // readers and writer record who is inside.
  datatype RwLock = RwLock(count: int, readyWrite: bool, readers: multiset<Tid>, writer: Option<Tid>)

  // Where a thread is in the code; User: in none of these operations.
  datatype Pc =
    | User
    | IdleLoop
    | SemaBlocked(s: nat)             // sema_wait, in thread_block
    | PostPop(s: nat)                 // sema_post, count incremented, wait list not popped yet
    | AcqNest(m: nat)                 // mutex_acquire, found itself the holder
    | AcqLoop(m: nat)                 // mutex_acquire, before the xchg or in thread_block after it
    | AcqSetHolder(m: nat)            // mutex_acquire, out of the loop
    | AcqSetRepeat(m: nat)
    | RelClear(m: nat)                // mutex_release, repeat has reached 0
    | RelUnlock(m: nat)               // mutex_release, holder cleared
    | RelWake(m: nat, woken: Tid)     // mutex_release, popped a thread and restored interrupts
    | CondBlocked(c: nat, m: nat)     // cond_wait, in thread_block
    | ReadBlocked(l: nat)             // rwlock_read_acquire, in thread_block
    | WriteBlocked(l: nat)            // rwlock_write_acquire, in thread_block

  datatype Api =
    | SemaWait(s: nat) | SemaTryWait(s: nat) | SemaPost(s: nat)
    | Acquire(m: nat) | Release(m: nat)
    | CondWait(c: nat, m: nat) | CondSignal(c: nat) | CondBroadcast(c: nat)
    | ReadAcquire(l: nat) | ReadRelease(l: nat) | WriteAcquire(l: nat) | WriteRelease(l: nat)
    | Yield | ForkThread(t: Tid) | CreateThread(t: Tid) | Exit

  // Tick: the timer takes the CPU away; Continue: the running thread goes on with the operation it is in.
  datatype Op = Tick | Continue | Call(api: Api)

  // depth: how many times each thread is inside each mutex.
  datatype State = State(threads: Threads, pc: map<Tid, Pc>, sems: map<nat, Sem>, mutexes: map<nat, Mutex>,
                         rwlocks: map<nat, RwLock>, depth: map<(Tid, nat), nat>)
  {
    function Me(): Tid {
      threads.running
    }

    function Depth(t: Tid, m: nat): nat {
      if (t, m) in depth then depth[(t, m)] else 0
    }

    function Goto(p: Pc): State {
      this.(pc := pc[threads.running := p])
    }

    function Threads(s: Sched.Threads): State {
      this.(threads := s)
    }

    function BlockOn(q: Queue, p: Pc): State {
      Goto(p).Threads(Block(threads, q))
    }

    function Wake(q: Queue): State {
      this.(threads := WakeHead(threads, q))
    }

    function WakeAllOn(q: Queue): State {
      this.(threads := WakeAll(threads, q))
    }

    function SetSem(s: nat, x: Sem): State {
      this.(sems := sems[s := x])
    }

    function SetMutex(m: nat, x: Mutex): State {
      this.(mutexes := mutexes[m := x])
    }

    function SetRw(l: nat, x: RwLock): State {
      this.(rwlocks := rwlocks[l := x])
    }

    function SetDepth(m: nat, d: nat): State {
      this.(depth := depth[(threads.running, m) := d])
    }
  }

  // ---------- what each operation needs ----------

  // The locks exist, the kernel's asserts hold (the holder releases, the reader or writer inside leaves),
  // and new threads are new.
  predicate MayCall(st: State, api: Api) {
    match api
    case SemaWait(s) => s in st.sems
    case SemaTryWait(s) => s in st.sems
    case SemaPost(s) => s in st.sems
    case Acquire(m) => m in st.mutexes
    case Release(m) => m in st.mutexes && st.mutexes[m].holder == Some(st.Me())
    case CondWait(c, m) => m in st.mutexes && st.mutexes[m].holder == Some(st.Me())
    case CondSignal(c) => true
    case CondBroadcast(c) => true
    case ReadAcquire(l) => l in st.rwlocks
    case ReadRelease(l) => l in st.rwlocks && st.Me() in st.rwlocks[l].readers
    case WriteAcquire(l) => l in st.rwlocks
    case WriteRelease(l) => l in st.rwlocks && st.rwlocks[l].writer == Some(st.Me())
    case Yield => true
    case ForkThread(t) => t !in st.threads.place
    case CreateThread(t) => t !in st.threads.place
    case Exit => true
  }

  // A thread coming back from thread_block inside rwlock_*_acquire still has interrupts off.
  predicate Enabled(st: State, op: Op) {
    && st.Me() in st.pc
    && match op
       case Tick => !st.pc[st.Me()].ReadBlocked? && !st.pc[st.Me()].WriteBlocked?
       case Continue => st.pc[st.Me()] != User && Exists(st, st.pc[st.Me()])
       case Call(api) => st.pc[st.Me()] == User && MayCall(st, api)
  }

  // The lock a thread is busy with exists.
  predicate Exists(st: State, p: Pc) {
    match p
    case SemaBlocked(s) => s in st.sems
    case PostPop(s) => s in st.sems
    case AcqNest(m) => m in st.mutexes
    case AcqLoop(m) => m in st.mutexes
    case AcqSetHolder(m) => m in st.mutexes
    case AcqSetRepeat(m) => m in st.mutexes
    case RelClear(m) => m in st.mutexes
    case RelUnlock(m) => m in st.mutexes
    case RelWake(m, t) => m in st.mutexes
    case CondBlocked(c, m) => m in st.mutexes
    case ReadBlocked(l) => l in st.rwlocks
    case WriteBlocked(l) => l in st.rwlocks
    case User => true
    case IdleLoop => true
  }

  // ---------- semaphore ----------

  function SemaWaitStep(st: State, s: nat): State
    requires s in st.sems
  {
    var x := st.sems[s].(count := st.sems[s].count - 1);
    if x.count < 0 then st.SetSem(s, x).BlockOn(SemQ(s), SemaBlocked(s))
    else st.SetSem(s, x.(passed := x.passed + 1))
  }

  function SemaTryWaitStep(st: State, s: nat): State
    requires s in st.sems
  {
    var x := st.sems[s].(count := st.sems[s].count - 1);
    if x.count < 0 then st.SetSem(s, x.(count := x.count + 1))
    else st.SetSem(s, x.(passed := x.passed + 1))
  }

  function SemaPostStep(st: State, s: nat): State
    requires s in st.sems
  {
    var x := st.sems[s];
    var st' := st.SetSem(s, x.(count := x.count + 1, posts := x.posts + 1));
    if x.count + 1 > 0 then st' else st'.Goto(PostPop(s))
  }

  function PostPopStep(st: State, s: nat): State
    requires s in st.sems
  {
    st.SetSem(s, st.sems[s].(passed := st.sems[s].passed + 1)).Goto(User).Wake(SemQ(s))
  }

  // ---------- mutex ----------

  function AcquireStep(st: State, m: nat): State
    requires m in st.mutexes
  {
    if st.mutexes[m].holder == Some(st.Me()) then st.Goto(AcqNest(m)) else st.Goto(AcqLoop(m))
  }

  function NestStep(st: State, m: nat): State
    requires m in st.mutexes
  {
    var x := st.mutexes[m];
    st.SetMutex(m, x.(repeat := x.repeat + 1)).SetDepth(m, st.Depth(st.Me(), m) + 1).Goto(User)
  }

  function XchgStep(st: State, m: nat): State
    requires m in st.mutexes
  {
    if st.mutexes[m].isLock then st.BlockOn(MutexQ(m), AcqLoop(m))
    else st.SetMutex(m, st.mutexes[m].(isLock := true, owner := Some(st.Me()))).Goto(AcqSetHolder(m))
  }

  function SetHolderStep(st: State, m: nat): State
    requires m in st.mutexes
  {
    st.SetMutex(m, st.mutexes[m].(holder := Some(st.Me()))).Goto(AcqSetRepeat(m))
  }

  function SetRepeatStep(st: State, m: nat): State
    requires m in st.mutexes
  {
    st.SetMutex(m, st.mutexes[m].(repeat := 1)).SetDepth(m, 1).Goto(User)
  }

  function ReleaseStep(st: State, m: nat): State
    requires m in st.mutexes
  {
    var x := st.mutexes[m].(repeat := st.mutexes[m].repeat - 1);
    st.SetMutex(m, x).SetDepth(m, Pred(st.Depth(st.Me(), m))).Goto(if x.repeat == 0 then RelClear(m) else User)
  }

  function Pred(n: nat): nat {
    if n == 0 then 0 else n - 1
  }

  function ClearStep(st: State, m: nat): State
    requires m in st.mutexes
  {
    st.SetMutex(m, st.mutexes[m].(holder := None)).Goto(RelUnlock(m))
  }

  function UnlockStep(st: State, m: nat): State
    requires m in st.mutexes
  {
    var st' := st.SetMutex(m, st.mutexes[m].(isLock := false, owner := None));
    var q := st.threads.Q(MutexQ(m));
    if q == [] then st'.Goto(User)
    else st'.Goto(RelWake(m, q[0])).Threads(PopHeld(st.threads, MutexQ(m)))
  }

  function WakeStep(st: State, t: Tid): State {
    st.Goto(User).Threads(Unblock(st.threads, t))
  }

  // ---------- condition variable ----------

  // mutex_release inside cond_wait: interrupts are off throughout
  function ReleaseAtOnce(st: State, m: nat): State
    requires m in st.mutexes
  {
    var x := st.mutexes[m].(repeat := st.mutexes[m].repeat - 1);
    var st' := st.SetDepth(m, Pred(st.Depth(st.Me(), m)));
    if x.repeat == 0 then st'.SetMutex(m, x.(holder := None, isLock := false, owner := None)).Wake(MutexQ(m))
    else st'.SetMutex(m, x)
  }

  function CondWaitStep(st: State, c: nat, m: nat): State
    requires m in st.mutexes
  {
    ReleaseAtOnce(st, m).BlockOn(CondQ(c), CondBlocked(c, m))
  }

  // ---------- read-write lock ----------

  function TryRead(st: State, l: nat): State
    requires l in st.rwlocks
  {
    var x := st.rwlocks[l];
    if x.count < 0 || x.readyWrite then st.BlockOn(ReadQ(l), ReadBlocked(l))
    else st.SetRw(l, x.(count := x.count + 1, readers := x.readers + multiset{st.Me()})).Goto(User)
  }

  function ReadReleaseStep(st: State, l: nat): State
    requires l in st.rwlocks
  {
    var x := st.rwlocks[l];
    var st' := st.SetRw(l, x.(count := x.count - 1, readers := x.readers - multiset{st.Me()}));
    if x.count - 1 != 0 then st'
    else if st.threads.Q(WriteQ(l)) != [] then st'.Wake(WriteQ(l))
    else st'.Wake(ReadQ(l))
  }

  function TryWrite(st: State, l: nat): State
    requires l in st.rwlocks
  {
    var x := st.rwlocks[l];
    if x.count != 0 then st.SetRw(l, x.(readyWrite := true)).BlockOn(WriteQ(l), WriteBlocked(l))
    else st.SetRw(l, x.(count := x.count - 1, writer := Some(st.Me()))).Goto(User)
  }

  function WriteReleaseStep(st: State, l: nat): State
    requires l in st.rwlocks
  {
    var x := st.rwlocks[l].(count := st.rwlocks[l].count + 1, writer := None);
    if st.threads.Q(WriteQ(l)) != [] then st.SetRw(l, x).Wake(WriteQ(l))
    else st.SetRw(l, x.(readyWrite := false)).WakeAllOn(ReadQ(l))
  }

  // ---------- the step relation ----------

  function CallStep(st: State, api: Api): State
    requires MayCall(st, api)
  {
    match api
    case SemaWait(s) => SemaWaitStep(st, s)
    case SemaTryWait(s) => SemaTryWaitStep(st, s)
    case SemaPost(s) => SemaPostStep(st, s)
    case Acquire(m) => AcquireStep(st, m)
    case Release(m) => ReleaseStep(st, m)
    case CondWait(c, m) => CondWaitStep(st, c, m)
    case CondSignal(c) => st.Wake(CondQ(c))
    case CondBroadcast(c) => st.WakeAllOn(CondQ(c))
    case ReadAcquire(l) => TryRead(st, l)
    case ReadRelease(l) => ReadReleaseStep(st, l)
    case WriteAcquire(l) => TryWrite(st, l)
    case WriteRelease(l) => WriteReleaseStep(st, l)
    case Yield => st.Threads(Preempt(st.threads))
    case ForkThread(t) => st.(pc := st.pc[t := User]).Threads(Fork(st.threads, t))
    case CreateThread(t) => st.(pc := st.pc[t := User]).Threads(Create(st.threads, t))
    case Exit => st.Threads(Leave(st.threads))
  }

  function ContinueStep(st: State): State
    requires st.Me() in st.pc && Exists(st, st.pc[st.Me()])
  {
    match st.pc[st.Me()]
    case User => st
    case IdleLoop => st.Threads(Park(st.threads))
    case SemaBlocked(s) => st.Goto(User)
    case PostPop(s) => PostPopStep(st, s)
    case AcqNest(m) => NestStep(st, m)
    case AcqLoop(m) => XchgStep(st, m)
    case AcqSetHolder(m) => SetHolderStep(st, m)
    case AcqSetRepeat(m) => SetRepeatStep(st, m)
    case RelClear(m) => ClearStep(st, m)
    case RelUnlock(m) => UnlockStep(st, m)
    case RelWake(m, t) => WakeStep(st, t)
    case CondBlocked(c, m) => AcquireStep(st, m)
    case ReadBlocked(l) => TryRead(st, l)
    case WriteBlocked(l) => TryWrite(st, l)
  }

  function Step(st: State, op: Op): State
    requires Enabled(st, op)
  {
    match op
    case Tick => st.Threads(Preempt(st.threads))
    case Continue => ContinueStep(st)
    case Call(api) => CallStep(st, api)
  }

  // thread_init: main runs, the idle thread is ready, and all locks are as their init functions leave them.
  ghost predicate Initial(st: State) {
    && st.threads == Sched.Threads(1, 0, [1], map[], map[0 := RUNNING, 1 := READY], map[0 := OnCpu, 1 := OnReady])
    && st.pc == map[0 := User, 1 := IdleLoop]
    && (forall s | s in st.sems :: st.sems[s].count == st.sems[s].init && st.sems[s].posts == st.sems[s].passed == 0)
    && (forall m | m in st.mutexes :: st.mutexes[m] == Mutex(false, None, 0, None))
    && (forall l | l in st.rwlocks :: st.rwlocks[l] == RwLock(0, false, multiset{}, None))
    && st.depth == map[]
  }
}
