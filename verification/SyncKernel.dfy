/** kernel/kthread.c and kernel/sync.c as code: each interrupts-off section a method over the kernel's own
    variables, proved to be the step of the same name. */
module SyncKernel {
  import opened Options
  import opened Sched
  import opened Seqs
  import opened SyncSpec
  import opened SyncPlaces
  import opened SyncFrame
  import SyncLocks
  import opened SyncTheorems
  import opened SyncRuns

  class Kernel {
    var idle: Tid
    var running: Tid
    var ready: seq<Tid>
    var waits: map<Queue, seq<Tid>>
    var state: map<Tid, TaskState>
    var pc: map<Tid, Pc>
    var sems: map<nat, Sem>
    var mutexes: map<nat, Mutex>
    var rwlocks: map<nat, RwLock>
    ghost var place: map<Tid, Place>
    ghost var depth: map<(Tid, nat), nat>

    ghost function Lists(): Threads
      reads this
    {
      Threads(idle, running, ready, waits, state, place)
    }

    ghost function Abs(): State
      reads this
    {
      State(Lists(), pc, sems, mutexes, rwlocks, depth)
    }

    // ---------- list operations ----------

    function WaitList(q: Queue): seq<Tid>
      reads this
      ensures WaitList(q) == Lists().Q(q)
    {
      if q in waits then waits[q] else []
    }

    // list_push_back links the tag it is given into the list, so that it must not be linked yet.
    method PushBack(q: Queue, t: Tid)
      requires Unlinked(Lists(), t)
      modifies this`waits
      ensures waits == old(waits)[q := old(WaitList(q)) + [t]]
    {
      waits := waits[q := WaitList(q) + [t]];
    }

    method PopFront(q: Queue) returns (t: Tid)
      requires WaitList(q) != []
      modifies this`waits
      ensures t == old(WaitList(q)[0]) && waits == old(waits)[q := old(WaitList(q)[1..])]
    {
      t := WaitList(q)[0];
      waits := waits[q := WaitList(q)[1..]];
    }

    // ---------- kthread.c ----------

    method Schedule()
      requires running in state && (state[running] == RUNNING ==> Unlinked(Lists(), running))
      modifies this`running, this`ready, this`state, this`place
      ensures Lists() == if old(state[running]) == RUNNING then Preempt(old(Lists())) else Dispatch(old(Lists()))
      ensures [running] + ready == if old(state[running]) == RUNNING then old(ready) + [old(running)]
                                   else if old(ready) == [] then [idle]
                                   else old(ready)
    {
      if state[running] == RUNNING {
        state := state[running := READY];
        place := place[running := OnReady];
        ready := ready + [running];
      }
      var next;
      if ready == [] {
        next := idle;
      } else {
        next, ready := ready[0], ready[1..];
      }
      state := state[next := TaskState.RUNNING];
      place := place[next := OnCpu];
      running := next;
    }

    // p: where the caller has left the thread, a wait list or the idle loop.
    method ThreadBlock(ghost p: Place)
      requires StateAt(p) == BLOCKED
      modifies this`running, this`ready, this`state, this`place
      ensures Lists() == Dispatch(old(Lists().At(running, p)))
    {
      state := state[running := BLOCKED];
      place := place[running := p];
      Schedule();
    }

    method ThreadUnblock(t: Tid)
      requires Unlinked(Lists(), t)
      modifies this`ready, this`state, this`place
      ensures Lists() == Unblock(old(Lists()), t)
    {
      state := state[t := READY];
      place := place[t := OnReady];
      ready := ready + [t];
    }

    method ThreadYield()
      requires Unlinked(Lists(), running)
      modifies this`running, this`ready, this`state, this`place
      ensures Lists() == Preempt(old(Lists()))
      ensures [running] + ready == old(ready) + [old(running)]
    {
      state := state[running := READY];
      place := place[running := OnReady];
      ready := ready + [running];
      Schedule();
    }

    method SysExit()
      modifies this`running, this`ready, this`state, this`place
      ensures Lists() == Leave(old(Lists()))
      ensures [running] + ready == if old(ready) == [] then [idle] else old(ready)
    {
      state := state[running := EXIT];
      place := place[running := Gone];
      Schedule();
    }

    // The tail of several releases: pop and unblock while interrupts stay off.
    method PopAndUnblock(q: Queue)
      requires WaitList(q) != [] && TagsOk(Lists())
      modifies this`waits, this`ready, this`state, this`place
      ensures Lists() == WakeHead(old(Lists()), q)
    {
      HeadTag(Lists(), q);
      var t := PopFront(q);
      place := place[t := Held(running)];
      SameWaits(PopHeld(old(Lists()), q), Lists(), t);
      ThreadUnblock(t);
      HeldStateForgotten(old(Lists()), q);
    }

    method DrainAndUnblock(q: Queue)
      requires TagsOk(Lists())
      modifies this`waits, this`ready, this`state, this`place
      ensures Lists() == WakeAll(old(Lists()), q)
    {
      while WaitList(q) != []
        invariant WakeAll(Lists(), q) == WakeAll(old(Lists()), q)
        invariant idle == old(idle) && running == old(running) && TagsOk(Lists())
        decreases |WaitList(q)|
      {
        WakeHeadTags(Lists(), q);
        PopAndUnblock(q);
      }
    }

    method KthreadCreate(t: Tid)
      requires Unlinked(Lists(), t)
      modifies this
      ensures Abs() == old(Abs()).(pc := old(pc)[t := User]).Threads(Create(old(Lists()), t))
      ensures running == old(running) && ready == old(ready) + [t]
    {
      pc := pc[t := User];
      ThreadUnblock(t);
    }

    // do_fork's scheduling: the child to the front of the line, the parent to the back.
    method DoFork(t: Tid)
      requires Unlinked(Lists(), t) && Unlinked(Lists(), running) && t != running
      modifies this
      ensures Abs() == old(Abs()).(pc := old(pc)[t := User]).Threads(Fork(old(Lists()), t))
      ensures running == t && ready == old(ready) + [old(running)]
    {
      pc := pc[t := User];
      state := state[t := READY];
      place := place[t := OnReady];
      ready := [t] + ready;
      SameWaits(old(Lists()), Lists(), running);
      ThreadYield();
    }

    // A thread pushed on wait list q and blocked.
    method BlockOn(q: Queue, p: Pc)
      requires Unlinked(Lists(), running)
      modifies this`waits, this`running, this`ready, this`state, this`place, this`pc
      ensures Abs() == old(Abs()).BlockOn(q, p)
    {
      pc := pc[running := p];
      PushBack(q, running);
      ThreadBlock(OnWait(q));
    }

    method Goto(p: Pc)
      modifies this`pc
      ensures Abs() == old(Abs()).Goto(p)
    {
      pc := pc[running := p];
    }

    // ---------- semaphore ----------

    method SemaWait(s: nat)
      requires s in sems && Unlinked(Lists(), running)
      modifies this
      ensures Abs() == SemaWaitStep(old(Abs()), s)
    {
      sems := sems[s := sems[s].(count := sems[s].count - 1)];
      if !(sems[s].count >= 0) {
        BlockOn(SemQ(s), SemaBlocked(s));
      } else {
        sems := sems[s := sems[s].(passed := sems[s].passed + 1)];
      }
    }

    method SemaTryWait(s: nat) returns (success: bool)
      requires s in sems
      modifies this`sems
      ensures Abs() == SemaTryWaitStep(old(Abs()), s) && (success <==> old(sems[s].count) > 0)
    {
      success := true;
      sems := sems[s := sems[s].(count := sems[s].count - 1)];
      if !(sems[s].count >= 0) {
        sems := sems[s := sems[s].(count := sems[s].count + 1)];
        success := false;
      } else {
        sems := sems[s := sems[s].(passed := sems[s].passed + 1)];
      }
    }

    method SemaPost(s: nat)
      requires s in sems
      modifies this`sems, this`pc
      ensures Abs() == SemaPostStep(old(Abs()), s)
    {
      sems := sems[s := sems[s].(count := sems[s].count + 1, posts := sems[s].posts + 1)];
      if !(sems[s].count > 0) {
        Goto(PostPop(s));
      }
    }

    // The interrupts-off half of sema_post, which takes the list to be non-empty.
    method SemaPostPop(s: nat)
      requires s in sems && WaitList(SemQ(s)) != [] && TagsOk(Lists())
      modifies this
      ensures Abs() == PostPopStep(old(Abs()), s)
    {
      hide WakeHead;
      sems := sems[s := sems[s].(passed := sems[s].passed + 1)];
      Goto(User);
      PopAndUnblock(SemQ(s));
    }

    // ---------- mutex ----------

    method MutexAcquire(m: nat)
      requires m in mutexes
      modifies this`pc
      ensures Abs() == AcquireStep(old(Abs()), m)
    {
      if mutexes[m].holder == Some(running) {
        Goto(AcqNest(m));
      } else {
        Goto(AcqLoop(m));
      }
    }

    method MutexXchg(m: nat)
      requires m in mutexes && Unlinked(Lists(), running)
      modifies this
      ensures Abs() == XchgStep(old(Abs()), m)
    {
      var flag := mutexes[m].isLock;
      mutexes := mutexes[m := mutexes[m].(isLock := true)];
      if flag {
        assert mutexes == old(mutexes);
        BlockOn(MutexQ(m), AcqLoop(m));
      } else {
        mutexes := mutexes[m := mutexes[m].(owner := Some(running))];
        Goto(AcqSetHolder(m));
      }
    }

    method MutexNest(m: nat)
      requires m in mutexes
      modifies this
      ensures Abs() == NestStep(old(Abs()), m)
    {
      mutexes := mutexes[m := mutexes[m].(repeat := mutexes[m].repeat + 1)];
      depth := depth[(running, m) := old(Abs()).Depth(running, m) + 1];
      Goto(User);
    }

    method MutexSetHolder(m: nat)
      requires m in mutexes
      modifies this
      ensures Abs() == SetHolderStep(old(Abs()), m)
    {
      mutexes := mutexes[m := mutexes[m].(holder := Some(running))];
      Goto(AcqSetRepeat(m));
    }

    method MutexSetRepeat(m: nat)
      requires m in mutexes
      modifies this
      ensures Abs() == SetRepeatStep(old(Abs()), m)
    {
      mutexes := mutexes[m := mutexes[m].(repeat := 1)];
      depth := depth[(running, m) := 1];
      Goto(User);
    }

    // mutex_release up to its test of repeat; its PANIC below zero is ruled out by repeat >= 1.
    method MutexRelease(m: nat)
      requires m in mutexes && mutexes[m].holder == Some(running) && mutexes[m].repeat >= 1
      modifies this
      ensures Abs() == ReleaseStep(old(Abs()), m)
    {
      mutexes := mutexes[m := mutexes[m].(repeat := mutexes[m].repeat - 1)];
      depth := depth[(running, m) := Pred(old(Abs()).Depth(running, m))];
      if mutexes[m].repeat == 0 {
        Goto(RelClear(m));
      } else {
        assert mutexes[m].repeat >= 0;
        Goto(User);
      }
    }

    method MutexClear(m: nat)
      requires m in mutexes
      modifies this
      ensures Abs() == ClearStep(old(Abs()), m)
    {
      mutexes := mutexes[m := mutexes[m].(holder := None)];
      Goto(RelUnlock(m));
    }

    // The xchg and the pop of mutex_release.
    method MutexUnlock(m: nat)
      requires m in mutexes && mutexes[m].isLock
      requires WaitList(MutexQ(m)) != [] ==> WaitList(MutexQ(m))[0] in state && state[WaitList(MutexQ(m))[0]] == BLOCKED
      modifies this
      ensures Abs() == UnlockStep(old(Abs()), m)
    {
      var flag := mutexes[m].isLock;
      assert flag == true;
      mutexes := mutexes[m := mutexes[m].(isLock := false, owner := None)];
      if WaitList(MutexQ(m)) == [] {
        Goto(User);
      } else {
        var t := PopFront(MutexQ(m));
        place := place[t := Held(running)];
        assert state == state[t := BLOCKED];
        Goto(RelWake(m, t));
      }
    }

    method MutexWake(t: Tid)
      requires Unlinked(Lists(), t)
      modifies this
      ensures Abs() == WakeStep(old(Abs()), t)
    {
      ThreadUnblock(t);
      Goto(User);
    }

    // ---------- condition variable ----------

    // mutex_release with interrupts off throughout
    method ReleaseNow(m: nat)
      requires m in mutexes && mutexes[m].holder == Some(running) && mutexes[m].repeat >= 1 && TagsOk(Lists())
      modifies this
      ensures Abs() == ReleaseAtOnce(old(Abs()), m)
    {
      hide WakeHead;
      depth := depth[(running, m) := Pred(old(Abs()).Depth(running, m))];
      var x := mutexes[m].(repeat := mutexes[m].repeat - 1);
      mutexes := mutexes[m := x];
      if x.repeat == 0 {
        x := x.(holder := None);
        mutexes := mutexes[m := x];
        x := x.(isLock := false, owner := None);
        mutexes := mutexes[m := x];
        assert mutexes == old(mutexes)[m := x];
        if WaitList(MutexQ(m)) != [] {
          PopAndUnblock(MutexQ(m));
        } else {
          NobodyToWake(Lists(), MutexQ(m));
        }
      } else {
        assert x.repeat >= 0;
      }
    }

    method CondWait(c: nat, m: nat)
      requires m in mutexes && mutexes[m].holder == Some(running) && mutexes[m].repeat >= 1
      requires TagsOk(Lists()) && Unlinked(Lists(), running)
      modifies this
      ensures Abs() == CondWaitStep(old(Abs()), c, m)
    {
      hide ReleaseAtOnce, Block;
      assert running !in WaitList(CondQ(c));
      StillUnlinked(Abs(), m);
      ReleaseNow(m);
      BlockOn(CondQ(c), CondBlocked(c, m));
    }

    method CondSignal(c: nat)
      requires TagsOk(Lists())
      modifies this`waits, this`ready, this`state, this`place
      ensures Abs() == old(Abs()).Wake(CondQ(c))
    {
      if WaitList(CondQ(c)) != [] {
        PopAndUnblock(CondQ(c));
      }
    }

    method CondBroadcast(c: nat)
      requires TagsOk(Lists())
      modifies this`waits, this`ready, this`state, this`place
      ensures Abs() == old(Abs()).WakeAllOn(CondQ(c))
    {
      DrainAndUnblock(CondQ(c));
    }

    // ---------- read-write lock ----------

    // One round of the waiting loop, from the start or from thread_block to the next block or the end.
    method ReadAcquire(l: nat)
      requires l in rwlocks && Unlinked(Lists(), running)
      modifies this
      ensures Abs() == TryRead(old(Abs()), l)
    {
      if rwlocks[l].count < 0 || rwlocks[l].readyWrite == true {
        BlockOn(ReadQ(l), ReadBlocked(l));
      } else {
        rwlocks := rwlocks[l := rwlocks[l].(count := rwlocks[l].count + 1,
                                            readers := rwlocks[l].readers + multiset{running})];
        Goto(User);
      }
    }

    method ReadRelease(l: nat)
      requires l in rwlocks && rwlocks[l].count > 0 && TagsOk(Lists())
      modifies this
      ensures Abs() == ReadReleaseStep(old(Abs()), l)
    {
      hide WakeHead;
      rwlocks := rwlocks[l := rwlocks[l].(count := rwlocks[l].count - 1,
                                          readers := rwlocks[l].readers - multiset{running})];
      if rwlocks[l].count == 0 {
        if WaitList(WriteQ(l)) != [] {
          PopAndUnblock(WriteQ(l));
        } else if WaitList(ReadQ(l)) != [] {
          PopAndUnblock(ReadQ(l));
        } else {
          NobodyToWake(Lists(), ReadQ(l));
        }
      }
    }

    method WriteAcquire(l: nat)
      requires l in rwlocks && Unlinked(Lists(), running)
      modifies this
      ensures Abs() == TryWrite(old(Abs()), l)
    {
      if rwlocks[l].count != 0 {
        rwlocks := rwlocks[l := rwlocks[l].(readyWrite := true)];
        BlockOn(WriteQ(l), WriteBlocked(l));
      } else {
        rwlocks := rwlocks[l := rwlocks[l].(count := rwlocks[l].count - 1, writer := Some(running))];
        Goto(User);
      }
    }

    method WriteRelease(l: nat)
      requires l in rwlocks && rwlocks[l].count == -1 && TagsOk(Lists())
      modifies this
      ensures Abs() == WriteReleaseStep(old(Abs()), l)
    {
      hide WakeHead, WakeAll;
      rwlocks := rwlocks[l := rwlocks[l].(count := rwlocks[l].count + 1, writer := None)];
      if WaitList(WriteQ(l)) != [] {
        PopAndUnblock(WriteQ(l));
      } else {
        rwlocks := rwlocks[l := rwlocks[l].(readyWrite := false)];
        DrainAndUnblock(ReadQ(l));
      }
    }

    // ---------- one step ----------

    method Proceed()
      requires Inv(Abs()) && Enabled(Abs(), Continue)
      modifies this
      ensures Abs() == ContinueStep(old(Abs()))
    {
      hide Inv, PostPopStep, AcquireStep, NestStep, XchgStep, SetHolderStep, SetRepeatStep, ClearStep, UnlockStep;
      hide WakeStep;
      hide TryRead, TryWrite, Dispatch, TagsOk, Unlinked;
      InvTags(Abs());
      match pc[running] {
        case User =>
        case IdleLoop => ThreadBlock(Parked);
        case SemaBlocked(_) => Goto(User);
        case PostPop(s) =>
          SleeperFound(Abs(), s);
          SemaPostPop(s);
        case AcqNest(m) => MutexNest(m);
        case AcqLoop(m) => MutexXchg(m);
        case AcqSetHolder(m) => MutexSetHolder(m);
        case AcqSetRepeat(m) => MutexSetRepeat(m);
        case RelClear(m) => MutexClear(m);
        case RelUnlock(m) =>
          LockIsTaken(Abs(), m);
          SleeperIsBlocked(Abs(), MutexQ(m));
          MutexUnlock(m);
        case RelWake(_, t) =>
          WokenIsUnlinked(Abs(), t);
          MutexWake(t);
        case CondBlocked(_, m) => MutexAcquire(m);
        case ReadBlocked(l) => ReadAcquire(l);
        case WriteBlocked(l) => WriteAcquire(l);
      }
    }

    method Invoke(api: Api)
      requires Inv(Abs()) && Enabled(Abs(), Call(api))
      modifies this
      ensures Abs() == CallStep(old(Abs()), api)
    {
      hide Inv, SemaWaitStep, SemaTryWaitStep, SemaPostStep, AcquireStep, ReleaseStep, CondWaitStep, TryRead, TryWrite;
      hide ReadReleaseStep, WriteReleaseStep, WakeHead, WakeAll, Preempt, Fork, Create, Leave, TagsOk, Unlinked;
      InvTags(Abs());
      match api {
        case SemaWait(s) => SemaWait(s);
        case SemaTryWait(s) => var _ := SemaTryWait(s);
        case SemaPost(s) => SemaPost(s);
        case Acquire(m) => MutexAcquire(m);
        case Release(m) =>
          ReleaseIsBalanced(Abs(), m);
          MutexRelease(m);
        case CondWait(c, m) =>
          ReleaseIsBalanced(Abs(), m);
          CondWait(c, m);
        case CondSignal(c) => CondSignal(c);
        case CondBroadcast(c) => CondBroadcast(c);
        case ReadAcquire(l) => ReadAcquire(l);
        case ReadRelease(l) =>
          ReaderCounts(Abs(), l);
          ReadRelease(l);
        case WriteAcquire(l) => WriteAcquire(l);
        case WriteRelease(l) =>
          WriterCounts(Abs(), l);
          WriteRelease(l);
        case Yield => ThreadYield();
        case ForkThread(t) =>
          NewIsUnlinked(Abs(), t);
          DoFork(t);
        case CreateThread(t) =>
          NewIsUnlinked(Abs(), t);
          KthreadCreate(t);
        case Exit => SysExit();
      }
    }

    // ---------- one step ----------

    // The running thread or the timer moves the kernel one step, and the invariant stays. On the way nothing
    // is pushed on a list while it is linked into one.
    method Move(op: Op)
      requires Inv(Abs()) && Enabled(Abs(), op)
      modifies this
      ensures Abs() == Step(old(Abs()), op) && Inv(Abs()) && TagsOk(Lists())
    {
      hide Inv, SemaWaitStep, SemaTryWaitStep, SemaPostStep, PostPopStep, AcquireStep, NestStep, XchgStep;
      hide SetHolderStep;
      hide SetRepeatStep, ReleaseStep, ClearStep, UnlockStep, WakeStep, CondWaitStep, TryRead, TryWrite;
      hide ReadReleaseStep, WriteReleaseStep, WakeHead, WakeAll, Preempt, Fork, Create, Leave, Park, Dispatch, TagsOk;
      hide Unlinked;
      StepKeepsInv(Abs(), op);
      InvTags(Step(Abs(), op));
      match op
      case Tick =>
        RunnerIsRunning(Abs());
        InvTags(Abs());
        Schedule();
      case Continue => Proceed();
      case Call(api) => Invoke(api);
    }
  }

  // A popped thread's state goes from BLOCKED to READY without anyone looking in between.
  lemma HeldStateForgotten(s: Threads, q: Queue)
    requires s.Q(q) != []
    ensures WakeHead(s, q).state == s.state[s.Q(q)[0] := READY]
  {
  }

  lemma SleeperIsBlocked(st: State, q: Queue)
    requires Inv(st)
    ensures forall t | t in st.threads.Q(q) :: t in st.threads.state && st.threads.state[t] == BLOCKED
  {
    hide PcOk, SemInv, MutexInv, RwInv, BusyInv;
    assert QueueMatches(st.threads, q);
  }

  lemma SleeperFound(st: State, s: nat)
    requires Inv(st) && s in st.sems && st.Me() in st.pc && st.pc[st.Me()] == PostPop(s)
    ensures st.threads.Q(SemQ(s)) != []
  {
    hide PlaceInv, SemInv, MutexInv, RwInv, BusyInv;
    PostPopFinds(st, s);
  }

  lemma LockIsTaken(st: State, m: nat)
    requires Inv(st) && m in st.mutexes && st.Me() in st.pc && st.pc[st.Me()] == RelUnlock(m)
    ensures st.mutexes[m].isLock
  {
    hide PlaceInv, SemInv, MutexInv, RwInv, BusyInv;
    UnlockOk(st, m);
  }

  lemma ReleaseIsBalanced(st: State, m: nat)
    requires Inv(st) && st.Me() in st.pc && st.pc[st.Me()] == User && m in st.mutexes
        && st.mutexes[m].holder == Some(st.Me())
    ensures st.mutexes[m].repeat >= 1
  {
    hide PlaceInv, SemInv, RwInv, BusyInv;
    assert MutexAt(st, m);
    assert SyncLocks.ThreadOk(st.mutexes[m], st.Me(), Phases(st.pc, m)[st.Me()], Depths(st, m)[st.Me()]);
  }

  lemma ReaderCounts(st: State, l: nat)
    requires Inv(st) && st.Me() in st.pc && st.pc[st.Me()] == User && l in st.rwlocks
        && st.Me() in st.rwlocks[l].readers
    ensures st.rwlocks[l].count > 0
  {
    hide PlaceInv, SemInv, MutexInv, RwInv, BusyInv;
    ReadReleaseOk(st, l);
  }

  lemma WriterCounts(st: State, l: nat)
    requires Inv(st) && st.Me() in st.pc && st.pc[st.Me()] == User && l in st.rwlocks
        && st.rwlocks[l].writer == Some(st.Me())
    ensures st.rwlocks[l].count == -1
  {
    hide PlaceInv, SemInv, MutexInv, RwInv, BusyInv;
    WriteReleaseOk(st, l);
  }

  lemma RunnerIsRunning(st: State)
    requires Inv(st)
    ensures st.Me() in st.threads.state && st.threads.state[st.Me()] == RUNNING
  {
    hide PcOk, SemInv, MutexInv, RwInv, BusyInv, QueuesMatch, ReadyMatches;
    OnePlace(st.threads, st.Me());
  }

  lemma InvTags(st: State)
    requires Inv(st)
    ensures TagsOk(st.threads) && Unlinked(st.threads, st.Me())
  {
    hide SchedInv, PcOk, SemInv, MutexInv, RwInv, BusyInv, TagsOk, Unlinked;
    TagsAreOk(st.threads);
  }

  lemma NewIsUnlinked(st: State, t: Tid)
    requires Inv(st) && t !in st.threads.place
    ensures Unlinked(st.threads, t) && t != st.Me()
  {
    hide ListsMatch, PcOk, SemInv, MutexInv, RwInv, BusyInv, Unlinked;
    ElsewhereIsUnlinked(st.threads, t);
  }

  lemma WokenIsUnlinked(st: State, t: Tid)
    requires Inv(st) && st.Me() in st.pc && st.pc[st.Me()].RelWake? && st.pc[st.Me()].woken == t
    ensures Unlinked(st.threads, t)
  {
    hide SchedInv, SemInv, MutexInv, RwInv, BusyInv, Unlinked;
    assert t in Stuck(st.threads) && Stuck(st.threads)[t].Held?;
    ElsewhereIsUnlinked(st.threads, t);
  }

  // The mutex_release inside cond_wait puts its caller on no list.
  lemma StillUnlinked(st: State, m: nat)
    requires m in st.mutexes && TagsOk(st.threads) && Unlinked(st.threads, st.Me())
    ensures Unlinked(ReleaseAtOnce(st, m).threads, st.Me()) && ReleaseAtOnce(st, m).Me() == st.Me()
  {
    hide TagsOk, Unlinked;
    WakeHeadTags(st.threads, MutexQ(m));
  }
}
