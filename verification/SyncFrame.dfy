/** What a step leaves alone: locks of other kinds, their wait lists, other threads' program counters. */
module SyncFrame {
  import opened Options
  import opened Sched
  import opened SyncSpec
  import opened SyncPlaces

  datatype Kind = KSem | KMutex | KCond | KRw

  function QueueKind(q: Queue): Kind {
    match q
    case SemQ(_) => KSem
    case MutexQ(_) => KMutex
    case CondQ(_) => KCond
    case ReadQ(_) => KRw
    case WriteQ(_) => KRw
  }

  // The kind of lock a thread is busy with; coming back from cond_wait it is after the mutex.
  function PcKinds(p: Pc): set<Kind> {
    match p
    case User => {}
    case IdleLoop => {}
    case SemaBlocked(_) => {KSem}
    case PostPop(_) => {KSem}
    case ReadBlocked(_) => {KRw}
    case WriteBlocked(_) => {KRw}
    case _ => {KMutex}
  }

  function ApiKinds(api: Api): set<Kind> {
    match api
    case SemaWait(_) => {KSem}
    case SemaTryWait(_) => {KSem}
    case SemaPost(_) => {KSem}
    case Acquire(_) => {KMutex}
    case Release(_) => {KMutex}
    case CondWait(_, _) => {KMutex, KCond}
    case CondSignal(_) => {KCond}
    case CondBroadcast(_) => {KCond}
    case ReadAcquire(_) => {KRw}
    case ReadRelease(_) => {KRw}
    case WriteAcquire(_) => {KRw}
    case WriteRelease(_) => {KRw}
    case _ => {}
  }

  function Kinds(st: State, op: Op): set<Kind>
    requires Enabled(st, op)
  {
    match op
    case Tick => {}
    case Continue => PcKinds(st.pc[st.Me()])
    case Call(api) => ApiKinds(api)
  }

  ghost predicate SamePcs(st: State, st': State, kinds: set<Kind>) {
    && (forall t | t in st.pc ::
          && t in st'.pc
          && (st'.pc[t] == st.pc[t]
              || (t == st.Me() && PcKinds(st'.pc[t]) <= kinds && PcKinds(st.pc[t]) <= kinds)))
    && (forall t | t in st'.pc && t !in st.pc :: st'.pc[t] == User)
  }

  ghost predicate OnlyKinds(st: State, st': State, kinds: set<Kind>) {
    && (KSem !in kinds ==> st'.sems == st.sems)
    && (KMutex !in kinds ==> st'.mutexes == st.mutexes && st'.depth == st.depth)
    && (KRw !in kinds ==> st'.rwlocks == st.rwlocks)
    && (forall q :: QueueKind(q) !in kinds ==> st'.threads.Q(q) == st.threads.Q(q))
    && SamePcs(st, st', kinds)
  }

  lemma GotoPcs(st: State, st': State, p: Pc, kinds: set<Kind>)
    requires st.Me() in st.pc && st'.pc == st.pc[st.Me() := p]
    requires PcKinds(p) <= kinds && PcKinds(st.pc[st.Me()]) <= kinds
    ensures SamePcs(st, st', kinds)
  {
  }

  lemma EqualPcs(st: State, st': State, kinds: set<Kind>)
    requires st'.pc == st.pc
    ensures SamePcs(st, st', kinds)
  {
  }

  // A step that blocks on q and otherwise changes only its own kind of lock.
  lemma BlockFrame(st: State, st': State, q: Queue, p: Pc, kinds: set<Kind>)
    requires PlaceInv(st) && st.pc[st.Me()] != IdleLoop
    requires st'.threads == Block(st.threads, q) && st'.pc == st.pc[st.Me() := p]
    requires QueueKind(q) in kinds && PcKinds(p) <= kinds && PcKinds(st.pc[st.Me()]) <= kinds
    requires KSem !in kinds ==> st'.sems == st.sems
    requires KMutex !in kinds ==> st'.mutexes == st.mutexes && st'.depth == st.depth
    requires KRw !in kinds ==> st'.rwlocks == st.rwlocks
    ensures OnlyKinds(st, st', kinds)
    ensures st.Me() !in st.threads.Q(q) && st'.threads.Q(q) == st.threads.Q(q) + [st.Me()]
    ensures forall r :: r != q ==> st'.threads.Q(r) == st.threads.Q(r)
  {
    hide SchedInv, PcOk, Block, SamePcs, PcKinds;
    RunningIsFree(st);
    BlockKeeps(st.threads, q);
    GotoPcs(st, st', p, kinds);
  }

  // A step that stays on the CPU and leaves the lists alone.
  lemma LocalFrame(st: State, st': State, p: Pc, kinds: set<Kind>)
    requires PlaceInv(st) && st'.threads == st.threads && st'.pc == st.pc[st.Me() := p]
    requires PcKinds(p) <= kinds && PcKinds(st.pc[st.Me()]) <= kinds
    requires KSem !in kinds ==> st'.sems == st.sems
    requires KMutex !in kinds ==> st'.mutexes == st.mutexes && st'.depth == st.depth
    requires KRw !in kinds ==> st'.rwlocks == st.rwlocks
    ensures OnlyKinds(st, st', kinds)
  {
    hide SchedInv, PcOk, SamePcs, PcKinds;
    RunningIsFree(st);
    GotoPcs(st, st', p, kinds);
  }

  lemma SemaWaitFrame(st: State, s: nat)
    requires PlaceInv(st) && s in st.sems && st.pc[st.Me()] == User
    ensures OnlyKinds(st, SemaWaitStep(st, s), {KSem})
  {
    hide PlaceInv, OnlyKinds;
    if st.sems[s].count - 1 < 0 {
      BlockFrame(st, SemaWaitStep(st, s), SemQ(s), SemaBlocked(s), {KSem});
    } else {
      RunningIsFree(st);
      LocalFrame(st, SemaWaitStep(st, s), User, {KSem});
    }
  }

  lemma SemaphoreFrame(st: State, s: nat)
    requires PlaceInv(st) && s in st.sems && st.pc[st.Me()] == User
    ensures OnlyKinds(st, SemaTryWaitStep(st, s), {KSem}) && OnlyKinds(st, SemaPostStep(st, s), {KSem})
  {
    hide PlaceInv, OnlyKinds;
    RunningIsFree(st);
    LocalFrame(st, SemaTryWaitStep(st, s), User, {KSem});
    LocalFrame(st, SemaPostStep(st, s), if st.sems[s].count + 1 > 0 then User else PostPop(s), {KSem});
  }

  lemma PostPopFrame(st: State, s: nat)
    requires PlaceInv(st) && s in st.sems && st.pc[st.Me()] == PostPop(s)
    ensures OnlyKinds(st, PostPopStep(st, s), {KSem})
  {
    hide SchedInv, PcOk, WakeHead, SamePcs;
    RunningIsFree(st);
    WakeHeadKeeps(st.threads, SemQ(s));
    GotoPcs(st, PostPopStep(st, s), User, {KSem});
  }

  lemma ReleaseAtOnceFrame(st: State, m: nat)
    requires PlaceInv(st) && m in st.mutexes
    ensures OnlyKinds(st, ReleaseAtOnce(st, m), {KMutex})
    ensures forall q :: q != MutexQ(m) ==> ReleaseAtOnce(st, m).threads.Q(q) == st.threads.Q(q)
  {
    hide SchedInv, PcOk, WakeHead, SamePcs;
    WakeHeadKeeps(st.threads, MutexQ(m));
    EqualPcs(st, ReleaseAtOnce(st, m), {KMutex});
  }

  lemma CondWaitFrame(st: State, c: nat, m: nat)
    requires PlaceInv(st) && m in st.mutexes && st.pc[st.Me()] == User
    ensures OnlyKinds(st, CondWaitStep(st, c, m), {KMutex, KCond})
    ensures forall q :: q != MutexQ(m) && q != CondQ(c) ==> CondWaitStep(st, c, m).threads.Q(q) == st.threads.Q(q)
    ensures CondWaitStep(st, c, m).threads.Q(MutexQ(m)) == ReleaseAtOnce(st, m).threads.Q(MutexQ(m))
    ensures st.Me() in CondWaitStep(st, c, m).threads.Q(CondQ(c))
  {
    hide PlaceInv, ReleaseAtOnce;
    RunningIsFree(st);
    ReleaseAtOnceKeeps(st, m);
    ReleaseAtOnceFrame(st, m);
    BlockFrame(ReleaseAtOnce(st, m), CondWaitStep(st, c, m), CondQ(c), CondBlocked(c, m), {KMutex, KCond});
  }

  lemma XchgFrame(st: State, m: nat)
    requires PlaceInv(st) && m in st.mutexes && st.pc[st.Me()] == AcqLoop(m)
    ensures OnlyKinds(st, XchgStep(st, m), {KMutex})
  {
    hide PlaceInv, OnlyKinds;
    if st.mutexes[m].isLock {
      BlockFrame(st, XchgStep(st, m), MutexQ(m), AcqLoop(m), {KMutex});
    } else {
      LocalFrame(st, XchgStep(st, m), AcqSetHolder(m), {KMutex});
    }
  }

  lemma MutexFrame(st: State, m: nat)
    requires PlaceInv(st) && m in st.mutexes && PcKinds(st.pc[st.Me()]) <= {KMutex} && st.pc[st.Me()] != IdleLoop
    ensures OnlyKinds(st, AcquireStep(st, m), {KMutex}) && OnlyKinds(st, ReleaseStep(st, m), {KMutex})
  {
    hide PlaceInv, OnlyKinds;
    var p := if st.mutexes[m].holder == Some(st.Me()) then AcqNest(m) else AcqLoop(m);
    LocalFrame(st, AcquireStep(st, m), p, {KMutex});
    LocalFrame(st, ReleaseStep(st, m), if st.mutexes[m].repeat - 1 == 0 then RelClear(m) else User, {KMutex});
  }

  lemma MutexTakenFrame(st: State, m: nat)
    requires PlaceInv(st) && m in st.mutexes && PcKinds(st.pc[st.Me()]) <= {KMutex} && st.pc[st.Me()] != IdleLoop
    ensures OnlyKinds(st, NestStep(st, m), {KMutex}) && OnlyKinds(st, SetHolderStep(st, m), {KMutex})
    ensures OnlyKinds(st, SetRepeatStep(st, m), {KMutex}) && OnlyKinds(st, ClearStep(st, m), {KMutex})
  {
    hide PlaceInv, OnlyKinds;
    LocalFrame(st, NestStep(st, m), User, {KMutex});
    LocalFrame(st, SetHolderStep(st, m), AcqSetRepeat(m), {KMutex});
    LocalFrame(st, SetRepeatStep(st, m), User, {KMutex});
    LocalFrame(st, ClearStep(st, m), RelUnlock(m), {KMutex});
  }

  lemma UnlockFrame(st: State, m: nat)
    requires PlaceInv(st) && m in st.mutexes && st.pc[st.Me()] == RelUnlock(m)
    ensures OnlyKinds(st, UnlockStep(st, m), {KMutex})
    ensures forall q :: q != MutexQ(m) ==> UnlockStep(st, m).threads.Q(q) == st.threads.Q(q)
    ensures UnlockStep(st, m).threads.Q(MutexQ(m))
         == if st.threads.Q(MutexQ(m)) == [] then [] else st.threads.Q(MutexQ(m))[1..]
  {
    hide SchedInv, PcOk, PopHeld, SamePcs;
    RunningIsFree(st);
    var q := st.threads.Q(MutexQ(m));
    if q != [] {
      PopHeldKeeps(st.threads, MutexQ(m));
      GotoPcs(st, UnlockStep(st, m), RelWake(m, q[0]), {KMutex});
    } else {
      GotoPcs(st, UnlockStep(st, m), User, {KMutex});
    }
  }

  lemma WakeFrame(st: State)
    requires PlaceInv(st) && st.pc[st.Me()].RelWake?
    ensures OnlyKinds(st, WakeStep(st, st.pc[st.Me()].woken), {KMutex})
    ensures forall q :: WakeStep(st, st.pc[st.Me()].woken).threads.Q(q) == st.threads.Q(q)
  {
    hide SchedInv, PcOk, Unblock, SamePcs;
    RunningIsFree(st);
    UnholdOk(st.pc, Stuck(st.threads), st.threads.idle, st.Me());
    UnblockKeeps(st.threads, st.pc[st.Me()].woken);
    GotoPcs(st, WakeStep(st, st.pc[st.Me()].woken), User, {KMutex});
  }

  lemma TryReadFrame(st: State, l: nat)
    requires PlaceInv(st) && l in st.rwlocks && PcKinds(st.pc[st.Me()]) <= {KRw} && st.pc[st.Me()] != IdleLoop
    ensures OnlyKinds(st, TryRead(st, l), {KRw})
  {
    hide PlaceInv, OnlyKinds;
    if st.rwlocks[l].count < 0 || st.rwlocks[l].readyWrite {
      BlockFrame(st, TryRead(st, l), ReadQ(l), ReadBlocked(l), {KRw});
    } else {
      LocalFrame(st, TryRead(st, l), User, {KRw});
    }
  }

  lemma TryWriteFrame(st: State, l: nat)
    requires PlaceInv(st) && l in st.rwlocks && PcKinds(st.pc[st.Me()]) <= {KRw} && st.pc[st.Me()] != IdleLoop
    ensures OnlyKinds(st, TryWrite(st, l), {KRw})
  {
    hide PlaceInv, OnlyKinds;
    if st.rwlocks[l].count != 0 {
      BlockFrame(st, TryWrite(st, l), WriteQ(l), WriteBlocked(l), {KRw});
    } else {
      LocalFrame(st, TryWrite(st, l), User, {KRw});
    }
  }

  lemma ReadReleaseFrame(st: State, l: nat)
    requires PlaceInv(st) && l in st.rwlocks
    ensures OnlyKinds(st, ReadReleaseStep(st, l), {KRw})
  {
    hide SchedInv, PcOk, WakeHead, SamePcs;
    WakeHeadKeeps(st.threads, WriteQ(l));
    WakeHeadKeeps(st.threads, ReadQ(l));
    EqualPcs(st, ReadReleaseStep(st, l), {KRw});
  }

  lemma WriteReleaseFrame(st: State, l: nat)
    requires PlaceInv(st) && l in st.rwlocks
    ensures OnlyKinds(st, WriteReleaseStep(st, l), {KRw})
  {
    hide SchedInv, PcOk, WakeHead, WakeAll, SamePcs;
    WakeHeadKeeps(st.threads, WriteQ(l));
    WakeAllKeeps(st.threads, ReadQ(l));
    EqualPcs(st, WriteReleaseStep(st, l), {KRw});
  }

  lemma CondFrame(st: State, c: nat)
    requires PlaceInv(st)
    ensures OnlyKinds(st, st.Wake(CondQ(c)), {KCond}) && OnlyKinds(st, st.WakeAllOn(CondQ(c)), {KCond})
  {
    hide SchedInv, PcOk, WakeHead, WakeAll, SamePcs;
    WakeHeadKeeps(st.threads, CondQ(c));
    WakeAllKeeps(st.threads, CondQ(c));
    EqualPcs(st, st.Wake(CondQ(c)), {KCond});
    EqualPcs(st, st.WakeAllOn(CondQ(c)), {KCond});
  }

  lemma SwitchFrame(st: State, s: Sched.Threads)
    requires forall q :: s.Q(q) == st.threads.Q(q)
    ensures OnlyKinds(st, st.Threads(s), {})
  {
  }

  lemma NewThreadFrame(st: State, t: Tid, s: Sched.Threads)
    requires t !in st.pc && forall q :: s.Q(q) == st.threads.Q(q)
    ensures OnlyKinds(st, st.(pc := st.pc[t := User]).Threads(s), {})
  {
  }

  lemma ThreadFrame(st: State, api: Api)
    requires PlaceInv(st) && st.pc[st.Me()] == User && MayCall(st, api)
    requires api.Yield? || api.ForkThread? || api.CreateThread? || api.Exit?
    ensures OnlyKinds(st, CallStep(st, api), {})
  {
    hide SchedInv, PcOk, Preempt, Fork, Create, Leave, OnlyKinds;
    RunningIsFree(st);
    match api
    case Yield =>
      PreemptKeeps(st.threads);
      SwitchFrame(st, Preempt(st.threads));
    case ForkThread(t) =>
      ForkKeeps(st.threads, t);
      NewThreadFrame(st, t, Fork(st.threads, t));
    case CreateThread(t) =>
      CreateKeeps(st.threads, t);
      NewThreadFrame(st, t, Create(st.threads, t));
    case Exit =>
      LeaveKeeps(st.threads);
      SwitchFrame(st, Leave(st.threads));
    case _ =>
  }

  lemma CallFrame(st: State, api: Api)
    requires PlaceInv(st) && st.pc[st.Me()] == User && MayCall(st, api)
    ensures OnlyKinds(st, CallStep(st, api), ApiKinds(api))
  {
    hide PlaceInv, OnlyKinds, SemaWaitStep, SemaTryWaitStep, SemaPostStep, AcquireStep, ReleaseStep, CondWaitStep;
    hide TryRead, TryWrite, ReadReleaseStep, WriteReleaseStep, WakeAll, WakeHead, Preempt, Fork, Create, Leave;
    match api
    case SemaWait(s) => SemaWaitFrame(st, s);
    case SemaTryWait(s) => SemaphoreFrame(st, s);
    case SemaPost(s) => SemaphoreFrame(st, s);
    case Acquire(m) => MutexFrame(st, m);
    case Release(m) => MutexFrame(st, m);
    case CondWait(c, m) => CondWaitFrame(st, c, m);
    case CondSignal(c) => CondFrame(st, c);
    case CondBroadcast(c) => CondFrame(st, c);
    case ReadAcquire(l) => TryReadFrame(st, l);
    case ReadRelease(l) => ReadReleaseFrame(st, l);
    case WriteAcquire(l) => TryWriteFrame(st, l);
    case WriteRelease(l) => WriteReleaseFrame(st, l);
    case _ => ThreadFrame(st, api);
  }

  lemma IdleFrame(st: State)
    requires PlaceInv(st) && st.pc[st.Me()] == IdleLoop
    ensures OnlyKinds(st, st.Threads(Park(st.threads)), {})
  {
    hide SchedInv, PcOk, Park;
    RunningIsFree(st);
    ParkKeeps(st.threads);
  }

  lemma GotoFrame(st: State)
    requires PlaceInv(st)
    ensures OnlyKinds(st, st, PcKinds(st.pc[st.Me()])) && OnlyKinds(st, st.Goto(User), PcKinds(st.pc[st.Me()]))
  {
    hide SchedInv, PcOk;
    RunningIsFree(st);
  }

  lemma ContinueFrame(st: State)
    requires PlaceInv(st) && st.Me() in st.pc && Exists(st, st.pc[st.Me()])
    ensures OnlyKinds(st, ContinueStep(st), PcKinds(st.pc[st.Me()]))
  {
    hide PlaceInv, OnlyKinds, PostPopStep, NestStep, XchgStep, SetHolderStep, SetRepeatStep, ClearStep, UnlockStep;
    hide WakeStep;
    hide AcquireStep, TryRead, TryWrite, Park;
    match st.pc[st.Me()]
    case User => GotoFrame(st);
    case IdleLoop => IdleFrame(st);
    case SemaBlocked(s) => GotoFrame(st);
    case PostPop(s) => PostPopFrame(st, s);
    case RelUnlock(m) => UnlockFrame(st, m);
    case RelWake(m, t) => WakeFrame(st);
    case ReadBlocked(l) => TryReadFrame(st, l);
    case WriteBlocked(l) => TryWriteFrame(st, l);
    case AcqNest(m) => MutexTakenFrame(st, m);
    case AcqLoop(m) => XchgFrame(st, m);
    case AcqSetHolder(m) => MutexTakenFrame(st, m);
    case AcqSetRepeat(m) => MutexTakenFrame(st, m);
    case RelClear(m) => MutexTakenFrame(st, m);
    case CondBlocked(c, m) => MutexFrame(st, m);
  }

  // Every step changes only the kinds of lock it is about.
  lemma StepFrame(st: State, op: Op)
    requires PlaceInv(st) && Enabled(st, op)
    ensures OnlyKinds(st, Step(st, op), Kinds(st, op))
  {
    hide SchedInv, PcOk, CallStep, ContinueStep, MayCall, Preempt;
    match op
    case Tick => PreemptKeeps(st.threads);
    case Continue => ContinueFrame(st);
    case Call(api) => CallFrame(st, api);
  }
}
