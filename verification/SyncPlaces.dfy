/** Program counters agree with the lists: every thread has one place, and semaphores count it right. */
module SyncPlaces {
  import opened Options
  import opened Sched
  import opened SyncSpec
  import opened Seqs

  // The wait list a thread sleeps on at this point of the code.
  function QueueOf(p: Pc): Option<Queue> {
    match p
    case SemaBlocked(s) => Some(SemQ(s))
    case AcqLoop(m) => Some(MutexQ(m))
    case CondBlocked(c, m) => Some(CondQ(c))
    case ReadBlocked(l) => Some(ReadQ(l))
    case WriteBlocked(l) => Some(WriteQ(l))
    case _ => None
  }

  // Sleeping threads sleep where their code put them; a thread held by a releaser is the one that
  // releaser's next step unblocks; only the idle thread is in the idle loop.
  ghost predicate PcOk(pc: map<Tid, Pc>, stuck: map<Tid, Place>, idle: Tid) {
    && (forall t | t in stuck :: t in pc)
    && (forall t | t in stuck && stuck[t].OnWait? :: QueueOf(pc[t]) == Some(stuck[t].q))
    && (forall t | t in stuck && stuck[t].Held? ::
          var r := stuck[t].releaser;
          r in pc && pc[r].RelWake? && pc[r].woken == t && QueueOf(pc[t]) == Some(MutexQ(pc[r].m)))
    && (forall r | r in pc && pc[r].RelWake? :: pc[r].woken in stuck && stuck[pc[r].woken] == Held(r))
    && (forall t | t in pc :: pc[t] == IdleLoop <==> t == idle)
  }

  ghost predicate PlaceInv(st: State) {
    && SchedInv(st.threads)
    && st.pc.Keys == st.threads.place.Keys
    && PcOk(st.pc, Stuck(st.threads), st.threads.idle)
  }

  // ---------- program counters changing ----------

  lemma GotoOk(pc: map<Tid, Pc>, stuck: map<Tid, Place>, idle: Tid, t: Tid, p: Pc)
    requires PcOk(pc, stuck, idle) && t !in stuck && (t in pc ==> !pc[t].RelWake?)
    requires !p.RelWake? && (p == IdleLoop <==> t == idle)
    ensures PcOk(pc[t := p], stuck, idle)
  {
  }

  lemma BlockOk(pc: map<Tid, Pc>, stuck: map<Tid, Place>, idle: Tid, t: Tid, p: Pc, q: Queue)
    requires PcOk(pc, stuck, idle) && t !in stuck && t in pc && !pc[t].RelWake? && t != idle
    requires QueueOf(p) == Some(q)
    ensures PcOk(pc[t := p], stuck[t := OnWait(q)], idle)
  {
  }

  lemma WakeOk(pc: map<Tid, Pc>, stuck: map<Tid, Place>, idle: Tid, woken: set<Tid>)
    requires PcOk(pc, stuck, idle) && forall t | t in woken :: t in stuck && stuck[t].OnWait?
    ensures PcOk(pc, stuck - woken, idle)
  {
  }

  lemma HoldOk(pc: map<Tid, Pc>, stuck: map<Tid, Place>, idle: Tid, t: Tid, m: nat, h: Tid)
    requires PcOk(pc, stuck, idle) && t !in stuck && t in pc && !pc[t].RelWake? && t != idle
    requires h in stuck && stuck[h] == OnWait(MutexQ(m))
    ensures PcOk(pc[t := RelWake(m, h)], stuck[h := Held(t)], idle)
  {
  }

  lemma UnholdOk(pc: map<Tid, Pc>, stuck: map<Tid, Place>, idle: Tid, t: Tid)
    requires PcOk(pc, stuck, idle) && t !in stuck && t in pc && pc[t].RelWake? && t != idle
    ensures pc[t].woken in stuck && stuck[pc[t].woken] == Held(t)
    ensures PcOk(pc[t := User], stuck - {pc[t].woken}, idle)
  {
  }

  lemma RunningIsFree(st: State)
    requires PlaceInv(st)
    ensures st.Me() in st.pc && st.Me() !in Stuck(st.threads)
    ensures st.pc[st.Me()] == IdleLoop <==> st.Me() == st.threads.idle
  {
  }

  // ---------- the kinds of step ----------

  lemma GotoStep(st: State, p: Pc)
    requires PlaceInv(st) && !st.pc[st.Me()].RelWake? && !p.RelWake? && (p == IdleLoop <==> st.pc[st.Me()] == IdleLoop)
    ensures PlaceInv(st.Goto(p))
  {
    hide SchedInv, PcOk, StuckIn;
    RunningIsFree(st);
    GotoOk(st.pc, Stuck(st.threads), st.threads.idle, st.Me(), p);
  }

  lemma BlockStep(st: State, q: Queue, p: Pc)
    requires PlaceInv(st) && !st.pc[st.Me()].RelWake? && st.pc[st.Me()] != IdleLoop && QueueOf(p) == Some(q)
    ensures PlaceInv(st.BlockOn(q, p))
    ensures st.Me() !in st.threads.Q(q) && st.BlockOn(q, p).threads.Q(q) == st.threads.Q(q) + [st.Me()]
    ensures forall r :: r != q ==> st.BlockOn(q, p).threads.Q(r) == st.threads.Q(r)
  {
    hide SchedInv, PcOk, StuckIn, Block;
    RunningIsFree(st);
    BlockKeeps(st.threads, q);
    BlockOk(st.pc, Stuck(st.threads), st.threads.idle, st.Me(), p, q);
  }

  lemma WakeStepOk(st: State, q: Queue)
    requires PlaceInv(st)
    ensures PlaceInv(st.Wake(q)) && st.Wake(q).Me() == st.Me()
    ensures st.Wake(q).threads.Q(q) == if st.threads.Q(q) == [] then [] else st.threads.Q(q)[1..]
    ensures forall r :: r != q ==> st.Wake(q).threads.Q(r) == st.threads.Q(r)
    ensures st.threads.Q(q) != [] ==> st.threads.Q(q)[0] in st.pc && QueueOf(st.pc[st.threads.Q(q)[0]]) == Some(q)
    ensures st.threads.Q(q) != [] ==> st.threads.Q(q)[0] !in st.threads.Q(q)[1..]
  {
    hide SchedInv, StuckIn, WakeHead;
    WakeHeadKeeps(st.threads, q);
    if st.threads.Q(q) != [] {
      WakeOk(st.pc, Stuck(st.threads), st.threads.idle, {st.threads.Q(q)[0]});
    }
  }

  lemma WakeAllStepOk(st: State, q: Queue)
    requires PlaceInv(st)
    ensures PlaceInv(st.WakeAllOn(q)) && st.WakeAllOn(q).Me() == st.Me()
    ensures st.WakeAllOn(q).threads.Q(q) == []
    ensures forall r :: r != q ==> st.WakeAllOn(q).threads.Q(r) == st.threads.Q(r)
  {
    hide SchedInv, StuckIn, WakeAll, PcOk;
    WakeAllKeeps(st.threads, q);
    WakeOk(st.pc, Stuck(st.threads), st.threads.idle, set t | t in st.threads.Q(q));
  }

  // A thread off the CPU without touching any lock: the same lists, the same program counters.
  lemma SwitchStep(st: State, s: Sched.Threads)
    requires PlaceInv(st) && SchedInv(s) && Stuck(s) == Stuck(st.threads)
    requires s.place.Keys == st.threads.place.Keys && s.idle == st.threads.idle
    ensures PlaceInv(st.Threads(s))
  {
  }

  lemma NewThreadStep(st: State, t: Tid, s: Sched.Threads)
    requires PlaceInv(st) && t !in st.threads.place && SchedInv(s) && Stuck(s) == Stuck(st.threads)
    requires s.place.Keys == st.threads.place.Keys + {t} && s.idle == st.threads.idle
    ensures PlaceInv(st.(pc := st.pc[t := User]).Threads(s))
  {
    hide SchedInv, PcOk;
    IdleExists(st);
    assert t !in Stuck(st.threads);
    GotoOk(st.pc, Stuck(st.threads), st.threads.idle, t, User);
  }

  lemma IdleExists(st: State)
    requires PlaceInv(st)
    ensures st.threads.idle in st.threads.place
  {
  }

  lemma OtherFields(st: State, st': State)
    requires PlaceInv(st) && st'.threads == st.threads && st'.pc == st.pc
    ensures PlaceInv(st')
  {
  }

  // ---------- every step ----------

  lemma SemaphoreCalls(st: State, s: nat)
    requires PlaceInv(st) && s in st.sems && st.pc[st.Me()] == User
    ensures PlaceInv(SemaWaitStep(st, s)) && PlaceInv(SemaTryWaitStep(st, s)) && PlaceInv(SemaPostStep(st, s))
  {
    hide PlaceInv;
    var x := st.sems[s];
    forall y
      ensures PlaceInv(st.SetSem(s, y))
    {
      OtherFields(st, st.SetSem(s, y));
    }
    BlockStep(st.SetSem(s, x.(count := x.count - 1)), SemQ(s), SemaBlocked(s));
    GotoStep(st.SetSem(s, x.(count := x.count + 1, posts := x.posts + 1)), PostPop(s));
  }

  lemma MutexCalls(st: State, m: nat)
    requires PlaceInv(st) && m in st.mutexes && (st.pc[st.Me()] == User || st.pc[st.Me()].CondBlocked?)
    ensures PlaceInv(AcquireStep(st, m)) && PlaceInv(ReleaseStep(st, m))
  {
    hide PlaceInv;
    GotoStep(st, AcqNest(m));
    GotoStep(st, AcqLoop(m));
    forall x, d
      ensures PlaceInv(st.SetMutex(m, x).SetDepth(m, d))
    {
      OtherFields(st, st.SetMutex(m, x).SetDepth(m, d));
    }
    var x := st.mutexes[m].(repeat := st.mutexes[m].repeat - 1);
    var st' := st.SetMutex(m, x).SetDepth(m, Pred(st.Depth(st.Me(), m)));
    GotoStep(st', RelClear(m));
    GotoStep(st', User);
  }

  lemma ReleaseAtOnceKeeps(st: State, m: nat)
    requires PlaceInv(st) && m in st.mutexes
    ensures PlaceInv(ReleaseAtOnce(st, m)) && ReleaseAtOnce(st, m).Me() == st.Me() && ReleaseAtOnce(st, m).pc == st.pc
  {
    hide PlaceInv;
    forall x, d
      ensures PlaceInv(st.SetDepth(m, d).SetMutex(m, x))
    {
      OtherFields(st, st.SetDepth(m, d).SetMutex(m, x));
    }
    var x := st.mutexes[m].(repeat := st.mutexes[m].repeat - 1);
    var free := x.(holder := None, isLock := false, owner := None);
    WakeStepOk(st.SetDepth(m, Pred(st.Depth(st.Me(), m))).SetMutex(m, free), MutexQ(m));
  }

  lemma CondCalls(st: State, c: nat, m: nat)
    requires PlaceInv(st) && m in st.mutexes && st.pc[st.Me()] == User
    ensures PlaceInv(CondWaitStep(st, c, m))
  {
    hide PlaceInv, ReleaseAtOnce;
    ReleaseAtOnceKeeps(st, m);
    BlockStep(ReleaseAtOnce(st, m), CondQ(c), CondBlocked(c, m));
  }

  lemma SetRwGoto(st: State, l: nat, x: RwLock, p: Pc)
    requires PlaceInv(st) && !st.pc[st.Me()].RelWake? && !p.RelWake? && st.pc[st.Me()] != IdleLoop && p != IdleLoop
    ensures PlaceInv(st.SetRw(l, x)) && PlaceInv(st.SetRw(l, x).Goto(p))
  {
    hide PlaceInv;
    OtherFields(st, st.SetRw(l, x));
    GotoStep(st.SetRw(l, x), p);
  }

  lemma TryReadKeeps(st: State, l: nat)
    requires PlaceInv(st) && l in st.rwlocks && (st.pc[st.Me()] == User || st.pc[st.Me()].ReadBlocked?)
    ensures PlaceInv(TryRead(st, l))
  {
    hide PlaceInv;
    var x := st.rwlocks[l];
    BlockStep(st, ReadQ(l), ReadBlocked(l));
    SetRwGoto(st, l, x.(count := x.count + 1, readers := x.readers + multiset{st.Me()}), User);
  }

  lemma TryWriteKeeps(st: State, l: nat)
    requires PlaceInv(st) && l in st.rwlocks && (st.pc[st.Me()] == User || st.pc[st.Me()].WriteBlocked?)
    ensures PlaceInv(TryWrite(st, l))
  {
    hide PlaceInv;
    var x := st.rwlocks[l];
    SetRwGoto(st, l, x.(readyWrite := true), User);
    BlockStep(st.SetRw(l, x.(readyWrite := true)), WriteQ(l), WriteBlocked(l));
    SetRwGoto(st, l, x.(count := x.count - 1, writer := Some(st.Me())), User);
  }

  lemma RwReleases(st: State, l: nat)
    requires PlaceInv(st) && l in st.rwlocks
    ensures PlaceInv(ReadReleaseStep(st, l)) && PlaceInv(WriteReleaseStep(st, l))
  {
    hide PlaceInv;
    forall x
      ensures PlaceInv(st.SetRw(l, x))
    {
      OtherFields(st, st.SetRw(l, x));
    }
    var x, y := st.rwlocks[l].(count := st.rwlocks[l].count - 1, readers := st.rwlocks[l].readers - multiset{st.Me()}),
                st.rwlocks[l].(count := st.rwlocks[l].count + 1, writer := None);
    WakeStepOk(st.SetRw(l, x), WriteQ(l));
    WakeStepOk(st.SetRw(l, x), ReadQ(l));
    WakeStepOk(st.SetRw(l, y), WriteQ(l));
    WakeAllStepOk(st.SetRw(l, y.(readyWrite := false)), ReadQ(l));
  }

  lemma ThreadCalls(st: State, api: Api)
    requires PlaceInv(st) && st.pc[st.Me()] == User && MayCall(st, api)
    requires api.Yield? || api.ForkThread? || api.CreateThread? || api.Exit?
    ensures PlaceInv(CallStep(st, api))
  {
    hide SchedInv, PcOk, StuckIn, Preempt, Fork, Create, Leave;
    RunningIsFree(st);
    match api
    case Yield =>
      PreemptKeeps(st.threads);
      SwitchStep(st, Preempt(st.threads));
    case ForkThread(t) =>
      ForkKeeps(st.threads, t);
      NewThreadStep(st, t, Fork(st.threads, t));
    case CreateThread(t) =>
      CreateKeeps(st.threads, t);
      NewThreadStep(st, t, Create(st.threads, t));
    case Exit =>
      LeaveKeeps(st.threads);
      SwitchStep(st, Leave(st.threads));
    case _ =>
  }

  lemma CallKeepsPlaces(st: State, api: Api)
    requires PlaceInv(st) && st.pc[st.Me()] == User && MayCall(st, api)
    ensures PlaceInv(CallStep(st, api))
  {
    hide PlaceInv, SemaWaitStep, SemaTryWaitStep, SemaPostStep, AcquireStep, ReleaseStep, CondWaitStep;
    hide TryRead, TryWrite, ReadReleaseStep, WriteReleaseStep, WakeAll, WakeHead, Preempt, Fork, Create, Leave;
    match api
    case SemaWait(s) => SemaphoreCalls(st, s);
    case SemaTryWait(s) => SemaphoreCalls(st, s);
    case SemaPost(s) => SemaphoreCalls(st, s);
    case Acquire(m) => MutexCalls(st, m);
    case Release(m) => MutexCalls(st, m);
    case CondWait(c, m) => CondCalls(st, c, m);
    case CondSignal(c) => WakeStepOk(st, CondQ(c));
    case CondBroadcast(c) => WakeAllStepOk(st, CondQ(c));
    case ReadAcquire(l) => TryReadKeeps(st, l);
    case ReadRelease(l) => RwReleases(st, l);
    case WriteAcquire(l) => TryWriteKeeps(st, l);
    case WriteRelease(l) => RwReleases(st, l);
    case _ => ThreadCalls(st, api);
  }

  lemma SetMutexGoto(st: State, m: nat, x: Mutex, d: nat, p: Pc)
    requires PlaceInv(st) && !st.pc[st.Me()].RelWake? && !p.RelWake? && st.pc[st.Me()] != IdleLoop && p != IdleLoop
    ensures PlaceInv(st.SetMutex(m, x).SetDepth(m, d).Goto(p)) && PlaceInv(st.SetMutex(m, x).Goto(p))
  {
    hide PlaceInv;
    OtherFields(st, st.SetMutex(m, x).SetDepth(m, d));
    GotoStep(st.SetMutex(m, x).SetDepth(m, d), p);
    OtherFields(st, st.SetMutex(m, x));
    GotoStep(st.SetMutex(m, x), p);
  }

  lemma MutexTaken(st: State, m: nat)
    requires PlaceInv(st) && m in st.mutexes && !st.pc[st.Me()].RelWake? && st.pc[st.Me()] != IdleLoop
    ensures PlaceInv(NestStep(st, m)) && PlaceInv(SetHolderStep(st, m))
    ensures PlaceInv(SetRepeatStep(st, m)) && PlaceInv(ClearStep(st, m))
  {
    hide PlaceInv;
    var x := st.mutexes[m];
    SetMutexGoto(st, m, x.(repeat := x.repeat + 1), st.Depth(st.Me(), m) + 1, User);
    SetMutexGoto(st, m, x.(holder := Some(st.Me())), 0, AcqSetRepeat(m));
    SetMutexGoto(st, m, x.(repeat := 1), 1, User);
    SetMutexGoto(st, m, x.(holder := None), 0, RelUnlock(m));
  }

  lemma MutexXchg(st: State, m: nat)
    requires PlaceInv(st) && m in st.mutexes && st.pc[st.Me()] == AcqLoop(m)
    ensures PlaceInv(XchgStep(st, m))
  {
    hide PlaceInv, Block;
    SetMutexGoto(st, m, st.mutexes[m].(isLock := true, owner := Some(st.Me())), 0, AcqSetHolder(m));
    BlockStep(st, MutexQ(m), AcqLoop(m));
  }

  lemma UnlockKeeps(st: State, m: nat)
    requires PlaceInv(st) && m in st.mutexes && !st.pc[st.Me()].RelWake? && st.pc[st.Me()] != IdleLoop
    ensures PlaceInv(UnlockStep(st, m))
  {
    hide SchedInv, PcOk, StuckIn, PopHeld;
    RunningIsFree(st);
    var q := st.threads.Q(MutexQ(m));
    if q == [] {
      GotoOk(st.pc, Stuck(st.threads), st.threads.idle, st.Me(), User);
    } else {
      PopHeldKeeps(st.threads, MutexQ(m));
      HoldOk(st.pc, Stuck(st.threads), st.threads.idle, st.Me(), m, q[0]);
    }
  }

  lemma WakeKeeps(st: State)
    requires PlaceInv(st) && st.pc[st.Me()].RelWake?
    ensures PlaceInv(WakeStep(st, st.pc[st.Me()].woken))
  {
    hide SchedInv, PcOk, Unblock;
    RunningIsFree(st);
    UnholdOk(st.pc, Stuck(st.threads), st.threads.idle, st.Me());
    UnblockKeeps(st.threads, st.pc[st.Me()].woken);
  }

  lemma PostPopKeeps(st: State, s: nat)
    requires PlaceInv(st) && s in st.sems && st.pc[st.Me()].PostPop?
    ensures PlaceInv(PostPopStep(st, s))
  {
    hide PlaceInv;
    var st' := st.SetSem(s, st.sems[s].(passed := st.sems[s].passed + 1));
    OtherFields(st, st');
    GotoStep(st', User);
    WakeStepOk(st'.Goto(User), SemQ(s));
  }

  lemma ParkStep(st: State)
    requires PlaceInv(st) && st.pc[st.Me()] == IdleLoop
    ensures PlaceInv(st.Threads(Park(st.threads)))
  {
    hide SchedInv, PcOk, StuckIn, Park;
    RunningIsFree(st);
    ParkKeeps(st.threads);
    SwitchStep(st, Park(st.threads));
  }

  lemma ContinueKeepsPlaces(st: State)
    requires PlaceInv(st) && st.Me() in st.pc && Exists(st, st.pc[st.Me()])
    ensures PlaceInv(ContinueStep(st))
  {
    hide PlaceInv, PostPopStep, NestStep, XchgStep, SetHolderStep, SetRepeatStep, ClearStep, UnlockStep, WakeStep;
    hide AcquireStep, TryRead, TryWrite, Park;
    match st.pc[st.Me()]
    case User =>
    case IdleLoop => ParkStep(st);
    case SemaBlocked(s) => GotoStep(st, User);
    case PostPop(s) => PostPopKeeps(st, s);
    case AcqNest(m) => MutexTaken(st, m);
    case AcqLoop(m) => MutexXchg(st, m);
    case AcqSetHolder(m) => MutexTaken(st, m);
    case AcqSetRepeat(m) => MutexTaken(st, m);
    case RelClear(m) => MutexTaken(st, m);
    case RelUnlock(m) => UnlockKeeps(st, m);
    case RelWake(m, t) => WakeKeeps(st);
    case CondBlocked(c, m) => MutexCalls(st, m);
    case ReadBlocked(l) => TryReadKeeps(st, l);
    case WriteBlocked(l) => TryWriteKeeps(st, l);
  }

  lemma StepKeepsPlaces(st: State, op: Op)
    requires PlaceInv(st) && Enabled(st, op)
    ensures PlaceInv(Step(st, op))
  {
    hide SchedInv, PcOk, StuckIn, CallStep, ContinueStep, MayCall, Preempt;
    match op
    case Tick =>
      PreemptKeeps(st.threads);
      SwitchStep(st, Preempt(st.threads));
    case Continue => ContinueKeepsPlaces(st);
    case Call(api) => CallKeepsPlaces(st, api);
  }
}
