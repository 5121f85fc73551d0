/** Every run of the step system from boot: all invariants hold in all states, and what callers get from that. */
module SyncRuns {
  import opened Options
  import opened Sched
  import opened SyncSpec
  import opened SyncPlaces
  import opened SyncFrame
  import opened SyncLocks
  import opened SyncTheorems

  // ---------- read-write lock steps ----------

  lemma TransitAfter(pc: map<Tid, Pc>, t: Tid, p: Pc, q: seq<Tid>, l: nat)
    requires t in pc && pc[t] != WriteBlocked(l) && p != WriteBlocked(l)
    ensures Transit(pc[t := p], q, l) <==> Transit(pc, q, l)
  {
    if u :| u in pc && pc[u] == WriteBlocked(l) && u !in q {
      assert pc[t := p][u] == WriteBlocked(l);
    }
    if u :| u in pc[t := p] && pc[t := p][u] == WriteBlocked(l) && u !in q {
      assert pc[u] == WriteBlocked(l);
    }
  }

  // A step about lock l leaves the others as they are.
  lemma OtherRws(st: State, st': State, l: nat, x: RwLock, p: Pc)
    requires RwInv(st) && st.Me() in st.pc && st'.pc == st.pc[st.Me() := p] && l in st.rwlocks
    requires st'.rwlocks == st.rwlocks[l := x]
    requires forall q | q != ReadQ(l) && q != WriteQ(l) :: st'.threads.Q(q) == st.threads.Q(q)
    requires forall k | k != l :: p != WriteBlocked(k) && st.pc[st.Me()] != WriteBlocked(k)
    requires RwAt(st', l)
    ensures RwInv(st')
  {
    hide RwOk, Transit;
    forall k | k in st'.rwlocks
      ensures RwAt(st', k)
    {
      if k != l {
        assert RwAt(st, k);
        TransitAfter(st.pc, st.Me(), p, st.threads.Q(WriteQ(k)), k);
      }
    }
  }

  lemma RwHere(st: State, l: nat)
    requires l in st.rwlocks && RwInv(st)
    ensures RwAt(st, l)
  {
  }

  lemma ReaderBlocks(st: State, l: nat)
    requires PlaceInv(st) && RwInv(st) && l in st.rwlocks
        && (st.pc[st.Me()] == User || st.pc[st.Me()] == ReadBlocked(l))
    requires st.rwlocks[l].count < 0 || st.rwlocks[l].readyWrite
    ensures RwInv(st.BlockOn(ReadQ(l), ReadBlocked(l)))
  {
    hide PlaceInv, RwInv, Block, OnlyKinds;
    RunningIsFree(st);
    var st' := st.BlockOn(ReadQ(l), ReadBlocked(l));
    BlockFrame(st, st', ReadQ(l), ReadBlocked(l), {KRw});
    ReaderQueued(st, st', l);
  }

  lemma ReaderQueued(st: State, st': State, l: nat)
    requires l in st.rwlocks && st.Me() in st.pc && (st.pc[st.Me()] == User || st.pc[st.Me()] == ReadBlocked(l))
    requires st.rwlocks[l].count < 0 || st.rwlocks[l].readyWrite
    requires st'.pc == st.pc[st.Me() := ReadBlocked(l)] && st'.rwlocks == st.rwlocks
    requires st'.threads.Q(ReadQ(l)) == st.threads.Q(ReadQ(l)) + [st.Me()]
    requires forall q | q != ReadQ(l) :: st'.threads.Q(q) == st.threads.Q(q)
    requires RwInv(st)
    ensures RwInv(st')
  {
    hide RwInv, RwOk, Transit;
    RwHere(st, l);
    var x, rq, wq := st.rwlocks[l], st.threads.Q(ReadQ(l)), st.threads.Q(WriteQ(l));
    TransitAfter(st.pc, st.Me(), ReadBlocked(l), wq, l);
    RwReadBlock(x, rq, wq, Transit(st.pc, wq, l), st.Me());
    assert st.rwlocks == st.rwlocks[l := x];
    OtherRws(st, st', l, x, ReadBlocked(l));
  }

  lemma ReaderPasses(st: State, l: nat)
    requires PlaceInv(st) && RwInv(st) && l in st.rwlocks
        && (st.pc[st.Me()] == User || st.pc[st.Me()] == ReadBlocked(l))
    requires st.rwlocks[l].count >= 0 && !st.rwlocks[l].readyWrite
    ensures RwInv(TryRead(st, l))
  {
    hide PlaceInv, RwOk, Transit, Block, OnlyKinds;
    RunningIsFree(st);
    assert RwAt(st, l);
    var x, rq, wq := st.rwlocks[l], st.threads.Q(ReadQ(l)), st.threads.Q(WriteQ(l));
    TransitAfter(st.pc, st.Me(), User, wq, l);
    RwReadPass(x, rq, wq, Transit(st.pc, wq, l), st.Me());
    OtherRws(st, TryRead(st, l), l, x.(count := x.count + 1, readers := x.readers + multiset{st.Me()}), User);
  }

  lemma TryReadOk(st: State, l: nat)
    requires PlaceInv(st) && RwInv(st) && l in st.rwlocks
        && (st.pc[st.Me()] == User || st.pc[st.Me()] == ReadBlocked(l))
    ensures RwInv(TryRead(st, l))
  {
    hide PlaceInv, RwInv, Block;
    if st.rwlocks[l].count < 0 || st.rwlocks[l].readyWrite {
      ReaderBlocks(st, l);
    } else {
      ReaderPasses(st, l);
    }
  }

  lemma TryWriteOk(st: State, l: nat)
    requires PlaceInv(st) && RwInv(st) && l in st.rwlocks
        && (st.pc[st.Me()] == User || st.pc[st.Me()] == WriteBlocked(l))
    ensures RwInv(TryWrite(st, l))
  {
    hide PlaceInv, RwOk, Transit, Block, OnlyKinds;
    RunningIsFree(st);
    assert RwAt(st, l);
    var x, st', rq, wq := st.rwlocks[l], TryWrite(st, l), st.threads.Q(ReadQ(l)), st.threads.Q(WriteQ(l));
    if x.count != 0 {
      BlockFrame(st, st', WriteQ(l), WriteBlocked(l), {KRw});
      RwWriteBlock(x, rq, wq, Transit(st.pc, wq, l), Transit(st'.pc, wq + [st.Me()], l), st.Me());
    } else {
      RwWritePass(x, rq, wq, Transit(st.pc, wq, l), Transit(st'.pc, wq, l), st.Me());
    }
    OtherRws(st, st', l, st'.rwlocks[l], st'.pc[st.Me()]);
  }

  // A writer popped from the wait list is on its way to retry.
  lemma PoppedWriter(st: State, l: nat)
    requires PlaceInv(st) && st.threads.Q(WriteQ(l)) != []
    ensures Transit(st.pc, st.threads.Q(WriteQ(l))[1..], l)
  {
    hide PlaceInv;
    WakeStepOk(st, WriteQ(l));
    var h := st.threads.Q(WriteQ(l))[0];
    assert st.pc[h] == WriteBlocked(l);
  }

  lemma ReadReleaseOk(st: State, l: nat)
    requires PlaceInv(st) && RwInv(st) && l in st.rwlocks && st.pc[st.Me()] == User && st.Me() in st.rwlocks[l].readers
    ensures st.rwlocks[l].count > 0
    ensures RwInv(ReadReleaseStep(st, l))
  {
    hide PlaceInv, RwOk, Transit, WakeHead;
    RunningIsFree(st);
    assert RwAt(st, l);
    var x, st', rq, wq := st.rwlocks[l], ReadReleaseStep(st, l), st.threads.Q(ReadQ(l)), st.threads.Q(WriteQ(l));
    RwReadLeave(x, rq, wq, Transit(st.pc, wq, l), st.Me());
    WakeStepOk(st, WriteQ(l));
    WakeStepOk(st, ReadQ(l));
    if wq != [] {
      PoppedWriter(st, l);
    }
    assert st'.pc == st.pc[st.Me() := User];
    OtherRws(st, st', l, st'.rwlocks[l], User);
  }

  lemma WriteReleaseOk(st: State, l: nat)
    requires PlaceInv(st) && RwInv(st) && l in st.rwlocks && st.pc[st.Me()] == User && st.rwlocks[l].writer.Some?
    ensures st.rwlocks[l].count == -1
    ensures RwInv(WriteReleaseStep(st, l))
  {
    hide PlaceInv, RwOk, Transit, WakeHead, WakeAll;
    RunningIsFree(st);
    assert RwAt(st, l);
    var x, st', rq, wq := st.rwlocks[l], WriteReleaseStep(st, l), st.threads.Q(ReadQ(l)), st.threads.Q(WriteQ(l));
    RwWriteLeave(x, rq, wq, Transit(st.pc, wq, l));
    WakeStepOk(st, WriteQ(l));
    WakeAllStepOk(st, ReadQ(l));
    if wq != [] {
      PoppedWriter(st, l);
    }
    assert st'.pc == st.pc[st.Me() := User];
    OtherRws(st, st', l, st'.rwlocks[l], User);
  }

  // ---------- each step by its kinds ----------

  lemma SemStep(st: State, op: Op)
    requires PlaceInv(st) && SemInv(st) && Enabled(st, op) && KSem in Kinds(st, op)
    ensures SemInv(Step(st, op))
  {
    hide PlaceInv, SemInv, SemaWaitStep, SemaTryWaitStep, SemaPostStep, PostPopStep;
    match op
    case Continue =>
      match st.pc[st.Me()] {
        case SemaBlocked(s) => SemResumes(st, s);
        case PostPop(s) => PostPopOk(st, s);
        case _ =>
      }
    case Call(api) =>
      match api {
        case SemaWait(s) => SemaWaitOk(st, s);
        case SemaTryWait(s) => SemaTryOk(st, s);
        case SemaPost(s) => SemaPostOk(st, s);
        case _ =>
      }
    case Tick =>
  }

  lemma MutexStep(st: State, op: Op)
    requires PlaceInv(st) && MutexInv(st) && Enabled(st, op) && KMutex in Kinds(st, op)
    ensures MutexInv(Step(st, op))
  {
    hide PlaceInv, MutexInv, NestStep, XchgStep, SetHolderStep, SetRepeatStep, ClearStep, UnlockStep, WakeStep;
    hide AcquireStep, ReleaseStep, CondWaitStep;
    match op
    case Continue =>
      match st.pc[st.Me()] {
        case AcqNest(m) => NestOk(st, m);
        case AcqLoop(m) => XchgOk(st, m);
        case AcqSetHolder(m) => SetHolderOk(st, m);
        case AcqSetRepeat(m) => SetRepeatOk(st, m);
        case RelClear(m) => ClearOk(st, m);
        case RelUnlock(m) => UnlockOk(st, m);
        case RelWake(m, t) => WakeOkMutex(st);
        case CondBlocked(c, m) => AcquireOk(st, m);
        case _ =>
      }
    case Call(api) =>
      match api {
        case Acquire(m) => AcquireOk(st, m);
        case Release(m) => ReleaseOk(st, m);
        case CondWait(c, m) => CondWaitOk(st, c, m);
        case _ =>
      }
    case Tick =>
  }

  lemma RwStep(st: State, op: Op)
    requires PlaceInv(st) && RwInv(st) && Enabled(st, op) && KRw in Kinds(st, op)
    ensures RwInv(Step(st, op))
  {
    hide PlaceInv, RwInv, TryRead, TryWrite, ReadReleaseStep, WriteReleaseStep;
    match op
    case Continue =>
      match st.pc[st.Me()] {
        case ReadBlocked(l) => TryReadOk(st, l);
        case WriteBlocked(l) => TryWriteOk(st, l);
        case _ =>
      }
    case Call(api) =>
      match api {
        case ReadAcquire(l) => TryReadOk(st, l);
        case ReadRelease(l) => ReadReleaseOk(st, l);
        case WriteAcquire(l) => TryWriteOk(st, l);
        case WriteRelease(l) => WriteReleaseOk(st, l);
        case _ =>
      }
    case Tick =>
  }

  // ---------- locks stay ----------

  ghost predicate SameLocks(st: State, st': State) {
    st'.sems.Keys == st.sems.Keys && st'.mutexes.Keys == st.mutexes.Keys && st'.rwlocks.Keys == st.rwlocks.Keys
  }

  // Nothing is added or taken away, and the thread that made the step is busy with a lock that exists.
  ghost predicate LocksStay(st: State, st': State) {
    SameLocks(st, st') && st.Me() in st'.pc && Exists(st, st'.pc[st.Me()])
  }

  lemma SemCallsKeepLocks(st: State, api: Api)
    requires st.Me() in st.pc && st.pc[st.Me()] == User && MayCall(st, api) && ApiKinds(api) == {KSem}
    ensures LocksStay(st, CallStep(st, api))
  {
    hide Block;
  }

  lemma AcquireStays(st: State, m: nat)
    requires m in st.mutexes
    ensures LocksStay(st, AcquireStep(st, m)) && LocksStay(st, ReleaseStep(st, m))
  {
  }

  lemma CondWaitStays(st: State, c: nat, m: nat)
    requires m in st.mutexes && st.Me() in st.pc
    ensures LocksStay(st, CondWaitStep(st, c, m))
  {
    hide Block, WakeHead;
    ReleaserStays(st, m);
    assert ReleaseAtOnce(st, m).mutexes.Keys == st.mutexes.Keys && ReleaseAtOnce(st, m).pc == st.pc;
  }

  lemma ReleaserStays(st: State, m: nat)
    requires m in st.mutexes
    ensures ReleaseAtOnce(st, m).Me() == st.Me()
  {
  }

  lemma MutexCallsKeepLocks(st: State, api: Api)
    requires st.Me() in st.pc && st.pc[st.Me()] == User && MayCall(st, api) && KMutex in ApiKinds(api)
    ensures LocksStay(st, CallStep(st, api))
  {
    hide LocksStay, AcquireStep, ReleaseStep, CondWaitStep;
    match api
    case Acquire(m) => AcquireStays(st, m);
    case Release(m) => AcquireStays(st, m);
    case CondWait(c, m) => CondWaitStays(st, c, m);
    case _ =>
  }

  // What each read-write lock step does to its lock and the program counters; it touches no other lock.

  ghost predicate RwChange(st: State, st': State, l: nat, x: RwLock, p: Pc) {
    && st'.rwlocks == st.rwlocks[l := x] && st'.sems == st.sems && st'.mutexes == st.mutexes
    && st'.pc == st.pc[st.Me() := p]
  }

  lemma TryReadLocks(st: State, l: nat)
    requires l in st.rwlocks
    ensures var x := st.rwlocks[l];
            if x.count < 0 || x.readyWrite then RwChange(st, TryRead(st, l), l, x, ReadBlocked(l))
            else
              RwChange(st, TryRead(st, l), l, x.(count := x.count + 1, readers := x.readers + multiset{st.Me()}), User)
  {
    hide Block;
  }

  lemma TryWriteLocks(st: State, l: nat)
    requires l in st.rwlocks
    ensures var x := st.rwlocks[l];
            if x.count != 0 then RwChange(st, TryWrite(st, l), l, x.(readyWrite := true), WriteBlocked(l))
            else RwChange(st, TryWrite(st, l), l, x.(count := -1, writer := Some(st.Me())), User)
  {
    hide Block;
  }

  lemma ReadReleaseLocks(st: State, l: nat)
    requires l in st.rwlocks && st.Me() in st.pc
    ensures var x := st.rwlocks[l];
            RwChange(st, ReadReleaseStep(st, l), l, x.(count := x.count - 1, readers := x.readers - multiset{st.Me()}),
                     st.pc[st.Me()])
  {
    hide WakeHead;
  }

  lemma WriteReleaseLocks(st: State, l: nat)
    requires l in st.rwlocks && st.Me() in st.pc
    ensures var x, waiting := st.rwlocks[l], st.threads.Q(WriteQ(l)) != [];
            RwChange(st, WriteReleaseStep(st, l), l,
                     x.(count := x.count + 1, writer := None, readyWrite := waiting && x.readyWrite), st.pc[st.Me()])
  {
    hide WakeHead, WakeAll;
  }

  lemma RwCallsKeepLocks(st: State, api: Api)
    requires st.Me() in st.pc && st.pc[st.Me()] == User && MayCall(st, api) && KRw in ApiKinds(api)
    ensures LocksStay(st, CallStep(st, api))
  {
    hide TryRead, TryWrite, ReadReleaseStep, WriteReleaseStep;
    match api
    case ReadAcquire(l) => TryReadLocks(st, l);
    case WriteAcquire(l) => TryWriteLocks(st, l);
    case ReadRelease(l) => ReadReleaseLocks(st, l);
    case WriteRelease(l) => WriteReleaseLocks(st, l);
    case _ =>
  }

  lemma OtherCallsKeepLocks(st: State, api: Api)
    requires st.Me() in st.pc && st.pc[st.Me()] == User && MayCall(st, api) && ApiKinds(api) <= {KCond}
    ensures LocksStay(st, CallStep(st, api))
  {
    hide WakeHead, WakeAll, Preempt, Fork, Create, Leave;
  }

  lemma CallKeepsLocks(st: State, api: Api)
    requires st.Me() in st.pc && st.pc[st.Me()] == User && MayCall(st, api)
    ensures LocksStay(st, CallStep(st, api))
  {
    hide LocksStay, CallStep, MayCall;
    if api.SemaWait? || api.SemaTryWait? || api.SemaPost? {
      SemCallsKeepLocks(st, api);
    } else if KMutex in ApiKinds(api) {
      MutexCallsKeepLocks(st, api);
    } else if KRw in ApiKinds(api) {
      RwCallsKeepLocks(st, api);
    } else {
      OtherCallsKeepLocks(st, api);
    }
  }

  lemma MutexContinueKeepsLocks(st: State)
    requires st.Me() in st.pc && Exists(st, st.pc[st.Me()]) && PcKinds(st.pc[st.Me()]) == {KMutex}
    ensures LocksStay(st, ContinueStep(st))
  {
    hide Block, PopHeld, Unblock;
    match st.pc[st.Me()]
    case RelUnlock(m) => var st' := UnlockStep(st, m);
    case AcqLoop(m) => var st' := XchgStep(st, m);
    case _ =>
  }

  lemma ContinueKeepsLocks(st: State)
    requires st.Me() in st.pc && Exists(st, st.pc[st.Me()])
    ensures LocksStay(st, ContinueStep(st))
  {
    hide Block, WakeHead, PopHeld, Unblock, Park, UnlockStep, XchgStep, NestStep, AcquireStep, SetHolderStep;
    hide SetRepeatStep;
    hide ClearStep, WakeStep, TryRead, TryWrite;
    match st.pc[st.Me()]
    case ReadBlocked(l) => TryReadLocks(st, l);
    case WriteBlocked(l) => TryWriteLocks(st, l);
    case PostPop(s) => var st' := PostPopStep(st, s);
    case User =>
    case IdleLoop =>
    case SemaBlocked(s) =>
    case _ => MutexContinueKeepsLocks(st);
  }

  lemma BusyStep(st: State, op: Op)
    requires BusyInv(st) && Enabled(st, op) && OnlyKinds(st, Step(st, op), Kinds(st, op))
    ensures SameLocks(st, Step(st, op)) && BusyInv(Step(st, op))
  {
    hide CallStep, MayCall, ContinueStep, Kinds, PcKinds, Exists;
    var st' := Step(st, op);
    match op {
      case Tick =>
      case Continue => ContinueKeepsLocks(st);
      case Call(api) => CallKeepsLocks(st, api);
    }
    forall t | t in st'.pc
      ensures Exists(st', st'.pc[t])
    {
      assert SamePcs(st, st', Kinds(st, op));
      SameExists(st, st', st'.pc[t]);
    }
  }

  lemma SameExists(st: State, st': State, p: Pc)
    requires SameLocks(st, st')
    ensures Exists(st', p) <==> Exists(st, p)
    ensures Exists(st, User)
  {
  }

  // ---------- the invariant over runs ----------

  lemma StepKeepsInv(st: State, op: Op)
    requires Inv(st) && Enabled(st, op)
    ensures Inv(Step(st, op))
  {
    hide PlaceInv, SemInv, MutexInv, RwInv, BusyInv, OnlyKinds, Step, Kinds, Enabled;
    StepKeepsPlaces(st, op);
    StepFrame(st, op);
    var st', kinds := Step(st, op), Kinds(st, op);
    BusyStep(st, op);
    if KSem in kinds { SemStep(st, op); } else { SemUntouched(st, st', kinds); }
    if KMutex in kinds { MutexStep(st, op); } else { MutexUntouched(st, st', kinds); }
    if KRw in kinds { RwStep(st, op); } else { RwUntouched(st, st', kinds); }
  }

  // Two threads, one on the CPU and one ready
  lemma InitialLists(s: Threads)
    requires s == Sched.Threads(1, 0, [1], map[], map[0 := RUNNING, 1 := READY], map[0 := OnCpu, 1 := OnReady])
    ensures SchedInv(s) && Stuck(s) == map[]
  {
    forall q
      ensures QueueMatches(s, q)
    {
      assert s.Q(q) == [];
    }
    assert Stuck(s) == map[];
  }

  lemma InitialPlaces(st: State)
    requires Initial(st)
    ensures PlaceInv(st)
  {
    hide SchedInv, Stuck;
    InitialLists(st.threads);
  }

  lemma InitialInv(st: State)
    requires Initial(st)
    ensures Inv(st)
  {
    hide PlaceInv;
    InitialPlaces(st);
    forall s | s in st.sems
      ensures SemAt(st, s)
    {
      assert Poppers(st.pc, s) == {};
    }
    forall m | m in st.mutexes
      ensures MutexAt(st, m)
    {
    }
  }

  // A run: it starts at boot and every operation is enabled where it happens.
  ghost predicate IsRun(tr: seq<State>, ops: seq<Op>) {
    && |tr| == |ops| + 1
    && Initial(tr[0])
    && (forall i | 0 <= i < |ops| :: Enabled(tr[i], ops[i]) && tr[i + 1] == Step(tr[i], ops[i]))
  }

  lemma {:induction false} EveryRun(tr: seq<State>, ops: seq<Op>, n: nat)
    requires IsRun(tr, ops) && n < |tr|
    ensures Inv(tr[n])
  {
    hide Inv, Step, Enabled, Initial;
    if n == 0 {
      InitialInv(tr[0]);
    } else {
      EveryRun(tr, ops, n - 1);
      assert tr[n - 1 + 1] == Step(tr[n - 1], ops[n - 1]);
      StepKeepsInv(tr[n - 1], ops[n - 1]);
    }
  }
}
