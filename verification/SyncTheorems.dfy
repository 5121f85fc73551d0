/** Safety of the whole step system: places, semaphores, mutexes and read-write locks, over every run. */
module SyncTheorems {
  import opened Options
  import opened Sched
  import opened Seqs
  import opened SyncSpec
  import opened SyncPlaces
  import opened SyncFrame
  import opened SyncLocks

  // ---------- the locks as parts of the state ----------

  ghost function Poppers(pc: map<Tid, Pc>, s: nat): set<Tid> {
    set t | t in pc && pc[t] == PostPop(s)
  }

  function PhaseOf(p: Pc, m: nat): Phase {
    match p
    case AcqNest(k) => if k == m then Nesting else Outside
    case AcqLoop(k) => if k == m then Looping else Outside
    case AcqSetHolder(k) => if k == m then GotFlag else Outside
    case AcqSetRepeat(k) => if k == m then GotHolder else Outside
    case RelClear(k) => if k == m then Clearing else Outside
    case RelUnlock(k) => if k == m then Unlocking else Outside
    case _ => Outside
  }

  ghost function Phases(pc: map<Tid, Pc>, m: nat): map<Tid, Phase> {
    map t | t in pc :: PhaseOf(pc[t], m)
  }

  ghost function Depths(st: State, m: nat): map<Tid, nat> {
    map t | t in st.pc :: st.Depth(t, m)
  }

  // A woken writer that has not tried again yet.
  ghost predicate Transit(pc: map<Tid, Pc>, q: seq<Tid>, l: nat) {
    exists t :: t in pc && pc[t] == WriteBlocked(l) && t !in q
  }

  ghost predicate SemAt(st: State, s: nat)
    requires s in st.sems
  {
    SemOk(st.sems[s], st.threads.Q(SemQ(s)), |Poppers(st.pc, s)|)
  }

  ghost predicate MutexAt(st: State, m: nat)
    requires m in st.mutexes
  {
    MutexOk(st.mutexes[m], st.threads.Q(MutexQ(m)), Phases(st.pc, m), Depths(st, m))
  }

  ghost predicate RwAt(st: State, l: nat)
    requires l in st.rwlocks
  {
    var wq := st.threads.Q(WriteQ(l));
    RwOk(st.rwlocks[l], st.threads.Q(ReadQ(l)), wq, Transit(st.pc, wq, l))
  }

  ghost predicate SemInv(st: State) {
    forall s | s in st.sems :: SemAt(st, s)
  }

  ghost predicate MutexInv(st: State) {
    && (forall m | m in st.mutexes :: MutexAt(st, m))
    && (forall k | k in st.depth :: k.0 in st.pc)
  }

  ghost predicate RwInv(st: State) {
    forall l | l in st.rwlocks :: RwAt(st, l)
  }

  // No thread is busy with a lock that is not there.
  ghost predicate BusyInv(st: State) {
    forall t | t in st.pc :: Exists(st, st.pc[t])
  }

  ghost predicate Inv(st: State) {
    PlaceInv(st) && SemInv(st) && MutexInv(st) && RwInv(st) && BusyInv(st)
  }

  // ---------- steps about other kinds of lock ----------

  lemma SamePoppers(st: State, st': State, kinds: set<Kind>, s: nat)
    requires SamePcs(st, st', kinds) && KSem !in kinds
    ensures Poppers(st'.pc, s) == Poppers(st.pc, s)
  {
  }

  lemma SemUntouched(st: State, st': State, kinds: set<Kind>)
    requires SemInv(st) && OnlyKinds(st, st', kinds) && KSem !in kinds
    ensures SemInv(st')
  {
    hide SamePcs, SemOk, Poppers;
    forall s | s in st'.sems
      ensures SemAt(st', s)
    {
      SamePoppers(st, st', kinds, s);
      assert SemAt(st, s);
      assert QueueKind(SemQ(s)) == KSem;
    }
  }

  lemma RwUntouched(st: State, st': State, kinds: set<Kind>)
    requires RwInv(st) && OnlyKinds(st, st', kinds) && KRw !in kinds
    ensures RwInv(st')
  {
    hide SamePcs, RwOk, Transit;
    forall l | l in st'.rwlocks
      ensures RwAt(st', l)
    {
      assert QueueKind(ReadQ(l)) == KRw && QueueKind(WriteQ(l)) == KRw;
      SameTransit(st, st', kinds, st.threads.Q(WriteQ(l)), l);
      assert RwAt(st, l);
    }
  }

  lemma SameTransit(st: State, st': State, kinds: set<Kind>, q: seq<Tid>, l: nat)
    requires SamePcs(st, st', kinds) && KRw !in kinds
    ensures Transit(st'.pc, q, l) <==> Transit(st.pc, q, l)
  {
    if t :| t in st.pc && st.pc[t] == WriteBlocked(l) && t !in q {
      assert st'.pc[t] == WriteBlocked(l);
    }
    if t :| t in st'.pc && st'.pc[t] == WriteBlocked(l) && t !in q {
      assert st.pc[t] == WriteBlocked(l);
    }
  }

  lemma MutexUntouched(st: State, st': State, kinds: set<Kind>)
    requires MutexInv(st) && OnlyKinds(st, st', kinds) && KMutex !in kinds
    ensures MutexInv(st')
  {
    hide MutexOk, SamePcs;
    forall m | m in st'.mutexes
      ensures MutexAt(st', m)
    {
      assert MutexAt(st, m);
      assert QueueKind(MutexQ(m)) == KMutex;
      NewThreadsOutside(st, st', kinds, m);
    }
    KnownThreads(st, st', kinds);
  }

  lemma KnownThreads(st: State, st': State, kinds: set<Kind>)
    requires SamePcs(st, st', kinds) && forall k | k in st.depth :: k.0 in st.pc
    ensures forall k | k in st.depth :: k.0 in st'.pc
  {
  }

  // A mutex does not notice threads that stay outside it, old or new.
  lemma NewThreadsOutside(st: State, st': State, kinds: set<Kind>, m: nat)
    requires m in st.mutexes && MutexAt(st, m)
    requires SamePcs(st, st', kinds) && KMutex !in kinds && st'.depth == st.depth
    requires forall k | k in st.depth :: k.0 in st.pc
    ensures MutexOk(st.mutexes[m], st.threads.Q(MutexQ(m)), Phases(st'.pc, m), Depths(st', m))
  {
    var x, q, phase, phase' := st.mutexes[m], st.threads.Q(MutexQ(m)), Phases(st.pc, m), Phases(st'.pc, m);
    forall t | t in phase'
      ensures ThreadOk(x, t, phase'[t], Depths(st', m)[t])
    {
      if t in phase {
        assert phase'[t] == phase[t];
        assert ThreadOk(x, t, phase[t], Depths(st, m)[t]);
      }
    }
    if u :| u in phase && phase[u].Looping? && u !in q {
      assert phase'[u].Looping?;
    }
  }

  // ---------- semaphore steps ----------

  lemma PoppersAfter(pc: map<Tid, Pc>, t: Tid, p: Pc, s: nat)
    requires t in pc
    ensures p != PostPop(s) && pc[t] != PostPop(s) ==> Poppers(pc[t := p], s) == Poppers(pc, s)
    ensures p == PostPop(s) && pc[t] != PostPop(s) ==> |Poppers(pc[t := p], s)| == |Poppers(pc, s)| + 1
    ensures p != PostPop(s) && pc[t] == PostPop(s) ==> |Poppers(pc[t := p], s)| == |Poppers(pc, s)| - 1
    ensures pc[t] == PostPop(s) ==> |Poppers(pc, s)| > 0
  {
    var after := Poppers(pc[t := p], s);
    if p == PostPop(s) && pc[t] != PostPop(s) {
      assert after == Poppers(pc, s) + {t};
    } else if pc[t] == PostPop(s) {
      assert t in Poppers(pc, s);
      if p != PostPop(s) {
        assert after == Poppers(pc, s) - {t};
      }
    } else {
      assert after == Poppers(pc, s);
    }
  }

  // A step about semaphore s leaves the others as they are.
  lemma OtherSems(st: State, st': State, s: nat, p: Pc)
    requires SemInv(st) && st.Me() in st.pc && st'.pc == st.pc[st.Me() := p]
    requires st'.sems.Keys == st.sems.Keys && forall r | r in st.sems && r != s :: st'.sems[r] == st.sems[r]
    requires forall r | r != s :: st'.threads.Q(SemQ(r)) == st.threads.Q(SemQ(r))
    requires forall r | r != s :: p != PostPop(r) && st.pc[st.Me()] != PostPop(r)
    requires s in st.sems ==> s in st'.sems && SemAt(st', s)
    ensures SemInv(st')
  {
    hide SemOk, Poppers;
    forall r | r in st'.sems
      ensures SemAt(st', r)
    {
      if r != s {
        assert SemAt(st, r);
        PoppersAfter(st.pc, st.Me(), p, r);
      }
    }
  }

  lemma WaiterBlocks(st: State, s: nat)
    requires PlaceInv(st) && SemInv(st) && s in st.sems && st.pc[st.Me()] == User && st.sems[s].count - 1 < 0
    ensures SemInv(SemaWaitStep(st, s))
  {
    hide PlaceInv, Poppers, Block, OnlyKinds;
    var st' := SemaWaitStep(st, s);
    RunningIsFree(st);
    assert SemAt(st, s);
    PoppersAfter(st.pc, st.Me(), SemaBlocked(s), s);
    BlockFrame(st, st', SemQ(s), SemaBlocked(s), {KSem});
    OtherSems(st, st', s, SemaBlocked(s));
  }

  lemma WaiterPasses(st: State, s: nat)
    requires PlaceInv(st) && SemInv(st) && s in st.sems && st.pc[st.Me()] == User && st.sems[s].count - 1 >= 0
    ensures SemInv(SemaWaitStep(st, s))
  {
    hide PlaceInv, Poppers, Block, OnlyKinds;
    RunningIsFree(st);
    assert SemAt(st, s);
    OtherSems(st, SemaWaitStep(st, s), s, User);
  }

  lemma SemaWaitOk(st: State, s: nat)
    requires PlaceInv(st) && SemInv(st) && s in st.sems && st.pc[st.Me()] == User
    ensures SemInv(SemaWaitStep(st, s))
  {
    hide PlaceInv, SemInv, SemaWaitStep;
    if st.sems[s].count - 1 < 0 {
      WaiterBlocks(st, s);
    } else {
      WaiterPasses(st, s);
    }
  }

  lemma SemaTryOk(st: State, s: nat)
    requires PlaceInv(st) && SemInv(st) && s in st.sems && st.pc[st.Me()] == User
    ensures SemInv(SemaTryWaitStep(st, s))
  {
    hide PlaceInv, Poppers;
    RunningIsFree(st);
    assert SemAt(st, s);
    OtherSems(st, SemaTryWaitStep(st, s), s, User);
  }

  lemma SemaPostOk(st: State, s: nat)
    requires PlaceInv(st) && SemInv(st) && s in st.sems && st.pc[st.Me()] == User
    ensures SemInv(SemaPostStep(st, s))
  {
    hide PlaceInv, Poppers;
    RunningIsFree(st);
    assert SemAt(st, s);
    PoppersAfter(st.pc, st.Me(), PostPop(s), s);
    OtherSems(st, SemaPostStep(st, s), s, if st.sems[s].count + 1 > 0 then User else PostPop(s));
  }

  // The pop of sema_post always finds a sleeper.
  lemma PostPopFinds(st: State, s: nat)
    requires PlaceInv(st) && SemInv(st) && s in st.sems && st.pc[st.Me()] == PostPop(s)
    ensures st.threads.Q(SemQ(s)) != []
  {
    hide PlaceInv, Poppers;
    RunningIsFree(st);
    assert SemAt(st, s);
    PoppersAfter(st.pc, st.Me(), User, s);
  }

  lemma PostPopOk(st: State, s: nat)
    requires PlaceInv(st) && SemInv(st) && s in st.sems && st.pc[st.Me()] == PostPop(s)
    ensures SemInv(PostPopStep(st, s))
  {
    hide SchedInv, PcOk, Poppers, WakeHead;
    var st' := PostPopStep(st, s);
    RunningIsFree(st);
    PostPopFinds(st, s);
    WakeHeadKeeps(st.threads, SemQ(s));
    assert SemAt(st, s);
    PoppersAfter(st.pc, st.Me(), User, s);
    OtherSems(st, st', s, User);
  }

  lemma SemResumes(st: State, s: nat)
    requires PlaceInv(st) && SemInv(st) && st.pc[st.Me()] == SemaBlocked(s)
    ensures SemInv(st.Goto(User))
  {
    hide PlaceInv, Poppers;
    RunningIsFree(st);
    PoppersAfter(st.pc, st.Me(), User, s);
    if s in st.sems {
      assert SemAt(st, s);
    }
    OtherSems(st, st.Goto(User), s, User);
  }

  // ---------- mutex steps ----------

  lemma PhasesAfter(pc: map<Tid, Pc>, t: Tid, p: Pc, m: nat)
    requires t in pc
    ensures Phases(pc[t := p], m) == Phases(pc, m)[t := PhaseOf(p, m)]
    ensures PhaseOf(p, m) == PhaseOf(pc[t], m) ==> Phases(pc[t := p], m) == Phases(pc, m)
  {
  }

  lemma DepthsAfter(st: State, st': State, m: nat, d: nat)
    requires st.Me() in st.pc && st'.pc.Keys == st.pc.Keys && st'.depth == st.depth[(st.Me(), m) := d]
    ensures Depths(st', m) == Depths(st, m)[st.Me() := d]
    ensures forall k | k != m :: Depths(st', k) == Depths(st, k)
  {
  }

  lemma DepthsSame(st: State, st': State, m: nat)
    requires st'.pc.Keys == st.pc.Keys && st'.depth == st.depth
    ensures Depths(st', m) == Depths(st, m)
  {
  }

  // A step about mutex m leaves the others as they are.
  lemma OtherMutexes(st: State, st': State, m: nat, p: Pc)
    requires MutexInv(st) && m in st.mutexes && st.Me() in st.pc && st'.pc == st.pc[st.Me() := p]
    requires st'.mutexes.Keys == st.mutexes.Keys && forall k | k in st.mutexes
        && k != m :: st'.mutexes[k] == st.mutexes[k]
    requires forall k | k != m :: Depths(st', k) == Depths(st, k)
    requires forall k | k in st'.depth :: k.0 in st'.pc
    requires forall k | k != m :: st'.threads.Q(MutexQ(k)) == st.threads.Q(MutexQ(k))
    requires forall k | k != m :: PhaseOf(p, k) == PhaseOf(st.pc[st.Me()], k)
    requires MutexOk(st'.mutexes[m], st'.threads.Q(MutexQ(m)), Phases(st.pc, m)[st.Me() := PhaseOf(p, m)],
        Depths(st', m))
    ensures MutexInv(st')
  {
    hide MutexOk, PhaseOf, Depths;
    forall k | k in st'.mutexes
      ensures MutexAt(st', k)
    {
      PhasesAfter(st.pc, st.Me(), p, k);
      if k != m {
        assert MutexAt(st, k);
      }
    }
  }

  // The same with the depth of the running thread set to d, or left alone.
  lemma MutexStepOk(st: State, st': State, m: nat, x: Mutex, p: Pc, d: nat)
    requires MutexInv(st) && m in st.mutexes && st.Me() in st.pc && st'.pc == st.pc[st.Me() := p]
    requires st'.mutexes == st.mutexes[m := x] && st'.depth == st.depth[(st.Me(), m) := d]
    requires forall k | k != m :: st'.threads.Q(MutexQ(k)) == st.threads.Q(MutexQ(k))
    requires forall k | k != m :: PhaseOf(p, k) == PhaseOf(st.pc[st.Me()], k)
    requires MutexOk(x, st'.threads.Q(MutexQ(m)), Phases(st.pc, m)[st.Me() := PhaseOf(p, m)],
        Depths(st, m)[st.Me() := d])
    ensures MutexInv(st')
  {
    hide MutexOk, PhaseOf, Depths;
    DepthsAfter(st, st', m, d);
    OtherMutexes(st, st', m, p);
  }

  lemma MutexStepOkSameDepth(st: State, st': State, m: nat, x: Mutex, p: Pc)
    requires MutexInv(st) && m in st.mutexes && st.Me() in st.pc && st'.pc == st.pc[st.Me() := p]
    requires st'.mutexes == st.mutexes[m := x] && st'.depth == st.depth
    requires forall k | k != m :: st'.threads.Q(MutexQ(k)) == st.threads.Q(MutexQ(k))
    requires forall k | k != m :: PhaseOf(p, k) == PhaseOf(st.pc[st.Me()], k)
    requires MutexOk(x, st'.threads.Q(MutexQ(m)), Phases(st.pc, m)[st.Me() := PhaseOf(p, m)], Depths(st, m))
    ensures MutexInv(st')
  {
    hide MutexOk, PhaseOf, Depths;
    forall k
      ensures Depths(st', k) == Depths(st, k)
    {
      DepthsSame(st, st', k);
    }
    OtherMutexes(st, st', m, p);
  }

  lemma MutexHere(st: State, m: nat)
    requires PlaceInv(st) && MutexInv(st) && m in st.mutexes
    ensures st.Me() in st.pc && MutexAt(st, m)
    ensures st.Me() in Phases(st.pc, m) && Phases(st.pc, m)[st.Me()] == PhaseOf(st.pc[st.Me()], m)
    ensures st.Me() in Depths(st, m) && Depths(st, m)[st.Me()] == st.Depth(st.Me(), m)
  {
    hide SchedInv, PcOk, MutexOk;
    RunningIsFree(st);
  }

  lemma AcquireOk(st: State, m: nat)
    requires PlaceInv(st) && MutexInv(st) && m in st.mutexes && (st.pc[st.Me()] == User || st.pc[st.Me()].CondBlocked?)
    ensures MutexInv(AcquireStep(st, m))
  {
    hide PlaceInv, MutexInv, MutexOk, Phases, Depths;
    MutexHere(st, m);
    var x := st.mutexes[m];
    MutexAcquire(x, st.threads.Q(MutexQ(m)), Phases(st.pc, m), Depths(st, m), st.Me());
    MutexStepOkSameDepth(st, AcquireStep(st, m), m, x, if x.holder == Some(st.Me()) then AcqNest(m) else AcqLoop(m));
  }

  lemma NestOk(st: State, m: nat)
    requires PlaceInv(st) && MutexInv(st) && m in st.mutexes && st.pc[st.Me()] == AcqNest(m)
    ensures MutexInv(NestStep(st, m))
  {
    hide PlaceInv, MutexInv, MutexOk, Phases, Depths;
    MutexHere(st, m);
    var x := st.mutexes[m];
    MutexNest(x, st.threads.Q(MutexQ(m)), Phases(st.pc, m), Depths(st, m), st.Me());
    MutexStepOk(st, NestStep(st, m), m, x.(repeat := x.repeat + 1), User, st.Depth(st.Me(), m) + 1);
  }

  lemma XchgOk(st: State, m: nat)
    requires PlaceInv(st) && MutexInv(st) && m in st.mutexes && st.pc[st.Me()] == AcqLoop(m)
    ensures MutexInv(XchgStep(st, m))
  {
    hide PlaceInv, MutexInv, MutexOk, Phases, Depths, Block;
    MutexHere(st, m);
    var x, q, phase, depth := st.mutexes[m], st.threads.Q(MutexQ(m)), Phases(st.pc, m), Depths(st, m);
    if x.isLock {
      BlockFrame(st, XchgStep(st, m), MutexQ(m), AcqLoop(m), {KMutex});
      MutexSleep(x, q, phase, depth, st.Me());
      assert phase[st.Me() := Looping] == phase;
      assert st.mutexes == st.mutexes[m := x];
      MutexStepOkSameDepth(st, XchgStep(st, m), m, x, AcqLoop(m));
    } else {
      MutexTake(x, q, phase, depth, st.Me());
      MutexStepOkSameDepth(st, XchgStep(st, m), m, x.(isLock := true, owner := Some(st.Me())), AcqSetHolder(m));
    }
  }

  lemma SetHolderOk(st: State, m: nat)
    requires PlaceInv(st) && MutexInv(st) && m in st.mutexes && st.pc[st.Me()] == AcqSetHolder(m)
    ensures MutexInv(SetHolderStep(st, m))
  {
    hide PlaceInv, MutexInv, MutexOk, Phases, Depths;
    MutexHere(st, m);
    var x := st.mutexes[m];
    MutexSetHolder(x, st.threads.Q(MutexQ(m)), Phases(st.pc, m), Depths(st, m), st.Me());
    MutexStepOkSameDepth(st, SetHolderStep(st, m), m, x.(holder := Some(st.Me())), AcqSetRepeat(m));
  }

  lemma SetRepeatOk(st: State, m: nat)
    requires PlaceInv(st) && MutexInv(st) && m in st.mutexes && st.pc[st.Me()] == AcqSetRepeat(m)
    ensures MutexInv(SetRepeatStep(st, m))
  {
    hide PlaceInv, MutexInv, MutexOk, Phases, Depths;
    MutexHere(st, m);
    var x := st.mutexes[m];
    MutexSetRepeat(x, st.threads.Q(MutexQ(m)), Phases(st.pc, m), Depths(st, m), st.Me());
    MutexStepOk(st, SetRepeatStep(st, m), m, x.(repeat := 1), User, 1);
  }

  lemma ReleaseOk(st: State, m: nat)
    requires PlaceInv(st) && MutexInv(st) && m in st.mutexes && st.pc[st.Me()] == User
    requires st.mutexes[m].holder == Some(st.Me())
    ensures MutexInv(ReleaseStep(st, m))
  {
    hide PlaceInv, MutexInv, MutexOk, Phases, Depths;
    MutexHere(st, m);
    var x := st.mutexes[m];
    MutexRelease(x, st.threads.Q(MutexQ(m)), Phases(st.pc, m), Depths(st, m), st.Me());
    MutexStepOk(st, ReleaseStep(st, m), m, x.(repeat := x.repeat - 1),
                if x.repeat - 1 == 0 then RelClear(m) else User, st.Depth(st.Me(), m) - 1);
  }

  lemma ClearOk(st: State, m: nat)
    requires PlaceInv(st) && MutexInv(st) && m in st.mutexes && st.pc[st.Me()] == RelClear(m)
    ensures MutexInv(ClearStep(st, m))
  {
    hide PlaceInv, MutexInv, MutexOk, Phases, Depths;
    MutexHere(st, m);
    var x := st.mutexes[m];
    MutexClear(x, st.threads.Q(MutexQ(m)), Phases(st.pc, m), Depths(st, m), st.Me());
    MutexStepOkSameDepth(st, ClearStep(st, m), m, x.(holder := None), RelUnlock(m));
  }

  // Whoever sleeps on a mutex is in its acquiring loop.
  lemma SleeperLoops(st: State, m: nat)
    requires PlaceInv(st) && st.threads.Q(MutexQ(m)) != []
    ensures var h := st.threads.Q(MutexQ(m))[0];
            h in Phases(st.pc, m) && Phases(st.pc, m)[h].Looping? && h !in st.threads.Q(MutexQ(m))[1..]
  {
    hide PlaceInv;
    WakeStepOk(st, MutexQ(m));
  }

  lemma UnlockOk(st: State, m: nat)
    requires PlaceInv(st) && MutexInv(st) && m in st.mutexes && st.pc[st.Me()] == RelUnlock(m)
    ensures st.mutexes[m].isLock
    ensures MutexInv(UnlockStep(st, m))
  {
    hide PlaceInv, MutexInv, MutexOk, Phases, Depths, PopHeld;
    MutexHere(st, m);
    var x, q := st.mutexes[m], st.threads.Q(MutexQ(m));
    if q != [] {
      SleeperLoops(st, m);
    }
    UnlockFrame(st, m);
    MutexUnlock(x, q, Phases(st.pc, m), Depths(st, m), st.Me());
    var p := if q == [] then User else RelWake(m, q[0]);
    MutexStepOkSameDepth(st, UnlockStep(st, m), m, x.(isLock := false, owner := None), p);
  }

  lemma WakeOkMutex(st: State)
    requires PlaceInv(st) && MutexInv(st) && st.pc[st.Me()].RelWake?
    ensures MutexInv(WakeStep(st, st.pc[st.Me()].woken))
  {
    hide PlaceInv, MutexOk, Phases, Depths, Unblock;
    RunningIsFree(st);
    var st' := WakeStep(st, st.pc[st.Me()].woken);
    WakeFrame(st);
    forall k | k in st'.mutexes
      ensures MutexAt(st', k)
    {
      assert MutexAt(st, k);
      PhasesAfter(st.pc, st.Me(), User, k);
      DepthsSame(st, st', k);
    }
  }

  // The mutex fields after mutex_release inside cond_wait.
  function Released(x: Mutex): Mutex {
    if x.repeat - 1 == 0 then x.(repeat := x.repeat - 1, holder := None, isLock := false, owner := None)
    else x.(repeat := x.repeat - 1)
  }

  lemma ReleaseAtOnceQueues(st: State, m: nat)
    requires PlaceInv(st) && m in st.mutexes
    ensures ReleaseAtOnce(st, m).mutexes == st.mutexes[m := Released(st.mutexes[m])]
    ensures ReleaseAtOnce(st, m).depth == st.depth[(st.Me(), m) := Pred(st.Depth(st.Me(), m))]
    ensures ReleaseAtOnce(st, m).threads.Q(MutexQ(m)) ==
            if st.mutexes[m].repeat - 1 == 0 then Tail(st.threads.Q(MutexQ(m))) else st.threads.Q(MutexQ(m))
  {
    hide SchedInv, PcOk, WakeHead;
    WakeHeadKeeps(st.threads, MutexQ(m));
  }

  lemma CondWaitOk(st: State, c: nat, m: nat)
    requires PlaceInv(st) && MutexInv(st) && m in st.mutexes && st.pc[st.Me()] == User
    requires st.mutexes[m].holder == Some(st.Me())
    ensures MutexInv(CondWaitStep(st, c, m))
  {
    hide PlaceInv, MutexInv, MutexOk, Phases, Depths, Block, ReleaseAtOnce;
    MutexHere(st, m);
    var x, q, st' := st.mutexes[m], st.threads.Q(MutexQ(m)), CondWaitStep(st, c, m);
    var phase, depth := Phases(st.pc, m), Depths(st, m);
    if q != [] {
      SleeperLoops(st, m);
    }
    ReleaseAtOnceQueues(st, m);
    ReleaseAtOnceKeeps(st, m);
    CondWaitFrame(st, c, m);
    MutexReleaseAtOnce(x, q, phase, depth, st.Me());
    assert phase[st.Me() := Outside] == phase;
    MutexStepOk(st, st', m, Released(x), CondBlocked(c, m), st.Depth(st.Me(), m) - 1);
  }
}
