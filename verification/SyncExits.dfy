/** sys_exit is for good, and a thread can only leave from outside the lock operations. */
module SyncExits {
  import opened Options
  import opened Sched
  import opened SyncSpec
  import opened SyncPlaces
  import opened SyncFrame
  import opened SyncTheorems
  import opened SyncRuns

  ghost predicate IsGone(s: Threads, t: Tid) {
    t in s.place && s.place[t] == Gone
  }

  // The same threads have exited.
  ghost predicate SameGone(s: Threads, s': Threads) {
    forall t :: IsGone(s', t) <==> IsGone(s, t)
  }

  // ---------- steps of the scheduler ----------

  lemma MoveGone(s: Threads, t: Tid, p: Place)
    requires !IsGone(s, t) && p != Gone
    ensures SameGone(s, s.At(t, p))
  {
  }

  lemma DispatchGone(s: Threads)
    requires ListsMatch(s)
    ensures SameGone(s, Dispatch(s))
  {
    hide QueuesMatch, StatesMatch;
  }

  lemma PreemptGone(s: Threads)
    requires SchedInv(s)
    ensures SameGone(s, Preempt(s))
  {
    hide QueuesMatch, ReadyMatches, StatesMatch, Dispatch;
    ToReadyKeeps(s);
    DispatchGone(ToReady(s));
  }

  lemma BlockGone(s: Threads, q: Queue)
    requires SchedInv(s) && s.running != s.idle
    ensures SameGone(s, Block(s, q))
  {
    hide QueuesMatch, ReadyMatches, StatesMatch, Dispatch;
    ToWaitKeeps(s, q);
    DispatchGone(ToWait(s, q));
  }

  lemma ParkGone(s: Threads)
    requires SchedInv(s) && s.running == s.idle
    ensures SameGone(s, Park(s))
  {
    hide QueuesMatch, ReadyMatches, StatesMatch, Dispatch;
    AsideKeeps(s, Parked);
    DispatchGone(s.At(s.running, Parked));
  }

  lemma LeaveGone(s: Threads)
    requires SchedInv(s) && s.running != s.idle
    ensures forall t :: IsGone(Leave(s), t) <==> IsGone(s, t) || t == s.running
  {
    hide QueuesMatch, ReadyMatches, StatesMatch, Dispatch;
    AsideKeeps(s, Gone);
    DispatchGone(s.At(s.running, Gone));
  }

  lemma WakeHeadGone(s: Threads, q: Queue)
    requires SchedInv(s)
    ensures SameGone(s, WakeHead(s, q))
  {
    hide ReadyMatches, StatesMatch;
    if s.Q(q) != [] {
      assert QueueMatches(s, q) && s.Q(q)[0] in s.Q(q);
    }
  }

  lemma PopHeldGone(s: Threads, q: Queue)
    requires SchedInv(s) && s.Q(q) != []
    ensures SameGone(s, PopHeld(s, q))
  {
    hide ReadyMatches, StatesMatch;
    assert QueueMatches(s, q) && s.Q(q)[0] in s.Q(q);
  }

  lemma {:induction false} WakeAllGone(s: Threads, q: Queue)
    requires SchedInv(s)
    ensures SameGone(s, WakeAll(s, q))
    decreases |s.Q(q)|
  {
    hide SchedInv, WakeHead, IsGone;
    if s.Q(q) != [] {
      WakeHeadKeeps(s, q);
      WakeHeadGone(s, q);
      WakeAllGone(WakeHead(s, q), q);
    }
  }

  lemma CreateGone(s: Threads, t: Tid)
    requires t !in s.place
    ensures SameGone(s, Create(s, t))
  {
  }

  lemma ForkGone(s: Threads, t: Tid)
    requires SchedInv(s) && t !in s.place
    ensures SameGone(s, Fork(s, t))
  {
    hide QueuesMatch, ReadyMatches, StatesMatch, StuckIn, Preempt;
    var s' := s.At(t, OnReady).(ready := [t] + s.ready);
    QueuesUntouched(s, s', t, OnReady);
    ReadyGains(s, s', t);
    StatesAfter(s, s', t, OnReady);
    IdleAfter(s, s', t, OnReady);
    PreemptGone(s');
  }

  // ---------- steps of threads ----------

  lemma BlockCallGone(st: State, q: Queue)
    requires PlaceInv(st) && st.pc[st.Me()] != IdleLoop
    ensures SameGone(st.threads, Block(st.threads, q))
  {
    hide SchedInv, PcOk, SameGone;
    RunningIsFree(st);
    BlockGone(st.threads, q);
  }

  lemma CondWaitGone(st: State, c: nat, m: nat)
    requires PlaceInv(st) && m in st.mutexes && st.pc[st.Me()] == User
    ensures SameGone(st.threads, CondWaitStep(st, c, m).threads)
  {
    hide SchedInv, PcOk, IsGone, Block, WakeHead;
    WakeHeadGone(st.threads, MutexQ(m));
    ReleaseAtOnceKeeps(st, m);
    BlockCallGone(ReleaseAtOnce(st, m), CondQ(c));
  }

  lemma ContinueGone(st: State)
    requires PlaceInv(st) && st.Me() in st.pc && Exists(st, st.pc[st.Me()])
    ensures SameGone(st.threads, ContinueStep(st).threads)
  {
    hide SchedInv, PcOk, IsGone, Block, WakeHead, Park, PopHeld, Unblock;
    RunningIsFree(st);
    var s := st.threads;
    match st.pc[st.Me()]
    case IdleLoop => ParkGone(s);
    case PostPop(k) => WakeHeadGone(s, SemQ(k));
    case AcqLoop(m) => BlockCallGone(st, MutexQ(m));
    case RelUnlock(m) => if s.Q(MutexQ(m)) != [] { PopHeldGone(s, MutexQ(m)); }
    case RelWake(m, t) => WokenGone(st);
    case ReadBlocked(l) => BlockCallGone(st, ReadQ(l));
    case WriteBlocked(l) => BlockCallGone(st, WriteQ(l));
    case _ =>
  }

  lemma WokenGone(st: State)
    requires st.Me() in st.pc && st.pc[st.Me()].RelWake? && PlaceInv(st)
    ensures SameGone(st.threads, WakeStep(st, st.pc[st.Me()].woken).threads)
  {
    hide SchedInv;
    var t := st.pc[st.Me()].woken;
    assert t in Stuck(st.threads) && Stuck(st.threads)[t].Held?;
  }

  lemma RwCallGone(st: State, l: nat)
    requires l in st.rwlocks && st.Me() in st.pc && st.pc[st.Me()] == User && PlaceInv(st)
    ensures SameGone(st.threads, TryRead(st, l).threads) && SameGone(st.threads, TryWrite(st, l).threads)
    ensures SameGone(st.threads, ReadReleaseStep(st, l).threads)
    ensures SameGone(st.threads, WriteReleaseStep(st, l).threads)
  {
    hide SchedInv, PcOk, IsGone, Block, WakeHead, WakeAll;
    BlockCallGone(st, ReadQ(l));
    BlockCallGone(st, WriteQ(l));
    WakeHeadGone(st.threads, WriteQ(l));
    WakeHeadGone(st.threads, ReadQ(l));
    WakeAllGone(st.threads, ReadQ(l));
  }

  lemma CallGone(st: State, api: Api)
    requires PlaceInv(st) && st.Me() in st.pc && st.pc[st.Me()] == User && MayCall(st, api) && api != Exit
    ensures SameGone(st.threads, CallStep(st, api).threads)
  {
    hide SchedInv, PcOk, IsGone, Block, WakeHead, WakeAll, Preempt, Fork, Create, CondWaitStep;
    hide TryRead, TryWrite, ReadReleaseStep, WriteReleaseStep;
    var s := st.threads;
    match api
    case SemaWait(k) => BlockCallGone(st, SemQ(k));
    case CondWait(c, m) => CondWaitGone(st, c, m);
    case CondSignal(c) => WakeHeadGone(s, CondQ(c));
    case CondBroadcast(c) => WakeAllGone(s, CondQ(c));
    case ReadAcquire(l) => RwCallGone(st, l);
    case WriteAcquire(l) => RwCallGone(st, l);
    case ReadRelease(l) => RwCallGone(st, l);
    case WriteRelease(l) => RwCallGone(st, l);
    case Yield => PreemptGone(s);
    case ForkThread(t) => ForkGone(s, t);
    case CreateThread(t) => CreateGone(s, t);
    case _ =>
  }

  // A step adds to the exited threads only its own, and only by sys_exit.
  lemma StepGone(st: State, op: Op)
    requires PlaceInv(st) && Enabled(st, op)
    ensures forall t :: IsGone(Step(st, op).threads, t) <==> IsGone(st.threads, t) || (op == Call(Exit) && t == st.Me())
  {
    hide SchedInv, PcOk, IsGone, CallStep, ContinueStep, MayCall, Exists, Preempt;
    RunningIsFree(st);
    match op
    case Tick => PreemptGone(st.threads);
    case Continue => ContinueGone(st);
    case Call(api) =>
      if api == Exit {
        ExitStep(st);
        LeaveGone(st.threads);
      } else {
        CallGone(st, api);
      }
  }

  lemma ExitStep(st: State)
    ensures CallStep(st, Exit).threads == Leave(st.threads)
  {
  }

  // ---------- runs ----------

  // A thread that has exited was in none of the lock operations.
  ghost predicate GoneInv(st: State) {
    forall t | IsGone(st.threads, t) :: t in st.pc && st.pc[t] == User
  }

  lemma RunnerNotGone(st: State)
    requires PlaceInv(st)
    ensures !IsGone(st.threads, st.Me())
  {
    hide ListsMatch, PcOk;
  }

  lemma ExitKeepsPc(st: State)
    requires Enabled(st, Call(Exit))
    ensures Step(st, Call(Exit)).pc == st.pc && st.Me() in st.pc && st.pc[st.Me()] == User
  {
    hide Leave;
  }

  lemma StepKeepsGoneInv(st: State, op: Op)
    requires PlaceInv(st) && GoneInv(st) && Enabled(st, op)
    ensures GoneInv(Step(st, op))
  {
    hide PlaceInv, IsGone, Step, Enabled;
    StepGone(st, op);
    RunnerNotGone(st);
    if op == Call(Exit) {
      ExitKeepsPc(st);
    } else {
      StepFrame(st, op);
      assert SamePcs(st, Step(st, op), Kinds(st, op));
    }
  }

  lemma {:induction false} GoneIsUser(tr: seq<State>, ops: seq<Op>, n: nat)
    requires IsRun(tr, ops) && n < |tr|
    ensures GoneInv(tr[n])
  {
    hide Inv, Step, Enabled, GoneInv;
    if n == 0 {
      assert GoneInv(tr[0]) by { NobodyGone(tr[0]); }
    } else {
      GoneIsUser(tr, ops, n - 1);
      EveryRun(tr, ops, n - 1);
      assert tr[n - 1 + 1] == Step(tr[n - 1], ops[n - 1]);
      InvPlaces(tr[n - 1]);
      StepKeepsGoneInv(tr[n - 1], ops[n - 1]);
    }
  }

  lemma NobodyGone(st: State)
    requires Initial(st)
    ensures GoneInv(st)
  {
  }

  lemma InvPlaces(st: State)
    requires Inv(st)
    ensures PlaceInv(st)
  {
  }

  // A thread that has exited stays so, and never runs again.
  lemma {:induction false} ExitIsForGood(tr: seq<State>, ops: seq<Op>, i: nat, j: nat)
    requires IsRun(tr, ops) && i < j < |tr| && ops[i] == Call(Exit)
    ensures IsGone(tr[j].threads, tr[i].Me()) && tr[j].Me() != tr[i].Me()
    decreases j
  {
    hide Inv, PlaceInv, Step, Enabled, IsGone, Initial;
    if i + 1 < j {
      ExitIsForGood(tr, ops, i, j - 1);
    }
    EveryRun(tr, ops, j - 1);
    InvPlaces(tr[j - 1]);
    assert tr[j - 1 + 1] == Step(tr[j - 1], ops[j - 1]);
    StepGone(tr[j - 1], ops[j - 1]);
    EveryRun(tr, ops, j);
    InvPlaces(tr[j]);
    RunnerNotGone(tr[j]);
  }
}
