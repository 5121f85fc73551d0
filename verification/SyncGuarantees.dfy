/** What callers of the blocking primitives get, in every state of every run from boot. */
module SyncGuarantees {
  import opened Options
  import opened Sched
  import opened Seqs
  import opened SyncSpec
  import opened SyncPlaces
  import opened SyncFrame
  import opened SyncLocks
  import opened SyncTheorems
  import opened SyncRuns
  import opened SyncExits

  // ---------- one place per thread ----------

  // A thread's task_tag is linked at most once, its state says where it is, and no thread is lost: a ready one
  // is on the ready list, and a blocked one on a wait list or in the hands of a releaser about to unblock it.
  lemma OnePlacePerThread(tr: seq<State>, ops: seq<Op>, n: nat, t: Tid)
    requires IsRun(tr, ops) && n < |tr| && t in tr[n].threads.place
    ensures var s := tr[n].threads;
            && t in s.state && s.idle in s.place
            && (forall q | t in s.Q(q) :: t !in s.ready && t != s.running && s.state[t] == BLOCKED)
            && (forall q, r | t in s.Q(q) && t in s.Q(r) :: q == r)
            && (t in s.ready ==> t != s.running && s.state[t] == READY)
            && (t == s.running ==> s.state[t] == RUNNING)
            && NoRepeats(s.ready) && (forall q :: NoRepeats(s.Q(q)))
            && (s.ready == [] && s.running != s.idle ==> s.place[s.idle] == Parked)
            && (s.state[t] == RUNNING ==> t == s.running)
            && (s.state[t] == READY ==> t in s.ready)
            && (s.state[t] == BLOCKED ==> t == s.idle || (exists q :: t in s.Q(q)) || AboutToWake(tr[n].pc, t))
            && t in tr[n].pc
            && (forall q | t in s.Q(q) :: QueueOf(tr[n].pc[t]) == Some(q) && !AboutToWake(tr[n].pc, t))
            && (AboutToWake(tr[n].pc, t) ==> s.state[t] == BLOCKED && QueueOf(tr[n].pc[t]).Some?)
            && OneReleaser(tr[n].pc, t)
  {
    hide IsRun, QueuesMatch, ReadyMatches, PcOk, SemInv, MutexInv, RwInv, BusyInv, AboutToWake, OneReleaser;
    EveryRun(tr, ops, n);
    OnePlace(tr[n].threads, t);
    NotLost(tr[n], t);
    WhereItWaits(tr[n], t);
  }

  // Some thread is in mutex_release with t popped and not unblocked yet.
  ghost predicate AboutToWake(pc: map<Tid, Pc>, t: Tid) {
    exists r :: r in pc && pc[r].RelWake? && pc[r].woken == t
  }

  // No two releasers have popped t.
  ghost predicate OneReleaser(pc: map<Tid, Pc>, t: Tid) {
    forall r, u | r in pc && u in pc && pc[r].RelWake? && pc[u].RelWake? && pc[r].woken == pc[u].woken == t :: r == u
  }

  // A thread waits where its code has put it, and is not in a releaser's hands at the same time.
  lemma WhereItWaits(st: State, t: Tid)
    requires PlaceInv(st) && t in st.threads.place && t in st.threads.state
    ensures t in st.pc && OneReleaser(st.pc, t)
    ensures forall q | t in st.threads.Q(q) :: QueueOf(st.pc[t]) == Some(q) && !AboutToWake(st.pc, t)
    ensures AboutToWake(st.pc, t) ==> st.threads.state[t] == BLOCKED && QueueOf(st.pc[t]).Some?
  {
    var s := st.threads;
    forall q | t in s.Q(q)
      ensures QueueOf(st.pc[t]) == Some(q) && !AboutToWake(st.pc, t)
    {
      assert QueueMatches(s, q);
      assert t in Stuck(s) && Stuck(s)[t] == OnWait(q);
    }
  }

  lemma NotLost(st: State, t: Tid)
    requires PlaceInv(st) && t in st.threads.place && t in st.threads.state
    ensures var s := st.threads;
            && (s.state[t] == RUNNING ==> t == s.running)
            && (s.state[t] == READY ==> t in s.ready)
            && (s.state[t] == BLOCKED ==> t == s.idle || (exists q :: t in s.Q(q)) || AboutToWake(st.pc, t))
  {
    var s := st.threads;
    match s.place[t]
    case OnWait(q) => assert QueueMatches(s, q);
    case Held(r) => assert t in Stuck(s) && st.pc[r].RelWake?;
    case _ =>
  }

  // ---------- semaphore ----------

  // The wait list has one entry per missing unit and per post between its increment and its pop.
  lemma SemaphoreAccounting(tr: seq<State>, ops: seq<Op>, n: nat, s: nat)
    requires IsRun(tr, ops) && n < |tr| && s in tr[n].sems
    ensures var x, q := tr[n].sems[s], tr[n].threads.Q(SemQ(s));
            && |q| == (if x.count < 0 then -x.count else 0) + |Poppers(tr[n].pc, s)|
            && x.passed <= x.init + x.posts
            && x.count == x.init + x.posts - x.passed - |q|
  {
    hide IsRun, PlaceInv, MutexInv, RwInv, BusyInv, Poppers;
    EveryRun(tr, ops, n);
    assert SemAt(tr[n], s);
    SemConserves(tr[n].sems[s], tr[n].threads.Q(SemQ(s)), |Poppers(tr[n].pc, s)|);
  }

  // ---------- the kernel's own assertions ----------

  // Every ASSERT and PANIC of the lock operations that the calling rules are meant to rule out.
  lemma AssertsHold(tr: seq<State>, ops: seq<Op>, n: nat)
    requires IsRun(tr, ops) && n < |tr| && tr[n].Me() in tr[n].pc
    ensures var st, p := tr[n], tr[n].pc[tr[n].Me()];
            && (p.PostPop? && p.s in st.sems ==> st.threads.Q(SemQ(p.s)) != [])
            && (p.RelUnlock? && p.m in st.mutexes ==> st.mutexes[p.m].isLock)
            && (p == User ==>
                && (forall m | MayCall(st, Release(m)) :: st.mutexes[m].repeat - 1 >= 0)
                && (forall c :: !(st.Me() in st.threads.Q(CondQ(c))))
                && (forall l | MayCall(st, ReadRelease(l)) :: st.rwlocks[l].count > 0)
                && (forall l | MayCall(st, WriteRelease(l)) :: st.rwlocks[l].count == -1))
  {
    hide IsRun, SchedInv, PcOk, BusyInv, SemInv, MutexInv, RwInv, Phases, Depths, MutexOk, QueuesMatch, ListsMatch;
    EveryRun(tr, ops, n);
    var st, p := tr[n], tr[n].pc[tr[n].Me()];
    if p.PostPop? && p.s in st.sems {
      PostPopFinds(st, p.s);
    }
    if p.RelUnlock? && p.m in st.mutexes {
      UnlockOk(st, p.m);
    }
    if p == User {
      forall m | MayCall(st, Release(m))
        ensures st.mutexes[m].repeat - 1 >= 0
      {
        MutexHere(st, m);
        HolderDepth(st.mutexes[m], st.threads.Q(MutexQ(m)), Phases(st.pc, m), Depths(st, m), st.Me());
      }
      forall c
        ensures !(st.Me() in st.threads.Q(CondQ(c)))
      {
        RunnerWaitsNowhere(st, CondQ(c));
      }
      forall l | MayCall(st, ReadRelease(l))
        ensures st.rwlocks[l].count > 0
      {
        ReadReleaseOk(st, l);
      }
      forall l | MayCall(st, WriteRelease(l))
        ensures st.rwlocks[l].count == -1
      {
        WriteReleaseOk(st, l);
      }
    }
  }

  lemma RunnerWaitsNowhere(st: State, q: Queue)
    requires PlaceInv(st)
    ensures st.Me() !in st.threads.Q(q)
  {
    hide PcOk, Stuck;
    OnePlace(st.threads, st.Me());
  }

  // ---------- mutex ----------

  // A thread at depth d > 0 is the only one inside: the lock is taken, it is the holder, repeat is d.
  lemma InsideIsHolder(tr: seq<State>, ops: seq<Op>, n: nat, m: nat, t: Tid)
    requires IsRun(tr, ops) && n < |tr| && m in tr[n].mutexes && tr[n].Depth(t, m) > 0
    ensures var st, x := tr[n], tr[n].mutexes[m];
            && x.isLock && x.holder == Some(t) && x.repeat == st.Depth(t, m)
            && forall u: Tid | u != t :: st.Depth(u, m) == 0
  {
    hide IsRun, PlaceInv, SemInv, MutexInv, RwInv, BusyInv;
    EveryRun(tr, ops, n);
    DepthMeansHolder(tr[n], m, t);
    forall u: Tid | u != t
      ensures tr[n].Depth(u, m) == 0
    {
      if tr[n].Depth(u, m) > 0 {
        DepthMeansHolder(tr[n], m, u);
      }
    }
  }

  lemma DepthMeansHolder(st: State, m: nat, t: Tid)
    requires MutexInv(st) && m in st.mutexes && st.Depth(t, m) > 0
    ensures t in st.pc && st.mutexes[m].isLock && st.mutexes[m].holder == Some(t)
    ensures st.mutexes[m].repeat == st.Depth(t, m)
  {
    assert MutexAt(st, m);
    assert (t, m) in st.depth;
    assert ThreadOk(st.mutexes[m], t, Phases(st.pc, m)[t], Depths(st, m)[t]);
  }

  // Thread t will run without anybody else's help, or its releaser's next step wakes it.
  ghost predicate Awake(st: State, t: Tid) {
    t == st.Me() || t in st.threads.ready || AboutToWake(st.pc, t)
  }

  // Where a thread is, told by its place.
  lemma PlaceTells(st: State, t: Tid)
    requires PlaceInv(st) && GoneInv(st) && t in st.pc
    ensures t in st.threads.place
    ensures var s, p := st.threads, st.threads.place[t];
            && (p == OnCpu ==> t == s.running)
            && (p == OnReady ==> t in s.ready)
            && (p.OnWait? ==> t in s.Q(p.q) && QueueOf(st.pc[t]) == Some(p.q))
            && (p.Held? ==> AboutToWake(st.pc, t) && QueueOf(st.pc[t]).Some? && QueueOf(st.pc[t]).value.MutexQ?)
            && (p == Parked ==> st.pc[t] == IdleLoop)
            && (p == Gone ==> st.pc[t] == User)
  {
    var s, p := st.threads, st.threads.place[t];
    assert p.OnWait? ==> QueueMatches(s, p.q);
    assert p.OnWait? || p.Held? ==> t in Stuck(s) && Stuck(s)[t] == p;
    assert p == Gone ==> IsGone(s, t);
  }

  // A thread whose code has a wait list, and that is not on it, is awake.
  lemma OffItsListIsAwake(st: State, t: Tid, q: Queue)
    requires PlaceInv(st) && GoneInv(st) && t in st.pc && QueueOf(st.pc[t]) == Some(q) && t !in st.threads.Q(q)
    ensures Awake(st, t)
    ensures !q.MutexQ? ==> t == st.Me() || t in st.threads.ready
  {
    hide PlaceInv, GoneInv, AboutToWake;
    PlaceTells(st, t);
  }

  // A holder means a taken lock; outside the lock's code the holder is as deep as repeat says; sleepers
  // imply that the lock is taken or that somebody awake is about to retry.
  lemma MutexSafe(tr: seq<State>, ops: seq<Op>, n: nat, m: nat)
    requires IsRun(tr, ops) && n < |tr| && m in tr[n].mutexes
    ensures var st, x := tr[n], tr[n].mutexes[m];
            && (x.holder.Some? ==> x.isLock)
            && (forall t | t in st.pc && st.pc[t] == User && x.holder == Some(t) :: st.Depth(t, m) == x.repeat >= 1)
            && (st.threads.Q(MutexQ(m)) != [] ==> x.isLock || exists t :: Retries(st, t, m))
  {
    hide IsRun, PlaceInv, SemInv, MutexInv, RwInv, BusyInv, GoneInv, Retries;
    EveryRun(tr, ops, n);
    GoneIsUser(tr, ops, n);
    MutexSafeAt(tr[n], m);
  }

  // t is about to try the flag of m again, and awake.
  ghost predicate Retries(st: State, t: Tid, m: nat) {
    t in st.pc && st.pc[t] == AcqLoop(m) && t !in st.threads.Q(MutexQ(m)) && Awake(st, t)
  }

  lemma MutexSafeAt(st: State, m: nat)
    requires PlaceInv(st) && GoneInv(st) && MutexInv(st) && m in st.mutexes
    ensures var x := st.mutexes[m];
            && (x.holder.Some? ==> x.isLock)
            && (forall t | t in st.pc && st.pc[t] == User && x.holder == Some(t) :: st.Depth(t, m) == x.repeat >= 1)
            && (st.threads.Q(MutexQ(m)) != [] ==> x.isLock || exists t :: Retries(st, t, m))
  {
    hide Owning, PlaceInv, GoneInv, Retries;
    var x, q, phase, depth := st.mutexes[m], st.threads.Q(MutexQ(m)), Phases(st.pc, m), Depths(st, m);
    assert MutexAt(st, m);
    forall t | t in st.pc && st.pc[t] == User && x.holder == Some(t)
      ensures st.Depth(t, m) == x.repeat >= 1
    {
      HolderDepth(x, q, phase, depth, t);
    }
    if q != [] && !x.isLock {
      SomebodyRetries(st, m);
    }
  }

  lemma SomebodyRetries(st: State, m: nat)
    requires PlaceInv(st) && GoneInv(st) && Retrying(st.threads.Q(MutexQ(m)), Phases(st.pc, m))
    ensures exists t :: Retries(st, t, m)
  {
    hide PlaceInv, GoneInv, Awake;
    var t :| t in st.pc && Phases(st.pc, m)[t].Looping? && t !in st.threads.Q(MutexQ(m));
    assert st.pc[t] == AcqLoop(m);
    OffItsListIsAwake(st, t, MutexQ(m));
    assert Retries(st, t, m);
  }

  // ---------- getting the mutex back ----------

  // t is inside mutex_acquire, by itself or at the end of cond_wait, and will be at depth d after it.
  ghost predicate Midway(st: State, t: Tid, m: nat, d: nat) {
    && t in st.pc && m in st.mutexes && d >= 1
    && match st.pc[t]
       case CondBlocked(_, k) => k == m && st.Depth(t, m) == d - 1
       case AcqNest(k) => k == m && st.Depth(t, m) == d - 1
       case AcqLoop(k) => k == m && st.Depth(t, m) == 0 && d == 1
       case AcqSetHolder(k) => k == m && st.Depth(t, m) == 0 && d == 1
       case AcqSetRepeat(k) => k == m && st.Depth(t, m) == 0 && d == 1
       case _ => false
  }

  ghost predicate Owns(st: State, t: Tid, m: nat, d: nat) {
    && t in st.pc && st.pc[t] == User && m in st.mutexes
    && st.mutexes[m].isLock && st.mutexes[m].holder == Some(t) && st.mutexes[m].repeat == d == st.Depth(t, m)
  }

  lemma MutexContinueDepths(st: State, t: Tid, m: nat)
    requires Enabled(st, Continue) && t != st.Me() && KMutex in PcKinds(st.pc[st.Me()])
    ensures ContinueStep(st).Depth(t, m) == st.Depth(t, m)
  {
    hide Block, PopHeld, Unblock;
    match st.pc[st.Me()]
    case AcqNest(k) => assert NestStep(st, k).depth == st.depth[(st.Me(), k) := st.Depth(st.Me(), k) + 1];
    case AcqLoop(k) => assert XchgStep(st, k).depth == st.depth;
    case AcqSetRepeat(k) => assert SetRepeatStep(st, k).depth == st.depth[(st.Me(), k) := 1];
    case RelUnlock(k) => assert UnlockStep(st, k).depth == st.depth;
    case _ =>
  }

  lemma MutexCallDepths(st: State, api: Api, t: Tid, m: nat)
    requires Enabled(st, Call(api)) && t != st.Me() && KMutex in ApiKinds(api)
    ensures CallStep(st, api).Depth(t, m) == st.Depth(t, m)
  {
    hide Block, WakeHead;
    match api
    case Release(k) => assert ReleaseStep(st, k).depth == st.depth[(st.Me(), k) := Pred(st.Depth(st.Me(), k))];
    case CondWait(c, k) =>
      assert ReleaseAtOnce(st, k).depth == st.depth[(st.Me(), k) := Pred(st.Depth(st.Me(), k))];
    case _ =>
  }

  // Nobody changes another thread's nesting depth.
  lemma DepthIsMine(st: State, op: Op, t: Tid, m: nat)
    requires PlaceInv(st) && Enabled(st, op) && t != st.Me()
    ensures Step(st, op).Depth(t, m) == st.Depth(t, m)
  {
    hide PlaceInv, CallStep, ContinueStep, MayCall, Exists, Preempt, PcKinds, ApiKinds;
    if KMutex !in Kinds(st, op) {
      StepFrame(st, op);
    } else if op.Continue? {
      MutexContinueDepths(st, t, m);
    } else {
      MutexCallDepths(st, op.api, t, m);
    }
  }

  lemma OthersStay(st: State, op: Op, t: Tid, m: nat, d: nat)
    requires Inv(st) && Enabled(st, op) && t != st.Me() && Midway(st, t, m, d)
    ensures Midway(Step(st, op), t, m, d)
  {
    hide PlaceInv, SemInv, MutexInv, RwInv, Kinds, Step, Enabled;
    DepthIsMine(st, op, t, m);
    StepFrame(st, op);
    BusyStep(st, op);
    var st' := Step(st, op);
    assert SamePcs(st, st', Kinds(st, op));
  }

  // The acquiring loop and what follows it
  lemma MyLoopStep(st: State, m: nat, d: nat)
    requires PlaceInv(st) && MutexInv(st) && Midway(st, st.Me(), m, d) && Enabled(st, Continue)
    requires st.pc[st.Me()].AcqSetHolder? || st.pc[st.Me()].AcqSetRepeat?
    ensures Midway(Step(st, Continue), st.Me(), m, d) || Owns(Step(st, Continue), st.Me(), m, d)
  {
    hide PlaceInv, MutexInv, Block;
    MutexHere(st, m);
    assert ThreadOk(st.mutexes[m], st.Me(), Phases(st.pc, m)[st.Me()], Depths(st, m)[st.Me()]);
    match st.pc[st.Me()]
    case AcqSetHolder(_) => var st' := SetHolderStep(st, m);
    case AcqSetRepeat(_) => var st' := SetRepeatStep(st, m);
    case _ =>
  }

  lemma MyXchgStep(st: State, m: nat, d: nat)
    requires PlaceInv(st) && MutexInv(st) && Midway(st, st.Me(), m, d) && Enabled(st, Continue)
    requires st.pc[st.Me()].AcqLoop?
    ensures Midway(Step(st, Continue), st.Me(), m, d)
  {
    hide PlaceInv, MutexInv, Block;
    RunningIsFree(st);
    assert Step(st, Continue) == XchgStep(st, m);
  }

  lemma MyOtherStep(st: State, m: nat, d: nat)
    requires PlaceInv(st) && MutexInv(st) && Midway(st, st.Me(), m, d) && Enabled(st, Continue)
    requires st.pc[st.Me()].CondBlocked? || st.pc[st.Me()].AcqNest?
    ensures Midway(Step(st, Continue), st.Me(), m, d) || Owns(Step(st, Continue), st.Me(), m, d)
  {
    hide PlaceInv, MutexInv, Block;
    MutexHere(st, m);
    assert ThreadOk(st.mutexes[m], st.Me(), Phases(st.pc, m)[st.Me()], Depths(st, m)[st.Me()]);
    match st.pc[st.Me()]
    case CondBlocked(_, _) => var st' := AcquireStep(st, m);
    case AcqNest(_) => var st' := NestStep(st, m);
    case _ =>
  }

  lemma MyStep(st: State, m: nat, d: nat)
    requires Inv(st) && Midway(st, st.Me(), m, d) && Enabled(st, Continue)
    ensures Midway(Step(st, Continue), st.Me(), m, d) || Owns(Step(st, Continue), st.Me(), m, d)
  {
    hide PlaceInv, SemInv, MutexInv, RwInv, BusyInv, ContinueStep;
    if st.pc[st.Me()].CondBlocked? || st.pc[st.Me()].AcqNest? {
      MyOtherStep(st, m, d);
    } else if st.pc[st.Me()].AcqLoop? {
      MyXchgStep(st, m, d);
    } else {
      MyLoopStep(st, m, d);
    }
  }

  lemma MidwayStep(st: State, op: Op, t: Tid, m: nat, d: nat)
    requires Inv(st) && Enabled(st, op) && Midway(st, t, m, d)
    ensures Midway(Step(st, op), t, m, d) || Owns(Step(st, op), t, m, d)
  {
    hide Inv, ContinueStep, CallStep, Preempt;
    if t != st.Me() {
      OthersStay(st, op, t, m, d);
    } else if op == Continue {
      MyStep(st, m, d);
    }
  }

  lemma {:induction false} StillMidway(tr: seq<State>, ops: seq<Op>, i: nat, j: nat, t: Tid, m: nat, d: nat)
    requires IsRun(tr, ops) && i < j < |tr| && Midway(tr[i], t, m, d)
    requires forall k | i < k < j :: t in tr[k].pc && tr[k].pc[t] != User
    ensures Midway(tr[j], t, m, d) || Owns(tr[j], t, m, d)
    decreases j
  {
    hide Inv, Step, Enabled, Initial, Midway, Owns;
    if i + 1 < j {
      StillMidway(tr, ops, i, j - 1, t, m, d);
      assert !Owns(tr[j - 1], t, m, d) by { OwnsIsUser(tr[j - 1], t, m, d); }
    }
    EveryRun(tr, ops, j - 1);
    assert tr[j - 1 + 1] == Step(tr[j - 1], ops[j - 1]);
    MidwayStep(tr[j - 1], ops[j - 1], t, m, d);
  }

  lemma OwnsIsUser(st: State, t: Tid, m: nat, d: nat)
    requires t in st.pc && st.pc[t] != User
    ensures !Owns(st, t, m, d)
  {
  }

  // mutex_acquire returns with the mutex held, one level deeper than before.
  lemma AcquireReturnsOwning(tr: seq<State>, ops: seq<Op>, i: nat, j: nat, m: nat)
    requires IsRun(tr, ops) && i + 1 < j < |tr| && ops[i] == Call(Acquire(m))
    requires forall k | i < k < j :: tr[i].Me() in tr[k].pc && tr[k].pc[tr[i].Me()] != User
    requires tr[i].Me() in tr[j].pc && tr[j].pc[tr[i].Me()] == User
    ensures Owns(tr[j], tr[i].Me(), m, tr[i].Depth(tr[i].Me(), m) + 1)
  {
    hide Inv, Midway, AcquireStep, Initial;
    EveryRun(tr, ops, i);
    assert Enabled(tr[i], ops[i]) && tr[i + 1] == Step(tr[i], ops[i]);
    AcquireStarts(tr[i], m);
    StillMidway(tr, ops, i + 1, j, tr[i].Me(), m, tr[i].Depth(tr[i].Me(), m) + 1);
    NotMidway(tr[j], tr[i].Me(), m, tr[i].Depth(tr[i].Me(), m) + 1);
  }

  lemma AcquireStarts(st: State, m: nat)
    requires Inv(st) && Enabled(st, Call(Acquire(m)))
    ensures Midway(AcquireStep(st, m), st.Me(), m, st.Depth(st.Me(), m) + 1)
  {
    hide PlaceInv, SemInv, MutexInv, RwInv, BusyInv;
    MutexHere(st, m);
    assert ThreadOk(st.mutexes[m], st.Me(), Phases(st.pc, m)[st.Me()], Depths(st, m)[st.Me()]);
  }

  // cond_wait's own step: the mutex goes back exactly when it was held once, and the caller sleeps.
  lemma CondWaitLetsGo(st: State, c: nat, m: nat)
    requires Inv(st) && Enabled(st, Call(CondWait(c, m)))
    ensures var st', t := CondWaitStep(st, c, m), st.Me();
            && t in st'.threads.Q(CondQ(c)) && st'.Me() != t
            && (st'.mutexes[m].isLock <==> st.Depth(t, m) > 1)
            && st'.Depth(t, m) == st.Depth(t, m) - 1
            && Midway(st', t, m, st.Depth(t, m))
  {
    hide PlaceInv, SemInv, MutexInv, RwInv, BusyInv, Block, ReleaseAtOnce, Phases, Depths, MutexOk;
    var st', t := CondWaitStep(st, c, m), st.Me();
    MutexHere(st, m);
    HolderDepth(st.mutexes[m], st.threads.Q(MutexQ(m)), Phases(st.pc, m), Depths(st, m), t);
    ReleaseAtOnceQueues(st, m);
    ReleaseAtOnceKeeps(st, m);
    CondWaitFrame(st, c, m);
    CondCalls(st, c, m);
    RunnerWaitsNowhere(st', CondQ(c));
  }

  // cond_wait returns with the mutex held as deep as when it was called.
  lemma CondWaitReturnsOwning(tr: seq<State>, ops: seq<Op>, i: nat, j: nat, c: nat, m: nat)
    requires IsRun(tr, ops) && i + 1 < j < |tr| && ops[i] == Call(CondWait(c, m))
    requires forall k | i < k < j :: tr[i].Me() in tr[k].pc && tr[k].pc[tr[i].Me()] != User
    requires tr[i].Me() in tr[j].pc && tr[j].pc[tr[i].Me()] == User
    ensures Owns(tr[j], tr[i].Me(), m, tr[i].Depth(tr[i].Me(), m))
  {
    hide Inv, Midway, CondWaitStep, Initial;
    EveryRun(tr, ops, i);
    assert Enabled(tr[i], ops[i]) && tr[i + 1] == Step(tr[i], ops[i]);
    CondWaitLetsGo(tr[i], c, m);
    StillMidway(tr, ops, i + 1, j, tr[i].Me(), m, tr[i].Depth(tr[i].Me(), m));
    NotMidway(tr[j], tr[i].Me(), m, tr[i].Depth(tr[i].Me(), m));
  }

  lemma NotMidway(st: State, t: Tid, m: nat, d: nat)
    requires t in st.pc && st.pc[t] == User
    ensures !Midway(st, t, m, d)
  {
  }

  // ---------- condition variable: no signal is lost ----------

  // What an operation does to the waiters of condition c.
  function WaitersAfter(q: seq<Tid>, op: Op, me: Tid, c: nat): seq<Tid> {
    match op
    case Call(CondWait(k, _)) => if k == c then q + [me] else q
    case Call(CondSignal(k)) => if k == c then Tail(q) else q
    case Call(CondBroadcast(k)) => if k == c then [] else q
    case _ => q
  }

  lemma {:induction false} WakeAllReadies(s: Threads, q: Queue)
    requires SchedInv(s)
    ensures forall t | t in s.ready || t in s.Q(q) :: t in WakeAll(s, q).ready
    decreases |s.Q(q)|
  {
    hide SchedInv, StuckIn;
    if s.Q(q) != [] {
      WakeHeadKeeps(s, q);
      InHeadOrTail(s.Q(q));
      WakeAllReadies(WakeHead(s, q), q);
    }
  }

  // Waiters leave only by being signalled, first come first served, and then are ready to run.
  lemma WaitersStep(st: State, op: Op, c: nat)
    requires Inv(st) && Enabled(st, op)
    ensures var q, q' := st.threads.Q(CondQ(c)), Step(st, op).threads.Q(CondQ(c));
            && q' == WaitersAfter(q, op, st.Me(), c)
            && (forall t | t in q && t !in q' :: t in Step(st, op).threads.ready)
  {
    hide SchedInv, PcOk, SemInv, MutexInv, RwInv, BusyInv, CondWaitStep, WakeHead, WakeAll, ContinueStep;
    var q := st.threads.Q(CondQ(c));
    if KCond !in Kinds(st, op) {
      OtherOpsKeepWaiters(st, op, c);
    } else {
      match op.api
      case CondWait(k, m) =>
        CondWaitFrame(st, k, m);
        CondWaitJoins(st, k, m);
        assert QueueKind(CondQ(c)) == KCond;
      case CondSignal(k) =>
        WakeHeadKeeps(st.threads, CondQ(k));
        WakeHeadReadies(st.threads, CondQ(k));
        if q != [] { InHeadOrTail(q); }
      case CondBroadcast(k) =>
        WakeAllKeeps(st.threads, CondQ(k));
        WakeAllReadies(st.threads, CondQ(k));
      case _ =>
    }
  }

  lemma WakeHeadReadies(s: Threads, q: Queue)
    ensures s.Q(q) != [] ==> s.Q(q)[0] in WakeHead(s, q).ready
  {
  }

  lemma OtherOpsKeepWaiters(st: State, op: Op, c: nat)
    requires PlaceInv(st) && Enabled(st, op) && KCond !in Kinds(st, op)
    ensures Step(st, op).threads.Q(CondQ(c)) == st.threads.Q(CondQ(c))
        == WaitersAfter(st.threads.Q(CondQ(c)), op, st.Me(), c)
  {
    hide PlaceInv, Step, Enabled;
    StepFrame(st, op);
    assert QueueKind(CondQ(c)) == KCond;
  }

  lemma CondWaitJoins(st: State, c: nat, m: nat)
    requires PlaceInv(st) && m in st.mutexes && st.pc[st.Me()] == User
    ensures CondWaitStep(st, c, m).threads.Q(CondQ(c)) == st.threads.Q(CondQ(c)) + [st.Me()]
  {
    hide PlaceInv, ReleaseAtOnce, Block, OnlyKinds;
    RunningIsFree(st);
    ReleaseAtOnceKeeps(st, m);
    ReleaseAtOnceFrame(st, m);
    BlockFrame(ReleaseAtOnce(st, m), CondWaitStep(st, c, m), CondQ(c), CondBlocked(c, m), {KMutex, KCond});
  }

  function Signals(ops: seq<Op>, i: nat, j: nat, c: nat): nat
    requires i <= j <= |ops|
    decreases j - i
  {
    if i == j then 0 else Signals(ops, i, j - 1, c) + if ops[j - 1] == Call(CondSignal(c)) then 1 else 0
  }

  // A waiter with p others ahead of it sleeps through p signals, and moves up by one with each.
  lemma {:induction false} SignalsReachInOrder(tr: seq<State>, ops: seq<Op>, i: nat, j: nat, c: nat, p: nat)
    requires IsRun(tr, ops) && i <= j < |tr| && p < |tr[i].threads.Q(CondQ(c))|
    requires forall k | i <= k < j :: ops[k] != Call(CondBroadcast(c))
    requires Signals(ops, i, j, c) <= p
    ensures var q := tr[j].threads.Q(CondQ(c));
            && p - Signals(ops, i, j, c) < |q|
            && q[p - Signals(ops, i, j, c)] == tr[i].threads.Q(CondQ(c))[p]
    decreases j - i
  {
    hide Inv, Step, Enabled, Initial;
    if i < j {
      SignalsReachInOrder(tr, ops, i, j - 1, c, p);
      EveryRun(tr, ops, j - 1);
      assert tr[j - 1 + 1] == Step(tr[j - 1], ops[j - 1]);
      WaitersStep(tr[j - 1], ops[j - 1], c);
    }
  }

  // The signal after those p takes it off the list and makes it ready.
  lemma NextSignalWakes(tr: seq<State>, ops: seq<Op>, i: nat, j: nat, c: nat, p: nat)
    requires IsRun(tr, ops) && i <= j < |ops| && p < |tr[i].threads.Q(CondQ(c))|
    requires forall k | i <= k < j :: ops[k] != Call(CondBroadcast(c))
    requires Signals(ops, i, j, c) == p && ops[j] == Call(CondSignal(c))
    ensures var t := tr[i].threads.Q(CondQ(c))[p];
            && t in tr[j].threads.Q(CondQ(c))
            && t !in tr[j + 1].threads.Q(CondQ(c)) && t in tr[j + 1].threads.ready
            && t in tr[j + 1].threads.state && tr[j + 1].threads.state[t] == READY
  {
    hide Inv, Step, Enabled, Initial;
    SignalsReachInOrder(tr, ops, i, j, c, p);
    EveryRun(tr, ops, j);
    assert Enabled(tr[j], ops[j]) && tr[j + 1] == Step(tr[j], ops[j]);
    WaitersStep(tr[j], ops[j], c);
    HeadLeaves(tr[j], CondQ(c));
    EveryRun(tr, ops, j + 1);
    ReadyState(tr[j + 1], tr[i].threads.Q(CondQ(c))[p]);
  }

  lemma HeadLeaves(st: State, q: Queue)
    requires Inv(st) && st.threads.Q(q) != []
    ensures st.threads.Q(q)[0] !in st.threads.Q(q)[1..]
  {
    hide PcOk, SemInv, MutexInv, RwInv, BusyInv;
    assert QueueMatches(st.threads, q);
  }

  lemma ReadyState(st: State, t: Tid)
    requires Inv(st) && t in st.threads.ready
    ensures t in st.threads.state && st.threads.state[t] == READY
  {
    hide PcOk, SemInv, MutexInv, RwInv, BusyInv, QueuesMatch;
  }

  // ---------- read-write lock ----------

  // t is a writer that has been woken and will run, to try again.
  ghost predicate WokenWriter(st: State, t: Tid, l: nat) {
    && t in st.pc && st.pc[t] == WriteBlocked(l) && t !in st.threads.Q(WriteQ(l))
    && (t == st.Me() || t in st.threads.ready)
  }

  lemma TransitIsAwake(st: State, l: nat)
    requires PlaceInv(st) && GoneInv(st) && Transit(st.pc, st.threads.Q(WriteQ(l)), l)
    ensures exists t :: WokenWriter(st, t, l)
  {
    hide PlaceInv, GoneInv, Awake;
    var t :| t in st.pc && st.pc[t] == WriteBlocked(l) && t !in st.threads.Q(WriteQ(l));
    OffItsListIsAwake(st, t, WriteQ(l));
    assert WokenWriter(st, t, l);
  }

  // Either one writer or readers, never both; no wait is forgotten.
  lemma RwSafe(tr: seq<State>, ops: seq<Op>, n: nat, l: nat)
    requires IsRun(tr, ops) && n < |tr| && l in tr[n].rwlocks
    ensures var st, x := tr[n], tr[n].rwlocks[l];
            var rq, wq := st.threads.Q(ReadQ(l)), st.threads.Q(WriteQ(l));
            var woken := exists t :: WokenWriter(st, t, l);
            && (x.writer.Some? ==> x.count == -1 && x.readers == multiset{})
            && (x.writer.None? ==> x.count == |x.readers|)
            && (wq != [] ==> x.readyWrite && (x.count != 0 || woken))
            && (rq != [] ==> x.count < 0 || x.readyWrite)
            && (x.readyWrite ==> wq != [] || woken || x.writer.Some?)
  {
    hide IsRun, PlaceInv, SemInv, MutexInv, BusyInv, Transit, GoneInv, WokenWriter;
    EveryRun(tr, ops, n);
    GoneIsUser(tr, ops, n);
    assert RwAt(tr[n], l);
    if Transit(tr[n].pc, tr[n].threads.Q(WriteQ(l)), l) {
      TransitIsAwake(tr[n], l);
    }
  }

  // While a writer waits, no step lets a reader in.
  lemma NoNewReader(st: State, op: Op, l: nat)
    requires Inv(st) && Enabled(st, op) && l in st.rwlocks && st.threads.Q(WriteQ(l)) != []
    ensures l in Step(st, op).rwlocks && Step(st, op).rwlocks[l].readers <= st.rwlocks[l].readers
  {
    hide PlaceInv, SemInv, MutexInv, BusyInv, Step, Kinds, Enabled, Transit;
    assert RwAt(st, l) && st.rwlocks[l].readyWrite;
    if KRw in Kinds(st, op) {
      RwStepKeepsReadersOut(st, op, l);
    } else {
      OtherOpsKeepRw(st, op);
    }
  }

  lemma RwStepKeepsReadersOut(st: State, op: Op, l: nat)
    requires Enabled(st, op) && KRw in Kinds(st, op) && l in st.rwlocks && st.rwlocks[l].readyWrite
    ensures l in Step(st, op).rwlocks && Step(st, op).rwlocks[l].readers <= st.rwlocks[l].readers
  {
    hide TryRead, TryWrite, ReadReleaseStep, WriteReleaseStep;
    match op
    case Continue =>
      match st.pc[st.Me()] {
        case ReadBlocked(k) => TryReadLocks(st, k);
        case WriteBlocked(k) => TryWriteLocks(st, k);
        case _ =>
      }
    case Call(api) =>
      match api {
        case ReadAcquire(k) => TryReadLocks(st, k);
        case WriteAcquire(k) => TryWriteLocks(st, k);
        case ReadRelease(k) => ReadReleaseLocks(st, k);
        case WriteRelease(k) => WriteReleaseLocks(st, k);
        case _ =>
      }
    case Tick =>
  }

  lemma OtherOpsKeepRw(st: State, op: Op)
    requires PlaceInv(st) && Enabled(st, op) && KRw !in Kinds(st, op)
    ensures Step(st, op).rwlocks == st.rwlocks
  {
    hide PlaceInv, Step, Enabled;
    StepFrame(st, op);
  }

  // ---------- rwlock_write_release's debug assertion ----------

  // The assertion as written: count == -1 and ready_write.
  predicate WriteReleaseAssert(x: RwLock) {
    x.count == -1 && x.readyWrite
  }

  // rwlock_write_acquire finds the lock busy
  predicate WriterBlocks(st: State, op: Op, l: nat) {
    && l in st.rwlocks && st.rwlocks[l].count != 0
    && (op == Call(WriteAcquire(l)) || (op == Continue && st.Me() in st.pc && st.pc[st.Me()] == WriteBlocked(l)))
  }

  // rwlock_write_release finds no writer waiting
  predicate LastWriterLeaves(st: State, op: Op, l: nat) {
    op == Call(WriteRelease(l)) && st.threads.Q(WriteQ(l)) == []
  }

  // Some writer had to wait, and no writer has since left without another waiting.
  ghost predicate Contended(tr: seq<State>, ops: seq<Op>, n: nat, l: nat)
    requires |tr| == |ops| + 1 && n <= |ops|
  {
    && n > 0
    && (WriterBlocks(tr[n - 1], ops[n - 1], l)
        || (!LastWriterLeaves(tr[n - 1], ops[n - 1], l) && Contended(tr, ops, n - 1, l)))
  }

  lemma ReadyWriteStep(st: State, op: Op, l: nat)
    requires Inv(st) && Enabled(st, op) && l in st.rwlocks
    ensures l in Step(st, op).rwlocks
    ensures Step(st, op).rwlocks[l].readyWrite <==>
            WriterBlocks(st, op, l) || (!LastWriterLeaves(st, op, l) && st.rwlocks[l].readyWrite)
  {
    hide PlaceInv, SemInv, MutexInv, RwInv, BusyInv, Step;
    if KRw !in Kinds(st, op) {
      OtherOpsKeepRw(st, op);
    } else if op.Continue? {
      ReadyWriteContinue(st, l);
    } else {
      ReadyWriteCall(st, op.api, l);
    }
  }

  lemma ReadyWriteContinue(st: State, l: nat)
    requires Enabled(st, Continue) && l in st.rwlocks && KRw in PcKinds(st.pc[st.Me()])
    ensures l in Step(st, Continue).rwlocks
    ensures Step(st, Continue).rwlocks[l].readyWrite <==> WriterBlocks(st, Continue, l) || st.rwlocks[l].readyWrite
  {
    hide TryRead, TryWrite;
    match st.pc[st.Me()]
    case ReadBlocked(k) => TryReadLocks(st, k);
    case WriteBlocked(k) => TryWriteLocks(st, k);
    case _ =>
  }

  lemma ReadyWriteCall(st: State, api: Api, l: nat)
    requires Enabled(st, Call(api)) && l in st.rwlocks && KRw in ApiKinds(api)
    ensures l in Step(st, Call(api)).rwlocks
    ensures Step(st, Call(api)).rwlocks[l].readyWrite <==>
            WriterBlocks(st, Call(api), l) || (!LastWriterLeaves(st, Call(api), l) && st.rwlocks[l].readyWrite)
  {
    hide TryRead, TryWrite, ReadReleaseStep, WriteReleaseStep;
    match api
    case ReadAcquire(k) => TryReadLocks(st, k);
    case WriteAcquire(k) => TryWriteLocks(st, k);
    case ReadRelease(k) => ReadReleaseLocks(st, k);
    case WriteRelease(k) => WriteReleaseLocks(st, k);
    case _ =>
  }

  lemma {:induction false} ReadyWriteIsHistory(tr: seq<State>, ops: seq<Op>, n: nat, l: nat)
    requires IsRun(tr, ops) && n < |tr| && l in tr[0].rwlocks
    ensures l in tr[n].rwlocks && (tr[n].rwlocks[l].readyWrite <==> Contended(tr, ops, n, l))
  {
    hide Inv, Step, Enabled;
    if n > 0 {
      ReadyWriteIsHistory(tr, ops, n - 1, l);
      EveryRun(tr, ops, n - 1);
      assert tr[n - 1 + 1] == Step(tr[n - 1], ops[n - 1]);
      ReadyWriteStep(tr[n - 1], ops[n - 1], l);
    }
  }

  // The count half always holds; the whole assertion holds exactly when writers have contended.
  lemma WriteReleaseAssertIffContended(tr: seq<State>, ops: seq<Op>, n: nat, l: nat)
    requires IsRun(tr, ops) && n < |tr| && l in tr[0].rwlocks && Enabled(tr[n], Call(WriteRelease(l)))
    ensures tr[n].rwlocks[l].count == -1
    ensures WriteReleaseAssert(tr[n].rwlocks[l]) <==> Contended(tr, ops, n, l)
  {
    hide IsRun, SchedInv, PcOk, BusyInv, SemInv, MutexInv, RwInv, Contended;
    ReadyWriteIsHistory(tr, ops, n, l);
    EveryRun(tr, ops, n);
    WriteReleaseOk(tr[n], l);
  }

  // The first writer after boot trips it.
  lemma UncontendedWriterTripsIt(st: State, l: nat)
    requires Initial(st) && l in st.rwlocks
    ensures var st' := TryWrite(st, l);
            && Enabled(st, Call(WriteAcquire(l))) && Step(st, Call(WriteAcquire(l))) == st'
            && Enabled(st', Call(WriteRelease(l)))
            && !WriteReleaseAssert(st'.rwlocks[l])
  {
    assert st.rwlocks[l] == RwLock(0, false, multiset{}, None);
  }
}
