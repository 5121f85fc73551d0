/** What one call does for the threads concerned: who gets in, who goes to sleep, who is woken and who is not. */
module SyncHandoffs {
  import opened Options
  import opened Sched
  import opened Seqs
  import opened SyncSpec
  import opened SyncPlaces
  import opened SyncFrame
  import opened SyncLocks
  import opened SyncTheorems
  import opened SyncRuns

  // ---------- sleeping and waking ----------

  // The running thread goes to sleep as the last one on q, and the first ready thread, or else the idle
  // thread, runs.
  ghost predicate Sleeps(s: Threads, s': Threads, q: Queue) {
    && s'.Q(q) == s.Q(q) + [s.running] && (forall r | r != q :: s'.Q(r) == s.Q(r))
    && s.running in s'.state && s'.state[s.running] == BLOCKED && s'.running != s.running
    && s.running !in s'.ready && [s'.running] + s'.ready == if s.ready == [] then [s.idle] else s.ready
  }

  // The first n threads of q, in their order, are the last ready ones; nobody else moves.
  ghost predicate Wakes(s: Threads, s': Threads, q: Queue, n: nat) {
    && n <= |s.Q(q)| && s'.ready == s.ready + s.Q(q)[..n] && s'.Q(q) == s.Q(q)[n..]
    && (forall r | r != q :: s'.Q(r) == s.Q(r)) && s'.running == s.running
    && (forall t | t in s.Q(q)[..n] :: t in s'.state && s'.state[t] == READY)
    && (forall t | t in s.state && t !in s.Q(q)[..n] :: t in s'.state && s'.state[t] == s.state[t])
  }

  lemma BlockSleeps(s: Threads, q: Queue)
    requires SchedInv(s) && s.running != s.idle
    ensures Sleeps(s, Block(s, q), q)
  {
    hide SchedInv, Block;
    BlockKeeps(s, q);
    RunnerNotReady(s);
    BlockLists(s, q);
  }

  lemma RunnerNotReady(s: Threads)
    requires SchedInv(s)
    ensures s.running !in s.ready
  {
    hide QueuesMatch, IdleMatches, StatesMatch;
  }

  lemma BlockLists(s: Threads, q: Queue)
    requires s.running !in s.ready && s.running != s.idle
    ensures var s' := Block(s, q);
            && s.running in s'.state && s'.state[s.running] == BLOCKED && s'.running != s.running
            && s.running !in s'.ready && [s'.running] + s'.ready == if s.ready == [] then [s.idle] else s.ready
  {
    if s.ready != [] {
      assert s.ready == [s.ready[0]] + s.ready[1..];
    }
  }

  lemma NobodyWakes(s: Threads, q: Queue)
    ensures Wakes(s, s, q, 0)
  {
  }

  lemma HeadWakes(s: Threads, q: Queue)
    requires s.Q(q) != []
    ensures Wakes(s, WakeHead(s, q), q, 1)
  {
    hide WakeHead;
    WakeHeadLists(s, q);
    WakeHeadStates(s, q);
    assert s.Q(q)[..1] == [s.Q(q)[0]];
  }

  lemma WakeHeadStates(s: Threads, q: Queue)
    requires s.Q(q) != []
    ensures WakeHead(s, q).running == s.running && s.Q(q)[0] in WakeHead(s, q).state
    ensures WakeHead(s, q).state == s.state[s.Q(q)[0] := READY]
  {
  }

  lemma {:induction false} AllWake(s: Threads, q: Queue)
    ensures Wakes(s, WakeAll(s, q), q, |s.Q(q)|)
    decreases |s.Q(q)|
  {
    hide WakeHead;
    var list := s.Q(q);
    if list == [] {
      assert list[..0] == [] && WakeAll(s, q) == s;
    } else {
      HeadWakes(s, q);
      AllWake(WakeHead(s, q), q);
      assert list[..|list|] == list[..1] + list[1..] && list[1..][..|list| - 1] == list[1..];
    }
  }

  lemma UserSleeps(st: State, q: Queue)
    requires PlaceInv(st) && st.Me() in st.pc && st.pc[st.Me()] == User
    ensures Sleeps(st.threads, Block(st.threads, q), q)
  {
    hide SchedInv, PcOk, Sleeps, Block;
    RunningIsFree(st);
    BlockSleeps(st.threads, q);
  }

  // The running thread is in none of these operations, so that it may call one.
  ghost predicate Free(st: State) {
    st.Me() in st.pc && st.pc[st.Me()] == User
  }

  // ---------- the line for the CPU ----------

  // What a step does to the running thread and the ready list, and that it touches no wait list.
  ghost predicate Lines(s: Threads, s': Threads, running: Tid, ready: seq<Tid>) {
    s'.running == running && s'.ready == ready && s'.waits == s.waits
  }

  // A timer tick or thread_yield runs the first in line, if there is one, and puts the thread it takes the CPU
  // from at the end of the line. Nobody in it is overtaken.
  lemma TickAndYieldTurn(st: State)
    requires st.Me() in st.pc
    ensures var s, line := st.threads, st.threads.ready + [st.Me()];
            && (Enabled(st, Tick) ==> Lines(s, Step(st, Tick).threads, line[0], line[1..]))
            && (Enabled(st, Call(Yield)) ==> Lines(s, Step(st, Call(Yield)).threads, line[0], line[1..]))
            && Preempt(s).state == s.state[st.Me() := READY][line[0] := RUNNING]
  {
    hide Preempt;
    PreemptOrder(st.threads);
    Split(Preempt(st.threads).running, Preempt(st.threads).ready, st.threads.ready + [st.Me()]);
  }

  lemma Split(t: Tid, rest: seq<Tid>, line: seq<Tid>)
    requires [t] + rest == line
    ensures line[0] == t && line[1..] == rest
  {
  }

  // do_fork runs the child at once and puts the parent last; kthread_create puts the new thread last.
  lemma NewThreadsLine(st: State, t: Tid)
    requires t !in st.threads.place
    ensures var s := st.threads;
            && Lines(s, CallStep(st, ForkThread(t)).threads, t, s.ready + [st.Me()])
            && Lines(s, CallStep(st, CreateThread(t)).threads, st.Me(), s.ready + [t])
            && CallStep(st, ForkThread(t)).pc == CallStep(st, CreateThread(t)).pc == st.pc[t := User]
  {
    hide Fork, Create;
    ForkOrder(st.threads, t);
    CreateOrder(st.threads, t);
  }

  // sys_exit and the idle thread's thread_block run the first in line, or else the idle thread.
  lemma ExitAndParkLine(st: State)
    requires st.Me() in st.pc
    ensures var s := st.threads;
            var line := if s.ready == [] then [s.idle] else s.ready;
            && Lines(s, CallStep(st, Exit).threads, line[0], line[1..])
            && (st.pc[st.Me()] == IdleLoop ==> Lines(s, ContinueStep(st).threads, line[0], line[1..]))
  {
    hide Leave, Park;
    var s := st.threads;
    var line := if s.ready == [] then [s.idle] else s.ready;
    AsideOrder(s);
    Split(Leave(s).running, Leave(s).ready, line);
    Split(Park(s).running, Park(s).ready, line);
  }

  // ---------- semaphore ----------

  // sema_wait takes a unit if there is one, and sleeps otherwise.
  lemma SemaWaitSleepsIffEmpty(st: State, s: nat)
    requires s in st.sems && Free(st) && Inv(st)
    ensures var st' := SemaWaitStep(st, s);
            if st.sems[s].count > 0 then st'.threads == st.threads && st'.pc == st.pc
            else Sleeps(st.threads, st'.threads, SemQ(s))
  {
    hide PlaceInv, SemInv, MutexInv, RwInv, BusyInv, Block, Sleeps;
    UserSleeps(st, SemQ(s));
  }

  // The second half of sema_post wakes exactly the thread that has slept longest.
  lemma SemaPostWakesFirst(st: State, s: nat)
    requires s in st.sems && st.Me() in st.pc && st.pc[st.Me()] == PostPop(s) && Inv(st)
    ensures Wakes(st.threads, PostPopStep(st, s).threads, SemQ(s), 1)
  {
    hide PlaceInv, SemInv, MutexInv, RwInv, BusyInv, WakeHead, Wakes;
    PostPopFinds(st, s);
    HeadWakes(st.threads, SemQ(s));
  }

  // ---------- mutex ----------

  // mutex_acquire counts one deeper at once exactly when its caller is inside already.
  lemma AcquireNestsIffInside(st: State, m: nat)
    requires m in st.mutexes && Free(st) && Inv(st)
    ensures AcquireStep(st, m).pc == st.pc[st.Me() := if st.Depth(st.Me(), m) > 0 then AcqNest(m) else AcqLoop(m)]
  {
    hide PlaceInv, SemInv, MutexInv, RwInv, BusyInv, Phases, Depths;
    MutexHere(st, m);
    assert ThreadOk(st.mutexes[m], st.Me(), Phases(st.pc, m)[st.Me()], Depths(st, m)[st.Me()]);
  }

  // One round of mutex_acquire takes the lock if nobody has it, and otherwise sleeps. Nobody is inside while
  // the flag is clear.
  lemma XchgTakesIffFree(st: State, m: nat)
    requires m in st.mutexes && st.Me() in st.pc && st.pc[st.Me()] == AcqLoop(m) && Inv(st)
    ensures var st', x := XchgStep(st, m), st.mutexes[m];
            && m in st'.mutexes && st'.mutexes[m].isLock
            && if x.owner.None? then
                 && st'.mutexes[m].owner == Some(st.Me()) && st'.threads == st.threads
                 && st'.pc == st.pc[st.Me() := AcqSetHolder(m)] && (forall t: Tid :: st.Depth(t, m) == 0)
               else
                 st'.mutexes == st.mutexes && st'.pc == st.pc && Sleeps(st.threads, st'.threads, MutexQ(m))
  {
    hide SchedInv, PcOk, SemInv, RwInv, BusyInv, Block, Sleeps, Phases, Depths, Retrying;
    RunningIsFree(st);
    BlockSleeps(st.threads, MutexQ(m));
    MutexHere(st, m);
    if st.mutexes[m].owner.None? {
      NobodyInside(st, m);
    }
  }

  lemma InsideIsOwner(st: State, m: nat, t: Tid)
    requires m in st.mutexes && MutexInv(st)
    ensures st.Depth(t, m) > 0 ==> st.mutexes[m].owner == Some(t)
  {
    hide Retrying;
    if (t, m) in st.depth {
      assert MutexAt(st, m);
      assert ThreadOk(st.mutexes[m], t, Phases(st.pc, m)[t], Depths(st, m)[t]);
    }
  }

  lemma NobodyInside(st: State, m: nat)
    requires m in st.mutexes && st.mutexes[m].owner.None? && MutexInv(st)
    ensures forall t: Tid :: st.Depth(t, m) == 0
  {
    hide MutexInv;
    forall t: Tid
      ensures st.Depth(t, m) == 0
    {
      InsideIsOwner(st, m, t);
    }
  }

  // mutex_release starts to give the lock back exactly when its caller is inside once.
  lemma ReleaseUnlocksIffOutermost(st: State, m: nat)
    requires m in st.mutexes && Free(st) && st.mutexes[m].holder == Some(st.Me()) && Inv(st)
    ensures var st', d := ReleaseStep(st, m), st.Depth(st.Me(), m);
            d >= 1 && st'.Depth(st.Me(), m) == d - 1 && st'.pc == st.pc[st.Me() := if d == 1 then RelClear(m) else User]
  {
    hide PlaceInv, SemInv, MutexInv, RwInv, BusyInv, Phases, Depths, MutexOk;
    MutexHere(st, m);
    HolderDepth(st.mutexes[m], st.threads.Q(MutexQ(m)), Phases(st.pc, m), Depths(st, m), st.Me());
  }

  // Giving the lock back frees it, and the next step of the same thread wakes the one that has slept longest.
  lemma UnlockHandsOver(st: State, m: nat)
    requires m in st.mutexes && st.Me() in st.pc && st.pc[st.Me()] == RelUnlock(m) && Inv(st)
    ensures var st', q := UnlockStep(st, m), st.threads.Q(MutexQ(m));
            && st.mutexes[m].isLock && m in st'.mutexes && !st'.mutexes[m].isLock && st'.Me() == st.Me()
            && (q == [] ==> st'.threads == st.threads && st'.pc == st.pc[st.Me() := User])
            && (q != [] ==> st'.pc == st.pc[st.Me() := RelWake(m, q[0])]
                            && Wakes(st.threads, WakeStep(st', q[0]).threads, MutexQ(m), 1))
  {
    hide PlaceInv, SemInv, MutexInv, RwInv, BusyInv, PopHeld, Unblock, Wakes;
    UnlockOk(st, m);
    var q := st.threads.Q(MutexQ(m));
    if q != [] {
      PoppedRunner(st.threads, MutexQ(m));
      HeadWakes(st.threads, MutexQ(m));
      assert UnlockStep(st, m).threads == PopHeld(st.threads, MutexQ(m));
      assert WakeHead(st.threads, MutexQ(m)) == Unblock(PopHeld(st.threads, MutexQ(m)), q[0]);
    }
  }

  lemma PoppedRunner(s: Threads, q: Queue)
    requires s.Q(q) != []
    ensures PopHeld(s, q).running == s.running
  {
  }

  // ---------- condition variable ----------

  // cond_wait gives the mutex back when its caller is inside once, and then makes exactly the first thread that
  // sleeps for it ready; after that the caller is the last waiter on the condition.
  lemma CondWaitHandsOver(st: State, c: nat, m: nat)
    requires m in st.mutexes && Free(st) && st.mutexes[m].holder == Some(st.Me()) && Inv(st)
    ensures var between := ReleaseAtOnce(st, m).threads;
            && Wakes(st.threads, between, MutexQ(m),
                     if st.Depth(st.Me(), m) == 1 && st.threads.Q(MutexQ(m)) != [] then 1 else 0)
            && Sleeps(between, CondWaitStep(st, c, m).threads, CondQ(c))
  {
    hide PlaceInv, SemInv, MutexInv, RwInv, BusyInv, WakeHead, Wakes, Sleeps, Block, Phases, Depths, MutexOk;
    MutexHere(st, m);
    HolderDepth(st.mutexes[m], st.threads.Q(MutexQ(m)), Phases(st.pc, m), Depths(st, m), st.Me());
    NobodyWakes(st.threads, MutexQ(m));
    if st.threads.Q(MutexQ(m)) != [] {
      HeadWakes(st.threads, MutexQ(m));
    } else {
      NobodyToWake(st.threads, MutexQ(m));
    }
    ReleaseAtOnceKeeps(st, m);
    UserSleeps(ReleaseAtOnce(st, m), CondQ(c));
  }

  // cond_signal wakes exactly the first waiter, if there is one, and cond_broadcast all of them in their order.
  lemma SignalsWake(st: State, c: nat)
    ensures Wakes(st.threads, CallStep(st, CondSignal(c)).threads, CondQ(c),
                  if st.threads.Q(CondQ(c)) == [] then 0 else 1)
    ensures Wakes(st.threads, CallStep(st, CondBroadcast(c)).threads, CondQ(c), |st.threads.Q(CondQ(c))|)
  {
    hide WakeHead, WakeAll, Wakes;
    if st.threads.Q(CondQ(c)) == [] {
      NobodyWakes(st.threads, CondQ(c));
      NobodyToWake(st.threads, CondQ(c));
    } else {
      HeadWakes(st.threads, CondQ(c));
    }
    AllWake(st.threads, CondQ(c));
  }

  // ---------- read-write lock ----------

  ghost predicate RwIs(st: State, l: nat, x: RwLock) {
    l in st.rwlocks && st.rwlocks[l] == x
  }

  // A reader gets in exactly when no writer is inside and none has asked; otherwise it sleeps.
  lemma ReaderEntersIff(st: State, l: nat)
    requires l in st.rwlocks && Free(st) && Inv(st)
    ensures var st', x := TryRead(st, l), st.rwlocks[l];
            if x.writer.None? && !x.readyWrite then
              && RwIs(st', l, x.(count := |x.readers| + 1, readers := x.readers + multiset{st.Me()}))
              && st'.threads == st.threads && st'.pc == st.pc
            else
              st'.rwlocks == st.rwlocks && Sleeps(st.threads, st'.threads, ReadQ(l))
  {
    hide PlaceInv, SemInv, MutexInv, BusyInv, Block, Transit, Sleeps;
    UserSleeps(st, ReadQ(l));
    assert RwAt(st, l);
  }

  // A writer gets in exactly when nobody is inside; otherwise it sleeps, and no further reader gets in.
  lemma WriterEntersIff(st: State, l: nat)
    requires l in st.rwlocks && Free(st) && Inv(st)
    ensures var st', x := TryWrite(st, l), st.rwlocks[l];
            if x.writer.None? && x.readers == multiset{} then
              RwIs(st', l, x.(count := -1, writer := Some(st.Me()))) && st'.threads == st.threads && st'.pc == st.pc
            else
              RwIs(st', l, x.(readyWrite := true)) && Sleeps(st.threads, st'.threads, WriteQ(l))
  {
    hide PlaceInv, SemInv, MutexInv, BusyInv, Block, Transit, Sleeps;
    UserSleeps(st, WriteQ(l));
    assert RwAt(st, l);
  }

  // The reader that leaves the lock empty wakes the first writer, or if there is none the first reader; any
  // other reader wakes nobody.
  lemma ReaderHandsOver(st: State, l: nat)
    requires l in st.rwlocks && Free(st) && st.Me() in st.rwlocks[l].readers && Inv(st)
    ensures var st', x := ReadReleaseStep(st, l), st.rwlocks[l];
            var rest := x.readers - multiset{st.Me()};
            && x.writer.None? && RwIs(st', l, x.(count := |rest|, readers := rest))
            && (if rest != multiset{} then st'.threads == st.threads
                else if st.threads.Q(WriteQ(l)) != [] then Wakes(st.threads, st'.threads, WriteQ(l), 1)
                else Wakes(st.threads, st'.threads, ReadQ(l), if st.threads.Q(ReadQ(l)) == [] then 0 else 1))
  {
    hide PlaceInv, SemInv, MutexInv, BusyInv, WakeHead, Transit, Wakes;
    assert RwAt(st, l);
    OneReaderLess(st.rwlocks[l].readers, st.Me());
    if st.threads.Q(WriteQ(l)) != [] {
      HeadWakes(st.threads, WriteQ(l));
    } else if st.threads.Q(ReadQ(l)) != [] {
      HeadWakes(st.threads, ReadQ(l));
    } else {
      NobodyWakes(st.threads, ReadQ(l));
      NobodyToWake(st.threads, ReadQ(l));
    }
  }

  lemma OneReaderLess(readers: multiset<Tid>, t: Tid)
    requires t in readers
    ensures |readers - multiset{t}| == |readers| - 1
    ensures |readers| == 1 <==> readers - multiset{t} == multiset{}
  {
    assert readers == (readers - multiset{t}) + multiset{t};
  }

  // A writer that leaves wakes the next writer and no reader, or if there is none all readers.
  lemma WriterHandsOver(st: State, l: nat)
    requires l in st.rwlocks && Free(st) && st.rwlocks[l].writer == Some(st.Me()) && Inv(st)
    ensures var st', x, wq := WriteReleaseStep(st, l), st.rwlocks[l], st.threads.Q(WriteQ(l));
            && RwIs(st', l, RwLock(0, x.readyWrite && wq != [], multiset{}, None))
            && if wq != [] then Wakes(st.threads, st'.threads, WriteQ(l), 1)
               else Wakes(st.threads, st'.threads, ReadQ(l), |st.threads.Q(ReadQ(l))|)
  {
    hide PlaceInv, SemInv, MutexInv, BusyInv, WakeHead, WakeAll, Transit, Wakes;
    assert RwAt(st, l);
    if st.threads.Q(WriteQ(l)) != [] {
      HeadWakes(st.threads, WriteQ(l));
    } else {
      AllWake(st.threads, ReadQ(l));
    }
  }
}
