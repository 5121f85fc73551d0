/** The thread lists of kernel/kthread.c: one task_tag per thread, so one place per thread. */
module Sched {
  import opened Seqs

  type Tid = nat

  // The wait lists of the four kinds of lock, by lock number.
  datatype Queue = SemQ(id: nat) | MutexQ(id: nat) | CondQ(id: nat) | ReadQ(id: nat) | WriteQ(id: nat)

  datatype TaskState = RUNNING | READY | BLOCKED | EXIT

  // Where a thread's task_tag is; Held: popped from a wait list by a releaser that has yet to unblock it.
  datatype Place = OnCpu | OnReady | OnWait(q: Queue) | Held(releaser: Tid) | Parked | Gone

  // place is what the proof keeps beside the kernel's own variables.
  datatype Threads = Threads(idle: Tid, running: Tid, ready: seq<Tid>, waits: map<Queue, seq<Tid>>,
                             state: map<Tid, TaskState>, place: map<Tid, Place>)
  {
    function Q(q: Queue): seq<Tid> {
      if q in waits then waits[q] else []
    }

    function At(t: Tid, p: Place): Threads {
      this.(state := state[t := StateAt(p)], place := place[t := p])
    }
  }

  function StateAt(p: Place): TaskState {
    match p
    case OnCpu => RUNNING
    case OnReady => READY
    case OnWait(_) => BLOCKED
    case Held(_) => BLOCKED
    case Parked => BLOCKED
    case Gone => EXIT
  }

  // ---------- the steps ----------

  // The second half of schedule: the first ready thread runs, or else the idle thread.
  function Dispatch(s: Threads): Threads {
    if s.ready == [] then s.At(s.idle, OnCpu).(running := s.idle)
    else s.At(s.ready[0], OnCpu).(running := s.ready[0], ready := s.ready[1..])
  }

  // The running thread goes to the back of the ready list.
  function ToReady(s: Threads): Threads {
    s.At(s.running, OnReady).(ready := s.ready + [s.running])
  }

  // schedule on a used-up time slice, or thread_yield
  function Preempt(s: Threads): Threads {
    Dispatch(ToReady(s))
  }

  function ToWait(s: Threads, q: Queue): Threads {
    s.At(s.running, OnWait(q)).(waits := s.waits[q := s.Q(q) + [s.running]])
  }

  // list_push_back on a wait list, then thread_block
  function Block(s: Threads, q: Queue): Threads {
    Dispatch(ToWait(s, q))
  }

  // thread_block by the idle thread
  function Park(s: Threads): Threads {
    Dispatch(s.At(s.running, Parked))
  }

  // sys_exit
  function Leave(s: Threads): Threads {
    Dispatch(s.At(s.running, Gone))
  }

  // list_pop_front, the popped thread staying in the running thread's hands
  function PopHeld(s: Threads, q: Queue): Threads
    requires s.Q(q) != []
  {
    s.At(s.Q(q)[0], Held(s.running)).(waits := s.waits[q := s.Q(q)[1..]])
  }

  // thread_unblock
  function Unblock(s: Threads, t: Tid): Threads {
    s.At(t, OnReady).(ready := s.ready + [t])
  }

  // list_pop_front and thread_unblock in one interrupts-off section
  function WakeHead(s: Threads, q: Queue): Threads {
    if s.Q(q) == [] then s else Unblock(PopHeld(s, q), s.Q(q)[0])
  }

  function WakeAll(s: Threads, q: Queue): Threads
    decreases |s.Q(q)|
  {
    if s.Q(q) == [] then s else WakeAll(WakeHead(s, q), q)
  }

  // kthread_create
  function Create(s: Threads, t: Tid): Threads {
    s.At(t, OnReady).(ready := s.ready + [t])
  }

  // do_fork: the child goes first in line and the parent last
  function Fork(s: Threads, t: Tid): Threads {
    Preempt(s.At(t, OnReady).(ready := [t] + s.ready))
  }

  // ---------- who runs next ----------

  // The CPU goes to the first in line; a preempted thread goes to the end of the line.
  lemma PreemptOrder(s: Threads)
    ensures [Preempt(s).running] + Preempt(s).ready == s.ready + [s.running]
    ensures Preempt(s).state == s.state[s.running := READY][Preempt(s).running := RUNNING]
    ensures Preempt(s).waits == s.waits && Preempt(s).idle == s.idle
  {
  }

  // So that after k preemptions the line, running thread first, has turned by k places.
  function Ticks(s: Threads, k: nat): Threads {
    if k == 0 then s else Preempt(Ticks(s, k - 1))
  }

  lemma {:induction false} RoundRobin(s: Threads, k: nat)
    requires k <= |s.ready| + 1
    ensures var line, r := [s.running] + s.ready, Ticks(s, k);
            [r.running] + r.ready == line[k..] + line[..k]
  {
    hide Preempt;
    var line := [s.running] + s.ready;
    if k == 0 {
      assert line[0..] + line[..0] == line;
    } else {
      RoundRobin(s, k - 1);
      var r, was := Ticks(s, k - 1), line[k - 1..] + line[..k - 1];
      PreemptOrder(r);
      assert r.running == was[0] && r.ready == was[1..];
      assert was[1..] + [was[0]] == line[k..] + line[..k];
    }
  }

  // A forked child runs at once, and its parent is last in line.
  lemma ForkOrder(s: Threads, t: Tid)
    ensures Fork(s, t).running == t && Fork(s, t).ready == s.ready + [s.running]
    ensures Fork(s, t).state == s.state[t := READY][s.running := READY][t := RUNNING]
    ensures Fork(s, t).waits == s.waits && Fork(s, t).idle == s.idle
  {
    PreemptOrder(s.At(t, OnReady).(ready := [t] + s.ready));
    assert [t] + s.ready + [s.running] == [t] + (s.ready + [s.running]);
  }

  // A new kernel thread is last in line.
  lemma CreateOrder(s: Threads, t: Tid)
    ensures Create(s, t).running == s.running && Create(s, t).ready == s.ready + [t]
    ensures Create(s, t).state == s.state[t := READY]
    ensures Create(s, t).waits == s.waits && Create(s, t).idle == s.idle
  {
  }

  // When the running thread gives up the CPU for good, or the idle one parks, the first in line runs, or else
  // the idle thread.
  lemma AsideOrder(s: Threads)
    ensures [Leave(s).running] + Leave(s).ready == if s.ready == [] then [s.idle] else s.ready
    ensures Leave(s).state == s.state[s.running := EXIT][Leave(s).running := RUNNING] && Leave(s).waits == s.waits
    ensures [Park(s).running] + Park(s).ready == if s.ready == [] then [s.idle] else s.ready
    ensures Park(s).state == s.state[s.running := BLOCKED][Park(s).running := RUNNING] && Park(s).waits == s.waits
  {
    if s.ready != [] {
      assert s.ready == [s.ready[0]] + s.ready[1..];
    }
  }

  // ---------- one place per thread ----------

  ghost predicate ReadyMatches(s: Threads) {
    && NoRepeats(s.ready)
    && (forall t | t in s.ready :: t in s.place && s.place[t] == OnReady)
    && (forall t | t in s.place && s.place[t] == OnReady :: t in s.ready)
  }

  ghost predicate QueueMatches(s: Threads, q: Queue) {
    && NoRepeats(s.Q(q))
    && (forall t | t in s.Q(q) :: t in s.place && s.place[t] == OnWait(q))
    && (forall t | t in s.place && s.place[t] == OnWait(q) :: t in s.Q(q))
  }

  ghost predicate QueuesMatch(s: Threads) {
    forall q :: QueueMatches(s, q)
  }

  ghost predicate StatesMatch(s: Threads) {
    && s.state.Keys == s.place.Keys
    && (forall t | t in s.place :: s.state[t] == StateAt(s.place[t]))
  }

  ghost predicate IdleMatches(s: Threads) {
    && (forall t | t in s.place && s.place[t] == Parked :: t == s.idle)
    && s.idle in s.place && (s.place[s.idle] == OnCpu || s.place[s.idle] == OnReady || s.place[s.idle] == Parked)
  }

  ghost predicate ListsMatch(s: Threads) {
    ReadyMatches(s) && QueuesMatch(s) && StatesMatch(s) && IdleMatches(s)
  }

  // The state while the running thread has left the CPU and the next one is not on it yet.
  ghost predicate Between(s: Threads) {
    ListsMatch(s) && (forall t | t in s.place :: s.place[t] != OnCpu)
  }

  ghost predicate SchedInv(s: Threads) {
    && ListsMatch(s)
    && s.running in s.place
    && (forall t | t in s.place :: s.place[t] == OnCpu <==> t == s.running)
  }

  // The threads that cannot run until somebody else acts, and why.
  ghost function Stuck(s: Threads): map<Tid, Place> {
    StuckIn(s.place)
  }

  ghost function StuckIn(place: map<Tid, Place>): map<Tid, Place> {
    map t | t in place && (place[t].OnWait? || place[t].Held?) :: place[t]
  }

  ghost predicate IsStuck(place: map<Tid, Place>, t: Tid) {
    t in place && (place[t].OnWait? || place[t].Held?)
  }

  lemma StuckAfter(place: map<Tid, Place>, t: Tid, p: Place)
    ensures StuckIn(place[t := p]) == if p.OnWait? || p.Held? then StuckIn(place)[t := p] else StuckIn(place) - {t}
    ensures !IsStuck(place, t) ==> StuckIn(place) - {t} == StuckIn(place)
    ensures IsStuck(place, t) ==> t in StuckIn(place) && StuckIn(place)[t] == place[t]
  {
  }

  // ---------- a thread changing its place ----------

  // t was on no wait list and goes to none.
  lemma QueuesUntouched(s: Threads, s': Threads, t: Tid, p: Place)
    requires QueuesMatch(s) && s'.waits == s.waits && s'.place == s.place[t := p]
    requires !p.OnWait? && (t in s.place ==> !s.place[t].OnWait?)
    ensures QueuesMatch(s') && forall q :: s'.Q(q) == s.Q(q)
  {
    forall q ensures QueueMatches(s', q) {
      assert QueueMatches(s, q);
    }
  }

  // t was neither on the ready list nor goes to it.
  lemma ReadyUntouched(s: Threads, s': Threads, t: Tid, p: Place)
    requires ReadyMatches(s) && s'.ready == s.ready && s'.place == s.place[t := p]
    requires p != OnReady && (t in s.place ==> s.place[t] != OnReady)
    ensures ReadyMatches(s')
  {
  }

  lemma ReadyGains(s: Threads, s': Threads, t: Tid)
    requires ReadyMatches(s) && s'.place == s.place[t := OnReady] && (t in s.place ==> s.place[t] != OnReady)
    requires s'.ready == s.ready + [t] || s'.ready == [t] + s.ready
    ensures ReadyMatches(s')
  {
    AddToBack(s.ready, t);
    AddToFront(s.ready, t);
  }

  lemma ReadyLoses(s: Threads, s': Threads, p: Place)
    requires ReadyMatches(s) && s.ready != [] && p != OnReady
    requires s'.ready == s.ready[1..] && s'.place == s.place[s.ready[0] := p]
    ensures ReadyMatches(s')
    ensures s.ready[0] in s.place && s.place[s.ready[0]] == OnReady
  {
    HeadNotInTail(s.ready);
  }

  lemma StatesAfter(s: Threads, s': Threads, t: Tid, p: Place)
    requires StatesMatch(s) && s'.place == s.place[t := p] && s'.state == s.state[t := StateAt(p)]
    ensures StatesMatch(s')
  {
  }

  lemma IdleAfter(s: Threads, s': Threads, t: Tid, p: Place)
    requires IdleMatches(s) && s'.place == s.place[t := p] && s'.idle == s.idle
    requires t == s.idle ==> p == OnCpu || p == OnReady || p == Parked
    requires p == Parked ==> t == s.idle
    ensures IdleMatches(s')
  {
  }

  // ---------- every step keeps it ----------

  lemma DispatchKeeps(s: Threads)
    requires Between(s)
    ensures SchedInv(Dispatch(s)) && forall q :: Dispatch(s).Q(q) == s.Q(q)
    ensures Stuck(Dispatch(s)) == Stuck(s) && Dispatch(s).place.Keys == s.place.Keys && Dispatch(s).idle == s.idle
  {
    hide QueuesMatch, ReadyMatches, StatesMatch, StuckIn;
    var s' := Dispatch(s);
    if s.ready == [] {
      NobodyReady(s);
      ReadyUntouched(s, s', s.idle, OnCpu);
    } else {
      ReadyLoses(s, s', OnCpu);
    }
    var next := s'.running;
    QueuesUntouched(s, s', next, OnCpu);
    StatesAfter(s, s', next, OnCpu);
    IdleAfter(s, s', next, OnCpu);
    StuckAfter(s.place, next, OnCpu);
  }

  lemma NobodyReady(s: Threads)
    requires ReadyMatches(s) && s.ready == []
    ensures forall t | t in s.place :: s.place[t] != OnReady
  {
  }

  lemma ToReadyKeeps(s: Threads)
    requires SchedInv(s)
    ensures Between(ToReady(s)) && forall q :: ToReady(s).Q(q) == s.Q(q)
    ensures Stuck(ToReady(s)) == Stuck(s) && ToReady(s).place.Keys == s.place.Keys && ToReady(s).idle == s.idle
  {
    hide QueuesMatch, ReadyMatches, StatesMatch, IdleMatches, StuckIn;
    var s' := ToReady(s);
    ReadyGains(s, s', s.running);
    QueuesUntouched(s, s', s.running, OnReady);
    StatesAfter(s, s', s.running, OnReady);
    IdleAfter(s, s', s.running, OnReady);
    StuckAfter(s.place, s.running, OnReady);
  }

  lemma PreemptKeeps(s: Threads)
    requires SchedInv(s)
    ensures SchedInv(Preempt(s)) && forall q :: Preempt(s).Q(q) == s.Q(q)
    ensures Stuck(Preempt(s)) == Stuck(s) && Preempt(s).place.Keys == s.place.Keys && Preempt(s).idle == s.idle
  {
    hide SchedInv, Between, ToReady, Dispatch, StuckIn;
    ToReadyKeeps(s);
    DispatchKeeps(ToReady(s));
  }

  lemma QueueGains(s: Threads, s': Threads, t: Tid, q: Queue)
    requires QueuesMatch(s) && s'.place == s.place[t := OnWait(q)] && (t in s.place ==> !s.place[t].OnWait?)
    requires s'.waits == s.waits[q := s.Q(q) + [t]]
    ensures QueuesMatch(s') && t !in s.Q(q) && s'.Q(q) == s.Q(q) + [t] && forall r :: r != q ==> s'.Q(r) == s.Q(r)
  {
    assert QueueMatches(s, q);
    AddToBack(s.Q(q), t);
    forall r ensures QueueMatches(s', r) {
      assert QueueMatches(s, r);
    }
  }

  lemma ToWaitKeeps(s: Threads, q: Queue)
    requires SchedInv(s) && s.running != s.idle
    ensures s.running !in s.Q(q) && ToWait(s, q).Q(q) == s.Q(q) + [s.running]
    ensures forall r :: r != q ==> ToWait(s, q).Q(r) == s.Q(r)
    ensures Between(ToWait(s, q))
    ensures Stuck(ToWait(s, q)) == Stuck(s)[s.running := OnWait(q)]
    ensures ToWait(s, q).place.Keys == s.place.Keys && ToWait(s, q).idle == s.idle
  {
    hide QueuesMatch, ReadyMatches, StatesMatch, IdleMatches, StuckIn;
    var s', p := ToWait(s, q), OnWait(q);
    QueueGains(s, s', s.running, q);
    ReadyUntouched(s, s', s.running, p);
    StatesAfter(s, s', s.running, p);
    IdleAfter(s, s', s.running, p);
    StuckAfter(s.place, s.running, p);
  }

  lemma BlockKeeps(s: Threads, q: Queue)
    requires SchedInv(s) && s.running != s.idle
    ensures s.running !in s.Q(q) && Block(s, q).Q(q) == s.Q(q) + [s.running]
    ensures forall r :: r != q ==> Block(s, q).Q(r) == s.Q(r)
    ensures SchedInv(Block(s, q))
    ensures Stuck(Block(s, q)) == Stuck(s)[s.running := OnWait(q)]
    ensures Block(s, q).place.Keys == s.place.Keys && Block(s, q).idle == s.idle
  {
    hide SchedInv, Between, ToWait, Dispatch, StuckIn;
    ToWaitKeeps(s, q);
    DispatchKeeps(ToWait(s, q));
  }

  lemma AsideKeeps(s: Threads, p: Place)
    requires SchedInv(s)
    requires (p == Parked && s.running == s.idle) || (p == Gone && s.running != s.idle)
    ensures Between(s.At(s.running, p)) && forall q :: s.At(s.running, p).Q(q) == s.Q(q)
    ensures Stuck(s.At(s.running, p)) == Stuck(s) && s.At(s.running, p).place.Keys == s.place.Keys
    ensures s.At(s.running, p).idle == s.idle
  {
    hide QueuesMatch, ReadyMatches, StatesMatch, IdleMatches, StuckIn;
    var s' := s.At(s.running, p);
    QueuesUntouched(s, s', s.running, p);
    ReadyUntouched(s, s', s.running, p);
    StatesAfter(s, s', s.running, p);
    IdleAfter(s, s', s.running, p);
    StuckAfter(s.place, s.running, p);
  }

  lemma ParkKeeps(s: Threads)
    requires SchedInv(s) && s.running == s.idle
    ensures SchedInv(Park(s)) && forall q :: Park(s).Q(q) == s.Q(q)
    ensures Stuck(Park(s)) == Stuck(s) && Park(s).place.Keys == s.place.Keys && Park(s).idle == s.idle
  {
    hide SchedInv, Between, Dispatch, StuckIn;
    AsideKeeps(s, Parked);
    DispatchKeeps(s.At(s.running, Parked));
  }

  lemma LeaveKeeps(s: Threads)
    requires SchedInv(s) && s.running != s.idle
    ensures SchedInv(Leave(s)) && forall q :: Leave(s).Q(q) == s.Q(q)
    ensures Stuck(Leave(s)) == Stuck(s) && Leave(s).place.Keys == s.place.Keys && Leave(s).idle == s.idle
  {
    hide SchedInv, Between, Dispatch, StuckIn;
    AsideKeeps(s, Gone);
    DispatchKeeps(s.At(s.running, Gone));
  }

  lemma QueueLoses(s: Threads, s': Threads, q: Queue, p: Place)
    requires QueuesMatch(s) && s.Q(q) != [] && !p.OnWait?
    requires s'.place == s.place[s.Q(q)[0] := p] && s'.waits == s.waits[q := s.Q(q)[1..]]
    ensures QueuesMatch(s')
    ensures s.Q(q)[0] in s.place && s.place[s.Q(q)[0]] == OnWait(q) && s.Q(q)[0] !in s.Q(q)[1..]
    ensures s'.Q(q) == s.Q(q)[1..] && forall r :: r != q ==> s'.Q(r) == s.Q(r)
  {
    assert QueueMatches(s, q) && s.Q(q)[0] in s.Q(q);
    HeadNotInTail(s.Q(q));
    forall r ensures QueueMatches(s', r) {
      assert QueueMatches(s, r);
    }
  }

  lemma PopHeldKeeps(s: Threads, q: Queue)
    requires SchedInv(s) && s.Q(q) != []
    ensures var t := s.Q(q)[0];
            && t in s.place && s.place[t] == OnWait(q) && t != s.running && t != s.idle
            && t in Stuck(s) && Stuck(s)[t] == OnWait(q)
            && PopHeld(s, q).Q(q) == s.Q(q)[1..] && t !in s.Q(q)[1..]
    ensures forall r :: r != q ==> PopHeld(s, q).Q(r) == s.Q(r)
    ensures SchedInv(PopHeld(s, q))
    ensures Stuck(PopHeld(s, q)) == Stuck(s)[s.Q(q)[0] := Held(s.running)] && PopHeld(s, q).place.Keys == s.place.Keys
    ensures PopHeld(s, q).running == s.running && PopHeld(s, q).idle == s.idle
    ensures PopHeld(s, q).place[s.Q(q)[0]] == Held(s.running)
  {
    hide QueuesMatch, ReadyMatches, StatesMatch, StuckIn;
    var s', t, p := PopHeld(s, q), s.Q(q)[0], Held(s.running);
    QueueLoses(s, s', q, p);
    ReadyUntouched(s, s', t, p);
    StatesAfter(s, s', t, p);
    IdleAfter(s, s', t, p);
    StuckAfter(s.place, t, p);
  }

  lemma UnblockKeeps(s: Threads, t: Tid)
    requires SchedInv(s) && t in s.place && s.place[t].Held?
    ensures SchedInv(Unblock(s, t)) && forall q :: Unblock(s, t).Q(q) == s.Q(q)
    ensures Stuck(Unblock(s, t)) == Stuck(s) - {t} && Unblock(s, t).place.Keys == s.place.Keys
    ensures Unblock(s, t).running == s.running && Unblock(s, t).idle == s.idle
  {
    hide QueuesMatch, ReadyMatches, StatesMatch, StuckIn;
    var s' := Unblock(s, t);
    QueuesUntouched(s, s', t, OnReady);
    ReadyGains(s, s', t);
    StatesAfter(s, s', t, OnReady);
    IdleAfter(s, s', t, OnReady);
    StuckAfter(s.place, t, OnReady);
  }

  lemma WakeHeadKeeps(s: Threads, q: Queue)
    requires SchedInv(s)
    ensures SchedInv(WakeHead(s, q))
    ensures WakeHead(s, q).running == s.running && WakeHead(s, q).idle == s.idle
        && WakeHead(s, q).place.Keys == s.place.Keys
    ensures s.Q(q) == [] ==> WakeHead(s, q) == s
    ensures s.Q(q) != [] ==> WakeHead(s, q).Q(q) == s.Q(q)[1..] && s.Q(q)[0] !in s.Q(q)[1..]
    ensures s.Q(q) != [] ==> s.Q(q)[0] in Stuck(s) && Stuck(s)[s.Q(q)[0]] == OnWait(q)
    ensures s.Q(q) != [] ==> Stuck(WakeHead(s, q)) == Stuck(s) - {s.Q(q)[0]}
    ensures forall r :: r != q ==> WakeHead(s, q).Q(r) == s.Q(r)
  {
    hide SchedInv, StuckIn;
    if s.Q(q) != [] {
      PopHeldKeeps(s, q);
      UnblockKeeps(PopHeld(s, q), s.Q(q)[0]);
      assert Stuck(s)[s.Q(q)[0] := Held(s.running)] - {s.Q(q)[0]} == Stuck(s) - {s.Q(q)[0]};
    }
  }

  lemma {:induction false} WakeAllKeeps(s: Threads, q: Queue)
    requires SchedInv(s)
    ensures SchedInv(WakeAll(s, q))
    ensures WakeAll(s, q).running == s.running && WakeAll(s, q).idle == s.idle
        && WakeAll(s, q).place.Keys == s.place.Keys
    ensures WakeAll(s, q).Q(q) == [] && forall r :: r != q ==> WakeAll(s, q).Q(r) == s.Q(r)
    ensures forall t | t in s.Q(q) :: t in Stuck(s) && Stuck(s)[t] == OnWait(q)
    ensures Stuck(WakeAll(s, q)) == Stuck(s) - (set t | t in s.Q(q))
    decreases |s.Q(q)|
  {
    hide SchedInv, WakeHead, Stuck;
    if s.Q(q) != [] {
      WakeHeadKeeps(s, q);
      InHeadOrTail(s.Q(q));
      WakeAllKeeps(WakeHead(s, q), q);
    }
  }

  lemma CreateKeeps(s: Threads, t: Tid)
    requires SchedInv(s) && t !in s.place
    ensures SchedInv(Create(s, t)) && forall q :: Create(s, t).Q(q) == s.Q(q)
    ensures Stuck(Create(s, t)) == Stuck(s) && Create(s, t).place.Keys == s.place.Keys + {t}
    ensures Create(s, t).running == s.running && Create(s, t).idle == s.idle
  {
    hide QueuesMatch, ReadyMatches, StatesMatch, StuckIn;
    var s' := Create(s, t);
    QueuesUntouched(s, s', t, OnReady);
    ReadyGains(s, s', t);
    StatesAfter(s, s', t, OnReady);
    IdleAfter(s, s', t, OnReady);
    StuckAfter(s.place, t, OnReady);
  }

  lemma ForkKeeps(s: Threads, t: Tid)
    requires SchedInv(s) && t !in s.place
    ensures SchedInv(Fork(s, t)) && forall q :: Fork(s, t).Q(q) == s.Q(q)
    ensures Stuck(Fork(s, t)) == Stuck(s) && Fork(s, t).place.Keys == s.place.Keys + {t} && Fork(s, t).idle == s.idle
  {
    hide QueuesMatch, ReadyMatches, StatesMatch, StuckIn, Preempt;
    var s' := s.At(t, OnReady).(ready := [t] + s.ready);
    QueuesUntouched(s, s', t, OnReady);
    ReadyGains(s, s', t);
    StatesAfter(s, s', t, OnReady);
    IdleAfter(s, s', t, OnReady);
    StuckAfter(s.place, t, OnReady);
    PreemptKeeps(s');
  }

  // What the invariant says of the kernel's own variables: a task_tag is linked at most once, the list a
  // thread is on agrees with its state, and the running thread is on no list.
  lemma OnePlace(s: Threads, t: Tid)
    requires SchedInv(s) && t in s.place
    ensures forall q | t in s.Q(q) :: t !in s.ready && t != s.running && s.state[t] == BLOCKED
    ensures forall q, r | t in s.Q(q) && t in s.Q(r) :: q == r
    ensures t in s.ready ==> t != s.running && s.state[t] == READY
    ensures t == s.running ==> t !in s.ready && s.state[t] == RUNNING
    ensures NoRepeats(s.ready) && forall q :: NoRepeats(s.Q(q))
    ensures s.ready == [] && s.running != s.idle ==> s.place[s.idle] == Parked
  {
    forall q
      ensures NoRepeats(s.Q(q))
      ensures t in s.Q(q) ==> t !in s.ready && t != s.running && s.state[t] == BLOCKED
    {
      assert QueueMatches(s, q);
    }
    forall q, r | t in s.Q(q) && t in s.Q(r)
      ensures q == r
    {
      assert QueueMatches(s, q) && QueueMatches(s, r);
    }
  }

  // ---------- task tags ----------

  // Thread t's task_tag is in no list, so that it may be pushed on one.
  ghost predicate Unlinked(s: Threads, t: Tid) {
    t !in s.ready && forall q :: t !in s.Q(q)
  }

  lemma SameWaits(s: Threads, s': Threads, t: Tid)
    requires Unlinked(s, t) && s'.waits == s.waits && t !in s'.ready
    ensures Unlinked(s', t)
  {
    forall q
      ensures t !in s'.Q(q)
    {
      assert t !in s.Q(q);
    }
  }

  ghost predicate InOneList(s: Threads, q: Queue) {
    && NoRepeats(s.Q(q))
    && (forall t | t in s.Q(q) :: t !in s.ready)
    && (forall t, r | t in s.Q(q) && t in s.Q(r) :: q == r)
  }

  // No task_tag is linked twice.
  ghost predicate TagsOk(s: Threads) {
    NoRepeats(s.ready) && forall q :: InOneList(s, q)
  }

  lemma TagsAreOk(s: Threads)
    requires SchedInv(s)
    ensures TagsOk(s) && Unlinked(s, s.running)
  {
    forall q
      ensures InOneList(s, q) && s.running !in s.Q(q)
    {
      assert QueueMatches(s, q);
      forall t, r | t in s.Q(q) && t in s.Q(r)
        ensures q == r
      {
        assert QueueMatches(s, r);
      }
    }
  }

  // New threads, and threads in a releaser's hands, are in no list.
  lemma ElsewhereIsUnlinked(s: Threads, t: Tid)
    requires SchedInv(s) && (t in s.place ==> s.place[t].Held?)
    ensures Unlinked(s, t)
  {
    forall q
      ensures t !in s.Q(q)
    {
      assert QueueMatches(s, q);
    }
  }

  lemma WakeHeadLists(s: Threads, q: Queue)
    requires s.Q(q) != []
    ensures PopHeld(s, q).ready == s.ready && WakeHead(s, q).ready == s.ready + [s.Q(q)[0]]
    ensures PopHeld(s, q).Q(q) == WakeHead(s, q).Q(q) == s.Q(q)[1..]
    ensures forall r | r != q :: PopHeld(s, q).Q(r) == WakeHead(s, q).Q(r) == s.Q(r)
  {
  }

  lemma HeadTag(s: Threads, q: Queue)
    requires TagsOk(s) && s.Q(q) != []
    ensures s.Q(q)[0] !in s.ready && s.Q(q)[0] !in s.Q(q)[1..]
    ensures forall r | r != q :: s.Q(q)[0] !in s.Q(r)
    ensures Unlinked(PopHeld(s, q), s.Q(q)[0])
  {
    assert InOneList(s, q) && s.Q(q)[0] in s.Q(q);
    HeadNotInTail(s.Q(q));
    WakeHeadLists(s, q);
    forall r
      ensures s.Q(q)[0] !in PopHeld(s, q).Q(r)
    {
    }
  }

  lemma WakeHeadTags(s: Threads, q: Queue)
    requires TagsOk(s)
    ensures TagsOk(WakeHead(s, q))
    ensures forall t | Unlinked(s, t) :: Unlinked(WakeHead(s, q), t)
  {
    hide InOneList, WakeHead, PopHeld, Unlinked;
    if s.Q(q) != [] {
      HeadTag(s, q);
      WakeHeadLists(s, q);
      AddToBack(s.ready, s.Q(q)[0]);
      forall r
        ensures InOneList(WakeHead(s, q), r)
      {
        WokenInOneList(s, q, r);
      }
      forall t | Unlinked(s, t)
        ensures Unlinked(WakeHead(s, q), t)
      {
        StaysUnlinked(s, q, t);
      }
    } else {
      assert WakeHead(s, q) == s by { NobodyToWake(s, q); }
    }
  }

  lemma NobodyToWake(s: Threads, q: Queue)
    requires s.Q(q) == []
    ensures WakeHead(s, q) == s
  {
  }

  lemma StaysUnlinked(s: Threads, q: Queue, t: Tid)
    requires Unlinked(s, t) && s.Q(q) != []
    ensures Unlinked(WakeHead(s, q), t)
  {
    hide WakeHead;
    WakeHeadLists(s, q);
    InHeadOrTail(s.Q(q));
    forall r
      ensures t !in WakeHead(s, q).Q(r)
    {
      assert t !in s.Q(r);
    }
  }

  lemma WokenInOneList(s: Threads, q: Queue, r: Queue)
    requires TagsOk(s) && s.Q(q) != []
    ensures InOneList(WakeHead(s, q), r)
  {
    hide WakeHead, PopHeld;
    HeadTag(s, q);
    WakeHeadLists(s, q);
    assert InOneList(s, q) && InOneList(s, r);
    HeadNotInTail(s.Q(q));
    var s' := WakeHead(s, q);
    forall t, u | t in s'.Q(r) && t in s'.Q(u)
      ensures r == u
    {
      assert t in s.Q(r) && t in s.Q(u);
    }
  }
}
