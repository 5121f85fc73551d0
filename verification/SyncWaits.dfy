/** Waits that have returned: over every run there are never more of them than units to give. */
module SyncWaits {
  import opened Options
  import opened Sched
  import opened Seqs
  import opened SyncSpec
  import opened SyncPlaces
  import opened SyncFrame
  import opened SyncLocks
  import opened SyncTheorems
  import opened SyncRuns

  // ---------- counting calls ----------

  // Does this step end a sema_wait or a successful sema_try_wait on s?
  predicate Completes(st: State, op: Op, s: nat) {
    match op
    case Call(SemaWait(k)) => k == s && s in st.sems && st.sems[s].count > 0
    case Call(SemaTryWait(k)) => k == s && s in st.sems && st.sems[s].count > 0
    case Continue => st.Me() in st.pc && st.pc[st.Me()] == SemaBlocked(s)
    case _ => false
  }

  // The waits on s that have returned in the first n steps.
  ghost function Completed(tr: seq<State>, ops: seq<Op>, n: nat, s: nat): nat
    requires |tr| == |ops| + 1 && n <= |ops|
  {
    if n == 0 then 0
    else Completed(tr, ops, n - 1, s) + if Completes(tr[n - 1], ops[n - 1], s) then 1 else 0
  }

  // The calls of sema_post on s among the first n steps.
  function Posted(ops: seq<Op>, n: nat, s: nat): nat
    requires n <= |ops|
  {
    if n == 0 then 0 else Posted(ops, n - 1, s) + if ops[n - 1] == Call(SemaPost(s)) then 1 else 0
  }

  // The threads that have been woken in sema_wait and have not returned yet.
  ghost function Returning(pc: map<Tid, Pc>, q: seq<Tid>, s: nat): set<Tid> {
    set t | t in pc && pc[t] == SemaBlocked(s) && t !in q
  }

  ghost function ReturningOf(st: State, s: nat): set<Tid> {
    Returning(st.pc, st.threads.Q(SemQ(s)), s)
  }

  // ---------- the returning threads after a step ----------

  lemma SameReturning(pc: map<Tid, Pc>, t: Tid, p: Pc, q: seq<Tid>, s: nat)
    requires (t in pc ==> pc[t] != SemaBlocked(s)) && p != SemaBlocked(s)
    ensures Returning(pc[t := p], q, s) == Returning(pc, q, s)
  {
  }

  lemma BlockedReturning(pc: map<Tid, Pc>, t: Tid, q: seq<Tid>, s: nat)
    requires t in pc && pc[t] != SemaBlocked(s)
    ensures Returning(pc[t := SemaBlocked(s)], q + [t], s) == Returning(pc, q, s)
  {
  }

  lemma ReturnedReturning(pc: map<Tid, Pc>, t: Tid, q: seq<Tid>, s: nat)
    requires t in pc && pc[t] == SemaBlocked(s) && t !in q
    ensures t in Returning(pc, q, s) && Returning(pc[t := User], q, s) == Returning(pc, q, s) - {t}
    ensures |Returning(pc[t := User], q, s)| == |Returning(pc, q, s)| - 1
  {
    assert Returning(pc[t := User], q, s) == Returning(pc, q, s) - {t};
  }

  lemma PoppedReturning(pc: map<Tid, Pc>, q: seq<Tid>, s: nat)
    requires q != [] && q[0] in pc && pc[q[0]] == SemaBlocked(s) && q[0] !in q[1..]
    ensures |Returning(pc, q[1..], s)| == |Returning(pc, q, s)| + 1
  {
    InHeadOrTail(q);
    assert Returning(pc, q[1..], s) == Returning(pc, q, s) + {q[0]};
    assert q[0] !in Returning(pc, q, s);
  }

  // ---------- every step keeps the account ----------

  // From st to st' the posts grow by posts, and the waits let through by the waits that return and the threads
  // that are about to.
  ghost predicate Accounted(st: State, st': State, s: nat, completes: bool, posts: bool) {
    && s in st.sems && s in st'.sems
    && st'.sems[s].init == st.sems[s].init
    && st'.sems[s].posts == st.sems[s].posts + (if posts then 1 else 0)
    && st'.sems[s].passed - st.sems[s].passed
    == |ReturningOf(st', s)| - |ReturningOf(st, s)| + if completes then 1 else 0
  }

  lemma WaitAccounted(st: State, k: nat, s: nat)
    requires k in st.sems && s in st.sems && st.Me() in st.pc && st.pc[st.Me()] == User && PlaceInv(st)
    ensures Accounted(st, SemaWaitStep(st, k), s, k == s && st.sems[s].count > 0, false)
  {
    hide PlaceInv, Block, OnlyKinds, Returning;
    var st' := SemaWaitStep(st, k);
    if st.sems[k].count - 1 < 0 {
      RunningIsFree(st);
      BlockFrame(st, st', SemQ(k), SemaBlocked(k), {KSem});
      if k == s {
        BlockedReturning(st.pc, st.Me(), st.threads.Q(SemQ(s)), s);
      } else {
        SameReturning(st.pc, st.Me(), SemaBlocked(k), st.threads.Q(SemQ(s)), s);
      }
    }
  }

  lemma TryWaitAccounted(st: State, k: nat, s: nat)
    requires k in st.sems && s in st.sems
    ensures Accounted(st, SemaTryWaitStep(st, k), s, k == s && st.sems[s].count > 0, false)
  {
    hide Returning;
  }

  lemma PostAccounted(st: State, k: nat, s: nat)
    requires k in st.sems && s in st.sems && st.Me() in st.pc && st.pc[st.Me()] == User
    ensures Accounted(st, SemaPostStep(st, k), s, false, k == s)
  {
    hide Returning;
    SameReturning(st.pc, st.Me(), PostPop(k), st.threads.Q(SemQ(s)), s);
  }

  lemma PopAccounted(st: State, k: nat, s: nat)
    requires k in st.sems && s in st.sems && st.Me() in st.pc && st.pc[st.Me()] == PostPop(k)
    requires PlaceInv(st) && SemInv(st)
    ensures Accounted(st, PostPopStep(st, k), s, false, false)
  {
    hide PlaceInv, SemInv, WakeHead, Returning;
    PostPopFinds(st, k);
    WakeStepOk(st, SemQ(k));
    var q, pc := st.threads.Q(SemQ(s)), st.pc[st.Me() := User];
    SameReturning(st.pc, st.Me(), User, q, s);
    if k == s {
      PoppedReturning(pc, q, s);
    }
  }

  lemma ReturnAccounted(st: State, k: nat, s: nat)
    requires s in st.sems && st.Me() in st.pc && st.pc[st.Me()] == SemaBlocked(k) && PlaceInv(st)
    ensures Accounted(st, st.Goto(User), s, k == s, false)
  {
    hide PlaceInv, Returning;
    if k == s {
      RunnerOffList(st, SemQ(s));
      ReturnedReturning(st.pc, st.Me(), st.threads.Q(SemQ(s)), s);
    } else {
      SameReturning(st.pc, st.Me(), User, st.threads.Q(SemQ(s)), s);
    }
  }

  lemma RunnerOffList(st: State, q: Queue)
    requires PlaceInv(st)
    ensures st.Me() !in st.threads.Q(q)
  {
    hide PcOk, Stuck;
    OnePlace(st.threads, st.Me());
  }

  // Steps that are not about semaphores
  lemma OtherAccounted(st: State, op: Op, s: nat)
    requires PlaceInv(st) && Enabled(st, op) && s in st.sems && KSem !in Kinds(st, op)
    ensures Accounted(st, Step(st, op), s, false, false)
  {
    hide PlaceInv, Enabled, Step, Kinds;
    StepFrame(st, op);
    var st' := Step(st, op);
    assert SamePcs(st, st', Kinds(st, op));
    assert QueueKind(SemQ(s)) == KSem;
    assert PcKinds(SemaBlocked(s)) == {KSem};
    assert ReturningOf(st', s) == ReturningOf(st, s);
  }

  lemma StepAccounted(st: State, op: Op, s: nat)
    requires PlaceInv(st) && SemInv(st) && Enabled(st, op) && s in st.sems
    ensures Accounted(st, Step(st, op), s, Completes(st, op, s), op == Call(SemaPost(s)))
  {
    hide PlaceInv, SemInv, Accounted, SemaWaitStep, SemaTryWaitStep, SemaPostStep, PostPopStep;
    if KSem !in Kinds(st, op) {
      OtherAccounted(st, op, s);
    } else {
      match op
      case Continue =>
        match st.pc[st.Me()] {
          case SemaBlocked(k) => ReturnAccounted(st, k, s);
          case PostPop(k) => PopAccounted(st, k, s);
          case _ =>
        }
      case Call(api) =>
        match api {
          case SemaWait(k) => WaitAccounted(st, k, s);
          case SemaTryWait(k) => TryWaitAccounted(st, k, s);
          case SemaPost(k) => PostAccounted(st, k, s);
          case _ =>
        }
      case Tick =>
    }
  }

  // ---------- runs ----------

  // In every run the history kept with a semaphore is the run's own: it was made with its first count, posts
  // counts the calls of sema_post, and passed the waits that have returned or are about to.
  lemma {:induction false} HistoryIsTrue(tr: seq<State>, ops: seq<Op>, n: nat, s: nat)
    requires IsRun(tr, ops) && n < |tr| && s in tr[0].sems
    ensures s in tr[n].sems
    ensures tr[n].sems[s].init == tr[0].sems[s].count && tr[n].sems[s].posts == Posted(ops, n, s)
    ensures tr[n].sems[s].passed == Completed(tr, ops, n, s) + |ReturningOf(tr[n], s)|
  {
    hide Inv, Step, Enabled, Completes, ReturningOf;
    if n == 0 {
      NobodyReturns(tr[0], s);
    } else {
      HistoryIsTrue(tr, ops, n - 1, s);
      EveryRun(tr, ops, n - 1);
      assert tr[n - 1 + 1] == Step(tr[n - 1], ops[n - 1]);
      InvParts(tr[n - 1]);
      StepAccounted(tr[n - 1], ops[n - 1], s);
    }
  }

  lemma NobodyReturns(st: State, s: nat)
    requires Initial(st)
    ensures ReturningOf(st, s) == {}
  {
  }

  lemma InvParts(st: State)
    requires Inv(st)
    ensures PlaceInv(st) && SemInv(st)
  {
  }

  // The waits that have returned, those about to, the sleepers and the count add up to the first count and the
  // posts; so no more waits return than there were units to give.
  lemma WaitsArePaid(tr: seq<State>, ops: seq<Op>, n: nat, s: nat)
    requires IsRun(tr, ops) && n < |tr| && s in tr[0].sems
    ensures s in tr[n].sems
    ensures Completed(tr, ops, n, s) + |ReturningOf(tr[n], s)| + |tr[n].threads.Q(SemQ(s))| + tr[n].sems[s].count
         == tr[0].sems[s].count + Posted(ops, n, s)
    ensures Completed(tr, ops, n, s) <= tr[0].sems[s].count + Posted(ops, n, s)
  {
    hide IsRun, Inv, Completed, Posted, ReturningOf;
    HistoryIsTrue(tr, ops, n, s);
    EveryRun(tr, ops, n);
    InvParts(tr[n]);
    assert SemAt(tr[n], s);
  }
}
