/** What each lock keeps, seen from the lock: its fields, its wait lists and who is where in its code. */
module SyncLocks {
  import opened Options
  import opened Sched
  import opened SyncSpec

  // ---------- semaphore ----------

  // The wait list is as long as the count is negative, plus one for each post that has incremented the
  // count and not popped yet; every wait let through was paid for.
  ghost predicate SemOk(x: Sem, q: seq<Tid>, poppers: nat) {
    && |q| == (if x.count < 0 then -x.count else 0) + poppers
    && x.count == x.init + x.posts - x.passed - |q|
  }

  // No more waits are let through than the initial value and the posts allow, and a post that has yet to
  // pop finds somebody to pop.
  lemma SemConserves(x: Sem, q: seq<Tid>, poppers: nat)
    requires SemOk(x, q, poppers)
    ensures x.passed <= x.init + x.posts
    ensures poppers > 0 ==> q != []
    ensures x.count > 0 ==> x.passed + x.count + |q| == x.init + x.posts
  {
  }

  // ---------- mutex ----------

  // Where a thread is in mutex_acquire and mutex_release of one mutex.
  datatype Phase = Outside | Nesting | Looping | GotFlag | GotHolder | Clearing | Unlocking

  predicate Owning(p: Phase) {
    p.GotFlag? || p.GotHolder? || p.Clearing? || p.Unlocking?
  }

  // Every thread's phase and nesting depth at one mutex.
  ghost predicate ThreadOk(x: Mutex, t: Tid, p: Phase, d: nat) {
    && (Owning(p) ==> x.owner == Some(t))
    && (Owning(p) || p.Looping? ==> d == 0)
    && (p.Nesting? ==> d > 0)
    && (p.GotFlag? || p.Unlocking? ==> x.holder == None)
    && (p.GotHolder? || p.Clearing? ==> x.holder == Some(t))
    && (d > 0 ==> x.owner == Some(t) && x.holder == Some(t) && x.repeat == d)
    && (x.owner == Some(t) ==> d > 0 || Owning(p))
  }

  ghost predicate MutexOk(x: Mutex, q: seq<Tid>, phase: map<Tid, Phase>, depth: map<Tid, nat>) {
    && phase.Keys == depth.Keys
    && (x.isLock <==> x.owner.Some?)
    && (x.holder.Some? ==> x.holder == x.owner)
    && (x.owner.Some? ==> x.owner.value in phase)
    && (forall t | t in phase :: ThreadOk(x, t, phase[t], depth[t]))
    && (q != [] ==> x.isLock || Retrying(q, phase))
  }

  // Some thread is about to try the lock again, and is not asleep.
  ghost predicate Retrying(q: seq<Tid>, phase: map<Tid, Phase>) {
    exists t :: t in phase && phase[t].Looping? && t !in q
  }

  lemma MutexAcquire(x: Mutex, q: seq<Tid>, phase: map<Tid, Phase>, depth: map<Tid, nat>, t: Tid)
    requires MutexOk(x, q, phase, depth) && t in phase && phase[t].Outside?
    ensures MutexOk(x, q, phase[t := if x.holder == Some(t) then Nesting else Looping], depth)
  {
    var phase' := phase[t := if x.holder == Some(t) then Nesting else Looping];
    assert ThreadOk(x, t, phase[t], depth[t]);
    if u :| u in phase && phase[u].Looping? && u !in q {
      assert phase'[u].Looping?;
    }
  }

  lemma MutexNest(x: Mutex, q: seq<Tid>, phase: map<Tid, Phase>, depth: map<Tid, nat>, t: Tid)
    requires MutexOk(x, q, phase, depth) && t in phase && phase[t].Nesting?
    ensures MutexOk(x.(repeat := x.repeat + 1), q, phase[t := Outside], depth[t := depth[t] + 1])
  {
    var y := x.(repeat := x.repeat + 1);
    assert ThreadOk(x, t, phase[t], depth[t]);
    assert x.owner == Some(t);
    forall u | u in phase && u != t
      ensures ThreadOk(y, u, phase[u], depth[u])
    {
      assert ThreadOk(x, u, phase[u], depth[u]);
    }
  }

  lemma MutexSleep(x: Mutex, q: seq<Tid>, phase: map<Tid, Phase>, depth: map<Tid, nat>, t: Tid)
    requires MutexOk(x, q, phase, depth) && x.isLock
    ensures MutexOk(x, q + [t], phase, depth)
  {
  }

  lemma MutexTake(x: Mutex, q: seq<Tid>, phase: map<Tid, Phase>, depth: map<Tid, nat>, t: Tid)
    requires MutexOk(x, q, phase, depth) && !x.isLock && t in phase && phase[t].Looping?
    ensures MutexOk(x.(isLock := true, owner := Some(t)), q, phase[t := GotFlag], depth)
  {
    var y := x.(isLock := true, owner := Some(t));
    forall u | u in phase
      ensures ThreadOk(y, u, phase[t := GotFlag][u], depth[u])
    {
      assert ThreadOk(x, u, phase[u], depth[u]);
    }
  }

  lemma MutexSetHolder(x: Mutex, q: seq<Tid>, phase: map<Tid, Phase>, depth: map<Tid, nat>, t: Tid)
    requires MutexOk(x, q, phase, depth) && t in phase && phase[t].GotFlag?
    ensures MutexOk(x.(holder := Some(t)), q, phase[t := GotHolder], depth)
  {
    var y := x.(holder := Some(t));
    forall u | u in phase
      ensures ThreadOk(y, u, phase[t := GotHolder][u], depth[u])
    {
      assert ThreadOk(x, u, phase[u], depth[u]) && ThreadOk(x, t, phase[t], depth[t]);
    }
  }

  lemma MutexSetRepeat(x: Mutex, q: seq<Tid>, phase: map<Tid, Phase>, depth: map<Tid, nat>, t: Tid)
    requires MutexOk(x, q, phase, depth) && t in phase && phase[t].GotHolder?
    ensures MutexOk(x.(repeat := 1), q, phase[t := Outside], depth[t := 1])
  {
    var y := x.(repeat := 1);
    forall u | u in phase
      ensures ThreadOk(y, u, phase[t := Outside][u], depth[t := 1][u])
    {
      assert ThreadOk(x, u, phase[u], depth[u]) && ThreadOk(x, t, phase[t], depth[t]);
    }
  }

  // The holder is at depth repeat >= 1 whenever it is outside the lock's code.
  lemma HolderDepth(x: Mutex, q: seq<Tid>, phase: map<Tid, Phase>, depth: map<Tid, nat>, t: Tid)
    requires MutexOk(x, q, phase, depth) && t in phase && phase[t].Outside? && x.holder == Some(t)
    ensures x.isLock && x.owner == Some(t) && depth[t] == x.repeat >= 1
  {
    assert ThreadOk(x, t, phase[t], depth[t]);
  }

  lemma MutexRelease(x: Mutex, q: seq<Tid>, phase: map<Tid, Phase>, depth: map<Tid, nat>, t: Tid)
    requires MutexOk(x, q, phase, depth) && t in phase && phase[t].Outside? && x.holder == Some(t)
    ensures depth[t] >= 1
    ensures MutexOk(x.(repeat := x.repeat - 1), q, phase[t := if x.repeat - 1 == 0 then Clearing else Outside],
        depth[t := depth[t] - 1])
  {
    HolderDepth(x, q, phase, depth, t);
    var y, p := x.(repeat := x.repeat - 1), if x.repeat - 1 == 0 then Clearing else Outside;
    forall u | u in phase
      ensures ThreadOk(y, u, phase[t := p][u], depth[t := depth[t] - 1][u])
    {
      assert ThreadOk(x, u, phase[u], depth[u]);
    }
  }

  lemma MutexClear(x: Mutex, q: seq<Tid>, phase: map<Tid, Phase>, depth: map<Tid, nat>, t: Tid)
    requires MutexOk(x, q, phase, depth) && t in phase && phase[t].Clearing?
    ensures MutexOk(x.(holder := None), q, phase[t := Unlocking], depth)
  {
    var y := x.(holder := None);
    forall u | u in phase
      ensures ThreadOk(y, u, phase[t := Unlocking][u], depth[u])
    {
      assert ThreadOk(x, u, phase[u], depth[u]) && ThreadOk(x, t, phase[t], depth[t]);
    }
  }

  function Tail(q: seq<Tid>): seq<Tid> {
    if q == [] then [] else q[1..]
  }

  // The lock goes back and the first sleeper, if any, is on its way to retry. mutex_release's check that
  // the lock was taken holds.
  lemma MutexUnlock(x: Mutex, q: seq<Tid>, phase: map<Tid, Phase>, depth: map<Tid, nat>, t: Tid)
    requires MutexOk(x, q, phase, depth) && t in phase && phase[t].Unlocking?
    requires q != [] ==> q[0] in phase && phase[q[0]].Looping? && q[0] !in q[1..]
    ensures x.isLock
    ensures MutexOk(x.(isLock := false, owner := None), Tail(q), phase[t := Outside], depth)
  {
    var y := x.(isLock := false, owner := None);
    forall u | u in phase
      ensures ThreadOk(y, u, phase[t := Outside][u], depth[u])
    {
      assert ThreadOk(x, u, phase[u], depth[u]) && ThreadOk(x, t, phase[t], depth[t]);
    }
    if q != [] {
      assert phase[t := Outside][q[0]].Looping?;
    }
  }

  // mutex_release inside cond_wait, all in one step
  lemma MutexReleaseAtOnce(x: Mutex, q: seq<Tid>, phase: map<Tid, Phase>, depth: map<Tid, nat>, t: Tid)
    requires MutexOk(x, q, phase, depth) && t in phase && phase[t].Outside? && x.holder == Some(t)
    requires q != [] ==> q[0] in phase && phase[q[0]].Looping? && q[0] !in q[1..]
    ensures depth[t] == x.repeat >= 1
    ensures x.repeat == 1 ==>
              MutexOk(x.(repeat := 0, holder := None, isLock := false, owner := None), Tail(q), phase,
                      depth[t := depth[t] - 1])
    ensures x.repeat > 1 ==> MutexOk(x.(repeat := x.repeat - 1), q, phase, depth[t := depth[t] - 1])
  {
    HolderDepth(x, q, phase, depth, t);
    MutexRelease(x, q, phase, depth, t);
    var x1, depth1 := x.(repeat := x.repeat - 1), depth[t := depth[t] - 1];
    if x.repeat == 1 {
      MutexClear(x1, q, phase[t := Clearing], depth1, t);
      var x2 := x1.(holder := None);
      assert phase[t := Clearing][t := Unlocking] == phase[t := Unlocking];
      MutexUnlock(x2, q, phase[t := Unlocking], depth1, t);
      assert phase[t := Unlocking][t := Outside] == phase;
    } else {
      assert phase[t := Outside] == phase;
    }
  }

  // ---------- read-write lock ----------

  // transit: some writer has been woken and has not tried again yet
  ghost predicate RwOk(x: RwLock, rq: seq<Tid>, wq: seq<Tid>, transit: bool) {
    && (if x.writer.Some? then x.count == -1 && x.readers == multiset{} else x.count == |x.readers|)
    && (wq != [] ==> x.readyWrite)
    && (wq != [] ==> x.count != 0 || transit)
    && (rq != [] ==> x.count < 0 || x.readyWrite)
    && (x.readyWrite ==> wq != [] || transit || x.writer.Some?)
  }

  lemma RwReadPass(x: RwLock, rq: seq<Tid>, wq: seq<Tid>, transit: bool, t: Tid)
    requires RwOk(x, rq, wq, transit) && x.count >= 0 && !x.readyWrite
    ensures RwOk(x.(count := x.count + 1, readers := x.readers + multiset{t}), rq, wq, transit)
  {
  }

  lemma RwReadBlock(x: RwLock, rq: seq<Tid>, wq: seq<Tid>, transit: bool, t: Tid)
    requires RwOk(x, rq, wq, transit) && (x.count < 0 || x.readyWrite)
    ensures RwOk(x, rq + [t], wq, transit)
  {
  }

  lemma RwReadLeave(x: RwLock, rq: seq<Tid>, wq: seq<Tid>, transit: bool, t: Tid)
    requires RwOk(x, rq, wq, transit) && t in x.readers
    ensures x.count > 0
    ensures var y := x.(count := x.count - 1, readers := x.readers - multiset{t});
            if y.count != 0 then RwOk(y, rq, wq, transit)
            else if wq != [] then RwOk(y, rq, wq[1..], true)
            else RwOk(y, Tail(rq), wq, transit)
  {
    assert x.readers == (x.readers - multiset{t}) + multiset{t};
  }

  lemma RwWritePass(x: RwLock, rq: seq<Tid>, wq: seq<Tid>, transit: bool, transit': bool, t: Tid)
    requires RwOk(x, rq, wq, transit) && x.count == 0
    ensures RwOk(x.(count := -1, writer := Some(t)), rq, wq, transit')
  {
  }

  lemma RwWriteBlock(x: RwLock, rq: seq<Tid>, wq: seq<Tid>, transit: bool, transit': bool, t: Tid)
    requires RwOk(x, rq, wq, transit) && x.count != 0
    ensures RwOk(x.(readyWrite := true), rq, wq + [t], transit')
  {
  }

  lemma RwWriteLeave(x: RwLock, rq: seq<Tid>, wq: seq<Tid>, transit: bool)
    requires RwOk(x, rq, wq, transit) && x.writer.Some?
    ensures x.count == -1
    ensures var y := x.(count := 0, writer := None);
            if wq != [] then RwOk(y, rq, wq[1..], true) else RwOk(y.(readyWrite := false), [], wq, transit)
  {
  }
}
