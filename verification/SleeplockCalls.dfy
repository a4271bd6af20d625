/** What finished calls of acquire_sleeplock and release_sleeplock have achieved, and how long they take. */
module SleeplockCalls {
  import opened Wrappers
  import opened Scheduler
  import opened Sleeplock

  // ---------------------------------------------------------------- the course of a call

  /** Environment v is in a call of acquire_sleeplock(l) that it made having the locks h, or at its end. */
  ghost predicate Acquiring(v: Env, l: nat, h: set<nat>) {
    match v.pc
    case Out => v.has == h + {l}
    case AcqEnter(m) => m == l && v.has == h
    case AcqCheck(m) => m == l && v.has == h
    case AcqName(m) => m == l && l !in h && v.has == h + {l}
    case AcqLeave(m) => m == l && l !in h && v.has == h + {l}
    case _ =>
      && (v.pc.AcqGuard? || InSleep(v.pc) || v.pc.AcqLoop? || v.pc.AcqTake?)
      && v.pc.l == l && l !in h && v.has == h
  }

  predicate InSleep(p: PC) {
    p.SleepLock? || p.SleepEnqueue? || p.SleepDrop? || p.SleepBlock?
  }

  /** The same for release_sleeplock(l); k is the lock. */
  ghost predicate Releasing(v: Env, l: nat, h: set<nat>, k: Lock) {
    match v.pc
    case Out => v.has == h - {l} && (l in h ==> !k.locked && k.chan == [])
    case RelEnter(m) => m == l && v.has == h
    case RelCheck(m) => m == l && v.has == h
    case RelUnname(m) => m == l && l in h && v.has == h - {l} && !k.locked && k.chan == []
    case RelLeave(m) => m == l && l in h && v.has == h - {l} && !k.locked && k.chan == []
    case _ =>
      && (v.pc.RelGuard? || v.pc.WakeLock? || v.pc.WakeLoop? || v.pc.RelFree?)
      && v.pc.l == l && l in h && v.has == h
  }

  /** The action is a statement of environment e. */
  predicate Runs(a: Action, e: nat) {
    a.Exec? && a.e == e
  }

  /** What others do leaves an environment where it is in its call, with the locks it has. */
  lemma OthersKeep(s: State, a: Action, t: State, e: nat)
    requires Step(s, a, t) && e < |s.envs| && !s.envs[e].pc.Out? && !Runs(a, e)
    ensures |t.envs| == |s.envs| && |t.locks| == |s.locks|
    ensures t.envs[e].pc == s.envs[e].pc && t.envs[e].has == s.envs[e].has
  {
    if a.Exec? {
      StatementKeeps(s, t, a.c, a.e, e);
    } else if a.Pick? {
      DispatchKeeps(s, t, a.c, e);
    }
  }

  lemma StatementKeeps(s: State, t: State, c: nat, x: nat, e: nat)
    requires Step(s, Exec(c, x), t) && e < |s.envs| && e != x
    ensures |t.envs| == |s.envs| && |t.locks| == |s.locks|
    ensures t.envs[e].pc == s.envs[e].pc && t.envs[e].has == s.envs[e].has
  {
  }

  lemma DispatchKeeps(s: State, t: State, c: nat, e: nat)
    requires Step(s, Pick(c), t) && e < |s.envs|
    ensures |t.envs| == |s.envs| && t.locks == s.locks
    ensures t.envs[e].pc == s.envs[e].pc && t.envs[e].has == s.envs[e].has
  {
  }

  lemma AcquireStep(s: State, a: Action, t: State, e: nat, l: nat, h: set<nat>)
    requires Inv(s) && Step(s, a, t) && e < |s.envs| && l < |s.locks| && !s.envs[e].pc.Out?
    requires Acquiring(s.envs[e], l, h)
    ensures e < |t.envs| && l < |t.locks| && Acquiring(t.envs[e], l, h)
  {
    if Runs(a, e) {
      if s.envs[e].pc.AcqCheck? {
        CheckIsExact(s, a.c, e, l);
      }
    } else {
      OthersKeep(s, a, t, e);
    }
  }

  /** A lock whose guard an environment holds is changed by nobody else. */
  lemma GuardedLockStays(s: State, a: Action, t: State, e: nat, l: nat)
    requires Inv(s) && Step(s, a, t) && e < |s.envs| && l < |s.locks| && !Runs(a, e) && HoldsGuard(s.envs[e].pc, l)
    ensures |t.locks| == |s.locks| && t.locks[l] == s.locks[l]
  {
    if a.Exec? {
      assert EnvOk(s, e);
      var c := s.envs[e].cpu.value;
      assert CpuOk(s, c) && GuardOk(s, l, c);
      if s.envs[a.e].pc.l == l {
        GuardExcludes(s, c, e, l, a.e);
      }
    } else if a.Pick? {
      DispatchKeeps(s, t, a.c, e);
    }
  }

  lemma ReleaseStep(s: State, a: Action, t: State, e: nat, l: nat, h: set<nat>)
    requires Inv(s) && Step(s, a, t) && e < |s.envs| && l < |s.locks| && !s.envs[e].pc.Out?
    requires Releasing(s.envs[e], l, h, s.locks[l])
    ensures e < |t.envs| && l < |t.locks| && Releasing(t.envs[e], l, h, t.locks[l])
  {
    if Runs(a, e) {
      OwnRelease(s, t, a.c, e, l, h);
    } else {
      OthersKeep(s, a, t, e);
      if HoldsGuard(s.envs[e].pc, l) {
        GuardedLockStays(s, a, t, e, l);
      }
    }
  }

  lemma OwnRelease(s: State, t: State, c: nat, e: nat, l: nat, h: set<nat>)
    requires Inv(s) && Step(s, Exec(c, e), t) && e < |s.envs| && l < |s.locks| && !s.envs[e].pc.Out?
    requires Releasing(s.envs[e], l, h, s.locks[l])
    ensures e < |t.envs| && l < |t.locks| && Releasing(t.envs[e], l, h, t.locks[l])
  {
    assert EnvOk(s, e);
    if s.envs[e].pc.RelCheck? {
      CheckIsExact(s, c, e, l);
    }
    ReleaseStatement(s, t, c, e, l, h);
  }

  lemma ReleaseStatement(s: State, t: State, c: nat, e: nat, l: nat, h: set<nat>)
    requires Sized(s) && e < |s.envs| && l < |s.locks| && !s.envs[e].pc.Out? && At(s, c, e, s.envs[e].pc)
    requires PcOk(s, e) && Releasing(s.envs[e], l, h, s.locks[l]) && Statement(s, c, e) == Some(t)
    requires s.envs[e].pc.RelCheck? ==> (s.locks[l].locked && s.locks[l].pid == e <==> l in h)
    ensures e < |t.envs| && l < |t.locks| && Releasing(t.envs[e], l, h, t.locks[l])
  {
  }

  // ---------------------------------------------------------------- over runs

  /** Environment e is in a call in states i + 1 .. k - 1. */
  ghost predicate InCall(ss: seq<State>, e: nat, i: nat, k: nat) {
    k <= |ss| && forall j :: i < j < k ==> e < |ss[j].envs| && !ss[j].envs[e].pc.Out?
  }

  lemma {:induction false} AcquireRuns(ss: seq<State>, acts: seq<Action>, i: nat, k: nat, c: nat, e: nat, l: nat)
    requires Behaviour(ss, acts) && i < k < |ss| && acts[i] == Call(c, e, AcqEnter(l)) && InCall(ss, e, i, k)
    ensures e < |ss[i].envs| && e < |ss[k].envs| && l < |ss[k].locks|
    ensures Acquiring(ss[k].envs[e], l, ss[i].envs[e].has)
  {
    assert StepAt(ss, acts, k - 1);
    if k > i + 1 {
      AcquireRuns(ss, acts, i, k - 1, c, e, l);
      RunsKeepInv(ss, acts, k - 1);
      AcquireStep(ss[k - 1], acts[k - 1], ss[k], e, l, ss[i].envs[e].has);
    }
  }

  lemma {:induction false} ReleaseRuns(ss: seq<State>, acts: seq<Action>, i: nat, k: nat, c: nat, e: nat, l: nat)
    requires Behaviour(ss, acts) && i < k < |ss| && acts[i] == Call(c, e, RelEnter(l)) && InCall(ss, e, i, k)
    ensures e < |ss[i].envs| && e < |ss[k].envs| && l < |ss[k].locks|
    ensures Releasing(ss[k].envs[e], l, ss[i].envs[e].has, ss[k].locks[l])
  {
    assert StepAt(ss, acts, k - 1);
    if k > i + 1 {
      ReleaseRuns(ss, acts, i, k - 1, c, e, l);
      RunsKeepInv(ss, acts, k - 1);
      ReleaseStep(ss[k - 1], acts[k - 1], ss[k], e, l, ss[i].envs[e].has);
    }
  }

  /** acquire_sleeplock returns with the lock: it is marked locked and names the caller. The caller has it
      besides the locks it had, and leaves by the early check only if it had it already. */
  lemma AcquireAchieves(ss: seq<State>, acts: seq<Action>, i: nat, k: nat, c: nat, e: nat, l: nat)
    requires Behaviour(ss, acts) && i < k < |ss| && acts[i] == Call(c, e, AcqEnter(l)) && InCall(ss, e, i, k)
    ensures e < |ss[i].envs| && e < |ss[k].envs| && l < |ss[k].locks|
    ensures var h, v, m := ss[i].envs[e].has, ss[k].envs[e], ss[k].locks[l];
      && (v.pc.Out? ==> v.has == h + {l} && m.locked && m.pid == e)
      && (v.pc.Out? && i + 1 < k && ss[k - 1].envs[e].pc.AcqCheck? ==> l in h)
      && (!v.pc.Out? && !v.pc.AcqEnter? && !v.pc.AcqCheck? ==> l !in h)
  {
    AcquireRuns(ss, acts, i, k, c, e, l);
    RunsKeepInv(ss, acts, k);
    if ss[k].envs[e].pc.Out? {
      HolderIsNamed(ss[k], e, l);
    }
    if i + 1 < k && ss[k].envs[e].pc.Out? && ss[k - 1].envs[e].pc.AcqCheck? {
      AcquireRuns(ss, acts, i, k - 1, c, e, l);
      LeavesEarly(ss, acts, k - 1, e, l);
    }
  }

  lemma HolderIsNamed(s: State, e: nat, l: nat)
    requires Inv(s) && e < |s.envs| && l < |s.locks| && s.envs[e].pc.Out? && l in s.envs[e].has
    ensures s.locks[l].locked && s.locks[l].pid == e
  {
    assert HasOk(s, l, e) && LockOk(s, l);
  }

  lemma LeavesEarly(ss: seq<State>, acts: seq<Action>, j: nat, e: nat, l: nat)
    requires Behaviour(ss, acts) && j < |acts| && e < |ss[j].envs| && l < |ss[j].locks|
    requires e < |ss[j + 1].envs| && ss[j + 1].envs[e].pc.Out?
    requires ss[j].envs[e].pc == AcqCheck(l) || ss[j].envs[e].pc == RelCheck(l)
    ensures l in ss[j].envs[e].has <==> ss[j].envs[e].pc.AcqCheck?
  {
    RunsKeepInv(ss, acts, j);
    assert StepAt(ss, acts, j);
    LeavesByCheck(ss[j], acts[j], ss[j + 1], e, l);
  }

  lemma LeavesByCheck(s: State, a: Action, t: State, e: nat, l: nat)
    requires Inv(s) && Step(s, a, t) && e < |s.envs| && l < |s.locks| && e < |t.envs| && t.envs[e].pc.Out?
    requires s.envs[e].pc == AcqCheck(l) || s.envs[e].pc == RelCheck(l)
    ensures l in s.envs[e].has <==> s.envs[e].pc.AcqCheck?
  {
    if !Runs(a, e) {
      OthersKeep(s, a, t, e);
    }
    CheckIsExact(s, a.c, e, l);
  }

  /** release_sleeplock returns without the lock. If the caller had it, it is free then and nobody is left in
      its channel; it leaves by the early check only if it did not have it. */
  lemma ReleaseAchieves(ss: seq<State>, acts: seq<Action>, i: nat, k: nat, c: nat, e: nat, l: nat)
    requires Behaviour(ss, acts) && i < k < |ss| && acts[i] == Call(c, e, RelEnter(l)) && InCall(ss, e, i, k)
    ensures e < |ss[i].envs| && e < |ss[k].envs| && l < |ss[k].locks|
    ensures var h, v, m := ss[i].envs[e].has, ss[k].envs[e], ss[k].locks[l];
      && (v.pc.Out? ==> v.has == h - {l} && (l in h ==> !m.locked && m.chan == []))
      && (v.pc.Out? && i + 1 < k && ss[k - 1].envs[e].pc.RelCheck? ==> l !in h)
      && (!v.pc.Out? && !v.pc.RelEnter? && !v.pc.RelCheck? ==> l in h)
  {
    ReleaseRuns(ss, acts, i, k, c, e, l);
    if i + 1 < k && ss[k].envs[e].pc.Out? && ss[k - 1].envs[e].pc.RelCheck? {
      ReleaseRuns(ss, acts, i, k - 1, c, e, l);
      LeavesEarly(ss, acts, k - 1, e, l);
    }
  }

  // ---------------------------------------------------------------- a busy lock and a free one

  /** Environment e, which found its lock locked, is on its way into the channel. */
  ghost predicate GoingToSleep(v: Env, l: nat) {
    InSleep(v.pc) && v.pc.l == l
  }

  /** Environment e, which found its lock free, is on its way to take it; the lock is still free until it does. */
  ghost predicate Taking(v: Env, l: nat) {
    (v.pc == AcqTake(l)) || ((v.pc == AcqName(l) || v.pc == AcqLeave(l) || v.pc.Out?) && l in v.has)
  }

  lemma LoopStep(s: State, a: Action, t: State, e: nat, l: nat)
    requires Inv(s) && Step(s, a, t) && e < |s.envs| && l < |s.locks| && HoldsGuard(s.envs[e].pc, l)
    ensures e < |t.envs|
    ensures s.envs[e].pc.AcqLoop? && Runs(a, e) ==>
      if s.locks[l].locked then GoingToSleep(t.envs[e], l) else Taking(t.envs[e], l)
    ensures GoingToSleep(s.envs[e], l) ==> GoingToSleep(t.envs[e], l)
    ensures Taking(s.envs[e], l) ==> Taking(t.envs[e], l)
  {
    if !Runs(a, e) {
      OthersKeep(s, a, t, e);
    }
  }

  /** While environment e holds the guard of l it stays in the loop, with the lock as it found it, or goes one
      of the two ways. */
  lemma {:induction false} LoopRuns(ss: seq<State>, acts: seq<Action>, i: nat, k: nat, e: nat, l: nat)
    requires Behaviour(ss, acts) && i <= k < |ss| && e < |ss[i].envs| && l < |ss[i].locks|
    requires ss[i].envs[e].pc == AcqLoop(l)
    requires forall j :: i <= j < k ==> e < |ss[j].envs| && HoldsGuard(ss[j].envs[e].pc, l)
    ensures e < |ss[k].envs| && l < |ss[k].locks|
    ensures || (ss[k].envs[e].pc == AcqLoop(l) && ss[k].locks[l] == ss[i].locks[l])
            || if ss[i].locks[l].locked then GoingToSleep(ss[k].envs[e], l) else Taking(ss[k].envs[e], l)
  {
    if i < k {
      LoopRuns(ss, acts, i, k - 1, e, l);
      RunsKeepInv(ss, acts, k - 1);
      assert StepAt(ss, acts, k - 1);
      LoopStep(ss[k - 1], acts[k - 1], ss[k], e, l);
      if !Runs(acts[k - 1], e) {
        OthersKeep(ss[k - 1], acts[k - 1], ss[k], e);
        GuardedLockStays(ss[k - 1], acts[k - 1], ss[k], e, l);
      }
    }
  }

  /** An environment that finds the lock busy is in its channel when it drops the guard; one that finds it free
      has the lock and is out of the call. */
  lemma BusyMeansSleep(ss: seq<State>, acts: seq<Action>, i: nat, k: nat, e: nat, l: nat)
    requires Behaviour(ss, acts) && i < k < |ss| && e < |ss[i].envs| && l < |ss[i].locks|
    requires ss[i].envs[e].pc == AcqLoop(l)
    requires forall j :: i <= j < k ==> e < |ss[j].envs| && HoldsGuard(ss[j].envs[e].pc, l)
    requires e < |ss[k].envs| && !HoldsGuard(ss[k].envs[e].pc, l)
    ensures l < |ss[k].locks|
    ensures if ss[i].locks[l].locked then e in ss[k].locks[l].chan && ss[k].locks[l].locked
      else ss[k].envs[e].pc.Out? && l in ss[k].envs[e].has
  {
    LoopRuns(ss, acts, i, k, e, l);
    if ss[i].locks[l].locked {
      LoopRuns(ss, acts, i, k - 1, e, l);
      DropsIntoChannel(ss, acts, k - 1, e, l);
    }
  }

  lemma DropsIntoChannel(ss: seq<State>, acts: seq<Action>, j: nat, e: nat, l: nat)
    requires Behaviour(ss, acts) && j < |acts| && e < |ss[j].envs| && l < |ss[j].locks|
    requires HoldsGuard(ss[j].envs[e].pc, l) && e < |ss[j + 1].envs| && l < |ss[j + 1].locks|
    requires !HoldsGuard(ss[j + 1].envs[e].pc, l) && GoingToSleep(ss[j + 1].envs[e], l)
    ensures e in ss[j + 1].locks[l].chan && ss[j + 1].locks[l].locked
  {
    RunsKeepInv(ss, acts, j);
    RunsKeepInv(ss, acts, j + 1);
    assert StepAt(ss, acts, j);
    StillRuns(ss[j], acts[j], ss[j + 1], e, l);
    SleeperIsQueued(ss[j + 1], e, l);
  }

  /** The statement that drops the guard leaves its environment running. */
  lemma StillRuns(s: State, a: Action, t: State, e: nat, l: nat)
    requires Inv(s) && Step(s, a, t) && e < |s.envs| && HoldsGuard(s.envs[e].pc, l)
    requires e < |t.envs| && !HoldsGuard(t.envs[e].pc, l) && GoingToSleep(t.envs[e], l)
    ensures Sized(t) && t.q.status[e] == Running && t.envs[e].pc.SleepBlock? && !t.envs[e].orphan
  {
    if !Runs(a, e) {
      OthersKeep(s, a, t, e);
    }
    ExecutingIsRunning(s, a.c, e);
  }

  lemma SleeperIsQueued(s: State, e: nat, l: nat)
    requires Inv(s) && e < |s.envs| && l < |s.locks| && s.envs[e].pc == SleepBlock(l)
    requires s.q.status[e] == Running && !s.envs[e].orphan
    ensures e in s.locks[l].chan && s.locks[l].locked
  {
    assert EnvOk(s, e) && QueueOk(s, Channel(l)) && LockOk(s, l);
  }

  // ---------------------------------------------------------------- the life of an environment

  /** The changes of status there are, and what brings each about. */
  ghost predicate Moves(s: State, a: Action, e: nat, before: Status, after: Status) {
    match (before, after)
    case (Free, New) => a == Create(e)
    case (New, Ready) => a == Start(e) || a == StartAll
    case (New, Unknown) => a == Action.Remove(e)
    case (Ready, Running) => a.Pick?
    case (Ready, Exit) => a == Retire(e) || a == RetireAll
    case (Running, Ready) => a.Yield? && a.e == e
    case (Running, Blocked) => Runs(a, e) && e < |s.envs| && s.envs[e].pc.SleepBlock?
    case (Running, Exit) => a.Finish? && a.e == e
    case (Blocked, Ready) => a.Exec? && a.e != e && a.e < |s.envs| && s.envs[a.e].pc.WakeLoop?
    case (Exit, Unknown) => a == Action.Remove(e)
    case _ => before == after
  }

  /** Every change of status is one of these. */
  lemma LifeCycle(s: State, a: Action, t: State, e: nat)
    requires Inv(s) && Step(s, a, t) && e < |s.envs|
    ensures |t.envs| == |s.envs| && Sized(t) && Moves(s, a, e, s.q.status[e], t.q.status[e])
  {
    match a
    case Exec(c, x) => ExecMoves(s, t, c, x, e);
    case Pick(c) => PickMoves(s, t, c, e);
    case Yield(c, x) => ExecutingIsRunning(s, c, x);
    case Finish(c, x) => ExecutingIsRunning(s, c, x);
    case Start(x) => CallMoves(s, a, t, e);
    case StartAll => CallMoves(s, a, t, e);
    case Retire(x) => CallMoves(s, a, t, e);
    case RetireAll => CallMoves(s, a, t, e);
    case Remove(x) => RemoveMoves(s, t, x, e);
    case _ =>
  }

  lemma CallMoves(s: State, a: Action, t: State, e: nat)
    requires Inv(s) && Step(s, a, t) && e < |s.envs| && (a.Start? || a.StartAll? || a.Retire? || a.RetireAll?)
    ensures |t.envs| == |s.envs| && Sized(t) && Moves(s, a, e, s.q.status[e], t.q.status[e])
  {
    if e in s.q.newQ {
      QueuedIsOff(s, NewPlace, e);
    }
    if e in s.q.readyQ {
      QueuedIsOff(s, ReadyPlace, e);
    }
  }

  lemma RemoveMoves(s: State, t: State, x: nat, e: nat)
    requires Inv(s) && Step(s, Action.Remove(x), t) && e < |s.envs|
    ensures |t.envs| == |s.envs| && Sized(t) && Moves(s, Action.Remove(x), e, s.q.status[e], t.q.status[e])
  {
    VictimIsQueued(s, x);
    QueuedIsOff(s, VictimPlace(s, x), x);
  }

  lemma ExecMoves(s: State, t: State, c: nat, x: nat, e: nat)
    requires Inv(s) && Step(s, Exec(c, x), t) && e < |s.envs|
    ensures |t.envs| == |s.envs| && Sized(t) && Moves(s, Exec(c, x), e, s.q.status[e], t.q.status[e])
  {
    ExecutingIsRunning(s, c, x);
    var p := s.envs[x].pc;
    if p.WakeLoop? && |s.locks[p.l].chan| > 0 {
      SleeperIsOff(s, c, x, p.l, Next(s.locks[p.l].chan));
    }
  }

  lemma PickMoves(s: State, t: State, c: nat, e: nat)
    requires Inv(s) && Step(s, Pick(c), t) && e < |s.envs|
    ensures |t.envs| == |s.envs| && Sized(t) && Moves(s, Pick(c), e, s.q.status[e], t.q.status[e])
  {
    assert CpuOk(s, c);
    var cur := s.cpus[c].proc;
    var u := if cur.None? then s else Requeue(s, c, cur.value);
    if cur.Some? {
      RequeueInv(s, c, cur.value);
    }
    DispatchMoves(u, t, c, e);
  }

  lemma DispatchMoves(u: State, t: State, c: nat, e: nat)
    requires Inv(u) && c < |u.cpus| && Dispatch(u, c) == Some(t) && e < |u.envs|
    ensures |t.envs| == |u.envs| && Sized(t)
    ensures t.q.status[e] == u.q.status[e] || (u.q.status[e] == Ready && t.q.status[e] == Running)
  {
    if |u.q.readyQ| > 0 {
      assert QueueOk(u, ReadyPlace) && Next(u.q.readyQ) in u.q.readyQ && EnvOk(u, Next(u.q.readyQ));
    }
  }

  /** An environment that has exited or was killed never gets a CPU again. */
  lemma {:induction false} GoneForGood(ss: seq<State>, acts: seq<Action>, i: nat, k: nat, e: nat)
    requires Behaviour(ss, acts) && i <= k < |ss| && e < |ss[i].envs| && Sized(ss[i])
    requires ss[i].q.status[e] == Exit || ss[i].q.status[e] == Unknown
    ensures e < |ss[k].envs| && Sized(ss[k]) && (ss[k].q.status[e] == Exit || ss[k].q.status[e] == Unknown)
    ensures forall c, p :: !At(ss[k], c, e, p)
  {
    RunsKeepInv(ss, acts, k);
    if i < k {
      GoneForGood(ss, acts, i, k - 1, e);
      StaysGone(ss, acts, k - 1, e);
    }
    NotRunning(ss[k], e);
  }

  lemma StaysGone(ss: seq<State>, acts: seq<Action>, j: nat, e: nat)
    requires Behaviour(ss, acts) && j < |acts| && e < |ss[j].envs| && Sized(ss[j])
    requires ss[j].q.status[e] == Exit || ss[j].q.status[e] == Unknown
    ensures e < |ss[j + 1].envs| && Sized(ss[j + 1])
    ensures ss[j + 1].q.status[e] == Exit || ss[j + 1].q.status[e] == Unknown
  {
    RunsKeepInv(ss, acts, j);
    assert StepAt(ss, acts, j);
    LifeCycle(ss[j], acts[j], ss[j + 1], e);
  }

  /** Neither does one that was killed while ready, although its status says READY. */
  lemma OrphansNeverRun(ss: seq<State>, acts: seq<Action>, k: nat, e: nat)
    requires Behaviour(ss, acts) && k < |ss| && e < |ss[0].envs| && KilledWhileReady(ss, acts, k, e)
    ensures forall c, p :: !At(ss[k], c, e, p)
  {
    RunsKeepInv(ss, acts, k);
    OrphansWereKilled(ss, acts, k, e);
    forall c, p | At(ss[k], c, e, p)
      ensures false
    {
      ExecutingIsRunning(ss[k], c, e);
    }
  }

  lemma NotRunning(s: State, e: nat)
    requires Inv(s) && e < |s.envs| && s.q.status[e] != Running
    ensures forall c, p :: !At(s, c, e, p)
  {
    forall c, p | At(s, c, e, p)
      ensures false
    {
      ExecutingIsRunning(s, c, e);
    }
  }

  // ---------------------------------------------------------------- how long a call takes

  /** How many statements of its own a call has left at most, if it sleeps no more and wakes nobody. */
  function Left(p: PC): nat {
    match p
    case Out => 0
    case AcqEnter(_) => 8
    case AcqCheck(_) => 7
    case AcqGuard(_) => 6
    case AcqLoop(_) => 5
    case SleepLock(_) => 4
    case SleepEnqueue(_) => 3
    case SleepDrop(_) => 2
    case SleepBlock(_) => 1
    case AcqTake(_) => 3
    case AcqName(_) => 2
    case AcqLeave(_) => 1
    case RelEnter(_) => 8
    case RelCheck(_) => 7
    case RelGuard(_) => 6
    case WakeLock(_) => 5
    case WakeLoop(_) => 4
    case RelFree(_) => 3
    case RelUnname(_) => 2
    case RelLeave(_) => 1
  }

  /** The statement puts its environment to sleep. */
  predicate Blocks(s: State, a: Action, e: nat) {
    Runs(a, e) && e < |s.envs| && s.envs[e].pc.SleepBlock?
  }

  /** The statement wakes a sleeper. */
  predicate Wakes(s: State, a: Action, e: nat) {
    && Runs(a, e) && e < |s.envs| && s.envs[e].pc.WakeLoop? && s.envs[e].pc.l < |s.locks|
    && s.locks[s.envs[e].pc.l].chan != []
  }

  /** Every statement brings a call nearer to its end, but one that blocks, and one that wakes a sleeper. */
  lemma StatementProgress(s: State, t: State, c: nat, e: nat)
    requires Step(s, Exec(c, e), t)
    ensures e < |s.envs| == |t.envs|
    ensures if Blocks(s, Exec(c, e), e) then Left(t.envs[e].pc) == 6
      else if Wakes(s, Exec(c, e), e) then Left(t.envs[e].pc) == Left(s.envs[e].pc)
      else Left(t.envs[e].pc) < Left(s.envs[e].pc)
  {
    if Wakes(s, Exec(c, e), e) {
      WakeProgress(s, t, c, e);
    } else {
      OtherProgress(s, t, c, e);
    }
  }

  /** A wakeup leaves one sleeper fewer in the channel, so there is an end to them. */
  lemma WakeProgress(s: State, t: State, c: nat, e: nat)
    requires Step(s, Exec(c, e), t) && Wakes(s, Exec(c, e), e)
    ensures |t.envs| == |s.envs| && t.envs[e].pc == s.envs[e].pc
    ensures |t.locks| == |s.locks| && |t.locks[s.envs[e].pc.l].chan| == |s.locks[s.envs[e].pc.l].chan| - 1
  {
  }

  lemma OtherProgress(s: State, t: State, c: nat, e: nat)
    requires Step(s, Exec(c, e), t) && !Wakes(s, Exec(c, e), e)
    ensures e < |s.envs| == |t.envs|
    ensures if s.envs[e].pc.SleepBlock? then Left(t.envs[e].pc) == 6 else Left(t.envs[e].pc) < Left(s.envs[e].pc)
  {
  }

  /** The statements of environment e among actions i .. k - 1, and those of them that block or wake. */
  ghost function Statements(ss: seq<State>, acts: seq<Action>, e: nat, i: nat, k: nat): nat
    requires i <= k <= |acts| < |ss|
  {
    if i == k then 0 else Statements(ss, acts, e, i, k - 1) + if Runs(acts[k - 1], e) then 1 else 0
  }

  ghost function Blockings(ss: seq<State>, acts: seq<Action>, e: nat, i: nat, k: nat): nat
    requires i <= k <= |acts| < |ss|
  {
    if i == k then 0 else Blockings(ss, acts, e, i, k - 1) + if Blocks(ss[k - 1], acts[k - 1], e) then 1 else 0
  }

  ghost function Wakings(ss: seq<State>, acts: seq<Action>, e: nat, i: nat, k: nat): nat
    requires i <= k <= |acts| < |ss|
  {
    if i == k then 0 else Wakings(ss, acts, e, i, k - 1) + if Wakes(ss[k - 1], acts[k - 1], e) then 1 else 0
  }

  /** A call takes eight statements at most, and six more for every time it blocks and one for every sleeper
      it wakes. */
  lemma {:induction false} CallIsShort(ss: seq<State>, acts: seq<Action>, i: nat, k: nat, c: nat, e: nat, p: PC)
    requires Behaviour(ss, acts) && i < k < |ss| && acts[i] == Call(c, e, p) && InCall(ss, e, i, k)
    ensures e < |ss[k].envs|
    ensures Statements(ss, acts, e, i + 1, k) + Left(ss[k].envs[e].pc) <=
      8 + 6 * Blockings(ss, acts, e, i + 1, k) + Wakings(ss, acts, e, i + 1, k)
  {
    if k == i + 1 {
      assert StepAt(ss, acts, i);
    } else {
      CallIsShort(ss, acts, i, k - 1, c, e, p);
      CallGoesOn(ss, acts, k - 1, e);
    }
  }

  lemma CallGoesOn(ss: seq<State>, acts: seq<Action>, j: nat, e: nat)
    requires Behaviour(ss, acts) && j < |acts| && e < |ss[j].envs| && !ss[j].envs[e].pc.Out?
    ensures e < |ss[j + 1].envs|
    ensures Left(ss[j + 1].envs[e].pc) + (if Runs(acts[j], e) then 1 else 0) <=
      Left(ss[j].envs[e].pc)
      + (if Blocks(ss[j], acts[j], e) then 6 else 0) + (if Wakes(ss[j], acts[j], e) then 1 else 0)
  {
    RunsKeepInv(ss, acts, j);
    assert StepAt(ss, acts, j);
    if Runs(acts[j], e) {
      StatementProgress(ss[j], ss[j + 1], acts[j].c, e);
    } else {
      OthersKeep(ss[j], acts[j], ss[j + 1], e);
    }
  }

  // ---------------------------------------------------------------- when a call waits

  /** The statement that takes the guard of its lock, and the one that takes the queue lock. */
  predicate TakesGuard(p: PC) {
    p.AcqEnter? || p.AcqGuard? || p.RelEnter? || p.RelGuard?
  }

  predicate TakesQueues(p: PC) {
    p.SleepLock? || p.WakeLock?
  }

  /** Another environment is inside the guarded section of lock l, on another CPU. */
  ghost predicate GuardTaken(s: State, e: nat, l: nat) {
    exists x :: 0 <= x < |s.envs| && x != e && HoldsGuard(s.envs[x].pc, l)
  }

  /** A statement cannot go on exactly when it takes a spinlock that another holds. */
  lemma WaitsForHolder(s: State, c: nat, e: nat)
    requires Inv(s) && e < |s.envs| && At(s, c, e, s.envs[e].pc) && !s.envs[e].pc.Out?
    ensures var p := s.envs[e].pc;
      Apply(s, Exec(c, e)).None? <==>
      (TakesGuard(p) && GuardTaken(s, e, p.l)) || (TakesQueues(p) && s.qlock.Some? && s.qlock.value != c)
  {
    var p := s.envs[e].pc;
    ExecutingIsRunning(s, c, e);
    if TakesGuard(p) {
      GuardIsTaken(s, c, e, p.l);
    } else if p.WakeLoop? && |s.locks[p.l].chan| > 0 {
      assert QueueOk(s, Channel(p.l)) && Next(s.locks[p.l].chan) in s.locks[p.l].chan;
    }
  }

  lemma GuardIsTaken(s: State, c: nat, e: nat, l: nat)
    requires Inv(s) && e < |s.envs| && At(s, c, e, s.envs[e].pc) && TakesGuard(s.envs[e].pc) && s.envs[e].pc.l == l
    ensures GuardTaken(s, e, l) <==> s.locks[l].guard.Some?
  {
    if s.locks[l].guard.Some? {
      var d := s.locks[l].guard.value;
      assert LockOk(s, l) && GuardOk(s, l, d) && HoldsGuard(s.envs[s.cpus[d].proc.value].pc, l);
    }
    if x :| 0 <= x < |s.envs| && x != e && HoldsGuard(s.envs[x].pc, l) {
      assert EnvOk(s, x);
      assert CpuOk(s, s.envs[x].cpu.value) && GuardOk(s, l, s.envs[x].cpu.value);
    }
  }

  // ---------------------------------------------------------------- sleepers in line

  /** A sleeper is never set back in its channel, and leaves it only as the longest asleep, to be last in line
      for a CPU. */
  lemma SleepersInLine(s: State, a: Action, t: State, l: nat, x: nat)
    requires Inv(s) && Step(s, a, t) && l < |s.locks| && x in s.locks[l].chan
    ensures |t.locks| == |s.locks| && x < |t.envs| && Sized(t)
    ensures x in t.locks[l].chan ==> Ahead(t.locks[l].chan, x) <= Ahead(s.locks[l].chan, x)
    ensures x !in t.locks[l].chan ==>
      && Ahead(s.locks[l].chan, x) == 0 && t.q.status[x] == Ready
      && x in t.q.readyQ && Ahead(t.q.readyQ, x) == |s.q.readyQ|
  {
    assert QueueOk(s, Channel(l));
    if a.Exec? {
      SleepersInStatement(s, t, a.c, a.e, l, x);
    } else if a.Pick? {
      DispatchKeeps(s, t, a.c, x);
    }
  }

  lemma SleepersInStatement(s: State, t: State, c: nat, e: nat, l: nat, x: nat)
    requires Inv(s) && Step(s, Exec(c, e), t) && l < |s.locks| && x in s.locks[l].chan
    ensures |t.locks| == |s.locks| && x < |t.envs| && Sized(t)
    ensures x in t.locks[l].chan ==> Ahead(t.locks[l].chan, x) <= Ahead(s.locks[l].chan, x)
    ensures x !in t.locks[l].chan ==>
      && Ahead(s.locks[l].chan, x) == 0 && t.q.status[x] == Ready
      && x in t.q.readyQ && Ahead(t.q.readyQ, x) == |s.q.readyQ|
  {
    SleeperIsKnown(s, l, x);
    if s.envs[e].pc == SleepEnqueue(l) {
      ArrivalsQueueBehind(s.locks[l].chan, x, e);
      SleeperArrives(s, t, c, e, l);
    } else if s.envs[e].pc == WakeLoop(l) {
      SleeperIsOff(s, c, e, l, x);
      SleeperWakes(s, t, c, e, l, x);
    } else {
      ChannelStays(s, t, c, e, l);
    }
  }

  lemma SleeperIsKnown(s: State, l: nat, x: nat)
    requires Inv(s) && l < |s.locks| && x in s.locks[l].chan
    ensures x < |s.envs|
  {
    assert QueueOk(s, Channel(l));
  }

  lemma SleeperArrives(s: State, t: State, c: nat, e: nat, l: nat)
    requires Step(s, Exec(c, e), t) && e < |s.envs| && l < |s.locks| && s.envs[e].pc == SleepEnqueue(l)
    ensures |t.locks| == |s.locks| && |t.envs| == |s.envs| && Sized(t)
    ensures t.locks[l].chan == Enqueue(s.locks[l].chan, e)
  {
  }

  lemma ChannelStays(s: State, t: State, c: nat, e: nat, l: nat)
    requires Step(s, Exec(c, e), t) && e < |s.envs| && l < |s.locks|
    requires s.envs[e].pc != SleepEnqueue(l) && s.envs[e].pc != WakeLoop(l)
    ensures |t.locks| == |s.locks| && |t.envs| == |s.envs| && Sized(t) && t.locks[l].chan == s.locks[l].chan
  {
  }

  lemma SleeperWakes(s: State, t: State, c: nat, e: nat, l: nat, x: nat)
    requires Inv(s) && Step(s, Exec(c, e), t) && e < |s.envs| && l < |s.locks| && s.envs[e].pc == WakeLoop(l)
    requires x in s.locks[l].chan && x < |s.envs| && s.q.status[x] == Blocked && s.envs[x].place == Some(Channel(l))
    ensures |t.locks| == |s.locks| && |t.envs| == |s.envs| && Sized(t)
    ensures x in t.locks[l].chan ==> Ahead(t.locks[l].chan, x) <= Ahead(s.locks[l].chan, x)
    ensures x !in t.locks[l].chan ==>
      && Ahead(s.locks[l].chan, x) == 0 && t.q.status[x] == Ready
      && x in t.q.readyQ && Ahead(t.q.readyQ, x) == |s.q.readyQ|
  {
    assert QueueOk(s, ReadyPlace) && QueueOk(s, Channel(l));
    RestMembers(s.locks[l].chan);
    if Next(s.locks[l].chan) == x {
      ArrivalWaitsForAll(s.q.readyQ, x);
    }
  }

  /** Which environments the scheduling calls find, by their status. */
  lemma SchedulingCallsFind(s: State, x: nat)
    requires Inv(s) && x < |s.envs| && s.qlock.None?
    ensures Apply(s, Create(x)).Some? <==> s.q.status[x] == Free
    ensures Apply(s, Start(x)).Some? <==> s.q.status[x] == New
    ensures Apply(s, Retire(x)).Some? <==> s.q.status[x] == Ready && !s.envs[x].orphan
    ensures Apply(s, Action.Remove(x)).Some? <==>
      s.q.status[x] == New || s.q.status[x] == Exit || (s.q.status[x] == Ready && !s.envs[x].orphan)
  {
    assert EnvOk(s, x) && QueueOk(s, NewPlace) && QueueOk(s, ReadyPlace) && QueueOk(s, ExitPlace);
    if s.envs[x].cpu.Some? {
      QuietCpus(s, s.envs[x].cpu.value);
    }
  }

  /** A running environment may always call, and yield or exit whenever no spinlock is in the way. */
  lemma RunningMay(s: State, c: nat, e: nat, l: nat)
    requires Inv(s) && l < |s.locks| && e < |s.envs| && At(s, c, e, s.envs[e].pc)
    ensures Apply(s, Call(c, e, AcqEnter(l))).Some? <==> s.envs[e].pc.Out?
    ensures Apply(s, Call(c, e, RelEnter(l))).Some? <==> s.envs[e].pc.Out?
    ensures Apply(s, Finish(c, e)).Some? <==> s.envs[e].pc.Out? && s.qlock.None?
    ensures Apply(s, Yield(c, e)).Some? <==>
      s.qlock.None? && forall m :: 0 <= m < |s.locks| ==> s.locks[m].guard != Some(c)
  {
    assert CpuOk(s, c) && EnvOk(s, e);
    if m :| 0 <= m < |s.locks| && s.locks[m].guard == Some(c) {
      assert GuardOk(s, m, c);
    }
    if !s.envs[e].pc.Out? {
      assert GuardOk(s, s.envs[e].pc.l, c);
    }
  }
}
