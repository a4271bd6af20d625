/** Spinlocks and interrupt nesting, as a transition system over any number of CPUs, one memory access at a time. */
module Spinlock {
  import opened Wrappers

  /** Why interrupts are being disabled. */
  datatype Job = AcquireCheck(l: nat) | Acquire(l: nat) | ReleaseCheck(l: nat)

  /** Where a CPU is: pushcli, holding_spinlock, the spin loop, and the steps of release_spinlock. */
  datatype PC =
    | Between
    | PushRead(j: Job) | PushClear(j: Job, eflags: bool) | PushCount(j: Job, eflags: bool)
    | ReadLocked(j: Job) | ReadCpu(j: Job) | PopCheck(j: Job, r: bool)
    | Spin(l: nat) | SetCpu(l: nat)
    | ClearCpu(l: nat) | Unlock(l: nat) | PopRelease(l: nat)
    | Panic

  /** held and outer are history: the locks acquired and not released, and the interrupt flag as it was
      when the CPU was last outside all pushcli pairs. */
  datatype Cpu = Cpu(pc: PC, interrupts: bool, ncli: int, intena: bool, held: set<nat>, outer: bool)

  /** owner is history: the CPU whose xchg last found the lock free. */
  datatype Lock = Lock(locked: bool, cpu: Option<nat>, owner: Option<nat>)

  datatype State = State(cpus: seq<Cpu>, locks: seq<Lock>)

  datatype Action =
    | CallAcquire(c: nat, l: nat) | CallRelease(c: nat, l: nat)
    | Interrupts(c: nat, on: bool)   // sti or cli by code outside all locks
    | Exec(c: nat)

  function After(j: Job): PC {
    match j
    case AcquireCheck(_) => ReadLocked(j)
    case ReleaseCheck(_) => ReadLocked(j)
    case Acquire(l) => Spin(l)
  }

  /** popcli, and where to go on; it panics when interrupts are on or there is nothing to pop. */
  function Pop(u: Cpu, next: PC): Cpu {
    if u.interrupts || u.ncli - 1 < 0 then u.(pc := Panic)
    else u.(pc := next, ncli := u.ncli - 1, interrupts := u.ncli - 1 == 0 && u.intena)
  }

  function Update(s: State, c: nat, u: Cpu): State
    requires c < |s.cpus|
  {
    s.(cpus := s.cpus[c := u])
  }

  function UpdateLock(s: State, l: nat, k: Lock): State
    requires l < |s.locks|
  {
    s.(locks := s.locks[l := k])
  }

  predicate Names(p: PC, l: nat) {
    match p
    case Between => false
    case PushRead(j) => j.l == l
    case PushClear(j, _) => j.l == l
    case PushCount(j, _) => j.l == l
    case ReadLocked(j) => j.l == l
    case ReadCpu(j) => j.l == l
    case PopCheck(j, _) => j.l == l
    case Spin(m) => m == l
    case SetCpu(m) => m == l
    case ClearCpu(m) => m == l
    case Unlock(m) => m == l
    case PopRelease(m) => m == l
    case Panic => false
  }

  /** The next memory access of CPU c; l is the lock its call is about. */
  function Next(s: State, c: nat, l: nat): State
    requires c < |s.cpus| && l < |s.locks| && Names(s.cpus[c].pc, l)
  {
    var u, k := s.cpus[c], s.locks[l];
    match u.pc
    case PushRead(j) => Update(s, c, u.(pc := PushClear(j, u.interrupts)))
    case PushClear(j, e) => Update(s, c, u.(pc := PushCount(j, e), interrupts := false))
    case PushCount(j, e) =>
      Update(s, c, u.(pc := After(j), intena := if u.ncli == 0 then e else u.intena, ncli := u.ncli + 1))
    case ReadLocked(j) => Update(s, c, u.(pc := if k.locked then ReadCpu(j) else PopCheck(j, false)))
    case ReadCpu(j) => Update(s, c, u.(pc := PopCheck(j, k.cpu == Some(c))))
    case PopCheck(j, r) =>
      Update(s, c, Pop(u, match j
        case AcquireCheck(m) => if r then Panic else PushRead(Acquire(m))
        case ReleaseCheck(m) => if r then ClearCpu(m) else Panic
        case Acquire(m) => Panic))
    // xchg: the only access that both reads and writes
    case Spin(_) =>
      if k.locked then s
      else Update(UpdateLock(s, l, k.(locked := true, owner := Some(c))), c, u.(pc := SetCpu(l), held := u.held + {l}))
    case SetCpu(_) => Update(UpdateLock(s, l, k.(cpu := Some(c))), c, u.(pc := Between))
    case ClearCpu(_) => Update(UpdateLock(s, l, k.(cpu := None)), c, u.(pc := Unlock(l)))
    case Unlock(_) =>
      Update(UpdateLock(s, l, k.(locked := false, owner := None)), c, u.(pc := PopRelease(l), held := u.held - {l}))
    case PopRelease(_) => Update(s, c, Pop(u, Between))
    case _ => s
  }

  ghost predicate Step(s: State, a: Action, t: State) {
    match a
    case CallAcquire(c, l) =>
      && c < |s.cpus| && l < |s.locks| && s.cpus[c].pc.Between?
      && t == Update(s, c, s.cpus[c].(pc := PushRead(AcquireCheck(l))))
    case CallRelease(c, l) =>
      && c < |s.cpus| && l < |s.locks| && s.cpus[c].pc.Between?
      && t == Update(s, c, s.cpus[c].(pc := PushRead(ReleaseCheck(l))))
    case Interrupts(c, on) =>
      && c < |s.cpus| && s.cpus[c].pc.Between? && s.cpus[c].ncli == 0
      && t == Update(s, c, s.cpus[c].(interrupts := on, outer := on))
    case Exec(c) =>
      c < |s.cpus| && exists l :: 0 <= l < |s.locks| && Names(s.cpus[c].pc, l) && t == Next(s, c, l)
  }

  ghost predicate Init(s: State) {
    && (forall c :: 0 <= c < |s.cpus| ==>
          s.cpus[c] == Cpu(Between, s.cpus[c].outer, 0, s.cpus[c].intena, {}, s.cpus[c].outer))
    && (forall l :: 0 <= l < |s.locks| ==> s.locks[l] == Lock(false, None, None))
  }

  // ---------------------------------------------------------------- the invariant

  /** A pushcli of the CPU that is not the one of a held lock. */
  function Extra(p: PC): int {
    if p.ReadLocked? || p.ReadCpu? || p.PopCheck? || p.Spin? || p.PopRelease? then 1 else 0
  }

  /** ncli counts the locks held, and interrupts are off while it is positive and as they were outside it. */
  ghost predicate NestingOk(u: Cpu) {
    || u.pc.Panic?
    || (&& u.ncli == |u.held| + Extra(u.pc)
        && (u.ncli > 0 ==> !u.interrupts && u.intena == u.outer)
        && (u.ncli == 0 ==> if u.pc.PushCount? then !u.interrupts else u.interrupts == u.outer)
        && ((u.pc.PushClear? || u.pc.PushCount?) && u.ncli == 0 ==> u.pc.eflags == u.outer))
  }

  function JobOf(p: PC): Option<Job> {
    match p
    case PushRead(j) => Some(j)
    case PushClear(j, _) => Some(j)
    case PushCount(j, _) => Some(j)
    case ReadLocked(j) => Some(j)
    case ReadCpu(j) => Some(j)
    case PopCheck(j, _) => Some(j)
    case _ => None
  }

  /** What the CPU's place in a call says about the lock. */
  ghost predicate PlaceOk(u: Cpu) {
    && (JobOf(u.pc).Some? && JobOf(u.pc).value.Acquire? ==>
          !u.pc.ReadLocked? && !u.pc.ReadCpu? && !u.pc.PopCheck? && JobOf(u.pc).value.l !in u.held)
    && (u.pc.PopCheck? ==> (u.pc.r <==> u.pc.j.l in u.held))
    && (u.pc.Spin? || u.pc.PopRelease? ==> u.pc.l !in u.held)
    && (u.pc.SetCpu? || u.pc.ClearCpu? || u.pc.Unlock? ==> u.pc.l in u.held)
  }

  ghost predicate CpuOk(s: State, c: nat)
    requires c < |s.cpus|
  {
    NestingOk(s.cpus[c]) && PlaceOk(s.cpus[c]) && forall l :: l in s.cpus[c].held ==> l < |s.locks|
  }

  /** CPU c holds lock l exactly when it is the owner, and the lock's cpu field never names another CPU. */
  ghost predicate OwnerOk(s: State, l: nat, c: nat)
    requires l < |s.locks| && c < |s.cpus|
  {
    var k, u := s.locks[l], s.cpus[c];
    && (l in u.held <==> k.owner == Some(c))
    && (k.cpu == Some(c) ==> k.owner == Some(c))
    && (k.owner == Some(c) ==> k.cpu == Some(c) || u.pc == SetCpu(l) || u.pc == Unlock(l))
    && (u.pc == Unlock(l) ==> k.cpu != Some(c))
  }

  ghost predicate LockOk(s: State, l: nat)
    requires l < |s.locks|
  {
    (s.locks[l].locked <==> s.locks[l].owner.Some?) && (s.locks[l].owner.Some? ==> s.locks[l].owner.value < |s.cpus|)
  }

  ghost predicate Inv(s: State) {
    && (forall c :: 0 <= c < |s.cpus| ==> CpuOk(s, c))
    && (forall l :: 0 <= l < |s.locks| ==> LockOk(s, l))
    && (forall l, c :: 0 <= l < |s.locks| && 0 <= c < |s.cpus| ==> OwnerOk(s, l, c))
  }

  /** A step of CPU c that touches no lock but l. */
  ghost predicate Local(s: State, t: State, c: nat, l: nat) {
    && c < |s.cpus| == |t.cpus| && l < |s.locks| == |t.locks|
    && t.cpus == s.cpus[c := t.cpus[c]] && t.locks == s.locks[l := t.locks[l]]
  }

  lemma LocalInv(s: State, t: State, c: nat, l: nat)
    requires Inv(s) && Local(s, t, c, l) && CpuOk(t, c) && LockOk(t, l)
    requires forall m :: m != l ==> (m in t.cpus[c].held <==> m in s.cpus[c].held)
    requires !s.cpus[c].pc.SetCpu? || s.cpus[c].pc.l == l
    requires !s.cpus[c].pc.Unlock? || s.cpus[c].pc.l == l
    requires !t.cpus[c].pc.Unlock? || t.cpus[c].pc.l == l
    requires OwnerOk(t, l, c)
    requires forall d :: 0 <= d < |s.cpus| && d != c ==> OwnerOk(t, l, d)
    ensures Inv(t)
  {
    forall d | 0 <= d < |t.cpus| ensures CpuOk(t, d) { assert CpuOk(s, d); }
    forall m | 0 <= m < |t.locks| ensures LockOk(t, m) { assert LockOk(s, m); }
    forall m, d | 0 <= m < |t.locks| && 0 <= d < |t.cpus| ensures OwnerOk(t, m, d) { assert OwnerOk(s, m, d); }
  }

  lemma PopNests(u: Cpu, next: PC)
    requires NestingOk(u) && (u.pc.PopCheck? || u.pc.PopRelease?) && Extra(next) == 0 && !next.PushCount?
    requires !next.PushClear?
    ensures NestingOk(Pop(u, next)) && Pop(u, next).pc == next && Pop(u, next).held == u.held
  {
  }

  /** The spin loop, and the stores around it. */
  predicate TouchesLock(p: PC) {
    p.Spin? || p.SetCpu? || p.ClearCpu? || p.Unlock?
  }

  /** A step that only reads the lock. */
  lemma PrivateInv(s: State, t: State, c: nat, l: nat)
    requires Inv(s) && c < |s.cpus| && l < |s.locks| && Names(s.cpus[c].pc, l) && t == Next(s, c, l)
    requires !TouchesLock(s.cpus[c].pc)
    ensures Inv(t)
  {
    assert CpuOk(s, c) && LockOk(s, l) && OwnerOk(s, l, c);
    PrivateCpu(s, t, c, l);
    forall d | 0 <= d < |t.cpus| ensures CpuOk(t, d) { assert CpuOk(s, d); }
    forall m | 0 <= m < |t.locks| ensures LockOk(t, m) { assert LockOk(s, m); }
    forall m, d | 0 <= m < |t.locks| && 0 <= d < |t.cpus| ensures OwnerOk(t, m, d) { assert OwnerOk(s, m, d); }
  }

  lemma PrivateCpu(s: State, t: State, c: nat, l: nat)
    requires Inv(s) && c < |s.cpus| && l < |s.locks| && Names(s.cpus[c].pc, l) && t == Next(s, c, l)
    requires !TouchesLock(s.cpus[c].pc)
    ensures t.locks == s.locks && t == Update(s, c, t.cpus[c]) && CpuOk(t, c) && t.cpus[c].held == s.cpus[c].held
    ensures !t.cpus[c].pc.SetCpu? && !t.cpus[c].pc.Unlock?
  {
    var u := s.cpus[c];
    assert CpuOk(s, c) && LockOk(s, l) && OwnerOk(s, l, c);
    if u.pc.PopCheck? {
      PopNests(u, match u.pc.j
        case AcquireCheck(m) => if u.pc.r then Panic else PushRead(Acquire(m))
        case ReleaseCheck(m) => if u.pc.r then ClearCpu(m) else Panic
        case Acquire(m) => Panic);
    } else if u.pc.PopRelease? {
      PopNests(u, Between);
    }
  }

  /** xchg takes the lock if it was free. */
  lemma SpinInv(s: State, t: State, c: nat, l: nat)
    requires Inv(s) && c < |s.cpus| && l < |s.locks| && s.cpus[c].pc == Spin(l) && t == Next(s, c, l)
    ensures Inv(t)
  {
    var u := s.cpus[c];
    assert CpuOk(s, c) && LockOk(s, l) && OwnerOk(s, l, c);
    if !s.locks[l].locked {
      assert |u.held + {l}| == |u.held| + 1;
      forall d | 0 <= d < |s.cpus| && d != c ensures OwnerOk(t, l, d) { assert OwnerOk(s, l, d); }
      LocalInv(s, t, c, l);
    }
  }

  lemma StoreInv(s: State, t: State, c: nat, l: nat)
    requires Inv(s) && c < |s.cpus| && l < |s.locks| && Names(s.cpus[c].pc, l) && t == Next(s, c, l)
    requires s.cpus[c].pc.SetCpu? || s.cpus[c].pc.ClearCpu?
    ensures Inv(t)
  {
    assert CpuOk(s, c) && LockOk(s, l) && OwnerOk(s, l, c);
    forall d | 0 <= d < |s.cpus| && d != c ensures OwnerOk(t, l, d) { assert OwnerOk(s, l, d); }
    LocalInv(s, t, c, l);
  }

  lemma UnlockInv(s: State, t: State, c: nat, l: nat)
    requires Inv(s) && c < |s.cpus| && l < |s.locks| && s.cpus[c].pc == Unlock(l) && t == Next(s, c, l)
    ensures Inv(t)
  {
    var u := s.cpus[c];
    assert CpuOk(s, c) && LockOk(s, l) && OwnerOk(s, l, c);
    assert |u.held - {l}| == |u.held| - 1;
    forall d | 0 <= d < |s.cpus| && d != c ensures OwnerOk(t, l, d) { assert OwnerOk(s, l, d); }
    LocalInv(s, t, c, l);
  }

  /** Every step keeps the invariant. */
  lemma StepInv(s: State, a: Action, t: State)
    requires Inv(s) && Step(s, a, t)
    ensures Inv(t)
  {
    if a.Exec? {
      var l: nat :| l < |s.locks| && Names(s.cpus[a.c].pc, l) && t == Next(s, a.c, l);
      match s.cpus[a.c].pc
      case Spin(_) => SpinInv(s, t, a.c, l);
      case SetCpu(_) => StoreInv(s, t, a.c, l);
      case ClearCpu(_) => StoreInv(s, t, a.c, l);
      case Unlock(_) => UnlockInv(s, t, a.c, l);
      case _ => PrivateInv(s, t, a.c, l);
    } else {
      assert CpuOk(s, a.c);
      forall d | 0 <= d < |t.cpus| ensures CpuOk(t, d) { assert CpuOk(s, d); }
      forall m | 0 <= m < |t.locks| ensures LockOk(t, m) { assert LockOk(s, m); }
      forall m, d | 0 <= m < |t.locks| && 0 <= d < |t.cpus| ensures OwnerOk(t, m, d) { assert OwnerOk(s, m, d); }
    }
  }

  // ---------------------------------------------------------------- runs

  ghost predicate StepAt(ss: seq<State>, acts: seq<Action>, i: nat)
    requires i < |acts| < |ss|
  {
    Step(ss[i], acts[i], ss[i + 1])
  }

  ghost predicate Behaviour(ss: seq<State>, acts: seq<Action>) {
    && |ss| == |acts| + 1 && Init(ss[0])
    && forall i :: 0 <= i < |acts| ==> StepAt(ss, acts, i)
  }

  lemma InitInv(s: State)
    requires Init(s)
    ensures Inv(s)
  {
    forall c | 0 <= c < |s.cpus| ensures CpuOk(s, c) {
      assert s.cpus[c] == Cpu(Between, s.cpus[c].outer, 0, s.cpus[c].intena, {}, s.cpus[c].outer);
    }
  }

  lemma {:induction false} RunsKeepInv(ss: seq<State>, acts: seq<Action>, k: nat)
    requires Behaviour(ss, acts) && k < |ss|
    ensures Inv(ss[k])
  {
    if k == 0 {
      InitInv(ss[0]);
    } else {
      RunsKeepInv(ss, acts, k - 1);
      assert StepAt(ss, acts, k - 1);
      StepInv(ss[k - 1], acts[k - 1], ss[k]);
    }
  }

  /** Over all CPUs, a spinlock is held by one at most, and it is marked locked exactly while it is held. */
  lemma OneHolder(ss: seq<State>, acts: seq<Action>, k: nat, l: nat, c: nat, d: nat)
    requires Behaviour(ss, acts) && k < |ss| && l < |ss[k].locks| && c < |ss[k].cpus| && d < |ss[k].cpus|
    ensures l in ss[k].cpus[c].held && l in ss[k].cpus[d].held ==> c == d
    ensures ss[k].locks[l].locked <==> exists x :: 0 <= x < |ss[k].cpus| && l in ss[k].cpus[x].held
  {
    var s := ss[k];
    RunsKeepInv(ss, acts, k);
    assert OwnerOk(s, l, c) && OwnerOk(s, l, d) && LockOk(s, l);
    if s.locks[l].locked {
      assert OwnerOk(s, l, s.locks[l].owner.value);
    }
    if x :| 0 <= x < |s.cpus| && l in s.cpus[x].held {
      assert OwnerOk(s, l, x);
    }
  }

  /** Between calls ncli is the number of spinlocks the CPU holds; interrupts are off while it is positive,
      and as the CPU last set them itself when it is zero. */
  lemma NestingCounts(ss: seq<State>, acts: seq<Action>, k: nat, c: nat)
    requires Behaviour(ss, acts) && k < |ss| && c < |ss[k].cpus| && ss[k].cpus[c].pc.Between?
    ensures var u := ss[k].cpus[c];
      u.ncli == |u.held| && u.interrupts == (u.held == {} && u.outer)
  {
    RunsKeepInv(ss, acts, k);
    assert CpuOk(ss[k], c);
  }

  /** holding_spinlock is exact for its caller, although it reads the two fields at different times; so
      acquire_spinlock panics exactly on a lock the CPU holds, and release_spinlock on one it does not. */
  lemma CheckIsExact(ss: seq<State>, acts: seq<Action>, k: nat, c: nat)
    requires Behaviour(ss, acts) && k < |ss| && c < |ss[k].cpus| && ss[k].cpus[c].pc.PopCheck?
    ensures var u := ss[k].cpus[c]; u.pc.r <==> u.pc.j.l in u.held
    ensures var u := ss[k].cpus[c]; !u.pc.j.Acquire? && Pop(u, Between).pc.Between?
  {
    RunsKeepInv(ss, acts, k);
    assert CpuOk(ss[k], c);
  }

  /** popcli at the end of a release never panics. */
  lemma ReleasePops(ss: seq<State>, acts: seq<Action>, k: nat, c: nat)
    requires Behaviour(ss, acts) && k < |ss| && c < |ss[k].cpus| && ss[k].cpus[c].pc.PopRelease?
    ensures var u := ss[k].cpus[c];
      Pop(u, Between).pc.Between? && Pop(u, Between).interrupts == (u.held == {} && u.outer)
  {
    RunsKeepInv(ss, acts, k);
    assert CpuOk(ss[k], c);
  }

  // ---------------------------------------------------------------- what a call achieves

  /** CPU u is in a call of acquire_spinlock(l) that it made holding h, or at its end. */
  ghost predicate Acquiring(u: Cpu, l: nat, h: set<nat>) {
    match u.pc
    case Panic => l in h && u.held == h
    case Between => l !in h && u.held == h + {l}
    case SetCpu(m) => m == l && l !in h && u.held == h + {l}
    case Spin(m) => m == l && l !in h && u.held == h
    case _ =>
      && u.held == h && JobOf(u.pc).Some?
      && (JobOf(u.pc).value == AcquireCheck(l) || (JobOf(u.pc).value == Acquire(l) && l !in h))
  }

  /** The same for release_spinlock(l). */
  ghost predicate Releasing(u: Cpu, l: nat, h: set<nat>) {
    match u.pc
    case Panic => l !in h && u.held == h
    case Between => l in h && u.held == h - {l}
    case PopRelease(m) => m == l && l in h && u.held == h - {l}
    case ClearCpu(m) => m == l && l in h && u.held == h
    case Unlock(m) => m == l && l in h && u.held == h
    case _ => u.held == h && JobOf(u.pc) == Some(ReleaseCheck(l))
  }

  /** A step leaves every CPU but its own alone. */
  lemma OtherCpus(s: State, a: Action, t: State, c: nat)
    requires Step(s, a, t) && c < |s.cpus| && a != Exec(c) && !s.cpus[c].pc.Between?
    ensures |t.cpus| == |s.cpus| && t.cpus[c] == s.cpus[c]
  {
  }

  lemma AcquireStep(s: State, a: Action, t: State, c: nat, l: nat, h: set<nat>)
    requires Inv(s) && Step(s, a, t) && c < |s.cpus| && Acquiring(s.cpus[c], l, h) && !s.cpus[c].pc.Between?
    ensures c < |t.cpus| && Acquiring(t.cpus[c], l, h)
  {
    if a == Exec(c) {
      assert CpuOk(s, c);
    } else {
      OtherCpus(s, a, t, c);
    }
  }

  lemma ReleaseStep(s: State, a: Action, t: State, c: nat, l: nat, h: set<nat>)
    requires Inv(s) && Step(s, a, t) && c < |s.cpus| && Releasing(s.cpus[c], l, h) && !s.cpus[c].pc.Between?
    ensures c < |t.cpus| && Releasing(t.cpus[c], l, h)
  {
    if a == Exec(c) {
      assert CpuOk(s, c);
    } else {
      OtherCpus(s, a, t, c);
    }
  }

  /** CPU c is never between calls in states i + 1 .. k - 1. */
  ghost predicate Busy(ss: seq<State>, c: nat, i: nat, k: nat) {
    k <= |ss| && forall j :: i < j < k ==> c < |ss[j].cpus| && !ss[j].cpus[c].pc.Between?
  }

  lemma {:induction false} AcquireRuns(ss: seq<State>, acts: seq<Action>, i: nat, k: nat, c: nat, l: nat)
    requires Behaviour(ss, acts) && i < k < |ss| && acts[i] == CallAcquire(c, l) && Busy(ss, c, i, k)
    ensures c < |ss[i].cpus| && c < |ss[k].cpus| && Acquiring(ss[k].cpus[c], l, ss[i].cpus[c].held)
  {
    assert StepAt(ss, acts, k - 1);
    if k > i + 1 {
      AcquireRuns(ss, acts, i, k - 1, c, l);
      RunsKeepInv(ss, acts, k - 1);
      AcquireStep(ss[k - 1], acts[k - 1], ss[k], c, l, ss[i].cpus[c].held);
    }
  }

  lemma {:induction false} ReleaseRuns(ss: seq<State>, acts: seq<Action>, i: nat, k: nat, c: nat, l: nat)
    requires Behaviour(ss, acts) && i < k < |ss| && acts[i] == CallRelease(c, l) && Busy(ss, c, i, k)
    ensures c < |ss[i].cpus| && c < |ss[k].cpus| && Releasing(ss[k].cpus[c], l, ss[i].cpus[c].held)
  {
    assert StepAt(ss, acts, k - 1);
    if k > i + 1 {
      ReleaseRuns(ss, acts, i, k - 1, c, l);
      RunsKeepInv(ss, acts, k - 1);
      ReleaseStep(ss[k - 1], acts[k - 1], ss[k], c, l, ss[i].cpus[c].held);
    }
  }

  /** acquire_spinlock returns with the lock, which then names this CPU; it panics exactly when the CPU had the
      lock already. */
  lemma AcquireAchieves(ss: seq<State>, acts: seq<Action>, i: nat, k: nat, c: nat, l: nat)
    requires Behaviour(ss, acts) && i < k < |ss| && acts[i] == CallAcquire(c, l) && Busy(ss, c, i, k)
    ensures c < |ss[i].cpus| && c < |ss[k].cpus| && l < |ss[k].locks|
    ensures var h, u := ss[i].cpus[c].held, ss[k].cpus[c];
      && (u.pc.Between? ==> u.held == h + {l} && ss[k].locks[l].locked && ss[k].locks[l].cpu == Some(c))
      && (u.pc.Between? || u.pc.Panic? ==> (u.pc.Panic? <==> l in h))
  {
    AcquireRuns(ss, acts, i, k, c, l);
    LocksStay(ss, acts, i, k);
    RunsKeepInv(ss, acts, k);
    assert StepAt(ss, acts, i) && OwnerOk(ss[k], l, c) && LockOk(ss[k], l);
  }

  /** release_spinlock returns without the lock; it panics exactly when the CPU did not have it. */
  lemma ReleaseAchieves(ss: seq<State>, acts: seq<Action>, i: nat, k: nat, c: nat, l: nat)
    requires Behaviour(ss, acts) && i < k < |ss| && acts[i] == CallRelease(c, l) && Busy(ss, c, i, k)
    ensures c < |ss[i].cpus| && c < |ss[k].cpus|
    ensures var h, u := ss[i].cpus[c].held, ss[k].cpus[c];
      && (u.pc.Between? ==> u.held == h - {l})
      && (u.pc.Between? || u.pc.Panic? ==> (u.pc.Panic? <==> l !in h))
  {
    ReleaseRuns(ss, acts, i, k, c, l);
  }

  lemma {:induction false} LocksStay(ss: seq<State>, acts: seq<Action>, i: nat, k: nat)
    requires Behaviour(ss, acts) && i <= k < |ss|
    ensures |ss[k].locks| == |ss[i].locks|
  {
    if i < k {
      LocksStay(ss, acts, i, k - 1);
      assert StepAt(ss, acts, k - 1);
    }
  }

  // ---------------------------------------------------------------- how long a call takes

  /** How many memory accesses a call has left at most, if its xchg succeeds at once. */
  function Left(p: PC): nat {
    match p
    case Between => 0
    case Panic => 0
    case PushRead(j) => 5 + CheckLeft(j)
    case PushClear(j, _) => 4 + CheckLeft(j)
    case PushCount(j, _) => 3 + CheckLeft(j)
    case ReadLocked(j) => 2 + CheckLeft(j)
    case ReadCpu(j) => 1 + CheckLeft(j)
    case PopCheck(j, _) => CheckLeft(j)
    case Spin(_) => 2
    case SetCpu(_) => 1
    case ClearCpu(_) => 3
    case Unlock(_) => 2
    case PopRelease(_) => 1
  }

  function CheckLeft(j: Job): nat {
    match j
    case AcquireCheck(_) => 6
    case ReleaseCheck(_) => 4
    case Acquire(_) => 0
  }

  /** CPU c's next access is an xchg that finds its lock held. */
  ghost predicate Waits(s: State, c: nat) {
    && c < |s.cpus| && s.cpus[c].pc.Spin? && s.cpus[c].pc.l < |s.locks|
    && exists d :: 0 <= d < |s.cpus| && d != c && s.cpus[c].pc.l in s.cpus[d].held
  }

  /** Every access of a CPU brings its call nearer to its end, unless another CPU holds the lock it spins on. */
  lemma AccessProgress(s: State, t: State, c: nat)
    requires Inv(s) && Step(s, Exec(c), t)
    ensures c < |t.cpus| && if Waits(s, c) then t == s else Left(t.cpus[c].pc) < Left(s.cpus[c].pc)
  {
    if s.cpus[c].pc.Spin? {
      SpinProgress(s, t, c);
    } else {
      PlainProgress(s, t, c);
    }
  }

  lemma SpinProgress(s: State, t: State, c: nat)
    requires Inv(s) && Step(s, Exec(c), t) && s.cpus[c].pc.Spin?
    ensures c < |t.cpus| && if Waits(s, c) then t == s else Left(t.cpus[c].pc) < Left(s.cpus[c].pc)
  {
    SpinWaits(s, c, s.cpus[c].pc.l);
  }

  lemma PlainProgress(s: State, t: State, c: nat)
    requires Inv(s) && Step(s, Exec(c), t) && !s.cpus[c].pc.Spin?
    ensures c < |t.cpus| && Left(t.cpus[c].pc) < Left(s.cpus[c].pc)
  {
    assert CpuOk(s, c);
    var l: nat :| l < |s.locks| && Names(s.cpus[c].pc, l) && t == Next(s, c, l);
    NextProgress(s, c, l);
  }

  lemma NextProgress(s: State, c: nat, l: nat)
    requires c < |s.cpus| && l < |s.locks| && Names(s.cpus[c].pc, l) && !s.cpus[c].pc.Spin? && PlaceOk(s.cpus[c])
    ensures c < |Next(s, c, l).cpus| && Left(Next(s, c, l).cpus[c].pc) < Left(s.cpus[c].pc)
  {
  }

  lemma SpinWaits(s: State, c: nat, l: nat)
    requires Inv(s) && c < |s.cpus| && s.cpus[c].pc == Spin(l) && l < |s.locks|
    ensures Waits(s, c) <==> s.locks[l].locked
  {
    assert CpuOk(s, c) && LockOk(s, l);
    if s.locks[l].locked {
      assert OwnerOk(s, l, s.locks[l].owner.value) && OwnerOk(s, l, c);
    }
    if d :| 0 <= d < |s.cpus| && d != c && l in s.cpus[d].held {
      assert OwnerOk(s, l, d);
    }
  }

  /** The accesses of CPU c among actions i .. k - 1 that are not spent waiting. */
  ghost function Work(ss: seq<State>, acts: seq<Action>, c: nat, i: nat, k: nat): nat
    requires i <= k <= |acts| < |ss|
  {
    if i == k then 0
    else Work(ss, acts, c, i, k - 1) + if acts[k - 1] == Exec(c) && !Waits(ss[k - 1], c) then 1 else 0
  }

  /** A call ends after eleven accesses at most that are not spent waiting for another CPU's lock. */
  lemma {:induction false} CallIsShort(ss: seq<State>, acts: seq<Action>, i: nat, k: nat, c: nat)
    requires Behaviour(ss, acts) && i < k < |ss| && Busy(ss, c, i, k)
    requires c < |ss[i].cpus| && ss[i].cpus[c].pc.Between? && !acts[i].Interrupts?
    ensures c < |ss[k].cpus| && Work(ss, acts, c, i + 1, k) + Left(ss[k].cpus[c].pc) <= 11
  {
    assert StepAt(ss, acts, k - 1);
    if k == i + 1 {
      CallStarts(ss[i], acts[i], ss[k], c);
    } else {
      CallIsShort(ss, acts, i, k - 1, c);
      RunsKeepInv(ss, acts, k - 1);
      if acts[k - 1] == Exec(c) {
        AccessProgress(ss[k - 1], ss[k], c);
      } else {
        OtherCpus(ss[k - 1], acts[k - 1], ss[k], c);
      }
    }
  }

  lemma CallStarts(s: State, a: Action, t: State, c: nat)
    requires Step(s, a, t) && c < |s.cpus| && s.cpus[c].pc.Between? && !a.Interrupts?
    ensures c < |t.cpus| && Left(t.cpus[c].pc) <= 11
  {
  }
}
