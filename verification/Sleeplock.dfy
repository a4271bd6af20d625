/** Sleeping locks over the scheduler, as a transition system: any number of CPUs, environments and locks. */
module Sleeplock {
  import opened Wrappers
  import opened Scheduler

  /** Where an environment is in acquire_sleeplock and release_sleeplock of lock l; Out is anywhere else. */
  datatype PC =
    | Out
    // acquire_sleeplock: the check by holding_sleeplock, the guarded loop, sleep, taking the lock
    | AcqEnter(l: nat) | AcqCheck(l: nat) | AcqGuard(l: nat) | AcqLoop(l: nat)
    | SleepLock(l: nat) | SleepEnqueue(l: nat) | SleepDrop(l: nat) | SleepBlock(l: nat)
    | AcqTake(l: nat) | AcqName(l: nat) | AcqLeave(l: nat)
    // release_sleeplock: the check, wakeup_all, giving the lock up
    | RelEnter(l: nat) | RelCheck(l: nat) | RelGuard(l: nat)
    | WakeLock(l: nat) | WakeLoop(l: nat)
    | RelFree(l: nat) | RelUnname(l: nat) | RelLeave(l: nat)

  /** The guard spinlock of lock l is held. */
  predicate HoldsGuard(p: PC, l: nat) {
    && !p.Out? && p.l == l
    && (|| p.AcqCheck? || p.AcqLoop? || p.SleepLock? || p.SleepEnqueue? || p.SleepDrop? || p.AcqTake? || p.AcqName?
        || p.AcqLeave? || p.RelCheck? || p.WakeLock? || p.WakeLoop? || p.RelFree? || p.RelUnname? || p.RelLeave?)
  }

  /** The queue lock is held. */
  predicate HoldsQueues(p: PC) {
    p.SleepEnqueue? || p.SleepDrop? || p.SleepBlock? || p.WakeLoop?
  }

  predicate HoldsAny(p: PC) {
    HoldsQueues(p) || (!p.Out? && HoldsGuard(p, p.l))
  }

  /** The queue an environment is in. */
  datatype Place = NewPlace | ReadyPlace | ExitPlace | Channel(l: nat)

  /** has, place, cpu and orphan are history: the locks acquired and not released, the queue entered and
      not left, the CPU given and not taken, and whether the environment was killed while it was ready. */
  datatype Env = Env(pc: PC, has: set<nat>, place: Option<Place>, cpu: Option<nat>, orphan: bool)

  /** owner is history: who took the lock last and has not given it up. */
  datatype Lock = Lock(guard: Option<nat>, locked: bool, pid: nat, chan: Queue, owner: Option<nat>)

  /** What a CPU does: it looks for work without the queue lock, picks an environment under it, has
      switched to an environment that still holds it, runs one, or was just given up by one. */
  datatype Mode = Idle | Picking | Returning | Executing | Given

  datatype Cpu = Cpu(mode: Mode, proc: Option<nat>)

  datatype State = State(q: Queues, qlock: Option<nat>, envs: seq<Env>, cpus: seq<Cpu>, locks: seq<Lock>)

  /** Environment e is executing on CPU c, with its program counter at p. */
  predicate At(s: State, c: nat, e: nat, p: PC) {
    && c < |s.cpus| && s.cpus[c] == Cpu(Executing, Some(e)) && e < |s.envs|
    && s.envs[e].pc == p && (p.Out? || p.l < |s.locks|)
  }

  predicate Sized(s: State) {
    |s.q.status| == |s.envs|
  }

  // ---------------------------------------------------------------- the steps

  datatype Action =
    | Call(c: nat, e: nat, p: PC)        // an environment outside calls acquire or release
    | Exec(c: nat, e: nat)               // the next statement of the call it is in
    | Yield(c: nat, e: nat)              // a clock interrupt, only when no spinlock is held
    | Finish(c: nat, e: nat)             // the running environment exits
    // scheduler calls, each under the queue lock
    | Create(x: nat) | Start(x: nat) | StartAll | Retire(x: nat) | RetireAll | Remove(x: nat)
    // the scheduler's own loop
    | Enter(c: nat) | Pick(c: nat) | Back(c: nat) | Settle(c: nat)

  function Goto(s: State, e: nat, p: PC): State
    requires e < |s.envs|
  {
    s.(envs := s.envs[e := s.envs[e].(pc := p)])
  }

  function SetLock(s: State, l: nat, k: Lock): State
    requires l < |s.locks|
  {
    s.(locks := s.locks[l := k])
  }

  /** One statement of acquire_sleeplock, sleep, release_sleeplock or wakeup_all. */
  function Statement(s: State, c: nat, e: nat): Option<State>
    requires Sized(s) && e < |s.envs| && At(s, c, e, s.envs[e].pc) && !s.envs[e].pc.Out?
  {
    var p := s.envs[e].pc;
    var l := p.l;
    var k := s.locks[l];
    match p
    case AcqEnter(_) => if k.guard.None? then Some(SetLock(Goto(s, e, AcqCheck(l)), l, k.(guard := Some(c)))) else None
    case AcqCheck(_) =>
      Some(SetLock(Goto(s, e, if k.locked && k.pid == e then Out else AcqGuard(l)), l, k.(guard := None)))
    case AcqGuard(_) => if k.guard.None? then Some(SetLock(Goto(s, e, AcqLoop(l)), l, k.(guard := Some(c)))) else None
    case AcqLoop(_) => Some(Goto(s, e, if k.locked then SleepLock(l) else AcqTake(l)))
    case SleepLock(_) => if s.qlock.None? then Some(Goto(s, e, SleepEnqueue(l)).(qlock := Some(c))) else None
    case SleepEnqueue(_) =>
      Some(SetLock(Arrive(Goto(s, e, SleepDrop(l)), e, Channel(l)), l, k.(chan := Enqueue(k.chan, e))))
    case SleepDrop(_) => Some(SetLock(Goto(s, e, SleepBlock(l)), l, k.(guard := None)))
    case SleepBlock(_) => Some(GiveUp(Goto(s, e, AcqGuard(l)).(q := s.q.(status := s.q.status[e := Blocked])), c))
    case AcqTake(_) =>
      var t := s.(envs := s.envs[e := s.envs[e].(pc := AcqName(l), has := s.envs[e].has + {l})]);
      Some(SetLock(t, l, k.(locked := true, owner := Some(e))))
    case AcqName(_) => Some(SetLock(Goto(s, e, AcqLeave(l)), l, k.(pid := e)))
    case AcqLeave(_) => Some(SetLock(Goto(s, e, Out), l, k.(guard := None)))
    case RelEnter(_) => if k.guard.None? then Some(SetLock(Goto(s, e, RelCheck(l)), l, k.(guard := Some(c)))) else None
    case RelCheck(_) =>
      Some(SetLock(Goto(s, e, if k.locked && k.pid == e then RelGuard(l) else Out), l, k.(guard := None)))
    case RelGuard(_) => if k.guard.None? then Some(SetLock(Goto(s, e, WakeLock(l)), l, k.(guard := Some(c)))) else None
    case WakeLock(_) => if s.qlock.None? then Some(Goto(s, e, WakeLoop(l)).(qlock := Some(c))) else None
    case WakeLoop(_) =>
      if |k.chan| > 0 then
        var x := Next(k.chan);
        if x >= |s.envs| then None
        else Some(SetLock(Arrive(s, x, ReadyPlace).(q := InsertReady(s.q, x)), l, k.(chan := Rest(k.chan))))
      else Some(Goto(s, e, RelFree(l)).(qlock := None))
    case RelFree(_) =>
      var t := s.(envs := s.envs[e := s.envs[e].(pc := RelUnname(l), has := s.envs[e].has - {l})]);
      Some(SetLock(t, l, k.(locked := false, owner := None)))
    case RelUnname(_) => Some(SetLock(Goto(s, e, RelLeave(l)), l, k.(pid := 0)))
    case RelLeave(_) => Some(SetLock(Goto(s, e, Out), l, k.(guard := None)))
  }

  function Arrive(s: State, e: nat, w: Place): State
    requires e < |s.envs|
  {
    s.(envs := s.envs[e := s.envs[e].(place := Some(w))])
  }

  /** sched: the CPU goes back to its scheduler, which finds the queue lock held. */
  function GiveUp(s: State, c: nat): State
    requires c < |s.cpus|
  {
    s.(cpus := s.cpus[c := s.cpus[c].(mode := Given)])
  }

  /** The environment that yielded on CPU c joins the ready queue. */
  function Requeue(s: State, c: nat, e: nat): State
    requires c < |s.cpus| && e < |s.envs|
  {
    s.(q := s.q.(readyQ := Enqueue(s.q.readyQ, e)),
       envs := s.envs[e := s.envs[e].(place := Some(ReadyPlace), cpu := None)],
       cpus := s.cpus[c := Cpu(Picking, None)])
  }

  /** The first in line gets CPU c, or the CPU is idle. */
  function Dispatch(s: State, c: nat): Option<State>
    requires Sized(s) && c < |s.cpus|
  {
    if |s.q.readyQ| == 0 then Some(s.(qlock := None, cpus := s.cpus[c := Cpu(Idle, None)]))
    else
      var n := Next(s.q.readyQ);
      if n >= |s.envs| then None
      else Some(s.(q := s.q.(readyQ := Rest(s.q.readyQ), status := s.q.status[n := Running]),
                   envs := s.envs[n := s.envs[n].(place := None, cpu := Some(c))],
                   cpus := s.cpus[c := Cpu(Returning, Some(n))]))
  }

  /** fos_scheduler_RR and the dispatch. */
  function PickNext(s: State, c: nat): Option<State>
    requires Sized(s) && c < |s.cpus|
  {
    var cur := s.cpus[c].proc;
    if cur.None? then Dispatch(s, c)
    else if cur.value >= |s.envs| then None
    else Dispatch(Requeue(s, c, cur.value), c)
  }

  function MoveAll(envs: seq<Env>, q: Queue, w: Place): seq<Env> {
    seq(|envs|, i requires 0 <= i < |envs| => if i in q then envs[i].(place := Some(w)) else envs[i])
  }

  /** The state after an action; None when it cannot happen. */
  function Apply(s: State, a: Action): Option<State>
    requires Sized(s)
  {
    match a
    case Call(c, e, p) =>
      if At(s, c, e, Out) && (p.AcqEnter? || p.RelEnter?) && p.l < |s.locks| then Some(Goto(s, e, p)) else None
    case Exec(c, e) =>
      if e < |s.envs| && !s.envs[e].pc.Out? && At(s, c, e, s.envs[e].pc) then Statement(s, c, e) else None
    case Yield(c, e) =>
      if e < |s.envs| && At(s, c, e, s.envs[e].pc) && !HoldsAny(s.envs[e].pc) && s.qlock.None? then
        Some(GiveUp(s.(q := s.q.(status := s.q.status[e := Ready]), qlock := Some(c)), c))
      else None
    case Finish(c, e) =>
      if At(s, c, e, Out) && s.qlock.None? then
        Some(GiveUp(Arrive(s, e, ExitPlace).(q := Scheduler.ExitSelf(s.q, e), qlock := Some(c)), c))
      else None
    case Create(x) =>
      if x < |s.envs| && s.q.status[x] == Free && s.qlock.None? then Some(Arrive(s, x, NewPlace).(q := NewEnv(s.q, x)))
      else None
    case Start(x) =>
      if x < |s.envs| && x in s.q.newQ && s.qlock.None? then Some(Arrive(s, x, ReadyPlace).(q := RunEnv(s.q, x)))
      else None
    case StartAll =>
      if s.qlock.None? then Some(s.(q := RunAll(s.q), envs := MoveAll(s.envs, s.q.newQ, ReadyPlace))) else None
    case Retire(x) =>
      if x < |s.envs| && x in s.q.readyQ && s.qlock.None? then Some(Arrive(s, x, ExitPlace).(q := ExitReady(s.q, x)))
      else None
    case RetireAll =>
      if s.qlock.None? then Some(s.(q := ExitAll(s.q), envs := MoveAll(s.envs, s.q.readyQ, ExitPlace))) else None
    case Remove(x) =>
      if x < |s.envs| && (x in s.q.newQ || x in s.q.readyQ || x in s.q.exitQ) && s.qlock.None? then
        Some(s.(q := Kill(s.q, x), envs := s.envs[x := s.envs[x].(place := None, orphan := x in s.q.readyQ)]))
      else None
    case Enter(c) =>
      if c < |s.cpus| && s.cpus[c].mode == Idle && s.qlock.None? then
        Some(s.(qlock := Some(c), cpus := s.cpus[c := s.cpus[c].(mode := Picking)]))
      else None
    case Pick(c) =>
      if c < |s.cpus| && s.cpus[c].mode == Picking then PickNext(s, c) else None
    case Back(c) =>
      if c < |s.cpus| && s.cpus[c].mode == Returning then
        Some(s.(qlock := None, cpus := s.cpus[c := s.cpus[c].(mode := Executing)]))
      else None
    case Settle(c) =>
      if c < |s.cpus| && s.cpus[c].mode == Given && s.cpus[c].proc.Some? && s.cpus[c].proc.value < |s.envs| then
        var e := s.cpus[c].proc.value;
        if s.q.status[e] == Ready then Some(s.(cpus := s.cpus[c := s.cpus[c].(mode := Picking)]))
        else Some(s.(cpus := s.cpus[c := Cpu(Picking, None)], envs := s.envs[e := s.envs[e].(cpu := None)]))
      else None
  }

  ghost predicate Step(s: State, a: Action, t: State) {
    Sized(s) && Apply(s, a) == Some(t)
  }

  /** Every CPU idle, no environment created, every lock free. */
  ghost predicate Init(s: State) {
    && Sized(s) && s.qlock.None? && s.q.newQ == s.q.readyQ == s.q.exitQ == []
    && (forall e :: 0 <= e < |s.envs| ==> s.envs[e] == Env(Out, {}, None, None, false) && s.q.status[e] == Free)
    && (forall c :: 0 <= c < |s.cpus| ==> s.cpus[c] == Cpu(Idle, None))
    && (forall l :: 0 <= l < |s.locks| ==>
          s.locks[l].guard.None? && !s.locks[l].locked && s.locks[l].chan == [] && s.locks[l].owner.None?)
  }

  // ---------------------------------------------------------------- the invariant

  function QueueAt(s: State, w: Place): Queue {
    match w
    case NewPlace => s.q.newQ
    case ReadyPlace => s.q.readyQ
    case ExitPlace => s.q.exitQ
    case Channel(l) => if l < |s.locks| then s.locks[l].chan else []
  }

  /** A queue holds exactly the environments that say they are in it, once each. */
  ghost predicate QueueOk(s: State, w: Place) {
    && Distinct(QueueAt(s, w))
    && forall e: nat :: e in QueueAt(s, w) <==> e < |s.envs| && s.envs[e].place == Some(w)
  }

  /** CPU c is in the middle of something that holds the guard of lock l. */
  ghost predicate GuardHeldBy(s: State, l: nat, c: nat) {
    && c < |s.cpus| && s.cpus[c].mode == Executing && s.cpus[c].proc.Some? && s.cpus[c].proc.value < |s.envs|
    && HoldsGuard(s.envs[s.cpus[c].proc.value].pc, l)
  }

  ghost predicate QueuesHeldBy(s: State, c: nat) {
    && c < |s.cpus| && s.cpus[c].mode != Idle
    && (s.cpus[c].mode == Executing ==>
          s.cpus[c].proc.Some? && s.cpus[c].proc.value < |s.envs| && HoldsQueues(s.envs[s.cpus[c].proc.value].pc))
  }

  ghost predicate CpuOk(s: State, c: nat)
    requires c < |s.cpus|
  {
    var u := s.cpus[c];
    && (u.proc.Some? ==> u.proc.value < |s.envs| && s.envs[u.proc.value].cpu == Some(c))
    && (u.mode == Idle ==> u.proc.None?)
    && (u.mode == Executing || u.mode == Returning || u.mode == Given ==> u.proc.Some?)
    && (s.qlock == Some(c) <==> QueuesHeldBy(s, c))
  }

  /** The guard's owner is the CPU whose environment is inside the guarded section. */
  ghost predicate GuardOk(s: State, l: nat, c: nat)
    requires l < |s.locks|
  {
    s.locks[l].guard == Some(c) <==> GuardHeldBy(s, l, c)
  }

  /** The environment that acquired the lock is its owner. */
  ghost predicate HasOk(s: State, l: nat, e: nat)
    requires l < |s.locks| && e < |s.envs|
  {
    l in s.envs[e].has <==> s.locks[l].owner == Some(e)
  }

  ghost predicate LockOk(s: State, l: nat)
    requires l < |s.locks|
  {
    var k := s.locks[l];
    && (k.guard.Some? ==> k.guard.value < |s.cpus|)
    && (k.chan != [] ==> k.locked) && (k.owner.Some? <==> k.locked)
    && (k.locked ==> k.owner.value < |s.envs| && (s.envs[k.owner.value].pc == AcqName(l) || k.pid == k.owner.value))
  }

  /** What holds for an environment at its program counter. */
  ghost predicate PcOk(s: State, e: nat)
    requires e < |s.envs|
  {
    var p := s.envs[e].pc;
    p.Out? || (
      && p.l < |s.locks|
      && var k := s.locks[p.l];
      && (p.SleepLock? || p.SleepEnqueue? ==> k.locked)
      && (p.AcqTake? || p.RelUnname? ==> !k.locked)
      && (p.AcqName? || p.RelGuard? || p.WakeLock? || p.WakeLoop? || p.RelFree? ==> k.owner == Some(e))
      && (p.RelFree? ==> k.chan == []))
  }

  ghost predicate InMode(s: State, e: nat, a: Mode, b: Mode)
    requires e < |s.envs|
  {
    && s.envs[e].cpu.Some? && s.envs[e].cpu.value < |s.cpus|
    && (s.cpus[s.envs[e].cpu.value].mode == a || s.cpus[s.envs[e].cpu.value].mode == b)
  }

  /** Status, queue and CPU of an environment agree. */
  ghost predicate StatusOk(s: State, e: nat)
    requires Sized(s) && e < |s.envs|
  {
    var v := s.envs[e];
    if v.orphan then v.place.None? && v.cpu.None? && s.q.status[e] == Ready else
    match s.q.status[e]
    case Free => v.place.None? && v.cpu.None? && v.pc.Out?
    case New => v.place == Some(NewPlace) && v.cpu.None? && v.pc.Out?
    case Ready => (v.place == Some(ReadyPlace) && v.cpu.None?) || (v.place.None? && InMode(s, e, Given, Picking))
    case Running => InMode(s, e, Returning, Executing)
        && v.place == if v.pc.SleepDrop? || v.pc.SleepBlock? then Some(Channel(v.pc.l)) else None
    case Blocked => v.pc.AcqGuard? && v.place == Some(Channel(v.pc.l)) && (v.cpu.None? || InMode(s, e, Given, Given))
    case Exit => v.place == Some(ExitPlace) && (v.cpu.None? || InMode(s, e, Given, Given))
    case Unknown => v.place.None? && v.cpu.None?
  }

  ghost predicate EnvOk(s: State, e: nat)
    requires Sized(s) && e < |s.envs|
  {
    && PcOk(s, e) && StatusOk(s, e)
    && (s.envs[e].cpu.Some? ==> s.envs[e].cpu.value < |s.cpus| && s.cpus[s.envs[e].cpu.value].proc == Some(e))
    && (HoldsAny(s.envs[e].pc) ==> InMode(s, e, Executing, Executing))
  }

  ghost predicate Inv(s: State) {
    && Sized(s)
    && (s.qlock.Some? ==> s.qlock.value < |s.cpus|)
    && (forall w :: QueueOk(s, w))
    && (forall c :: 0 <= c < |s.cpus| ==> CpuOk(s, c))
    && (forall l :: 0 <= l < |s.locks| ==> LockOk(s, l))
    && (forall l, c :: 0 <= l < |s.locks| && 0 <= c < |s.cpus| ==> GuardOk(s, l, c))
    && (forall l, e :: 0 <= l < |s.locks| && 0 <= e < |s.envs| ==> HasOk(s, l, e))
    && (forall e :: 0 <= e < |s.envs| ==> EnvOk(s, e))
  }

  lemma InitInv(s: State)
    requires Init(s)
    ensures Inv(s)
  {
    forall w
      ensures QueueOk(s, w)
    {
    }
  }

  // ---------------------------------------------------------------- steps of one environment on one lock

  /** Environment e, executing on c, changes its own record and lock l at most. */
  ghost predicate Local(s: State, t: State, c: nat, e: nat, l: nat) {
    && Sized(s) && t.cpus == s.cpus && t.q == s.q && |t.envs| == |s.envs| && |t.locks| == |s.locks| && l < |s.locks|
    && e < |s.envs| && At(s, c, e, s.envs[e].pc) && s.q.status[e] == Running
    && t.envs == s.envs[e := t.envs[e]] && t.locks == s.locks[l := t.locks[l]]
    && t.envs[e].cpu == s.envs[e].cpu && t.envs[e].orphan == s.envs[e].orphan
    && (s.envs[e].pc.Out? || s.envs[e].pc.l == l) && (t.envs[e].pc.Out? || t.envs[e].pc.l == l)
  }

  /** CPU c takes a spinlock that was free, drops it, or leaves it alone. */
  ghost predicate HeldStep(before: Option<nat>, after: Option<nat>, c: nat, h: bool, h': bool) {
    || (h == h' && after == before)
    || (!h && h' && before.None? && after == Some(c))
    || (h && !h' && after.None?)
  }

  lemma LocalQueues(s: State, t: State, c: nat, e: nat, l: nat, w: Place)
    requires Inv(s) && Local(s, t, c, e, l)
    requires || (t.locks[l].chan == s.locks[l].chan && t.envs[e].place == s.envs[e].place)
             || (&& t.locks[l].chan == Enqueue(s.locks[l].chan, e)
                 && s.envs[e].place.None? && t.envs[e].place == Some(Channel(l)))
    ensures QueueOk(t, w)
  {
    assert QueueOk(s, w) && QueueOk(s, Channel(l));
    EnqueueMembers(s.locks[l].chan, e);
  }

  lemma LocalCpus(s: State, t: State, c: nat, e: nat, l: nat, d: nat)
    requires Inv(s) && Local(s, t, c, e, l) && d < |s.cpus|
    requires HeldStep(s.qlock, t.qlock, c, HoldsQueues(s.envs[e].pc), HoldsQueues(t.envs[e].pc))
    ensures CpuOk(t, d)
  {
    assert CpuOk(s, c) && CpuOk(s, d);
  }

  lemma LocalGuards(s: State, t: State, c: nat, e: nat, l: nat, m: nat, d: nat)
    requires Inv(s) && Local(s, t, c, e, l) && m < |s.locks| && d < |s.cpus|
    requires HeldStep(s.locks[l].guard, t.locks[l].guard, c, HoldsGuard(s.envs[e].pc, l), HoldsGuard(t.envs[e].pc, l))
    ensures GuardOk(t, m, d)
  {
    assert CpuOk(s, c) && CpuOk(s, d) && GuardOk(s, m, d) && GuardOk(s, l, d) && GuardOk(s, l, c);
  }

  lemma LocalLocks(s: State, t: State, c: nat, e: nat, l: nat, m: nat)
    requires Inv(s) && Local(s, t, c, e, l) && LockOk(t, l) && m < |s.locks|
    ensures LockOk(t, m)
  {
    assert LockOk(s, m);
  }

  lemma LocalHas(s: State, t: State, c: nat, e: nat, l: nat, m: nat, x: nat)
    requires Inv(s) && Local(s, t, c, e, l) && m < |s.locks| && x < |s.envs|
    requires || (t.envs[e].has == s.envs[e].has && t.locks[l].owner == s.locks[l].owner)
             || (t.envs[e].has == s.envs[e].has + {l} && s.locks[l].owner.None? && t.locks[l].owner == Some(e))
             || (t.envs[e].has == s.envs[e].has - {l} && s.locks[l].owner == Some(e) && t.locks[l].owner.None?)
    ensures HasOk(t, m, x)
  {
    assert HasOk(s, m, x) && HasOk(s, l, x);
  }

  /** While e holds the guard of l nobody else is inside the guarded section of l. */
  lemma GuardExcludes(s: State, c: nat, e: nat, l: nat, x: nat)
    requires Inv(s) && e < |s.envs| && At(s, c, e, s.envs[e].pc) && l < |s.locks| && HoldsGuard(s.envs[e].pc, l)
    requires x < |s.envs| && x != e
    ensures !HoldsGuard(s.envs[x].pc, l)
  {
    assert CpuOk(s, c) && GuardOk(s, l, c) && EnvOk(s, x);
    if s.envs[x].cpu.Some? {
      assert CpuOk(s, s.envs[x].cpu.value) && GuardOk(s, l, s.envs[x].cpu.value);
    }
  }

  lemma LocalEnvs(s: State, t: State, c: nat, e: nat, l: nat, x: nat)
    requires Inv(s) && Local(s, t, c, e, l) && EnvOk(t, e) && x < |s.envs|
    requires || (&& t.locks[l].locked == s.locks[l].locked && t.locks[l].owner == s.locks[l].owner
                 && t.locks[l].chan == s.locks[l].chan)
             || (&& HoldsGuard(s.envs[e].pc, l)
                 && (t.locks[l].owner == s.locks[l].owner || s.locks[l].owner.None? || s.locks[l].owner == Some(e)))
    ensures EnvOk(t, x)
  {
    assert EnvOk(s, x);
    if x != e && HoldsGuard(s.envs[e].pc, l) {
      GuardExcludes(s, c, e, l, x);
    }
  }

  /** What a statement must establish about its own environment and lock. */
  ghost predicate LocalOk(s: State, t: State, c: nat, e: nat, l: nat)
    requires Local(s, t, c, e, l)
  {
    var v, v', k, k' := s.envs[e], t.envs[e], s.locks[l], t.locks[l];
    && HeldStep(s.qlock, t.qlock, c, HoldsQueues(v.pc), HoldsQueues(v'.pc))
    && HeldStep(k.guard, k'.guard, c, HoldsGuard(v.pc, l), HoldsGuard(v'.pc, l))
    && (|| (k'.chan == k.chan && v'.place == v.place)
        || (k'.chan == Enqueue(k.chan, e) && v.place.None? && v'.place == Some(Channel(l))))
    && (|| (v'.has == v.has && k'.owner == k.owner)
        || (v'.has == v.has + {l} && k.owner.None? && k'.owner == Some(e))
        || (v'.has == v.has - {l} && k.owner == Some(e) && k'.owner.None?))
    && ((k'.locked == k.locked && k'.owner == k.owner && k'.chan == k.chan) || HoldsGuard(v.pc, l))
    && LockOk(t, l) && EnvOk(t, e)
  }

  lemma LocalInv(s: State, t: State, c: nat, e: nat, l: nat)
    requires Inv(s) && Local(s, t, c, e, l) && LocalOk(s, t, c, e, l)
    ensures Inv(t)
  {
    assert CpuOk(s, c);
    forall w ensures QueueOk(t, w) { LocalQueues(s, t, c, e, l, w); }
    forall d | 0 <= d < |t.cpus| ensures CpuOk(t, d) { LocalCpus(s, t, c, e, l, d); }
    forall m, d | 0 <= m < |t.locks| && 0 <= d < |t.cpus| ensures GuardOk(t, m, d) { LocalGuards(s, t, c, e, l, m, d); }
    forall m | 0 <= m < |t.locks| ensures LockOk(t, m) { LocalLocks(s, t, c, e, l, m); }
    forall m, x | 0 <= m < |t.locks| && 0 <= x < |t.envs| ensures HasOk(t, m, x) { LocalHas(s, t, c, e, l, m, x); }
    forall x | 0 <= x < |t.envs| ensures EnvOk(t, x) { LocalEnvs(s, t, c, e, l, x); }
  }

  /** An executing environment is running, and in no queue unless it is about to sleep. */
  lemma ExecutingIsRunning(s: State, c: nat, e: nat)
    requires Inv(s) && e < |s.envs| && At(s, c, e, s.envs[e].pc)
    ensures s.q.status[e] == Running && !s.envs[e].orphan && s.envs[e].cpu == Some(c) && EnvOk(s, e) && CpuOk(s, c)
  {
    assert CpuOk(s, c) && EnvOk(s, e);
  }

  lemma CallInv(s: State, t: State, c: nat, e: nat, p: PC)
    requires Inv(s) && Step(s, Call(c, e, p), t)
    ensures Inv(t)
  {
    ExecutingIsRunning(s, c, e);
    assert LockOk(s, p.l);
    LocalInv(s, t, c, e, p.l);
  }

  /** holding_sleeplock tells its caller the truth. */
  lemma CheckIsExact(s: State, c: nat, e: nat, l: nat)
    requires Inv(s) && l < |s.locks| && (At(s, c, e, AcqCheck(l)) || At(s, c, e, RelCheck(l)))
    ensures s.locks[l].locked && s.locks[l].pid == e <==> l in s.envs[e].has
    ensures s.locks[l].locked && s.locks[l].pid == e <==> s.locks[l].owner == Some(e)
  {
    assert LockOk(s, l) && HasOk(s, l, e);
    if s.locks[l].locked && s.locks[l].owner != Some(e) {
      GuardExcludes(s, c, e, l, s.locks[l].owner.value);
    }
  }

  /** acquire_sleeplock takes the guard, for its check or for its loop. */
  lemma EnterInv(s: State, t: State, c: nat, e: nat)
    requires Inv(s) && Step(s, Exec(c, e), t)
    requires var p := s.envs[e].pc; p.AcqEnter? || p.AcqGuard?
    ensures Inv(t)
  {
    var l := s.envs[e].pc.l;
    ExecutingIsRunning(s, c, e);
    assert LockOk(s, l) && HasOk(s, l, e) && GuardOk(s, l, c);
    LocalInv(s, t, c, e, l);
  }

  /** So does release_sleeplock, for its check or to wake the sleepers. */
  lemma ReenterInv(s: State, t: State, c: nat, e: nat)
    requires Inv(s) && Step(s, Exec(c, e), t)
    requires var p := s.envs[e].pc; p.RelEnter? || p.RelGuard?
    ensures Inv(t)
  {
    var l := s.envs[e].pc.l;
    ExecutingIsRunning(s, c, e);
    assert LockOk(s, l) && HasOk(s, l, e) && GuardOk(s, l, c);
    LocalInv(s, t, c, e, l);
  }

  /** holding_sleeplock drops the guard, with its answer: acquire_sleeplock goes on when the lock is not held. */
  lemma AcquireCheckInv(s: State, t: State, c: nat, e: nat)
    requires Inv(s) && Step(s, Exec(c, e), t) && s.envs[e].pc.AcqCheck?
    ensures Inv(t)
  {
    var l := s.envs[e].pc.l;
    ExecutingIsRunning(s, c, e);
    assert LockOk(s, l) && HasOk(s, l, e) && GuardOk(s, l, c);
    CheckIsExact(s, c, e, l);
    LocalInv(s, t, c, e, l);
  }

  /** release_sleeplock goes on when it is. */
  lemma ReleaseCheckInv(s: State, t: State, c: nat, e: nat)
    requires Inv(s) && Step(s, Exec(c, e), t) && s.envs[e].pc.RelCheck?
    ensures Inv(t)
  {
    var l := s.envs[e].pc.l;
    ExecutingIsRunning(s, c, e);
    assert LockOk(s, l) && HasOk(s, l, e) && GuardOk(s, l, c);
    CheckIsExact(s, c, e, l);
    LocalInv(s, t, c, e, l);
  }

  /** The guard is dropped at the end. */
  lemma LeaveInv(s: State, t: State, c: nat, e: nat)
    requires Inv(s) && Step(s, Exec(c, e), t)
    requires var p := s.envs[e].pc; p.AcqLeave? || p.RelLeave?
    ensures Inv(t)
  {
    var l := s.envs[e].pc.l;
    ExecutingIsRunning(s, c, e);
    assert LockOk(s, l) && HasOk(s, l, e) && GuardOk(s, l, c);
    LocalInv(s, t, c, e, l);
  }

  /** The loop of acquire_sleeplock finds the lock busy, or free. */
  lemma BusyInv(s: State, t: State, c: nat, e: nat)
    requires Inv(s) && Step(s, Exec(c, e), t)
    requires var p := s.envs[e].pc; p.AcqLoop? || p.SleepLock?
    ensures Inv(t)
  {
    var l := s.envs[e].pc.l;
    ExecutingIsRunning(s, c, e);
    assert LockOk(s, l) && HasOk(s, l, e) && GuardOk(s, l, c);
    LocalInv(s, t, c, e, l);
  }

  /** sleep enters the channel and drops the guard, under the queue lock. */
  lemma QueueInv(s: State, t: State, c: nat, e: nat)
    requires Inv(s) && Step(s, Exec(c, e), t)
    requires var p := s.envs[e].pc; p.SleepEnqueue? || p.SleepDrop?
    ensures Inv(t)
  {
    var l := s.envs[e].pc.l;
    ExecutingIsRunning(s, c, e);
    assert LockOk(s, l) && HasOk(s, l, e) && GuardOk(s, l, c);
    LocalInv(s, t, c, e, l);
  }

  /** A free lock is taken and named. */
  lemma ClaimInv(s: State, t: State, c: nat, e: nat)
    requires Inv(s) && Step(s, Exec(c, e), t)
    requires var p := s.envs[e].pc; p.AcqTake? || p.AcqName?
    ensures Inv(t)
  {
    var l := s.envs[e].pc.l;
    ExecutingIsRunning(s, c, e);
    assert LockOk(s, l) && HasOk(s, l, e) && GuardOk(s, l, c);
    LocalInv(s, t, c, e, l);
  }

  /** wakeup_all starts, and ends when the channel is empty. */
  lemma WokenInv(s: State, t: State, c: nat, e: nat)
    requires Inv(s) && Step(s, Exec(c, e), t)
    requires var p := s.envs[e].pc; p.WakeLock? || (p.WakeLoop? && |s.locks[p.l].chan| == 0)
    ensures Inv(t)
  {
    var l := s.envs[e].pc.l;
    ExecutingIsRunning(s, c, e);
    assert LockOk(s, l) && HasOk(s, l, e) && GuardOk(s, l, c);
    LocalInv(s, t, c, e, l);
  }

  /** The lock is freed and loses its name. */
  lemma UnlockInv(s: State, t: State, c: nat, e: nat)
    requires Inv(s) && Step(s, Exec(c, e), t)
    requires var p := s.envs[e].pc; p.RelFree? || p.RelUnname?
    ensures Inv(t)
  {
    var l := s.envs[e].pc.l;
    ExecutingIsRunning(s, c, e);
    assert LockOk(s, l) && HasOk(s, l, e) && GuardOk(s, l, c);
    LocalInv(s, t, c, e, l);
  }

  // ---------------------------------------------------------------- steps that leave the locks alone

  /** Locks, program counters and acquired locks are the same. */
  ghost predicate Frozen(s: State, t: State) {
    && t.locks == s.locks && |t.envs| == |s.envs| && |t.cpus| == |s.cpus| && Sized(s) && Sized(t)
    && forall x {:trigger t.envs[x]} :: 0 <= x < |s.envs| ==>
          t.envs[x].pc == s.envs[x].pc && t.envs[x].has == s.envs[x].has
  }

  lemma FrozenLocks(s: State, t: State)
    requires Inv(s) && Frozen(s, t)
    ensures forall l :: 0 <= l < |t.locks| ==> LockOk(t, l)
    ensures forall l, x :: 0 <= l < |t.locks| && 0 <= x < |t.envs| ==> HasOk(t, l, x)
    ensures forall x :: 0 <= x < |t.envs| ==> PcOk(t, x)
  {
    forall l | 0 <= l < |t.locks| ensures LockOk(t, l) { assert LockOk(s, l); }
    forall l, x | 0 <= l < |t.locks| && 0 <= x < |t.envs| ensures HasOk(t, l, x) { assert HasOk(s, l, x); }
    forall x | 0 <= x < |t.envs| ensures PcOk(t, x) { assert EnvOk(s, x); }
  }

  /** One CPU changes its mode, and maybe its environment; whoever it was or will be executing holds no guard. */
  ghost predicate OneCpu(s: State, t: State, c: nat) {
    && c < |s.cpus| == |t.cpus| && t.cpus == s.cpus[c := t.cpus[c]]
    && (s.cpus[c].mode == Executing ==>
          s.cpus[c].proc.Some? && s.cpus[c].proc.value < |s.envs| && !InGuard(s.envs[s.cpus[c].proc.value].pc))
    && (t.cpus[c].mode == Executing ==>
          t.cpus[c].proc.Some? && t.cpus[c].proc.value < |t.envs| && !InGuard(t.envs[t.cpus[c].proc.value].pc))
  }

  predicate InGuard(p: PC) {
    !p.Out? && HoldsGuard(p, p.l)
  }

  lemma FrozenGuards(s: State, t: State, c: nat)
    requires Inv(s) && t.locks == s.locks && |t.cpus| == |s.cpus| && |t.envs| == |s.envs| && OneCpu(s, t, c)
    requires forall x {:trigger t.envs[x]} :: 0 <= x < |s.envs| && s.envs[x].cpu != Some(c) ==>
      t.envs[x].pc == s.envs[x].pc
    ensures forall l, d :: 0 <= l < |t.locks| && 0 <= d < |t.cpus| ==> GuardOk(t, l, d)
  {
    forall l, d | 0 <= l < |t.locks| && 0 <= d < |t.cpus|
      ensures GuardOk(t, l, d)
    {
      assert GuardOk(s, l, d) && CpuOk(s, d);
    }
  }

  /** The queue lock is free, so nothing is on its way in or out of a CPU or a channel. */
  lemma QuietCpus(s: State, d: nat)
    requires Inv(s) && s.qlock.None? && d < |s.cpus|
    ensures s.cpus[d].mode == Idle || s.cpus[d].mode == Executing
  {
    assert CpuOk(s, d);
  }

  /** Between critical sections of the queue lock every status matches its place exactly. */
  lemma QuietStatus(s: State, x: nat)
    requires Inv(s) && s.qlock.None? && x < |s.envs| && !s.envs[x].orphan
    ensures match s.q.status[x]
      case Free => s.envs[x].place.None? && s.envs[x].cpu.None?
      case New => s.envs[x].place == Some(NewPlace) && s.envs[x].cpu.None?
      case Ready => s.envs[x].place == Some(ReadyPlace) && s.envs[x].cpu.None?
      case Running => s.envs[x].place.None? && InMode(s, x, Executing, Executing)
      case Blocked => (exists l :: s.envs[x].place == Some(Channel(l))) && s.envs[x].cpu.None?
      case Exit => s.envs[x].place == Some(ExitPlace) && s.envs[x].cpu.None?
      case Unknown => s.envs[x].place.None? && s.envs[x].cpu.None?
  {
    assert EnvOk(s, x);
    if s.envs[x].cpu.Some? {
      QuietCpus(s, s.envs[x].cpu.value);
      assert CpuOk(s, s.envs[x].cpu.value);
    }
  }

  lemma YieldInv(s: State, t: State, c: nat, e: nat)
    requires Inv(s) && Step(s, Yield(c, e), t)
    ensures Inv(t)
  {
    ExecutingIsRunning(s, c, e);
    FrozenLocks(s, t);
    FrozenGuards(s, t, c);
    forall w ensures QueueOk(t, w) { assert QueueOk(s, w); }
    forall d | 0 <= d < |t.cpus| ensures CpuOk(t, d) { assert CpuOk(s, d); }
    forall x | 0 <= x < |t.envs| ensures EnvOk(t, x) { assert EnvOk(s, x); }
  }

  lemma FinishQueue(s: State, t: State, c: nat, e: nat, w: Place)
    requires Sized(s) && c < |s.cpus| && e < |s.envs| && s.envs[e].place.None? && QueueOk(s, ExitPlace) && QueueOk(s, w)
    requires t == GiveUp(Arrive(s, e, ExitPlace).(q := Scheduler.ExitSelf(s.q, e), qlock := Some(c)), c)
    ensures QueueOk(t, w)
  {
    EnqueueMembers(s.q.exitQ, e);
  }

  lemma FinishInv(s: State, t: State, c: nat, e: nat)
    requires Inv(s) && Step(s, Finish(c, e), t)
    ensures Inv(t)
  {
    ExecutingIsRunning(s, c, e);
    FrozenLocks(s, t);
    FrozenGuards(s, t, c);
    forall w
      ensures QueueOk(t, w)
    {
      assert QueueOk(s, ExitPlace) && QueueOk(s, w);
      FinishQueue(s, t, c, e, w);
    }
    forall d | 0 <= d < |t.cpus| ensures CpuOk(t, d) { assert CpuOk(s, d); }
    forall x | 0 <= x < |t.envs| ensures EnvOk(t, x) { assert EnvOk(s, x); }
  }

  lemma BlockInv(s: State, t: State, c: nat, e: nat)
    requires Inv(s) && Step(s, Exec(c, e), t) && s.envs[e].pc.SleepBlock?
    ensures Inv(t)
  {
    ExecutingIsRunning(s, c, e);
    FrozenGuards(s, t, c);
    forall w ensures QueueOk(t, w) { assert QueueOk(s, w); }
    forall d | 0 <= d < |t.cpus| ensures CpuOk(t, d) { assert CpuOk(s, d); }
    forall l | 0 <= l < |t.locks| ensures LockOk(t, l) { assert LockOk(s, l); }
    forall l, x | 0 <= l < |t.locks| && 0 <= x < |t.envs| ensures HasOk(t, l, x) { assert HasOk(s, l, x); }
    forall x | 0 <= x < |t.envs| ensures EnvOk(t, x) { assert EnvOk(s, x); }
  }

  /** The scheduler takes the queue lock. */
  lemma SchedEnterInv(s: State, t: State, c: nat)
    requires Inv(s) && Step(s, Enter(c), t)
    ensures Inv(t)
  {
    assert CpuOk(s, c);
    FrozenLocks(s, t);
    FrozenGuards(s, t, c);
    forall w ensures QueueOk(t, w) { assert QueueOk(s, w); }
    forall d | 0 <= d < |t.cpus| ensures CpuOk(t, d) { assert CpuOk(s, d); }
    forall x | 0 <= x < |t.envs| ensures EnvOk(t, x) { assert EnvOk(s, x); }
  }

  /** The environment switched to drops the queue lock and goes on. */
  lemma BackInv(s: State, t: State, c: nat)
    requires Inv(s) && Step(s, Back(c), t)
    ensures Inv(t)
  {
    assert CpuOk(s, c);
    if s.cpus[c].proc.Some? {
      assert EnvOk(s, s.cpus[c].proc.value);
    }
    FrozenLocks(s, t);
    FrozenGuards(s, t, c);
    forall w ensures QueueOk(t, w) { assert QueueOk(s, w); }
    forall d | 0 <= d < |t.cpus| ensures CpuOk(t, d) { assert CpuOk(s, d); }
    forall x | 0 <= x < |t.envs| ensures EnvOk(t, x) { assert EnvOk(s, x); }
  }

  /** The scheduler is back from an environment: one that yielded stays at hand, any other leaves the CPU. */
  lemma SettleInv(s: State, t: State, c: nat)
    requires Inv(s) && Step(s, Settle(c), t)
    ensures Inv(t)
  {
    assert CpuOk(s, c);
    if s.cpus[c].proc.Some? {
      assert EnvOk(s, s.cpus[c].proc.value);
    }
    FrozenLocks(s, t);
    FrozenGuards(s, t, c);
    forall w ensures QueueOk(t, w) { assert QueueOk(s, w); }
    forall d | 0 <= d < |t.cpus| ensures CpuOk(t, d) { assert CpuOk(s, d); }
    forall x | 0 <= x < |t.envs| ensures EnvOk(t, x) { assert EnvOk(s, x); }
  }

  // ---------------------------------------------------------------- the scheduling calls

  /** Only queues, statuses and places change, while nobody holds the queue lock. */
  ghost predicate Quiet(s: State, t: State) {
    && Frozen(s, t) && t.cpus == s.cpus && t.qlock == s.qlock && s.qlock.None?
    && forall x {:trigger t.envs[x]} :: 0 <= x < |s.envs| ==> t.envs[x].cpu == s.envs[x].cpu
  }

  lemma QuietInv(s: State, t: State)
    requires Inv(s) && Quiet(s, t)
    requires forall w :: QueueOk(t, w)
    requires forall x :: 0 <= x < |t.envs| ==> StatusOk(t, x)
    ensures Inv(t)
  {
    FrozenLocks(s, t);
    forall l, d | 0 <= l < |t.locks| && 0 <= d < |t.cpus| ensures GuardOk(t, l, d) { assert GuardOk(s, l, d); }
    forall d | 0 <= d < |t.cpus| ensures CpuOk(t, d) { assert CpuOk(s, d); }
    forall x | 0 <= x < |t.envs| ensures EnvOk(t, x) { assert EnvOk(s, x); }
  }

  lemma CreateInv(s: State, t: State, x: nat)
    requires Inv(s) && Step(s, Create(x), t)
    ensures Inv(t)
  {
    assert EnvOk(s, x);
    forall w ensures QueueOk(t, w) { assert QueueOk(s, w); EnqueueMembers(s.q.newQ, x); }
    forall y | 0 <= y < |t.envs| ensures StatusOk(t, y) { assert EnvOk(s, y); }
    QuietInv(s, t);
  }

  /** A member of a queue, between critical sections, is on no CPU and no orphan. */
  lemma QueuedIsOff(s: State, w: Place, x: nat)
    requires Inv(s) && s.qlock.None? && x in QueueAt(s, w)
    ensures x < |s.envs| && !s.envs[x].orphan && s.envs[x].cpu.None? && s.envs[x].place == Some(w) && StatusOk(s, x)
  {
    assert QueueOk(s, w) && EnvOk(s, x);
    if !s.envs[x].orphan {
      QuietStatus(s, x);
    }
  }

  lemma StartInv(s: State, t: State, x: nat)
    requires Inv(s) && Step(s, Start(x), t)
    ensures Inv(t)
  {
    QueuedIsOff(s, NewPlace, x);
    forall w
      ensures QueueOk(t, w)
    {
      assert QueueOk(s, w) && QueueOk(s, NewPlace) && QueueOk(s, ReadyPlace);
      WithoutMembers(s.q.newQ, x);
      EnqueueMembers(s.q.readyQ, x);
    }
    forall y | 0 <= y < |t.envs| ensures StatusOk(t, y) { assert EnvOk(s, y); }
    QuietInv(s, t);
  }

  lemma RetireInv(s: State, t: State, x: nat)
    requires Inv(s) && Step(s, Retire(x), t)
    ensures Inv(t)
  {
    QueuedIsOff(s, ReadyPlace, x);
    forall w
      ensures QueueOk(t, w)
    {
      assert QueueOk(s, w) && QueueOk(s, ExitPlace) && QueueOk(s, ReadyPlace);
      WithoutMembers(s.q.readyQ, x);
      EnqueueMembers(s.q.exitQ, x);
    }
    forall y | 0 <= y < |t.envs| ensures StatusOk(t, y) { assert EnvOk(s, y); }
    QuietInv(s, t);
  }

  /** The queue that sched_kill_env finds its victim in. */
  function VictimPlace(s: State, x: nat): Place {
    if x in s.q.newQ then NewPlace else if x in s.q.readyQ then ReadyPlace else ExitPlace
  }

  /** A victim is where its status says. */
  lemma VictimIsQueued(s: State, x: nat)
    requires Inv(s) && s.qlock.None? && x < |s.envs| && (x in s.q.newQ || x in s.q.readyQ || x in s.q.exitQ)
    ensures s.envs[x].place == Some(VictimPlace(s, x)) && !s.envs[x].orphan && s.envs[x].cpu.None?
    ensures x in s.q.readyQ <==> VictimPlace(s, x) == ReadyPlace
    ensures x in s.q.readyQ ==> s.q.status[x] == Ready
  {
    assert QueueOk(s, ReadyPlace);
    QueuedIsOff(s, VictimPlace(s, x), x);
  }

  lemma RemoveQueue(s: State, t: State, x: nat, w: Place)
    requires Inv(s) && Step(s, Action.Remove(x), t)
    ensures QueueOk(t, w)
  {
    VictimIsQueued(s, x);
    assert QueueOk(s, w) && QueueOk(s, VictimPlace(s, x));
    WithoutMembers(QueueAt(s, VictimPlace(s, x)), x);
  }

  lemma RemoveInv(s: State, t: State, x: nat)
    requires Inv(s) && Step(s, Action.Remove(x), t)
    ensures Inv(t)
  {
    VictimIsQueued(s, x);
    forall w ensures QueueOk(t, w) { RemoveQueue(s, t, x, w); }
    forall y | 0 <= y < |t.envs| ensures StatusOk(t, y) { assert EnvOk(s, y); }
    QuietInv(s, t);
  }

  lemma JoinedQueues(a: Queue, b: Queue)
    requires Distinct(a) && Distinct(b) && forall x :: x in a ==> x !in b
    ensures Distinct(a + b) && forall x :: x in a + b <==> x in a || x in b
  {
    var c := a + b;
    forall i, j | 0 <= i < j < |c|
      ensures c[i] != c[j]
    {
      assert c[i] == (if i < |a| then a[i] else b[i - |a|]) && c[j] == (if j < |a| then a[j] else b[j - |a|]);
      assert i < |a| ==> a[i] in a;
      assert |a| <= j ==> b[j - |a|] in b;
    }
  }

  lemma StartAllInv(s: State, t: State)
    requires Inv(s) && Step(s, StartAll, t)
    ensures Inv(t)
  {
    forall w
      ensures QueueOk(t, w)
    {
      assert QueueOk(s, NewPlace) && QueueOk(s, ReadyPlace) && QueueOk(s, w);
      StartAllQueue(s, t, w);
    }
    forall y | 0 <= y < |t.envs|
      ensures StatusOk(t, y)
    {
      assert EnvOk(s, y);
      if y in s.q.newQ { QueuedIsOff(s, NewPlace, y); }
    }
    QuietInv(s, t);
  }

  lemma StartAllQueue(s: State, t: State, w: Place)
    requires QueueOk(s, NewPlace) && QueueOk(s, ReadyPlace) && QueueOk(s, w)
    requires t == s.(q := RunAll(s.q), envs := MoveAll(s.envs, s.q.newQ, ReadyPlace))
    ensures QueueOk(t, w)
  {
    JoinedQueues(s.q.newQ, s.q.readyQ);
  }

  lemma RetireAllQueue(s: State, t: State, w: Place)
    requires QueueOk(s, ExitPlace) && QueueOk(s, ReadyPlace) && QueueOk(s, w)
    requires t == s.(q := ExitAll(s.q), envs := MoveAll(s.envs, s.q.readyQ, ExitPlace))
    ensures QueueOk(t, w)
  {
    ReverseMembers(s.q.readyQ);
    RetiredQueue(s, t, Reverse(s.q.readyQ), w);
  }

  /** The ready queue, in any order, has become the front part of the exit queue. */
  lemma RetiredQueue(s: State, t: State, front: Queue, w: Place)
    requires QueueOk(s, ExitPlace) && QueueOk(s, ReadyPlace) && QueueOk(s, w)
    requires Distinct(front) && forall x :: x in front <==> x in s.q.readyQ
    requires t.q.newQ == s.q.newQ && t.q.readyQ == [] && t.q.exitQ == front + s.q.exitQ && t.locks == s.locks
    requires t.envs == MoveAll(s.envs, s.q.readyQ, ExitPlace)
    ensures QueueOk(t, w)
  {
    JoinedQueues(front, s.q.exitQ);
  }

  lemma RetireAllInv(s: State, t: State)
    requires Inv(s) && Step(s, RetireAll, t)
    ensures Inv(t)
  {
    forall w
      ensures QueueOk(t, w)
    {
      assert QueueOk(s, ExitPlace) && QueueOk(s, ReadyPlace) && QueueOk(s, w);
      RetireAllQueue(s, t, w);
    }
    forall y | 0 <= y < |t.envs|
      ensures StatusOk(t, y)
    {
      assert EnvOk(s, y);
      if y in s.q.readyQ { QueuedIsOff(s, ReadyPlace, y); }
    }
    QuietInv(s, t);
  }

  /** wakeup_all makes the longest sleeper ready. */
  lemma WakeInv(s: State, t: State, c: nat, e: nat)
    requires Inv(s) && Step(s, Exec(c, e), t) && s.envs[e].pc.WakeLoop? && |s.locks[s.envs[e].pc.l].chan| > 0
    ensures Inv(t)
  {
    var l := s.envs[e].pc.l;
    ExecutingIsRunning(s, c, e);
    SleeperIsOff(s, c, e, l, Next(s.locks[l].chan));
    forall w ensures QueueOk(t, w) { WakeQueue(s, t, c, e, l, w); }
    forall d | 0 <= d < |t.cpus| ensures CpuOk(t, d) { assert CpuOk(s, d); }
    forall m, d | 0 <= m < |t.locks| && 0 <= d < |t.cpus| ensures GuardOk(t, m, d) { assert GuardOk(s, m, d); }
    forall m | 0 <= m < |t.locks| ensures LockOk(t, m) { assert LockOk(s, m); }
    forall m, y | 0 <= m < |t.locks| && 0 <= y < |t.envs| ensures HasOk(t, m, y) { assert HasOk(s, m, y); }
    forall y | 0 <= y < |t.envs| ensures EnvOk(t, y) { WakeEnv(s, t, c, e, l, y); }
  }

  lemma WakeQueue(s: State, t: State, c: nat, e: nat, l: nat, w: Place)
    requires Inv(s) && Step(s, Exec(c, e), t) && s.envs[e].pc == WakeLoop(l) && |s.locks[l].chan| > 0
    ensures QueueOk(t, w)
  {
    var x := Next(s.locks[l].chan);
    SleeperIsOff(s, c, e, l, x);
    assert QueueOk(s, w) && QueueOk(s, Channel(l)) && QueueOk(s, ReadyPlace);
    RestMembers(s.locks[l].chan);
    EnqueueMembers(s.q.readyQ, x);
  }

  lemma WakeEnv(s: State, t: State, c: nat, e: nat, l: nat, y: nat)
    requires Inv(s) && Step(s, Exec(c, e), t) && s.envs[e].pc == WakeLoop(l) && |s.locks[l].chan| > 0 && y < |s.envs|
    ensures EnvOk(t, y)
  {
    ExecutingIsRunning(s, c, e);
    SleeperIsOff(s, c, e, l, Next(s.locks[l].chan));
    assert EnvOk(s, y);
    if y != e {
      GuardExcludes(s, c, e, l, y);
    }
  }

  /** While a wakeup holds the queue lock, those in the channel have left their CPUs. */
  lemma SleeperIsOff(s: State, c: nat, e: nat, l: nat, x: nat)
    requires Inv(s) && At(s, c, e, WakeLoop(l)) && x in s.locks[l].chan
    ensures x < |s.envs| && x != e && !s.envs[x].orphan && s.envs[x].cpu.None? && s.q.status[x] == Blocked
    ensures s.envs[x].place == Some(Channel(l))
  {
    ExecutingIsRunning(s, c, e);
    assert QueueOk(s, Channel(l)) && EnvOk(s, x);
    assert s.envs[x].cpu.Some? ==> CpuOk(s, s.envs[x].cpu.value);
  }

  // ---------------------------------------------------------------- dispatching

  lemma PickInv(s: State, t: State, c: nat)
    requires Inv(s) && Step(s, Pick(c), t)
    ensures Inv(t)
  {
    assert CpuOk(s, c);
    if s.cpus[c].proc.None? {
      DispatchInv(s, t, c);
    } else {
      RequeueInv(s, c, s.cpus[c].proc.value);
      DispatchInv(Requeue(s, c, s.cpus[c].proc.value), t, c);
    }
  }

  lemma RequeueInv(s: State, c: nat, e: nat)
    requires Inv(s) && c < |s.cpus| && s.cpus[c] == Cpu(Picking, Some(e)) && e < |s.envs|
    ensures Inv(Requeue(s, c, e))
  {
    var u := Requeue(s, c, e);
    assert CpuOk(s, c) && EnvOk(s, e) && QueueOk(s, ReadyPlace);
    FrozenLocks(s, u);
    FrozenGuards(s, u, c);
    forall w ensures QueueOk(u, w) { assert QueueOk(s, w); EnqueueMembers(s.q.readyQ, e); }
    forall d | 0 <= d < |u.cpus| ensures CpuOk(u, d) { assert CpuOk(s, d); }
    forall x | 0 <= x < |u.envs| ensures EnvOk(u, x) { assert EnvOk(s, x); }
  }

  lemma DispatchInv(s: State, t: State, c: nat)
    requires Inv(s) && c < |s.cpus| && s.cpus[c] == Cpu(Picking, None) && Dispatch(s, c) == Some(t)
    ensures Inv(t)
  {
    assert CpuOk(s, c) && QueueOk(s, ReadyPlace);
    FrozenLocks(s, t);
    if |s.q.readyQ| > 0 {
      RestMembers(s.q.readyQ);
      assert EnvOk(s, Next(s.q.readyQ));
    }
    FrozenGuards(s, t, c);
    forall w ensures QueueOk(t, w) { assert QueueOk(s, w); }
    forall d | 0 <= d < |t.cpus| ensures CpuOk(t, d) { assert CpuOk(s, d); }
    forall x | 0 <= x < |t.envs| ensures EnvOk(t, x) { assert EnvOk(s, x); }
  }

  // ---------------------------------------------------------------- all steps

  lemma ExecInv(s: State, t: State, c: nat, e: nat)
    requires Inv(s) && Step(s, Exec(c, e), t)
    ensures Inv(t)
  {
    match s.envs[e].pc
    case AcqEnter(_) => EnterInv(s, t, c, e);
    case AcqGuard(_) => EnterInv(s, t, c, e);
    case RelEnter(_) => ReenterInv(s, t, c, e);
    case RelGuard(_) => ReenterInv(s, t, c, e);
    case AcqCheck(_) => AcquireCheckInv(s, t, c, e);
    case RelCheck(_) => ReleaseCheckInv(s, t, c, e);
    case AcqLeave(_) => LeaveInv(s, t, c, e);
    case RelLeave(_) => LeaveInv(s, t, c, e);
    case AcqLoop(_) => BusyInv(s, t, c, e);
    case SleepLock(_) => BusyInv(s, t, c, e);
    case SleepEnqueue(_) => QueueInv(s, t, c, e);
    case SleepDrop(_) => QueueInv(s, t, c, e);
    case SleepBlock(_) => BlockInv(s, t, c, e);
    case AcqTake(_) => ClaimInv(s, t, c, e);
    case AcqName(_) => ClaimInv(s, t, c, e);
    case WakeLock(_) => WokenInv(s, t, c, e);
    case WakeLoop(l) => if |s.locks[l].chan| == 0 { WokenInv(s, t, c, e); } else { WakeInv(s, t, c, e); }
    case RelFree(_) => UnlockInv(s, t, c, e);
    case RelUnname(_) => UnlockInv(s, t, c, e);
  }

  /** Every step keeps the invariant. */
  lemma StepInv(s: State, a: Action, t: State)
    requires Inv(s) && Step(s, a, t)
    ensures Inv(t)
  {
    match a
    case Call(c, e, p) => CallInv(s, t, c, e, p);
    case Exec(c, e) => ExecInv(s, t, c, e);
    case Yield(c, e) => YieldInv(s, t, c, e);
    case Finish(c, e) => FinishInv(s, t, c, e);
    case Create(x) => CreateInv(s, t, x);
    case Start(x) => StartInv(s, t, x);
    case StartAll => StartAllInv(s, t);
    case Retire(x) => RetireInv(s, t, x);
    case RetireAll => RetireAllInv(s, t);
    case Remove(x) => RemoveInv(s, t, x);
    case Enter(c) => SchedEnterInv(s, t, c);
    case Pick(c) => PickInv(s, t, c);
    case Back(c) => BackInv(s, t, c);
    case Settle(c) => SettleInv(s, t, c);
  }

  // ---------------------------------------------------------------- runs

  ghost predicate StepAt(ss: seq<State>, acts: seq<Action>, i: nat)
    requires i < |acts| < |ss|
  {
    Step(ss[i], acts[i], ss[i + 1])
  }

  /** A run: states from an initial one on, with an action of some CPU between each and the next. */
  ghost predicate Behaviour(ss: seq<State>, acts: seq<Action>) {
    && |ss| == |acts| + 1 && Init(ss[0])
    && forall i :: 0 <= i < |acts| ==> StepAt(ss, acts, i)
  }

  lemma {:induction false} RunsKeepInv(ss: seq<State>, acts: seq<Action>, k: nat)
    requires Behaviour(ss, acts) && k < |ss|
    ensures Inv(ss[k])
  {
    if k == 0 {
      InitInv(ss[0]);
    } else {
      RunsKeepInv(ss, acts, k - 1);
      assert StepAt(ss, acts, k - 1);
      StepInv(ss[k - 1], acts[k - 1], ss[k]);
    }
  }

  /** At most one environment has a sleeplock; while the guard is free the lock is marked locked exactly
      when somebody has it, and pid names that environment. */
  lemma MutualExclusion(ss: seq<State>, acts: seq<Action>, k: nat, l: nat, e: nat, f: nat)
    requires Behaviour(ss, acts) && k < |ss| && l < |ss[k].locks| && e < |ss[k].envs| && f < |ss[k].envs|
    ensures l in ss[k].envs[e].has && l in ss[k].envs[f].has ==> e == f
    ensures l in ss[k].envs[e].has ==> ss[k].locks[l].locked
    ensures l in ss[k].envs[e].has && ss[k].locks[l].guard.None? ==> ss[k].locks[l].pid == e
    ensures ss[k].locks[l].locked ==> exists x :: 0 <= x < |ss[k].envs| && l in ss[k].envs[x].has
  {
    var s := ss[k];
    RunsKeepInv(ss, acts, k);
    assert HasOk(s, l, e) && HasOk(s, l, f) && LockOk(s, l) && EnvOk(s, e);
    if s.locks[l].locked {
      assert HasOk(s, l, s.locks[l].owner.value);
    }
    if s.envs[e].pc == AcqName(l) {
      assert GuardOk(s, l, s.envs[e].cpu.value);
    }
  }

  /** No wakeup is lost: nobody waits in the channel of a lock that is free, and no environment is blocked
      other than in the channel of a lock that somebody has. */
  lemma NoLostWakeup(ss: seq<State>, acts: seq<Action>, k: nat, l: nat, e: nat)
    requires Behaviour(ss, acts) && k < |ss| && l < |ss[k].locks| && e < |ss[k].envs|
    ensures ss[k].locks[l].chan != [] ==> ss[k].locks[l].locked
    ensures |ss[k].q.status| == |ss[k].envs|
    ensures ss[k].q.status[e] == Blocked ==>
      exists m :: 0 <= m < |ss[k].locks| && e in ss[k].locks[m].chan && ss[k].locks[m].locked
  {
    var s := ss[k];
    RunsKeepInv(ss, acts, k);
    assert LockOk(s, l) && EnvOk(s, e);
    if s.q.status[e] == Blocked {
      var m := s.envs[e].pc.l;
      assert QueueOk(s, Channel(m)) && LockOk(s, m);
      assert e in s.locks[m].chan;
    }
  }

  /** Every environment is in one queue at most, and in it once. */
  lemma OneQueue(ss: seq<State>, acts: seq<Action>, k: nat, e: nat, v: Place, w: Place)
    requires Behaviour(ss, acts) && k < |ss| && e in QueueAt(ss[k], v)
    ensures e in QueueAt(ss[k], w) ==> v == w
    ensures var q := QueueAt(ss[k], v);
      forall i, j :: 0 <= i < |q| && 0 <= j < |q| && q[i] == q[j] ==> i == j
  {
    RunsKeepInv(ss, acts, k);
    assert QueueOk(ss[k], v) && QueueOk(ss[k], w);
  }

  // ---------------------------------------------------------------- status and place

  /** The status of an environment says where it is: in which queue, in some channel, or on a CPU. */
  ghost predicate Agrees(s: State, e: nat)
    requires Sized(s) && e < |s.envs|
  {
    && (s.q.status[e] == New <==> e in s.q.newQ)
    && (s.q.status[e] == Ready <==> e in s.q.readyQ)
    && (s.q.status[e] == Exit <==> e in s.q.exitQ)
    && (s.q.status[e] == Blocked <==> exists l :: 0 <= l < |s.locks| && e in s.locks[l].chan)
    && (s.q.status[e] == Running <==> exists c :: 0 <= c < |s.cpus| && s.cpus[c].proc == Some(e))
  }

  /** Between critical sections of the queue lock only an environment killed while ready has a wrong status. */
  lemma OnlyOrphansDisagree(s: State, e: nat)
    requires Inv(s) && s.qlock.None? && e < |s.envs|
    ensures Agrees(s, e) <==> !s.envs[e].orphan
    ensures s.envs[e].orphan ==> s.q.status[e] == Ready && forall w :: e !in QueueAt(s, w)
  {
    assert EnvOk(s, e) && QueueOk(s, NewPlace) && QueueOk(s, ReadyPlace) && QueueOk(s, ExitPlace);
    forall w | e in QueueAt(s, w)
      ensures s.envs[e].place == Some(w)
    {
      assert QueueOk(s, w);
    }
    if !s.envs[e].orphan {
      QuietStatus(s, e);
      ChannelSays(s, e);
      CpuSays(s, e);
    }
  }

  lemma ChannelSays(s: State, e: nat)
    requires Inv(s) && s.qlock.None? && e < |s.envs| && !s.envs[e].orphan
    ensures s.q.status[e] == Blocked <==> exists l :: 0 <= l < |s.locks| && e in s.locks[l].chan
  {
    assert EnvOk(s, e);
    QuietStatus(s, e);
    if s.q.status[e] == Blocked {
      assert QueueOk(s, Channel(s.envs[e].pc.l));
      assert e in s.locks[s.envs[e].pc.l].chan;
    }
    if l :| 0 <= l < |s.locks| && e in s.locks[l].chan {
      assert QueueOk(s, Channel(l));
    }
  }

  lemma CpuSays(s: State, e: nat)
    requires Inv(s) && s.qlock.None? && e < |s.envs| && !s.envs[e].orphan
    ensures s.q.status[e] == Running <==> exists c :: 0 <= c < |s.cpus| && s.cpus[c].proc == Some(e)
  {
    assert EnvOk(s, e);
    QuietStatus(s, e);
    if c :| 0 <= c < |s.cpus| && s.cpus[c].proc == Some(e) {
      assert CpuOk(s, c);
    }
    if s.q.status[e] == Running {
      assert s.cpus[s.envs[e].cpu.value].proc == Some(e);
    }
  }

  /** Killing leaves a status that agrees with the victim's place exactly when the victim was not ready; a
      ready one stays READY and is in no queue. */
  lemma KillAgrees(s: State, t: State, x: nat)
    requires Inv(s) && Step(s, Action.Remove(x), t)
    ensures x < |t.envs| && Sized(t)
    ensures Agrees(t, x) <==> x !in s.q.readyQ
    ensures x in s.q.readyQ ==> t.q.status[x] == Ready && forall w :: x !in QueueAt(t, w)
  {
    RemoveInv(s, t, x);
    OnlyOrphansDisagree(t, x);
  }

  /** No statement of a sleeplock call makes an orphan. */
  lemma StatementKeepsOrphans(s: State, t: State, c: nat, x: nat, e: nat)
    requires Step(s, Exec(c, x), t) && e < |s.envs|
    ensures |t.envs| == |s.envs| && t.envs[e].orphan == s.envs[e].orphan
  {
    if s.envs[x].pc.WakeLoop? {
      WakeKeepsOrphans(s, t, c, x, e);
    } else {
      OtherKeepsOrphans(s, t, c, x, e);
    }
  }

  lemma WakeKeepsOrphans(s: State, t: State, c: nat, x: nat, e: nat)
    requires Sized(s) && x < |s.envs| && s.envs[x].pc.WakeLoop? && At(s, c, x, s.envs[x].pc) && e < |s.envs|
    requires Statement(s, c, x) == Some(t)
    ensures |t.envs| == |s.envs| && t.envs[e].orphan == s.envs[e].orphan
  {
  }

  lemma OtherKeepsOrphans(s: State, t: State, c: nat, x: nat, e: nat)
    requires Sized(s) && x < |s.envs| && At(s, c, x, s.envs[x].pc) && e < |s.envs|
    requires !s.envs[x].pc.Out? && !s.envs[x].pc.WakeLoop? && Statement(s, c, x) == Some(t)
    ensures |t.envs| == |s.envs| && t.envs[e].orphan == s.envs[e].orphan
  {
  }

  lemma DispatchKeepsOrphans(s: State, t: State, c: nat, e: nat)
    requires Step(s, Pick(c), t) && e < |s.envs|
    ensures |t.envs| == |s.envs| && t.envs[e].orphan == s.envs[e].orphan
  {
  }

  /** A step makes an orphan of e exactly when it kills e while it is ready, and none ceases to be one. */
  lemma OrphanStep(s: State, a: Action, t: State, e: nat)
    requires Inv(s) && Step(s, a, t) && e < |s.envs|
    ensures |t.envs| == |s.envs|
    ensures t.envs[e].orphan <==> s.envs[e].orphan || (a == Action.Remove(e) && e in s.q.readyQ)
  {
    match a
    case Exec(c, x) => StatementKeepsOrphans(s, t, c, x, e);
    case Pick(c) => DispatchKeepsOrphans(s, t, c, e);
    case Remove(x) => VictimIsQueued(s, x);
    case _ =>
  }

  /** Some action of the run before state k killed environment e while it was ready. */
  ghost predicate KilledWhileReady(ss: seq<State>, acts: seq<Action>, k: nat, e: nat)
    requires k <= |acts| < |ss|
  {
    exists j :: 0 <= j < k && KillsReady(ss, acts, j, e)
  }

  ghost predicate KillsReady(ss: seq<State>, acts: seq<Action>, j: nat, e: nat)
    requires j < |acts| < |ss|
  {
    acts[j] == Action.Remove(e) && e in ss[j].q.readyQ
  }

  lemma {:induction false} OrphansWereKilled(ss: seq<State>, acts: seq<Action>, k: nat, e: nat)
    requires Behaviour(ss, acts) && k < |ss| && e < |ss[0].envs|
    ensures e < |ss[k].envs| && (ss[k].envs[e].orphan <==> KilledWhileReady(ss, acts, k, e))
  {
    if k > 0 {
      OrphansWereKilled(ss, acts, k - 1, e);
      RunsKeepInv(ss, acts, k - 1);
      assert StepAt(ss, acts, k - 1);
      OrphanStep(ss[k - 1], acts[k - 1], ss[k], e);
      assert KillsReady(ss, acts, k - 1, e) <==> acts[k - 1] == Action.Remove(e) && e in ss[k - 1].q.readyQ;
    }
  }

  /** In every run, between critical sections of the queue lock, the status of an environment says where it
      is exactly when it was never killed while it was ready. */
  lemma StatusSaysWhere(ss: seq<State>, acts: seq<Action>, k: nat, e: nat)
    requires Behaviour(ss, acts) && k < |ss| && ss[k].qlock.None? && e < |ss[0].envs|
    ensures e < |ss[k].envs| && Sized(ss[k])
    ensures Agrees(ss[k], e) <==> !KilledWhileReady(ss, acts, k, e)
  {
    RunsKeepInv(ss, acts, k);
    OrphansWereKilled(ss, acts, k, e);
    OnlyOrphansDisagree(ss[k], e);
  }

  /** It happens: an environment is created, started and killed, and is READY in no queue. */
  lemma KilledReadyWitness() returns (ss: seq<State>, acts: seq<Action>)
    ensures Behaviour(ss, acts) && |ss| == 4 && ss[3].qlock.None? && |ss[3].envs| == 1 && Sized(ss[3])
    ensures ss[3].q.status[0] == Ready && ss[3].q.readyQ == [] && !Agrees(ss[3], 0)
  {
    var outside := Env(Out, {}, None, None, false);
    var s0 := State(Queues([], [], [], [Free]), None, [outside], [Cpu(Idle, None)], []);
    var s1 := Arrive(s0, 0, NewPlace).(q := NewEnv(s0.q, 0));
    var s2 := Arrive(s1, 0, ReadyPlace).(q := RunEnv(s1.q, 0));
    var s3 := s2.(q := Kill(s2.q, 0), envs := s2.envs[0 := s2.envs[0].(place := None, orphan := true)]);
    ss, acts := [s0, s1, s2, s3], [Create(0), Start(0), Action.Remove(0)];
    assert StepAt(ss, acts, 0) && StepAt(ss, acts, 1) && StepAt(ss, acts, 2);
  }
}
