/** Round robin never starves, and the spinlocks never deadlock. */
module RoundRobin {
  import opened Wrappers
  import opened Scheduler
  import opened Sleeplock

  /** The action gives a CPU to an environment. */
  predicate Dispatches(s: State, a: Action) {
    a.Pick? && a.c < |s.cpus| && s.cpus[a.c].mode == Picking && (s.cpus[a.c].proc.Some? || |s.q.readyQ| > 0)
  }

  /** Whatever happens, a waiting environment that keeps waiting is not set back, and every dispatch of
      another one brings it forward. */
  lemma StepAhead(s: State, a: Action, t: State, e: nat)
    requires Inv(s) && Step(s, a, t) && e in s.q.readyQ && e in t.q.readyQ
    ensures Ahead(t.q.readyQ, e) + (if Dispatches(s, a) then 1 else 0) <= Ahead(s.q.readyQ, e)
  {
    assert QueueOk(s, ReadyPlace);
    match a
    case Start(x) => ArrivalsQueueBehind(s.q.readyQ, e, x);
    case StartAll => ManyArriveBehind(s.q.readyQ, e, s.q.newQ);
    case Retire(x) => RetireAhead(s, x, e);
    case Remove(x) => RemoveAhead(s, x, e);
    case RetireAll =>
    case Pick(c) => PickAhead(s, t, c, e);
    case Exec(c, x) => ExecAhead(s, t, c, x, e);
    case _ =>
  }

  lemma RetireAhead(s: State, x: nat, e: nat)
    requires QueueOk(s, ReadyPlace) && e in s.q.readyQ && e in Without(s.q.readyQ, x)
    ensures Ahead(Without(s.q.readyQ, x), e) <= Ahead(s.q.readyQ, e)
  {
    WithoutMembers(s.q.readyQ, x);
    RemovalHelps(s.q.readyQ, e, x);
  }

  lemma RemoveAhead(s: State, x: nat, e: nat)
    requires Sized(s) && QueueOk(s, ReadyPlace) && x < |s.q.status| && e in s.q.readyQ && e in Kill(s.q, x).readyQ
    ensures Ahead(Kill(s.q, x).readyQ, e) <= Ahead(s.q.readyQ, e)
  {
    if Kill(s.q, x).readyQ != s.q.readyQ {
      RetireAhead(s, x, e);
    }
  }

  /** Only a wakeup changes the ready queue in a statement, and it puts the sleeper behind. */
  lemma ExecAhead(s: State, t: State, c: nat, x: nat, e: nat)
    requires Inv(s) && Step(s, Exec(c, x), t) && e in s.q.readyQ
    ensures e in t.q.readyQ && Ahead(t.q.readyQ, e) == Ahead(s.q.readyQ, e)
  {
    var p := s.envs[x].pc;
    if p.WakeLoop? && |s.locks[p.l].chan| > 0 {
      ArrivalsQueueBehind(s.q.readyQ, e, Next(s.locks[p.l].chan));
    }
  }

  lemma PickAhead(s: State, t: State, c: nat, e: nat)
    requires Inv(s) && Step(s, Pick(c), t) && e in s.q.readyQ
    ensures e in t.q.readyQ ==> Ahead(t.q.readyQ, e) + 1 == Ahead(s.q.readyQ, e)
    ensures e !in t.q.readyQ ==> Ahead(s.q.readyQ, e) == 0 && t.cpus[c] == Cpu(Returning, Some(e))
  {
    assert CpuOk(s, c);
    var cur := s.cpus[c].proc;
    var u := if cur.None? then s else Requeue(s, c, cur.value);
    if cur.Some? {
      ArrivalsQueueBehind(s.q.readyQ, e, cur.value);
      RequeueInv(s, c, cur.value);
    }
    assert QueueOk(u, ReadyPlace);
    DispatchAhead(u, t, c, e);
  }

  lemma DispatchAhead(u: State, t: State, c: nat, e: nat)
    requires Sized(u) && c < |u.cpus| && QueueOk(u, ReadyPlace) && Dispatch(u, c) == Some(t) && e in u.q.readyQ
    ensures e in t.q.readyQ ==> Ahead(t.q.readyQ, e) + 1 == Ahead(u.q.readyQ, e)
    ensures e !in t.q.readyQ ==> Ahead(u.q.readyQ, e) == 0 && t.cpus[c] == Cpu(Returning, Some(e))
  {
    RestMembers(u.q.readyQ);
  }

  /** An environment leaves the ready queue only by being dispatched, when its turn has come, or because it
      is made to exit or killed. */
  lemma HowToLeave(s: State, a: Action, t: State, e: nat)
    requires Inv(s) && Step(s, a, t) && e in s.q.readyQ && e !in t.q.readyQ
    ensures a == Retire(e) || a == RetireAll || a == Action.Remove(e)
      || (a.Pick? && Ahead(s.q.readyQ, e) == 0 && a.c < |t.cpus| && t.cpus[a.c] == Cpu(Returning, Some(e)))
  {
    assert QueueOk(s, ReadyPlace);
    match a
    case Retire(x) => WithoutMembers(s.q.readyQ, x);
    case Remove(x) => WithoutMembers(s.q.readyQ, x);
    case Pick(c) => PickAhead(s, t, c, e);
    case Exec(c, x) => ExecAhead(s, t, c, x, e);
    case _ =>
  }

  lemma RunAhead(ss: seq<State>, acts: seq<Action>, k: nat, e: nat)
    requires Behaviour(ss, acts) && k < |acts| && e in ss[k].q.readyQ && e in ss[k + 1].q.readyQ
    ensures Ahead(ss[k + 1].q.readyQ, e) + (if Dispatches(ss[k], acts[k]) then 1 else 0) <= Ahead(ss[k].q.readyQ, e)
  {
    RunsKeepInv(ss, acts, k);
    assert StepAt(ss, acts, k);
    StepAhead(ss[k], acts[k], ss[k + 1], e);
  }

  /** The number of dispatches among the actions from i to j. */
  ghost function Dispatched(ss: seq<State>, acts: seq<Action>, i: nat, j: nat): nat
    requires i <= j <= |acts| < |ss|
  {
    if i == j then 0 else Dispatched(ss, acts, i, j - 1) + (if Dispatches(ss[j - 1], acts[j - 1]) then 1 else 0)
  }

  /** Round robin never starves: an environment with m others ahead of it in the ready queue sees at most m
      dispatches while it waits, whatever arrives, yields, blocks, is woken, killed or exits meanwhile. */
  lemma {:induction false} NoStarvation(ss: seq<State>, acts: seq<Action>, i: nat, j: nat, e: nat)
    requires Behaviour(ss, acts) && i <= j < |ss|
    requires forall k :: i <= k <= j ==> e in ss[k].q.readyQ
    ensures Dispatched(ss, acts, i, j) + Ahead(ss[j].q.readyQ, e) <= Ahead(ss[i].q.readyQ, e)
  {
    if i < j {
      NoStarvation(ss, acts, i, j - 1, e);
      assert e in ss[j].q.readyQ && e in ss[j - 1].q.readyQ;
      RunAhead(ss, acts, j - 1, e);
    }
  }

  // ---------------------------------------------------------------- no deadlock among the spinlocks

  /** The CPU that holds the queue lock can always go on. */
  lemma QueueHolderMoves(s: State) returns (a: Action)
    requires Inv(s) && s.qlock.Some?
    ensures Apply(s, a).Some?
    ensures (a.Pick? || a.Back? || a.Settle? || a.Exec?) && a.c == s.qlock.value
  {
    var c := s.qlock.value;
    assert CpuOk(s, c) && QueueOk(s, ReadyPlace);
    match s.cpus[c].mode
    case Picking =>
      a := Pick(c);
      if s.cpus[c].proc.None? && |s.q.readyQ| > 0 {
        assert Next(s.q.readyQ) in s.q.readyQ;
      }
      if s.cpus[c].proc.Some? {
        var q := Enqueue(s.q.readyQ, s.cpus[c].proc.value);
        assert Next(q) in q;
        EnqueueMembers(s.q.readyQ, s.cpus[c].proc.value);
      }
    case Returning => a := Back(c);
    case Given => a := Settle(c);
    case Executing =>
      var e := s.cpus[c].proc.value;
      assert EnvOk(s, e);
      a := Exec(c, e);
      if s.envs[e].pc.WakeLoop? && |s.locks[s.envs[e].pc.l].chan| > 0 {
        assert QueueOk(s, Channel(s.envs[e].pc.l));
        assert Next(s.locks[s.envs[e].pc.l].chan) in s.locks[s.envs[e].pc.l].chan;
      }
  }

  /** A CPU that holds a guard waits for the queue lock at most; the two are always taken in this order. */
  lemma GuardHolderMoves(s: State, l: nat) returns (a: Action)
    requires Inv(s) && s.qlock.None? && l < |s.locks| && s.locks[l].guard.Some?
    ensures Apply(s, a).Some? && a.Exec? && a.c == s.locks[l].guard.value
  {
    var c := s.locks[l].guard.value;
    assert LockOk(s, l) && GuardOk(s, l, c) && CpuOk(s, c);
    var e := s.cpus[c].proc.value;
    assert EnvOk(s, e);
    a := Exec(c, e);
  }

  /** In every state of every run some CPU can go on. */
  lemma NoDeadlock(ss: seq<State>, acts: seq<Action>, k: nat) returns (a: Action)
    requires Behaviour(ss, acts) && k < |ss| && |ss[k].cpus| > 0
    ensures Sized(ss[k]) && Apply(ss[k], a).Some?
    ensures a.Exec? || a.Yield? || a.Enter? || a.Pick? || a.Back? || a.Settle?
  {
    var s := ss[k];
    RunsKeepInv(ss, acts, k);
    assert CpuOk(s, 0);
    if s.qlock.Some? {
      a := QueueHolderMoves(s);
    } else if l :| 0 <= l < |s.locks| && s.locks[l].guard.Some? {
      a := GuardHolderMoves(s, l);
    } else if s.cpus[0].mode == Idle {
      a := Enter(0);
    } else {
      var e := s.cpus[0].proc.value;
      assert EnvOk(s, e);
      assert !s.envs[e].pc.Out? ==> GuardOk(s, s.envs[e].pc.l, 0);
      a := Yield(0, e);
    }
  }
}
