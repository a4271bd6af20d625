/** The process queues and what the scheduling calls do to them under the queue lock. */
module Scheduler {
  import opened Wrappers

  datatype Status = Free | New | Ready | Running | Blocked | Exit | Unknown

  /** Queues hold environments by number; index 0 is the list's head. */
  type Queue = seq<nat>

  /** enqueue inserts at the head. */
  function Enqueue(q: Queue, e: nat): Queue { [e] + q }

  /** dequeue takes the last member. */
  function Next(q: Queue): nat
    requires |q| > 0
  {
    q[|q| - 1]
  }

  function Rest(q: Queue): Queue
    requires |q| > 0
  {
    q[..|q| - 1]
  }

  /** LIST_REMOVE. */
  function Without(q: Queue, e: nat): Queue {
    if |q| == 0 then q else if q[0] == e then q[1..] else [q[0]] + Without(q[1..], e)
  }

  lemma EnqueueMembers(q: Queue, e: nat)
    ensures forall x :: x in Enqueue(q, e) <==> x == e || x in q
    ensures Distinct(q) && e !in q ==> Distinct(Enqueue(q, e))
  {
    assert forall i :: 0 <= i < |q| ==> Enqueue(q, e)[i + 1] == q[i];
  }

  lemma RestMembers(q: Queue)
    requires |q| > 0 && Distinct(q)
    ensures forall x :: x in Rest(q) <==> x in q && x != Next(q)
    ensures Distinct(Rest(q)) && Next(q) in q
  {
    assert q == Rest(q) + [Next(q)];
  }

  lemma {:induction false} WithoutMembers(q: Queue, e: nat)
    requires Distinct(q)
    ensures forall x :: x in Without(q, e) <==> x in q && x != e
    ensures Distinct(Without(q, e))
  {
    if |q| > 0 {
      assert forall i :: 0 <= i < |q[1..]| ==> q[1..][i] == q[i + 1];
      assert q[0] !in q[1..];
      assert forall x :: x in q <==> x == q[0] || x in q[1..];
      if q[0] != e {
        WithoutMembers(q[1..], e);
        EnqueueMembers(Without(q[1..], e), q[0]);
        assert Without(q, e) == Enqueue(Without(q[1..], e), q[0]);
      }
    }
  }

  // ---------------------------------------------------------------- round robin's order

  /** How many members leave the queue before e does. */
  function Ahead(q: Queue, e: nat): (n: nat)
    requires e in q
    ensures n < |q|
  {
    if Next(q) == e then 0 else
      assert e in Rest(q) by { assert q == Rest(q) + [Next(q)]; }
      1 + Ahead(Rest(q), e)
  }

  /** Arrivals do not get ahead. */
  lemma {:induction false} ArrivalsQueueBehind(q: Queue, e: nat, x: nat)
    requires e in q
    ensures e in Enqueue(q, x) && Ahead(Enqueue(q, x), e) == Ahead(q, e)
  {
    assert Enqueue(q, x) == [x] + q && Next(Enqueue(q, x)) == Next(q);
    if Next(q) != e {
      assert q == Rest(q) + [Next(q)];
      assert Rest(Enqueue(q, x)) == Enqueue(Rest(q), x);
      ArrivalsQueueBehind(Rest(q), e, x);
    }
  }

  lemma {:induction false} ManyArriveBehind(q: Queue, e: nat, xs: Queue)
    requires e in q
    ensures e in xs + q && Ahead(xs + q, e) == Ahead(q, e)
  {
    if |xs| == 0 {
      assert xs + q == q;
    } else {
      ManyArriveBehind(q, e, xs[1..]);
      ArrivalsQueueBehind(xs[1..] + q, e, xs[0]);
      assert xs + q == Enqueue(xs[1..] + q, xs[0]);
    }
  }

  /** A new arrival waits for exactly those that were there. */
  lemma {:induction false} ArrivalWaitsForAll(q: Queue, e: nat)
    requires e !in q
    ensures Ahead(Enqueue(q, e), e) == |q|
  {
    if |q| > 0 {
      assert Next(Enqueue(q, e)) == Next(q) && Next(q) in q;
      assert Rest(Enqueue(q, e)) == Enqueue(Rest(q), e);
      ArrivalWaitsForAll(Rest(q), e);
    }
  }

  /** A removal never sets anyone back. */
  lemma {:induction false} RemovalHelps(q: Queue, e: nat, x: nat)
    requires Distinct(q) && e in q && x != e
    ensures e in Without(q, x) && Ahead(Without(q, x), e) <= Ahead(q, e)
  {
    var w := Without(q, x);
    WithoutMembers(q, x);
    if x in q {
      RestMembers(q);
      WithoutFromRest(q, x);
      if Next(q) == x {
        assert Ahead(q, e) == 1 + Ahead(Rest(q), e);
      } else if Next(q) != e {
        RemovalHelps(Rest(q), e, x);
      }
    } else {
      WithoutAbsent(q, x);
    }
  }

  lemma {:induction false} WithoutAbsent(q: Queue, x: nat)
    requires x !in q
    ensures Without(q, x) == q
  {
    if |q| > 0 {
      WithoutAbsent(q[1..], x);
    }
  }

  lemma {:induction false} WithoutAt(q: Queue, e: nat, i: nat)
    requires i < |q| && q[i] == e && forall k :: 0 <= k < i ==> q[k] != e
    ensures Without(q, e) == q[..i] + q[i + 1..]
  {
    if i > 0 {
      WithoutAt(q[1..], e, i - 1);
    }
  }

  lemma {:induction false} WithoutFromRest(q: Queue, x: nat)
    requires Distinct(q) && x in q
    ensures Next(q) == x ==> Without(q, x) == Rest(q)
    ensures Next(q) != x ==> Without(q, x) == Without(Rest(q), x) + [Next(q)]
  {
    var i :| 0 <= i < |q| && q[i] == x;
    WithoutAt(q, x, i);
    if i < |q| - 1 {
      WithoutAt(Rest(q), x, i);
      assert q[i] != q[|q| - 1];
      assert q[i + 1..] == Rest(q)[i + 1..] + [Next(q)];
    }
  }

  // ---------------------------------------------------------------- the calls, as values

  datatype Queues = Queues(newQ: Queue, readyQ: Queue, exitQ: Queue, status: seq<Status>)

  /** sched_new_env. */
  function NewEnv(s: Queues, e: nat): Queues
    requires e < |s.status|
  {
    s.(newQ := Enqueue(s.newQ, e), status := s.status[e := New])
  }

  function InsertReady(s: Queues, e: nat): Queues
    requires e < |s.status|
  {
    s.(readyQ := Enqueue(s.readyQ, e), status := s.status[e := Ready])
  }

  /** sched_run_env: a new environment becomes ready; any other number changes nothing. */
  function RunEnv(s: Queues, e: nat): Queues
    requires e < |s.status|
  {
    if e in s.newQ then InsertReady(s.(newQ := Without(s.newQ, e)), e) else s
  }

  function SetAll(status: seq<Status>, q: Queue, t: Status): seq<Status> {
    seq(|status|, i requires 0 <= i < |status| => if i in q then t else status[i])
  }

  /** sched_run_all: all new environments become ready, in the order of their creation. */
  function RunAll(s: Queues): Queues {
    s.(newQ := [], readyQ := s.newQ + s.readyQ, status := SetAll(s.status, s.newQ, Ready))
  }

  function Reverse(q: Queue): Queue {
    if |q| == 0 then [] else Reverse(q[1..]) + [q[0]]
  }

  /** sched_exit_all_ready_envs. */
  function ExitAll(s: Queues): Queues {
    s.(readyQ := [], exitQ := Reverse(s.readyQ) + s.exitQ, status := SetAll(s.status, s.readyQ, Exit))
  }

  /** sched_exit_env on a ready environment. */
  function ExitReady(s: Queues, e: nat): Queues
    requires e < |s.status|
  {
    s.(readyQ := Without(s.readyQ, e), exitQ := Enqueue(s.exitQ, e), status := s.status[e := Exit])
  }

  /** sched_exit_env on the running environment, before it gives up the CPU. */
  function ExitSelf(s: Queues, e: nat): Queues
    requires e < |s.status|
  {
    s.(exitQ := Enqueue(s.exitQ, e), status := s.status[e := Exit])
  }

  /** sched_kill_env on an environment in a queue; a ready one keeps its status. */
  function Kill(s: Queues, e: nat): Queues
    requires e < |s.status|
  {
    if e in s.newQ then s.(newQ := Without(s.newQ, e), status := s.status[e := Unknown])
    else if e in s.readyQ then s.(readyQ := Without(s.readyQ, e))
    else if e in s.exitQ then s.(exitQ := Without(s.exitQ, e), status := s.status[e := Unknown])
    else s
  }

  lemma {:induction false} ReverseMembers(q: Queue)
    ensures forall x :: x in Reverse(q) <==> x in q
    ensures |Reverse(q)| == |q| && (Distinct(q) ==> Distinct(Reverse(q)))
  {
    if |q| > 0 {
      ReverseMembers(q[1..]);
      assert q == [q[0]] + q[1..];
      if Distinct(q) {
        assert forall i :: 0 <= i < |q[1..]| ==> q[1..][i] == q[i + 1];
        assert q[0] !in q[1..];
      }
    }
  }

  /** Whichever queue an environment enters, it is the last to leave it. */
  lemma NewcomersAreLast(s: Queues, e: nat)
    requires e < |s.status|
    ensures e !in s.newQ ==> e in NewEnv(s, e).newQ && Ahead(NewEnv(s, e).newQ, e) == |s.newQ|
    ensures e !in s.readyQ ==> e in InsertReady(s, e).readyQ && Ahead(InsertReady(s, e).readyQ, e) == |s.readyQ|
    ensures e !in s.exitQ ==> e in ExitReady(s, e).exitQ && Ahead(ExitReady(s, e).exitQ, e) == |s.exitQ|
    ensures e !in s.exitQ ==> e in ExitSelf(s, e).exitQ && Ahead(ExitSelf(s, e).exitQ, e) == |s.exitQ|
  {
    if e !in s.newQ {
      ArrivalWaitsForAll(s.newQ, e);
    }
    if e !in s.readyQ {
      ArrivalWaitsForAll(s.readyQ, e);
    }
    if e !in s.exitQ {
      ArrivalWaitsForAll(s.exitQ, e);
    }
  }

  /** sched_run_all keeps creation order: the environments created first are dispatched first, after
      those that were ready already. */
  lemma {:induction false} RunAllKeepsOrder(s: Queues, e: nat, x: nat)
    requires Distinct(s.newQ + s.readyQ) && e in s.newQ
    ensures e in RunAll(s).readyQ && Ahead(RunAll(s).readyQ, e) == |s.readyQ| + Ahead(s.newQ, e)
    ensures x in s.newQ ==>
      (Ahead(s.newQ, e) < Ahead(s.newQ, x) <==> Ahead(RunAll(s).readyQ, e) < Ahead(RunAll(s).readyQ, x))
  {
    AheadOfAppended(s.newQ, s.readyQ, e);
    if x in s.newQ {
      AheadOfAppended(s.newQ, s.readyQ, x);
    }
  }

  lemma {:induction false} AheadOfAppended(a: Queue, b: Queue, e: nat)
    requires Distinct(a + b) && e in a
    ensures e in a + b && Ahead(a + b, e) == |b| + Ahead(a, e)
  {
    if |b| == 0 {
      assert a + b == a;
    } else {
      assert a + b == (a + Rest(b)) + [Next(b)];
      var i :| 0 <= i < |a| && a[i] == e;
      assert (a + b)[i] == e && (a + b)[|a + b| - 1] == Next(b);
      assert Rest(a + b) == a + Rest(b);
      assert forall j :: 0 <= j < |a + Rest(b)| ==> (a + Rest(b))[j] == (a + b)[j];
      AheadOfAppended(a, Rest(b), e);
    }
  }

  // ---------------------------------------------------------------- the calls

  class ProcessQueues {
    var newQ: Queue
    var readyQ: Queue
    var exitQ: Queue
    const status: array<Status>

    constructor (n: nat)
      ensures Now() == Queues([], [], [], seq(n, _ => Free)) && fresh(status)
    {
      newQ, readyQ, exitQ := [], [], [];
      status := new Status[n](_ => Free);
    }

    ghost function Now(): Queues
      reads this, status
    {
      Queues(newQ, readyQ, exitQ, status[..])
    }

    ghost predicate Known(q: Queue) {
      forall i :: 0 <= i < |q| ==> q[i] < status.Length
    }

    /** remove_from_queue, by the same walk that find_env_in_queue does. */
    method Remove(q: Queue, e: nat) returns (r: Queue)
      ensures r == Without(q, e)
    {
      var i := 0;
      while i < |q| && q[i] != e
        invariant i <= |q| && forall k :: 0 <= k < i ==> q[k] != e
      {
        i := i + 1;
      }
      if i < |q| {
        WithoutAt(q, e, i);
        r := q[..i] + q[i + 1..];
      } else {
        WithoutAbsent(q, e);
        r := q;
      }
    }

    method SchedInsertReady(e: nat)
      requires e < status.Length
      modifies this`readyQ, status
      ensures Now() == InsertReady(old(Now()), e)
    {
      status[e] := Ready;
      readyQ := Enqueue(readyQ, e);
    }

    method SchedNewEnv(e: nat)
      requires e < status.Length
      modifies this`newQ, status
      ensures Now() == NewEnv(old(Now()), e)
    {
      status[e] := New;
      newQ := Enqueue(newQ, e);
    }

    /** start tells that this CPU's scheduler, which had stopped, is entered. */
    method SchedRunEnv(e: nat, stopped: bool) returns (start: bool)
      requires e < status.Length
      modifies this, status
      ensures Now() == RunEnv(old(Now()), e)
      ensures start <==> stopped && e in old(newQ)
    {
      start := false;
      if e in newQ {
        newQ := Remove(newQ, e);
        SchedInsertReady(e);
        start := stopped;
      }
    }

    /** Dequeue each new environment and make it ready; then the scheduler is entered, or the call panics when it
        had not stopped on this CPU. */
    method SchedRunAll(stopped: bool) returns (ok: bool)
      requires Known(newQ)
      modifies this, status
      ensures Now() == RunAll(old(Now())) && (ok <==> stopped)
    {
      ghost var q := newQ;
      var size := |newQ|;
      var i := 0;
      while i < size
        invariant i <= size == |q| && newQ == q[..size - i] && readyQ == q[size - i..] + old(readyQ)
        invariant exitQ == old(exitQ)
        invariant status[..] == SetAll(old(status[..]), q[size - i..], Ready)
      {
        var e := Next(newQ);
        assert e == q[size - i - 1] && q[size - i - 1..] == [e] + q[size - i..];
        newQ := Rest(newQ);
        SchedInsertReady(e);
        i := i + 1;
      }
      assert q[0..] == q;
      ok := stopped;
    }

    /** The running environment cur asks for environment e to exit: false when e is new, which reaches an assertion. */
    method SchedExitEnv(e: nat, cur: nat) returns (ok: bool, giveUp: bool)
      requires e < status.Length
      modifies this, status
      ensures ok <==> e !in old(newQ)
      ensures ok ==> giveUp == (e == cur)
      ensures ok && e in old(readyQ) ==> Now() == ExitReady(old(Now()), e)
      ensures ok && e !in old(readyQ) ==> Now() == if e == cur then ExitSelf(old(Now()), e) else old(Now())
    {
      ok, giveUp := true, false;
      if e in newQ {
        newQ := Remove(newQ, e);
        status[e] := Unknown;
        return false, false;
      }
      var found := false;
      if e in readyQ {
        readyQ := Remove(readyQ, e);
        found := true;
      } else if e == cur {
        found := true;
      }
      if found {
        status[e] := Exit;
        exitQ := Enqueue(exitQ, e);
        giveUp := e == cur;
      }
    }

    /** ok is false when the call panics: no environment runs here, or e itself does, and then sched()
        finds the queue lock released. */
    method SchedKillEnv(e: nat, cur: Option<nat>) returns (found: bool, ok: bool)
      requires e < status.Length
      modifies this, status
      ensures Now() == Kill(old(Now()), e)
      ensures found <==> e in old(newQ) || e in old(readyQ) || e in old(exitQ) || cur == Some(e)
      ensures ok <==> e in old(newQ) || e in old(readyQ) || e in old(exitQ) || (cur.Some? && cur.value != e)
    {
      found, ok := true, true;
      if e in newQ {
        newQ := Remove(newQ, e);
        status[e] := Unknown;
      } else if e in readyQ {
        readyQ := Remove(readyQ, e);
      } else if e in exitQ {
        exitQ := Remove(exitQ, e);
        status[e] := Unknown;
      } else {
        found := cur == Some(e);
        ok := cur.Some? && !found;
      }
    }

    /** Walk the ready queue from its head, moving each member to the exit queue. */
    method SchedExitAllReadyEnvs()
      requires Known(readyQ)
      modifies this, status
      ensures Now() == ExitAll(old(Now()))
    {
      ghost var q, i := readyQ, 0;
      while |readyQ| > 0
        invariant i <= |q| && readyQ == q[i..] && exitQ == Reverse(q[..i]) + old(exitQ) && newQ == old(newQ)
        invariant status[..] == SetAll(old(status[..]), q[..i], Exit)
        decreases |readyQ|
      {
        var e := readyQ[0];
        assert e == q[i] && q[..i + 1] == q[..i] + [e];
        ReverseSnoc(q[..i], e);
        readyQ := readyQ[1..];
        status[e] := Exit;
        exitQ := Enqueue(exitQ, e);
        i := i + 1;
      }
      assert q[..i] == q;
    }

    /** wakeup_one: the longest asleep becomes ready; an empty channel changes nothing. */
    method WakeupOne(chan: Queue) returns (rest: Queue)
      requires Known(chan)
      modifies this`readyQ, status
      ensures |chan| == 0 ==> rest == chan && Now() == old(Now())
      ensures |chan| > 0 ==>
        rest == Rest(chan) && Next(chan) < |old(Now()).status| && Now() == InsertReady(old(Now()), Next(chan))
    {
      if |chan| == 0 {
        return chan;
      }
      SchedInsertReady(Next(chan));
      rest := Rest(chan);
    }

    /** wakeup_all: every sleeper on the channel becomes ready, the longest asleep first. */
    method WakeupAll(chan: Queue)
      requires Known(chan)
      modifies this`readyQ, status
      ensures Now() == old(Now()).(readyQ := chan + old(readyQ), status := SetAll(old(status[..]), chan, Ready))
    {
      var q := chan;
      while |q| > 0
        invariant |q| <= |chan| && q == chan[..|q|] && readyQ == chan[|q|..] + old(readyQ)
        invariant status[..] == SetAll(old(status[..]), chan[|q|..], Ready)
        decreases |q|
      {
        var e := Next(q);
        assert chan[|q| - 1..] == [e] + chan[|q|..];
        q := Rest(q);
        SchedInsertReady(e);
      }
      assert chan[0..] == chan;
    }
  }

  lemma {:induction false} ReverseSnoc(q: Queue, e: nat)
    ensures Reverse(q + [e]) == [e] + Reverse(q)
  {
    if |q| > 0 {
      assert (q + [e])[1..] == q[1..] + [e];
      ReverseSnoc(q[1..], e);
    } else {
      assert (q + [e])[1..] == [];
    }
  }
}
