/** The semaphore of ipc.c as a state machine: each step is one region with interrupts disabled. A
    release with threads waiting hands its unit to the first of them and leaves the value alone. */
module SemaphoreSpec {
  import opened Ipc
  import opened WaitList
  import opened Wrappers

  datatype State = State(flag: Flag, value: nat, waiters: seq<Waiter>)

  datatype Action = Take(t: nat, prio: nat, timeout: int) | Release | Expire(t: nat) | Reset(value: nat)

  /** A running thread is on no list; the 16-bit value does not overflow. */
  ghost predicate Enabled(s: State, a: Action) {
    match a
    case Take(t, _, _) => !OnList(s.waiters, t)
    case Release => s.value < 0xFFFF
    case Expire(t) => OnList(s.waiters, t)
    case Reset(value) => value <= 0xFFFF
  }

  /** rt_sem_take up to the point where the thread suspends. */
  function DoTake(s: State, t: nat, prio: nat, timeout: int): (State, Code) {
    if s.value > 0 then (s.(value := s.value - 1), EOK)
    else if timeout == 0 then (s, ETIMEOUT)
    else (s.(waiters := Suspend(s.waiters, Waiter(t, prio), s.flag)), InProgress)
  }

  /** rt_sem_release: the state, and the thread that goes on with a unit. */
  function DoRelease(s: State): (State, Option<nat>) {
    if s.waiters != [] then (s.(waiters := s.waiters[1..]), Some(s.waiters[0].tid))
    else (s.(value := s.value + 1), None)
  }

  function Step(s: State, a: Action): State {
    match a
    case Take(t, prio, timeout) => DoTake(s, t, prio, timeout).0
    case Release => DoRelease(s).0
    case Expire(t) => s.(waiters := Remove(s.waiters, t))
    case Reset(value) => s.(waiters := [], value := value)
  }

  /** Nobody waits while there are units; waiting threads are on the list once and in order. */
  ghost predicate Inv(s: State) {
    && (s.waiters != [] ==> s.value == 0)
    && Distinct(s.waiters) && (s.flag.Prio? ==> Ordered(s.waiters))
  }

  lemma StepInv(s: State, a: Action)
    requires Inv(s) && Enabled(s, a)
    ensures Inv(Step(s, a))
  {
    match a
    case Take(t, prio, timeout) =>
      if s.value == 0 && timeout != 0 {
        forall x | x in s.waiters ensures x.tid != t { assert x.tid == t ==> OnList(s.waiters, t); }
        SuspendDistinct(s.waiters, Waiter(t, prio), s.flag);
        if s.flag.Prio? { SuspendOrdered(s.waiters, Waiter(t, prio)); }
      }
    case Release => if s.waiters != [] { TailKeeps(s.waiters); }
    case Expire(t) => RemoveMembers(s.waiters, t);
    case Reset(value) =>
  }

  /** A take succeeds at once if and only if there is a unit. Otherwise it gives up exactly when it may not
      wait, or it joins the line. */
  lemma TakeOutcome(s: State, t: nat, prio: nat, timeout: int)
    requires Inv(s)
    ensures var (s', r) := DoTake(s, t, prio, timeout);
      if s.value > 0 then r == EOK && s'.value == s.value - 1 && s'.waiters == s.waiters
      else if timeout == 0 then r == ETIMEOUT && s' == s
      else r == InProgress && s'.value == 0 && Joined(s.waiters, Waiter(t, prio), s.flag, s'.waiters)
  {
    SuspendJoins(s.waiters, Waiter(t, prio), s.flag);
  }

  /** A release gives its unit to the thread to be served: in priority order nobody left is more urgent, and
      of the equally urgent, in arrival order of all, it has waited longest. Without a waiting thread the
      unit is added to the value. */
  lemma ReleaseOutcome(s: State)
    requires Inv(s)
    ensures var (s', woken) := DoRelease(s);
      if s.waiters == [] then woken.None? && s'.value == s.value + 1 && s'.waiters == []
      else s'.value == s.value && exists w: Waiter :: woken == Some(w.tid) && Served(s.waiters, w, s.flag, s'.waiters)
  {
    if s.waiters != [] { HeadServed(s.waiters, s.flag); }
  }

  /** A thread that times out leaves the line, and nothing else changes. */
  lemma ExpireOutcome(s: State, t: nat)
    requires Inv(s)
    ensures var s' := Step(s, Expire(t));
      s'.value == s.value && forall w :: w in s'.waiters <==> w in s.waiters && w.tid != t
  {
    RemoveMembers(s.waiters, t);
  }

  ghost predicate EnabledRun(s: State, run: seq<Action>)
    decreases |run|
  {
    run == [] || (Enabled(s, run[0]) && EnabledRun(Step(s, run[0]), run[1..]))
  }

  function Run(s: State, run: seq<Action>): State
    decreases |run|
  {
    if run == [] then s else Run(Step(s, run[0]), run[1..])
  }

  /** In every reachable state nobody waits while there are units. */
  lemma {:induction false} RunInv(s: State, run: seq<Action>)
    requires Inv(s) && EnabledRun(s, run)
    ensures Inv(Run(s, run))
    decreases |run|
  {
    if run != [] {
      StepInv(s, run[0]);
      RunInv(Step(s, run[0]), run[1..]);
    }
  }

  /** The units a step gives out: to a take that returns EOK, or to the thread that a release resumes. */
  function Grants(s: State, a: Action): nat {
    match a
    case Take(t, prio, timeout) => if DoTake(s, t, prio, timeout).1 == EOK then 1 else 0
    case Release => if DoRelease(s).1.Some? then 1 else 0
    case _ => 0
  }

  function Granted(s: State, run: seq<Action>): nat
    decreases |run|
  {
    if run == [] then 0
    else
      Grants(s, run[0]) + Granted(Step(s, run[0]), run[1..])
  }

  function Released(run: seq<Action>): nat
    decreases |run|
  {
    if run == [] then 0 else (if run[0].Release? then 1 else 0) + Released(run[1..])
  }

  /** Units are neither lost nor made: over a run without reset, what there was and what was released is
      what was granted and what is left. */
  lemma {:induction false} RunConserves(s: State, run: seq<Action>)
    requires forall a :: a in run ==> !a.Reset?
    ensures s.value + Released(run) == Run(s, run).value + Granted(s, run)
    decreases |run|
  {
    if run != [] {
      assert run[0] in run && forall a :: a in run[1..] ==> a in run;
      RunConserves(Step(s, run[0]), run[1..]);
    }
  }
}

/** The semaphore as ipc.c runs it. */
module Semaphore {
  import opened Ipc
  import opened SemaphoreSpec
  import opened WaitList
  import opened Wrappers

  class Semaphore {
    const flag: Flag
    var value: nat
    var suspended: seq<Waiter>

    function Abs(): State
      reads this
    {
      State(flag, value, suspended)
    }

    ghost predicate Valid()
      reads this
    {
      Inv(Abs())
    }

    /** rt_sem_init. */
    constructor (v: nat, flg: Flag)
      ensures Valid() && Abs() == State(flg, v, [])
    {
      flag, value, suspended := flg, v, [];
    }

    /** rt_sem_take; rt_sem_trytake is a take without waiting. */
    method Take(t: nat, prio: nat, time: int) returns (r: Code)
      requires Valid() && Enabled(Abs(), Action.Take(t, prio, time))
      modifies this`value, this`suspended
      ensures Valid() && Abs() == DoTake(old(Abs()), t, prio, time).0 && r == DoTake(old(Abs()), t, prio, time).1
    {
      StepInv(Abs(), Action.Take(t, prio, time));
      if value > 0 {
        value := value - 1;
        return EOK;
      }
      if time == 0 { return ETIMEOUT; }
      var i := FindPosition(suspended, Waiter(t, prio), flag);
      suspended := suspended[..i] + [Waiter(t, prio)] + suspended[i..];
      return InProgress;
    }

    /** rt_sem_release. */
    method Release() returns (woken: Option<nat>)
      requires Valid() && Enabled(Abs(), Action.Release)
      modifies this`value, this`suspended
      ensures Valid() && Abs() == DoRelease(old(Abs())).0 && woken == DoRelease(old(Abs())).1
    {
      StepInv(Abs(), Action.Release);
      woken := None;
      if suspended != [] {
        woken := Some(suspended[0].tid);
        suspended := suspended[1..];
      } else {
        value := value + 1;
      }
    }

    /** rt_thread_timeout on a waiting thread. */
    method Expire(t: nat)
      requires Valid() && Enabled(Abs(), Action.Expire(t))
      modifies this`suspended
      ensures Valid() && Abs() == Step(old(Abs()), Action.Expire(t))
    {
      StepInv(Abs(), Action.Expire(t));
      suspended := Remove(suspended, t);
    }

    /** rt_sem_control with the reset command. */
    method Reset(v: nat)
      requires Valid() && v <= 0xFFFF
      modifies this`value, this`suspended
      ensures Valid() && Abs() == Step(old(Abs()), Action.Reset(v))
    {
      suspended := [];
      value := v;
    }
  }
}
