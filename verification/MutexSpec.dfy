/** The mutex of ipc.c as a state machine, for a system in which it is the only mutex and only its code
    changes priorities. Each step is one region with interrupts disabled; a smaller priority number is
    more urgent. */
module MutexSpec {
  import opened Ipc
  import opened WaitList
  import opened Wrappers

  const NO_PRIORITY: nat := 0xFF

  /** `base` is the priority a thread was given, `prio` the one it runs at. */
  datatype State = State(
    flag: Flag, value: nat, owner: Option<nat>, original: nat, hold: nat,
    waiters: seq<Waiter>, prio: map<nat, nat>, base: map<nat, nat>)

  datatype Action = Take(t: nat, timeout: int) | Release(t: nat) | Expire(t: nat)

  function Init(flag: Flag, base: map<nat, nat>): State {
    State(flag, 1, None, NO_PRIORITY, 0, [], base, base)
  }

  /** A running thread takes or releases; a waiting one may time out. The nesting counter has eight bits. */
  ghost predicate Enabled(s: State, a: Action) {
    match a
    case Take(t, _) => t in s.prio && !OnList(s.waiters, t) && s.hold < 0xFF
    case Release(t) => t in s.prio && !OnList(s.waiters, t)
    case Expire(t) => OnList(s.waiters, t)
  }

  /** rt_mutex_take. */
  function DoTake(s: State, t: nat, timeout: int): (State, Code)
    requires t in s.prio
  {
    if s.owner == Some(t) then (s.(hold := s.hold + 1), EOK)
    else if s.value > 0 then
      (s.(value := s.value - 1, owner := Some(t), original := s.prio[t], hold := s.hold + 1), EOK)
    else if timeout == 0 then (s, ETIMEOUT)
    else
      (s.(prio := if s.owner.Some? && s.owner.value in s.prio && s.prio[t] < s.prio[s.owner.value]
                  then s.prio[s.owner.value := s.prio[t]] else s.prio,
          waiters := Suspend(s.waiters, Waiter(t, s.prio[t]), s.flag)), InProgress)
  }

  /** The owner gives the mutex to the first waiting thread, or frees it. */
  function HandOver(s: State, t: nat): State {
    if s.waiters != [] then
      var w := s.waiters[0];
      s.(owner := Some(w.tid), original := if w.tid in s.prio then s.prio[w.tid] else w.prio,
         hold := 1, waiters := s.waiters[1..])
    else s.(value := s.value + 1, owner := None, original := NO_PRIORITY, hold := 0)
  }

  /** rt_mutex_release. */
  function DoRelease(s: State, t: nat): (State, Code)
    requires t in s.prio
  {
    if s.owner != Some(t) then (s, ERROR)
    else if s.hold > 1 then (s.(hold := s.hold - 1), EOK)
    else (HandOver(s.(prio := s.prio[t := s.original]), t), EOK)
  }

  function Step(s: State, a: Action): State
    requires a.Take? || a.Release? ==> a.t in s.prio
  {
    match a
    case Take(t, timeout) => DoTake(s, t, timeout).0
    case Release(t) => DoRelease(s, t).0
    case Expire(t) => s.(waiters := Remove(s.waiters, t))
  }

  /** The thread a step makes the owner without a call of its own: the one resumed by a release. */
  function Ready(s: State, a: Action): Option<nat> {
    if a.Release? && s.owner == Some(a.t) && s.hold <= 1 && s.waiters != [] then Some(s.waiters[0].tid) else None
  }

  /** What a take or a release returns. */
  function Answer(s: State, a: Action): Code
    requires a.Take? || a.Release? ==> a.t in s.prio
  {
    match a
    case Take(t, timeout) => DoTake(s, t, timeout).1
    case Release(t) => DoRelease(s, t).1
    case Expire(_) => EOK
  }

  // ----- invariant ----------------------------------------------------------------------------

  /** The counters agree: the value is 1 exactly when nobody owns the mutex and nothing is held. */
  ghost predicate Counters(s: State) {
    && s.value <= 1
    && (s.value == 1 <==> s.owner.None?) && (s.value == 1 <==> s.hold == 0)
    && (s.value == 1 ==> s.waiters == [])
  }

  /** The owner does not wait; waiting threads are on the list once, in order, at their own priority. */
  ghost predicate Queue(s: State) {
    && Distinct(s.waiters) && (s.flag.Prio? ==> Ordered(s.waiters))
    && (s.owner.Some? ==> s.owner.value in s.prio && !OnList(s.waiters, s.owner.value))
    && (forall w :: w in s.waiters ==> w.tid in s.prio && w.prio == s.prio[w.tid])
  }

  /** Only the owner runs above its base priority, and it remembers that. */
  ghost predicate Priorities(s: State) {
    && s.prio.Keys == s.base.Keys
    && (forall t: nat :: t in s.prio && s.owner != Some(t) ==> s.prio[t] == s.base[t])
    && (s.owner.Some? && s.owner.value in s.prio ==>
          s.original == s.base[s.owner.value] && s.prio[s.owner.value] <= s.base[s.owner.value])
  }

  /** No priority inversion: the owner is at least as urgent as every waiting thread. */
  ghost predicate Urgent(s: State) {
    s.owner.Some? && s.owner.value in s.prio ==> forall w :: w in s.waiters ==> s.prio[s.owner.value] <= w.prio
  }

  ghost predicate Inv(s: State) {
    Counters(s) && Queue(s) && Priorities(s) && (s.flag.Prio? ==> Urgent(s))
  }

  lemma InitInv(flag: Flag, base: map<nat, nat>)
    ensures Inv(Init(flag, base)) && Urgent(Init(flag, base))
  {
  }

  lemma TakeInv(s: State, t: nat, timeout: int)
    requires Inv(s) && Enabled(s, Take(t, timeout))
    ensures Inv(DoTake(s, t, timeout).0)
    ensures Urgent(s) ==> Urgent(DoTake(s, t, timeout).0)
  {
    if s.owner != Some(t) && s.value == 0 && timeout != 0 {
      var w := Waiter(t, s.prio[t]);
      forall x | x in s.waiters ensures x.tid != t { assert x.tid == t ==> OnList(s.waiters, t); }
      SuspendMembers(s.waiters, w, s.flag);
      SuspendDistinct(s.waiters, w, s.flag);
      if s.flag.Prio? { SuspendOrdered(s.waiters, w); }
      var s' := DoTake(s, t, timeout).0;
      var o := s.owner.value;
      forall x | x in s'.waiters ensures x.tid != o {
        assert x in s.waiters && x.tid == o ==> OnList(s.waiters, o);
      }
    }
  }

  lemma HandOverInv(s: State, t: nat)
    requires Inv(s) && s.owner == Some(t) && s.hold == 1
    ensures var s' := HandOver(s.(prio := s.prio[t := s.original]), t); Inv(s')
  {
    if s.waiters != [] {
      var s' := HandOver(s.(prio := s.prio[t := s.original]), t);
      TailKeeps(s.waiters);
      var w := s.waiters[0];
      assert w in s.waiters;
      forall x | x in s.waiters ensures x.tid != t { assert x.tid == t ==> OnList(s.waiters, t); }
      assert !OnList(s'.waiters, w.tid);
      if s.flag.Prio? {
        forall x | x in s'.waiters ensures w.prio <= x.prio {
          var i :| 0 <= i < |s'.waiters| && s'.waiters[i] == x;
          assert s.waiters[i + 1] == x;
        }
      }
    }
  }

  lemma ExpireInv(s: State, t: nat)
    requires Inv(s) && OnList(s.waiters, t)
    ensures Inv(Step(s, Expire(t)))
    ensures Urgent(s) ==> Urgent(Step(s, Expire(t)))
  {
    RemoveMembers(s.waiters, t);
    if s.owner.Some? {
      var s' := Step(s, Expire(t));
      var o := s.owner.value;
      forall x | x in s'.waiters ensures x.tid != o {
        assert x.tid == o ==> OnList(s.waiters, o);
      }
    }
  }

  /** What a release finds: the owner and the first waiting thread have a priority, and are not the same. */
  lemma OwnerFacts(s: State, t: nat)
    requires Inv(s) && s.owner == Some(t)
    ensures t in s.prio && s.hold >= 1
    ensures s.waiters != [] ==> s.waiters[0].tid in s.prio && s.waiters[0].tid != t
  {
    if s.waiters != [] {
      assert s.waiters[0] in s.waiters;
      assert s.waiters[0].tid == t ==> OnList(s.waiters, t);
    }
  }

  /** The steps of a release, case by case. */
  lemma ReleaseCases(s: State, t: nat)
    requires t in s.prio
    ensures s.owner != Some(t) ==> DoRelease(s, t) == (s, ERROR)
    ensures s.owner == Some(t) && s.hold > 1 ==> DoRelease(s, t) == (s.(hold := s.hold - 1), EOK)
    ensures s.owner == Some(t) && s.hold <= 1 && s.waiters == [] ==>
      DoRelease(s, t) == (s.(prio := s.prio[t := s.original], value := s.value + 1, owner := None,
                             original := NO_PRIORITY, hold := 0), EOK)
    ensures s.owner == Some(t) && s.hold <= 1 && s.waiters != [] && s.waiters[0].tid in s.prio && s.waiters[0].tid != t ==>
      DoRelease(s, t) == (s.(prio := s.prio[t := s.original], owner := Some(s.waiters[0].tid),
                             original := s.prio[s.waiters[0].tid], hold := 1, waiters := s.waiters[1..]), EOK)
  {
  }

  lemma StepInv(s: State, a: Action)
    requires Inv(s) && Enabled(s, a)
    ensures Inv(Step(s, a))
  {
    match a
    case Take(t, timeout) => TakeInv(s, t, timeout);
    case Release(t) =>
      if s.owner == Some(t) && s.hold == 1 { HandOverInv(s, t); }
    case Expire(t) => ExpireInv(s, t);
  }

  /** A hand-over leaves the new owner at least as urgent as every waiting thread exactly when the head
      of the list is at least as urgent as the rest. In priority order it always is; in arrival order
      the code does not raise the new owner. */
  lemma HandOverUrgent(s: State, t: nat)
    requires Inv(s) && s.owner == Some(t) && s.hold == 1 && s.waiters != []
    ensures Urgent(DoRelease(s, t).0) <==> forall w :: w in s.waiters ==> s.waiters[0].prio <= w.prio
  {
    var s' := DoRelease(s, t).0;
    TailKeeps(s.waiters);
    var h := s.waiters[0];
    assert h in s.waiters;
    assert h.tid == t ==> OnList(s.waiters, t);
    assert s'.owner == Some(h.tid) && s'.prio[h.tid] == h.prio && s'.waiters == s.waiters[1..];
  }

  /** In arrival order a hand-over can leave the owner less urgent than a waiting thread. */
  lemma FifoInversion()
    ensures var base := map[1 := 10, 2 := 20, 3 := 5];
      var s := State(Fifo, 0, Some(1), 10, 1, [Waiter(2, 20), Waiter(3, 5)], base[1 := 5], base);
      Inv(s) && Urgent(s) && !Urgent(DoRelease(s, 1).0)
  {
    var base: map<nat, nat> := map[1 := 10, 2 := 20, 3 := 5];
    var s := State(Fifo, 0, Some(1), 10, 1, [Waiter(2, 20), Waiter(3, 5)], base[1 := 5], base);
    assert Waiter(3, 5) in DoRelease(s, 1).0.waiters;
  }

  // ----- what callers see ---------------------------------------------------------------------

  /** A take succeeds at once if and only if the mutex is free or the caller's own. Otherwise it gives up
      exactly when it may not wait, or it joins the line and the owner runs at least at its priority. */
  lemma TakeOutcome(s: State, t: nat, timeout: int)
    requires Inv(s) && Enabled(s, Take(t, timeout))
    ensures var s', r := Step(s, Take(t, timeout)), Answer(s, Take(t, timeout));
      if s.owner == Some(t) || s.owner.None? then
        && r == EOK && s'.owner == Some(t) && s'.waiters == s.waiters && s'.prio == s.prio && s'.value == 0
      else if timeout == 0 then r == ETIMEOUT && s' == s
      else
        var o := s.owner.value;
        && r == InProgress && s' == s.(waiters := s'.waiters, prio := s'.prio)
        && Joined(s.waiters, Waiter(t, s.prio[t]), s.flag, s'.waiters)
        && s'.prio == s.prio[o := if s.prio[t] < s.prio[o] then s.prio[t] else s.prio[o]]
  {
    SuspendJoins(s.waiters, Waiter(t, s.prio[t]), s.flag);
    if s.owner.Some? { assert s.prio[s.owner.value := s.prio[s.owner.value]] == s.prio; }
  }

  /** Only the owner can release. An inner release changes nothing but the nesting; the outermost one takes
      the owner back to its base priority and makes the thread to be served the owner, or frees the mutex. */
  lemma ReleaseOutcome(s: State, t: nat)
    requires Inv(s) && Enabled(s, Release(t))
    ensures var s', r := Step(s, Release(t)), Answer(s, Release(t));
      if s.owner != Some(t) then r == ERROR && s' == s
      else if s.hold > 1 then r == EOK && s' == s.(hold := s.hold - 1)
      else
        && r == EOK && s'.prio == s.prio[t := s.base[t]]
        && if s.waiters == [] then s'.owner.None? && s'.waiters == [] && Ready(s, Release(t)).None?
           else exists w: Waiter ::
             && Served(s.waiters, w, s.flag, s'.waiters)
             && s'.owner == Some(w.tid) && Ready(s, Release(t)) == Some(w.tid)
  {
    hide DoRelease, Inv;
    ReleaseCases(s, t);
    ReleaseFacts(s, t);
    if s.owner == Some(t) && s.waiters != [] {
      OwnerFacts(s, t);
      HeadServed(s.waiters, s.flag);
    }
  }

  lemma ReleaseFacts(s: State, t: nat)
    requires Inv(s) && t in s.prio
    ensures s.owner == Some(t) ==> s.original == s.base[t] && s.hold >= 1 && t in s.base
    ensures s.flag.Prio? ==> Ordered(s.waiters)
  {
  }

  /** A thread that times out leaves the line, and nothing else changes. */
  lemma ExpireOutcome(s: State, t: nat)
    requires Inv(s) && Enabled(s, Expire(t))
    ensures var s' := Step(s, Expire(t));
      s' == s.(waiters := s'.waiters) && forall w :: w in s'.waiters <==> w in s.waiters && w.tid != t
  {
    RemoveMembers(s.waiters, t);
  }

  /** How often thread `t` has to release: once for each of its takes that succeeded, at once or by a
      hand-over, without those it has released. */
  function Gain(s: State, a: Action, t: nat): int
    requires a.Take? || a.Release? ==> a.t in s.prio
  {
    (if a.Take? && a.t == t && Answer(s, a) == EOK then 1 else 0)
    + (if Ready(s, a) == Some(t) then 1 else 0)
    - (if a.Release? && a.t == t && Answer(s, a) == EOK then 1 else 0)
  }

  /** The nesting of thread `t`: `hold` for the owner and nothing for the others. */
  function Nesting(s: State, t: nat): nat {
    if s.owner == Some(t) then s.hold else 0
  }

  lemma StepNesting(s: State, a: Action, t: nat)
    requires Inv(s) && Enabled(s, a)
    ensures Nesting(Step(s, a), t) == Nesting(s, t) + Gain(s, a, t)
  {
    match a
    case Take(_, _) =>
    case Release(u) =>
      hide DoRelease, Inv;
      ReleaseCases(s, u);
      ReleaseFacts(s, u);
      if s.owner == Some(u) { OwnerFacts(s, u); }
    case Expire(_) =>
  }

  /** The mutex leaves its owner only at the release that balances the take it became the owner by. */
  lemma OwnerKeeps(s: State, a: Action, t: nat)
    requires Inv(s) && Enabled(s, a) && s.owner == Some(t)
    ensures Step(s, a).owner != Some(t) <==> a == Release(t) && Nesting(s, t) == 1
  {
    match a
    case Release(u) =>
      hide DoRelease, Inv;
      ReleaseCases(s, u);
      ReleaseFacts(s, u);
      if s.owner == Some(u) { OwnerFacts(s, u); }
    case _ =>
  }

  // ----- whole runs ---------------------------------------------------------------------------

  ghost predicate EnabledRun(s: State, run: seq<Action>)
    decreases |run|
  {
    run == [] || (Enabled(s, run[0]) && EnabledRun(Step(s, run[0]), run[1..]))
  }

  ghost function Run(s: State, run: seq<Action>): State
    requires EnabledRun(s, run)
    decreases |run|
  {
    if run == [] then s else Run(Step(s, run[0]), run[1..])
  }

  /** Over any run of takes, nested takes, releases and timeouts the mutex has at most one owner, the
      waiting threads keep their order, only the owner runs above its base priority, and with
      priority order there is no priority inversion. */
  lemma {:induction false} RunInv(s: State, run: seq<Action>)
    requires Inv(s) && EnabledRun(s, run)
    ensures Inv(Run(s, run))
    decreases |run|
  {
    if run != [] {
      StepInv(s, run[0]);
      RunInv(Step(s, run[0]), run[1..]);
    }
  }

  /** Once the mutex is free again every thread runs at its base priority. */
  lemma FreeRestoresAll(base: map<nat, nat>, flag: Flag, run: seq<Action>)
    requires EnabledRun(Init(flag, base), run)
    ensures var s := Run(Init(flag, base), run); s.value == 1 ==> s.prio == base
  {
    InitInv(flag, base);
    RunInv(Init(flag, base), run);
    RunBase(Init(flag, base), run);
  }

  lemma {:induction false} RunBase(s: State, run: seq<Action>)
    requires EnabledRun(s, run)
    ensures Run(s, run).base == s.base && Run(s, run).flag == s.flag
    decreases |run|
  {
    if run != [] { RunBase(Step(s, run[0]), run[1..]); }
  }

  ghost function Balance(s: State, run: seq<Action>, t: nat): int
    requires EnabledRun(s, run)
    decreases |run|
  {
    if run == [] then 0 else Gain(s, run[0], t) + Balance(Step(s, run[0]), run[1..], t)
  }

  /** Over any run the nesting of every thread changes by its successful takes, hand-overs to it among
      them, less its successful releases. */
  lemma {:induction false} RunNesting(s: State, run: seq<Action>, t: nat)
    requires Inv(s) && EnabledRun(s, run)
    ensures Nesting(Run(s, run), t) == Nesting(s, t) + Balance(s, run, t)
    decreases |run|
  {
    if run != [] {
      hide Inv, Enabled, Step, Nesting, Gain;
      StepInv(s, run[0]);
      StepNesting(s, run[0], t);
      RunNesting(Step(s, run[0]), run[1..], t);
    }
  }

  /** From initialisation on: the owner is the one thread that has taken the mutex more often than it has
      released it, and `hold` is by how much; there is no owner when every thread is even. */
  lemma OwnerByBalance(base: map<nat, nat>, flag: Flag, run: seq<Action>, t: nat)
    requires EnabledRun(Init(flag, base), run)
    ensures var s := Run(Init(flag, base), run); var b := Balance(Init(flag, base), run, t);
      b >= 0 && (s.owner == Some(t) <==> b > 0) && (s.owner == Some(t) ==> s.hold == b)
  {
    InitInv(flag, base);
    RunInv(Init(flag, base), run);
    RunNesting(Init(flag, base), run, t);
  }
}
