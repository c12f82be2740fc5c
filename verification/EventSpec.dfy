/** The event set of ipc.c as a state machine. Each step is one region with interrupts disabled; one
    send may wake several threads, in list order, and each of them may clear bits. */
module EventSpec {
  import opened Ipc
  import opened WaitList

  /** A 32-bit word as the set of the numbers of its set bits: `&`, `|` and `& ~` are intersection,
      union and difference. */
  type Bits = set<nat>

  /** A suspended thread: the bits it asked for, whether it wants all of them (AND) or any (OR), and
      whether it clears what it receives. */
  datatype Listener = Listener(w: Waiter, want: Bits, all: bool, clear: bool)

  datatype State = State(flag: Flag, bits: Bits, listeners: seq<Listener>)

  /** A thread made ready by a send and the bits handed to it. */
  datatype Wakeup = Wakeup(l: Listener, got: Bits)

  datatype Action =
    | Send(bits: Bits)
    | Recv(t: nat, prio: nat, want: Bits, all: bool, clear: bool, timeout: int)
    | Expire(t: nat)
    | Reset

  function Init(flag: Flag): State {
    State(flag, {}, [])
  }

  /** The condition of a listener holds for a bit set. */
  predicate Satisfied(bits: Bits, want: Bits, all: bool) {
    if all then want <= bits else want * bits != {}
  }

  /** The bits a satisfied listener receives. */
  function Got(bits: Bits, want: Bits, all: bool): Bits {
    if all then want else want * bits
  }

  /** The walk of rt_event_send over the list: the bits left, the listeners that stay and the wakeups. */
  function Scan(bits: Bits, ls: seq<Listener>): (Bits, seq<Listener>, seq<Wakeup>) {
    if ls == [] then (bits, [], [])
    else
      var l := ls[0];
      if Satisfied(bits, l.want, l.all) then
        var got := Got(bits, l.want, l.all);
        var r := Scan(if l.clear then bits - got else bits, ls[1..]);
        (r.0, r.1, [Wakeup(l, got)] + r.2)
      else
        var r := Scan(bits, ls[1..]);
        (r.0, [l] + r.1, r.2)
  }

  function DoSend(s: State, bits: Bits): (State, seq<Wakeup>, Code) {
    if bits == {} then (s, [], ERROR)
    else
      var r := Scan(s.bits + bits, s.listeners);
      (s.(bits := r.0, listeners := r.1), r.2, EOK)
  }

  function Waiters(ls: seq<Listener>): seq<Waiter>
    ensures |Waiters(ls)| == |ls|
    ensures forall i :: 0 <= i < |ls| ==> Waiters(ls)[i] == ls[i].w
  {
    if ls == [] then [] else [ls[0].w] + Waiters(ls[1..])
  }

  function Insert(ls: seq<Listener>, l: Listener, flag: Flag): seq<Listener> {
    var i := Position(Waiters(ls), l.w, flag);
    ls[..i] + [l] + ls[i..]
  }

  /** rt_event_recv: the state, the return code, and the bits received when it is EOK. */
  function DoRecv(s: State, t: nat, prio: nat, want: Bits, all: bool, clear: bool, timeout: int): (State, Code, Bits) {
    if want == {} then (s, ERROR, {})
    else if Satisfied(s.bits, want, all) then
      (if clear then s.(bits := s.bits - want) else s, EOK, s.bits * want)
    else if timeout == 0 then (s, ETIMEOUT, {})
    else (s.(listeners := Insert(s.listeners, Listener(Waiter(t, prio), want, all, clear), s.flag)), InProgress, {})
  }

  function Drop(ls: seq<Listener>, t: nat): seq<Listener> {
    if ls == [] then []
    else if ls[0].w.tid == t then ls[1..]
    else [ls[0]] + Drop(ls[1..], t)
  }

  /** A running thread is on no list. */
  ghost predicate Enabled(s: State, a: Action) {
    match a
    case Recv(t, _, _, _, _, _) => forall l :: l in s.listeners ==> l.w.tid != t
    case Expire(t) => exists l :: l in s.listeners && l.w.tid == t
    case _ => true
  }

  function Step(s: State, a: Action): State {
    match a
    case Send(bits) => DoSend(s, bits).0
    case Recv(t, prio, want, all, clear, timeout) => DoRecv(s, t, prio, want, all, clear, timeout).0
    case Expire(t) => s.(listeners := Drop(s.listeners, t))
    case Reset => s.(listeners := [], bits := {})
  }

  // ----- what a send does ---------------------------------------------------------------------

  /** After the walk nobody on the list is satisfied, and the bits left are some of those there were. */
  lemma {:induction false} ScanLeavesUnsatisfied(bits: Bits, ls: seq<Listener>)
    ensures Scan(bits, ls).0 <= bits
    ensures forall l :: l in Scan(bits, ls).1 ==> l in ls && !Satisfied(Scan(bits, ls).0, l.want, l.all)
    decreases |ls|
  {
    if ls != [] {
      var l := ls[0];
      var got := Got(bits, l.want, l.all);
      ScanLeavesUnsatisfied(if Satisfied(bits, l.want, l.all) && l.clear then bits - got else bits, ls[1..]);
    }
  }

  /** A woken AND listener gets exactly what it asked for; a woken OR listener gets a non-empty part of
      it; all bits handed out were set. */
  predicate FairWakeup(bits: Bits, u: Wakeup) {
    u.got <= bits && if u.l.all then u.got == u.l.want else u.got != {} && u.got <= u.l.want
  }

  lemma {:induction false} ScanWakesFairly(bits: Bits, ls: seq<Listener>)
    ensures forall u :: u in Scan(bits, ls).2 ==> u.l in ls && FairWakeup(bits, u)
    decreases |ls|
  {
    if ls != [] {
      var l := ls[0];
      var got := Got(bits, l.want, l.all);
      ScanWakesFairly(if Satisfied(bits, l.want, l.all) && l.clear then bits - got else bits, ls[1..]);
    }
  }

  /** Every listener is either still on the list or woken, in the old order. */
  lemma {:induction false} ScanSplits(bits: Bits, ls: seq<Listener>)
    ensures |Scan(bits, ls).1| + |Scan(bits, ls).2| == |ls|
    ensures multiset(Scan(bits, ls).1) <= multiset(ls)
    ensures forall l :: l in ls ==> l in Scan(bits, ls).1 || exists u :: u in Scan(bits, ls).2 && u.l == l
    decreases |ls|
  {
    if ls != [] {
      var l := ls[0];
      assert ls == [l] + ls[1..];
      var sat := Satisfied(bits, l.want, l.all);
      var got := Got(bits, l.want, l.all);
      var next := if sat && l.clear then bits - got else bits;
      ScanSplits(next, ls[1..]);
      if sat { assert Wakeup(l, got) in Scan(bits, ls).2; }
      forall x | x in ls ensures x in Scan(bits, ls).1 || exists u :: u in Scan(bits, ls).2 && u.l == x {
        if x in ls[1..] && x !in Scan(next, ls[1..]).1 {
          var u :| u in Scan(next, ls[1..]).2 && u.l == x;
          assert u in Scan(bits, ls).2;
        }
      }
    }
  }

  /** The condition of a listener, by its bits: all of them for AND, any for OR. */
  predicate Meets(l: Listener, bits: Bits) {
    if l.all then forall b :: b in l.want ==> b in bits else exists b :: b in l.want && b in bits
  }

  /** The bits after a listener has been looked at: without what it asked for, if it is served and clears. */
  function After(l: Listener, bits: Bits): Bits {
    if Meets(l, bits) && l.clear then bits - l.want else bits
  }

  /** The listeners that are not served, in their order, when each of them sees the bits `seen`. */
  function Staying(ls: seq<Listener>, seen: seq<Bits>): seq<Listener>
    requires |seen| == |ls|
  {
    if ls == [] then [] else (if Meets(ls[0], seen[0]) then [] else [ls[0]]) + Staying(ls[1..], seen[1..])
  }

  /** The listeners that are served, in their order, each with the bits it asked for and sees. */
  function Going(ls: seq<Listener>, seen: seq<Bits>): seq<Wakeup>
    requires |seen| == |ls|
  {
    if ls == [] then []
    else (if Meets(ls[0], seen[0]) then [Wakeup(ls[0], ls[0].want * seen[0])] else []) + Going(ls[1..], seen[1..])
  }

  /** The walk, listener by listener: `seen[i]` is the set when it comes to listener `i`. */
  lemma {:induction false} ScanWalk(bits: Bits, ls: seq<Listener>) returns (seen: seq<Bits>)
    ensures |seen| == |ls| + 1 && seen[0] == bits && seen[|ls|] == Scan(bits, ls).0
    ensures forall i :: 0 <= i < |ls| ==> seen[i + 1] == After(ls[i], seen[i])
    ensures Scan(bits, ls).1 == Staying(ls, seen[..|ls|])
    ensures Scan(bits, ls).2 == Going(ls, seen[..|ls|])
    decreases |ls|
  {
    if ls == [] {
      seen := [bits];
    } else {
      var l := ls[0];
      MeetsSatisfied(l, bits);
      var rest := ScanWalk(After(l, bits), ls[1..]);
      seen := [bits] + rest;
      assert seen[..|ls|][1..] == rest[..|ls| - 1];
      forall i | 0 <= i < |ls| ensures seen[i + 1] == After(ls[i], seen[i]) {
        if i > 0 { assert rest[i] == After(ls[1..][i - 1], rest[i - 1]); }
      }
    }
  }

  lemma {:induction false} MeetsSatisfied(l: Listener, bits: Bits)
    ensures Satisfied(bits, l.want, l.all) <==> Meets(l, bits)
    ensures Meets(l, bits) ==> Got(bits, l.want, l.all) == l.want * bits
    ensures bits - l.want * bits == bits - l.want
  {
    if !l.all && Satisfied(bits, l.want, l.all) { var b :| b in l.want * bits; }
    if !l.all && Meets(l, bits) { var b :| b in l.want && b in bits; assert b in l.want * bits; }
  }

  /** The bits that were handed to listeners that clear. */
  function Taken(us: seq<Wakeup>): Bits {
    if us == [] then {} else (if us[0].l.clear then us[0].got else {}) + Taken(us[1..])
  }

  /** What a clearing listener receives it has alone: it is not left in the set, and nobody after it on the
      list receives it. Everything else stays set, and a served listener receives all it asked for that no
      listener before it has taken away. */
  lemma {:induction false} ScanHandsOut(bits: Bits, ls: seq<Listener>)
    ensures Scan(bits, ls).0 == bits - Taken(Scan(bits, ls).2)
    ensures var us := Scan(bits, ls).2;
      forall i :: 0 <= i < |us| ==> us[i].got == us[i].l.want * (bits - Taken(us[..i]))
    decreases |ls|
  {
    if ls != [] {
      var l := ls[0];
      MeetsSatisfied(l, bits);
      ScanHandsOut(After(l, bits), ls[1..]);
      var us, vs := Scan(bits, ls).2, Scan(After(l, bits), ls[1..]).2;
      if Meets(l, bits) {
        forall i | 0 <= i < |us| ensures us[i].got == us[i].l.want * (bits - Taken(us[..i])) {
          if i > 0 {
            assert us[..i][1..] == vs[..i - 1];
            assert us[i] == vs[i - 1];
          }
        }
      }
    }
  }

  // ----- every reachable state ----------------------------------------------------------------

  /** No suspended thread could go on with the bits that are set; by priority, if the set is so flagged. */
  ghost predicate Inv(s: State) {
    && (forall l :: l in s.listeners ==> l.want != {} && !Satisfied(s.bits, l.want, l.all))
    && (s.flag.Prio? ==> Ordered(Waiters(s.listeners)))
  }

  lemma {:induction false} WaitersCons(l: Listener, ls: seq<Listener>)
    ensures Waiters([l] + ls) == [l.w] + Waiters(ls)
  {
    assert ([l] + ls)[1..] == ls;
  }

  lemma {:induction false} OrderedTail(l: Listener, ls: seq<Listener>, rest: seq<Listener>)
    requires Ordered(Waiters([l] + ls)) && Ordered(Waiters(rest)) && forall x :: x in rest ==> x in ls
    ensures Ordered(Waiters([l] + rest))
  {
    WaitersCons(l, ls);
    WaitersCons(l, rest);
    forall i | 0 <= i < |rest| ensures l.w.prio <= rest[i].w.prio {
      assert rest[i] in ls;
      var j :| 0 <= j < |ls| && ls[j] == rest[i];
      assert Waiters([l] + ls)[j + 1] == ls[j].w;
    }
  }

  lemma {:induction false} OrderedRest(ls: seq<Listener>)
    requires ls != [] && Ordered(Waiters(ls))
    ensures Ordered(Waiters(ls[1..])) && ls == [ls[0]] + ls[1..]
  {
    assert forall i :: 0 <= i < |ls[1..]| ==> Waiters(ls[1..])[i] == Waiters(ls)[i + 1];
  }

  lemma {:induction false} ScanOrdered(bits: Bits, ls: seq<Listener>)
    requires Ordered(Waiters(ls))
    ensures Ordered(Waiters(Scan(bits, ls).1))
    decreases |ls|
  {
    if ls != [] {
      var l := ls[0];
      var next := if Satisfied(bits, l.want, l.all) && l.clear then bits - Got(bits, l.want, l.all) else bits;
      OrderedRest(ls);
      ScanOrdered(next, ls[1..]);
      ScanLeavesUnsatisfied(next, ls[1..]);
      if !Satisfied(bits, l.want, l.all) { OrderedTail(l, ls[1..], Scan(next, ls[1..]).1); }
    }
  }

  lemma {:induction false} DropOrdered(ls: seq<Listener>, t: nat)
    requires Ordered(Waiters(ls))
    ensures Ordered(Waiters(Drop(ls, t)))
    decreases |ls|
  {
    if ls != [] {
      OrderedRest(ls);
      if ls[0].w.tid != t {
        DropOrdered(ls[1..], t);
        DropMembers(ls[1..], t);
        OrderedTail(ls[0], ls[1..], Drop(ls[1..], t));
      }
    }
  }

  /** A listener is put where its thread belongs. */
  lemma {:induction false} InsertWaiters(ls: seq<Listener>, l: Listener, flag: Flag)
    ensures Waiters(Insert(ls, l, flag)) == Suspend(Waiters(ls), l.w, flag)
  {
    var i := Position(Waiters(ls), l.w, flag);
    assert |Insert(ls, l, flag)| == |ls| + 1;
  }

  lemma {:induction false} DropMembers(ls: seq<Listener>, t: nat)
    ensures forall l :: l in Drop(ls, t) ==> l in ls
    decreases |ls|
  {
    if ls != [] && ls[0].w.tid != t { DropMembers(ls[1..], t); }
  }

  lemma InsertInv(s: State, l: Listener)
    requires Inv(s) && l.want != {} && !Satisfied(s.bits, l.want, l.all)
    ensures Inv(s.(listeners := Insert(s.listeners, l, s.flag)))
  {
    var i := Position(Waiters(s.listeners), l.w, s.flag);
    assert s.listeners == s.listeners[..i] + s.listeners[i..];
    InsertWaiters(s.listeners, l, s.flag);
    hide Waiters, Satisfied;
    if s.flag.Prio? { SuspendOrdered(Waiters(s.listeners), l.w); }
  }

  lemma StepInv(s: State, a: Action)
    requires Inv(s)
    ensures Inv(Step(s, a))
  {
    match a
    case Send(bits) =>
      ScanLeavesUnsatisfied(s.bits + bits, s.listeners);
      if s.flag.Prio? { ScanOrdered(s.bits + bits, s.listeners); }
    case Recv(t, prio, want, all, clear, timeout) =>
      if want != {} && !Satisfied(s.bits, want, all) && timeout != 0 {
        InsertInv(s, Listener(Waiter(t, prio), want, all, clear));
      }
    case Expire(t) =>
      DropMembers(s.listeners, t);
      if s.flag.Prio? { DropOrdered(s.listeners, t); }
    case Reset =>
  }

  function Run(s: State, run: seq<Action>): State
    decreases |run|
  {
    if run == [] then s else Run(Step(s, run[0]), run[1..])
  }

  /** In every reachable state no suspended thread's condition is met by the current event set. */
  lemma {:induction false} RunInv(s: State, run: seq<Action>)
    requires Inv(s)
    ensures Inv(Run(s, run))
    decreases |run|
  {
    if run != [] {
      StepInv(s, run[0]);
      RunInv(Step(s, run[0]), run[1..]);
    }
  }

  /** What rt_event_recv returns without waiting: the requested bits that are set, all of them for AND. */
  lemma RecvGets(s: State, t: nat, prio: nat, want: Bits, all: bool, clear: bool, timeout: int)
    requires DoRecv(s, t, prio, want, all, clear, timeout).1 == EOK
    ensures var l := Listener(Waiter(t, prio), want, all, clear);
      FairWakeup(s.bits, Wakeup(l, DoRecv(s, t, prio, want, all, clear, timeout).2))
  {
  }

  // ----- what callers see ---------------------------------------------------------------------

  /** A send of no bits is refused. Any other one sets its bits, and serves the threads on the list in
      order, as `seen` says. */
  lemma SendOutcome(s: State, bits: Bits) returns (seen: seq<Bits>)
    ensures bits == {} ==> DoSend(s, bits) == (s, [], ERROR)
    ensures bits != {} ==>
      && |seen| == |s.listeners| + 1 && seen[0] == s.bits + bits
      && (forall i :: 0 <= i < |s.listeners| ==> seen[i + 1] == After(s.listeners[i], seen[i]))
      && DoSend(s, bits) ==
           (s.(bits := seen[|s.listeners|], listeners := Staying(s.listeners, seen[..|s.listeners|])),
            Going(s.listeners, seen[..|s.listeners|]), EOK)
  {
    seen := ScanWalk(s.bits + bits, s.listeners);
  }

  /** A receive for no bits is refused. Any other one succeeds at once if and only if its condition is met by
      the set; it then receives all the requested bits that are set, and they are cleared if it says so and
      not otherwise. When it does not succeed the set is as it was; it gives up exactly when it may not wait,
      and otherwise joins the list with its condition. */
  lemma RecvOutcome(s: State, t: nat, prio: nat, want: Bits, all: bool, clear: bool, timeout: int)
    requires Inv(s)
    ensures var l := Listener(Waiter(t, prio), want, all, clear);
      var (s', r, got) := DoRecv(s, t, prio, want, all, clear, timeout);
      if want == {} then r == ERROR && s' == s
      else if Meets(l, s.bits) then
        && r == EOK && (forall b :: b in got <==> b in want && b in s.bits)
        && s'.listeners == s.listeners && (forall b :: b in s'.bits <==> b in s.bits && !(clear && b in want))
      else if timeout == 0 then r == ETIMEOUT && s' == s
      else
        && r == InProgress && s'.bits == s.bits
        && Joined(Waiters(s.listeners), l.w, s.flag, Waiters(s'.listeners))
        && exists i: nat :: i <= |s.listeners| && s'.listeners == s.listeners[..i] + [l] + s.listeners[i..]
  {
    var l := Listener(Waiter(t, prio), want, all, clear);
    MeetsSatisfied(l, s.bits);
    InsertWaiters(s.listeners, l, s.flag);
    SuspendJoins(Waiters(s.listeners), l.w, s.flag);
  }

  /** A thread that times out leaves the list, and the others keep their places. */
  lemma {:induction false} DropAt(ls: seq<Listener>, t: nat, i: nat)
    requires i < |ls| && ls[i].w.tid == t && forall j :: 0 <= j < i ==> ls[j].w.tid != t
    ensures Drop(ls, t) == ls[..i] + ls[i + 1..]
    decreases i
  {
    if i > 0 {
      DropAt(ls[1..], t, i - 1);
      assert ls[1..][..i - 1] == ls[1..i] && ls[..i] == [ls[0]] + ls[1..i];
    }
  }
}
