/** The event object as ipc.c runs it. */
module Event {
  import opened EventSpec
  import opened Ipc
  import opened WaitList

  class Event {
    const flag: Flag
    var word: Bits
    var suspended: seq<Listener>

    function Abs(): State
      reads this
    {
      State(flag, word, suspended)
    }

    ghost predicate Valid()
      reads this
    {
      Inv(Abs())
    }

    /** rt_event_init. */
    constructor (flg: Flag)
      ensures Valid() && Abs() == Init(flg)
    {
      flag, word, suspended := flg, {}, [];
    }

    /** rt_event_send: walk the list, wake the satisfied threads and clear what they clear. */
    method Send(bits: Bits) returns (r: Code, woken: seq<Wakeup>)
      requires Valid()
      modifies this`word, this`suspended
      ensures Valid() && Abs() == Step(old(Abs()), Action.Send(bits))
      ensures r == DoSend(old(Abs()), bits).2 && woken == DoSend(old(Abs()), bits).1
      ensures forall u :: u in woken ==> FairWakeup(old(word) + bits, u)
    {
      woken := [];
      StepInv(Abs(), Action.Send(bits));
      if bits == {} { return ERROR, woken; }
      ScanWakesFairly(word + bits, suspended);
      word := word + bits;
      woken := Walk();
      return EOK, woken;
    }

    /** The loop of rt_event_send: `n` is the node under the pointer, and a resumed thread leaves the
        list. */
    method Walk() returns (woken: seq<Wakeup>)
      modifies this`word, this`suspended
      ensures (word, suspended, woken) == Scan(old(word), old(suspended))
    {
      woken := [];
      ghost var all := Scan(word, suspended);
      var n := 0;
      assert suspended[0..] == suspended;
      assert all.1 == [] + all.1 && all.2 == [] + all.2;
      while n < |suspended|
        invariant n <= |suspended|
        invariant all == Resume(suspended[..n], woken, Scan(word, suspended[n..]))
        decreases |suspended| - n
      {
        var l := suspended[n];
        ghost var done, rest := suspended[..n], suspended[n..];
        ResumeStep(done, woken, word, rest);
        if Satisfied(word, l.want, l.all) {
          var got := Got(word, l.want, l.all);
          if l.clear { word := word - got; }
          woken := woken + [Wakeup(l, got)];
          suspended := suspended[..n] + suspended[n + 1..];
          assert suspended[n..] == rest[1..] && suspended[..n] == done;
        } else {
          n := n + 1;
          assert suspended[n..] == rest[1..] && suspended[..n] == done + [l];
        }
      }
      assert suspended[n..] == [] && suspended[..n] == suspended;
      assert suspended + [] == suspended && woken + [] == woken;
    }

    /** rt_event_recv up to the point where the thread suspends. */
    method Recv(t: nat, prio: nat, want: Bits, all: bool, clear: bool, timeout: int) returns (r: Code, recved: Bits)
      requires Valid() && Enabled(Abs(), Action.Recv(t, prio, want, all, clear, timeout))
      modifies this`word, this`suspended
      ensures Valid() && Abs() == Step(old(Abs()), Action.Recv(t, prio, want, all, clear, timeout))
      ensures r == DoRecv(old(Abs()), t, prio, want, all, clear, timeout).1
      ensures recved == DoRecv(old(Abs()), t, prio, want, all, clear, timeout).2
      ensures r == EOK ==> FairWakeup(old(word), Wakeup(Listener(Waiter(t, prio), want, all, clear), recved))
    {
      recved := {};
      StepInv(Abs(), Action.Recv(t, prio, want, all, clear, timeout));
      if want == {} { return ERROR, recved; }
      if Satisfied(word, want, all) {
        recved := word * want;
        if clear { word := word - want; }
        return EOK, recved;
      }
      if timeout == 0 { return ETIMEOUT, recved; }
      var l := Listener(Waiter(t, prio), want, all, clear);
      var i := FindPosition(Waiters(suspended), l.w, flag);
      suspended := suspended[..i] + [l] + suspended[i..];
      return InProgress, recved;
    }

    /** rt_thread_timeout on a suspended thread. */
    method Expire(t: nat)
      requires Valid() && Enabled(Abs(), Action.Expire(t))
      modifies this`suspended
      ensures Valid() && Abs() == Step(old(Abs()), Action.Expire(t))
    {
      StepInv(Abs(), Action.Expire(t));
      suspended := Drop(suspended, t);
    }

    /** rt_event_control with the reset command. */
    method Reset()
      requires Valid()
      modifies this`word, this`suspended
      ensures Valid() && Abs() == Step(old(Abs()), Action.Reset)
    {
      suspended := [];
      word := {};
    }
  }

  /** What the walk has kept and woken so far, put before what the rest of it does. */
  function Resume(kept: seq<Listener>, woken: seq<Wakeup>, r: (Bits, seq<Listener>, seq<Wakeup>)):
    (Bits, seq<Listener>, seq<Wakeup>)
  {
    (r.0, kept + r.1, woken + r.2)
  }

  /** One turn of the walk. */
  lemma ResumeStep(kept: seq<Listener>, woken: seq<Wakeup>, word: Bits, ls: seq<Listener>)
    requires ls != []
    ensures var l := ls[0]; var got := Got(word, l.want, l.all);
      Resume(kept, woken, Scan(word, ls)) ==
        if Satisfied(word, l.want, l.all)
        then Resume(kept, woken + [Wakeup(l, got)], Scan(if l.clear then word - got else word, ls[1..]))
        else Resume(kept + [l], woken, Scan(word, ls[1..]))
  {
    var l := ls[0];
    var got := Got(word, l.want, l.all);
    if Satisfied(word, l.want, l.all) {
      var r := Scan(if l.clear then word - got else word, ls[1..]);
      assert woken + ([Wakeup(l, got)] + r.2) == (woken + [Wakeup(l, got)]) + r.2;
    } else {
      var r := Scan(word, ls[1..]);
      assert kept + ([l] + r.1) == (kept + [l]) + r.1;
    }
  }
}
