/** The list of threads suspended on an IPC object (rt_ipc_list_suspend, rt_ipc_list_resume), as the
    sequence of its entries from head to tail. */
module WaitList {
  datatype Flag = Fifo | Prio

  /** A suspended thread and its priority at that moment; a smaller number is more urgent. */
  datatype Waiter = Waiter(tid: nat, prio: nat)

  /** Where a thread enters the list: at the end, or before the first less urgent one. */
  function Position(ws: seq<Waiter>, w: Waiter, flag: Flag): (i: nat)
    ensures i <= |ws|
    ensures flag.Fifo? ==> i == |ws|
    ensures flag.Prio? ==> forall j :: 0 <= j < i ==> ws[j].prio <= w.prio
    ensures flag.Prio? && i < |ws| ==> w.prio < ws[i].prio
  {
    if ws == [] then 0
    else if flag.Prio? && w.prio < ws[0].prio then 0
    else 1 + Position(ws[1..], w, flag)
  }

  function Suspend(ws: seq<Waiter>, w: Waiter, flag: Flag): seq<Waiter> {
    var i := Position(ws, w, flag);
    ws[..i] + [w] + ws[i..]
  }

  /** The search loop of rt_ipc_list_suspend. */
  method FindPosition(ws: seq<Waiter>, w: Waiter, flag: Flag) returns (i: nat)
    ensures i == Position(ws, w, flag)
  {
    if flag.Fifo? {
      return |ws|;
    }
    i := 0;
    while i < |ws| && !(w.prio < ws[i].prio)
      invariant i <= |ws| && Position(ws, w, flag) == i + Position(ws[i..], w, flag)
    {
      assert ws[i..][1..] == ws[i + 1..];
      i := i + 1;
    }
  }

  /** Waiting threads are served by priority, threads of one priority in order of arrival. */
  ghost predicate Ordered(ws: seq<Waiter>) {
    forall i, j :: 0 <= i < j < |ws| ==> ws[i].prio <= ws[j].prio
  }

  lemma SuspendOrdered(ws: seq<Waiter>, w: Waiter)
    requires Ordered(ws)
    ensures Ordered(Suspend(ws, w, Prio))
  {
    var i := Position(ws, w, Prio);
    var us := Suspend(ws, w, Prio);
    forall a, b | 0 <= a < b < |us| ensures us[a].prio <= us[b].prio {
      if i < b { assert us[b] == ws[b - 1]; }
      if i < a { assert us[a] == ws[a - 1]; }
    }
  }

  /** A thread queues behind every thread of its own priority that is already waiting. */
  lemma SuspendFifoTies(ws: seq<Waiter>, w: Waiter, flag: Flag, k: nat)
    requires Ordered(ws) && k < |ws| && ws[k].prio == w.prio
    ensures Suspend(ws, w, flag)[k] == ws[k] && k < Position(ws, w, flag)
  {
  }

  lemma SuspendMembers(ws: seq<Waiter>, w: Waiter, flag: Flag)
    ensures forall x :: x in Suspend(ws, w, flag) <==> x in ws || x == w
    ensures |Suspend(ws, w, flag)| == |ws| + 1
  {
    var i := Position(ws, w, flag);
    assert ws == ws[..i] + ws[i..];
  }

  /** No thread is on the list twice. */
  ghost predicate Distinct(ws: seq<Waiter>) {
    forall i, j :: 0 <= i < j < |ws| ==> ws[i].tid != ws[j].tid
  }

  lemma SuspendDistinct(ws: seq<Waiter>, w: Waiter, flag: Flag)
    requires Distinct(ws) && forall x :: x in ws ==> x.tid != w.tid
    ensures Distinct(Suspend(ws, w, flag))
  {
    var i := Position(ws, w, flag);
    var us := Suspend(ws, w, flag);
    forall a, b | 0 <= a < b < |us| ensures us[a].tid != us[b].tid {
      if i < b { assert us[b] == ws[b - 1]; }
      if i < a { assert us[a] == ws[a - 1]; }
    }
  }

  /** The list after its head has been resumed. */
  lemma TailKeeps(ws: seq<Waiter>)
    requires ws != [] && Distinct(ws)
    ensures Distinct(ws[1..]) && (Ordered(ws) ==> Ordered(ws[1..]))
    ensures forall x :: x in ws <==> x == ws[0] || x in ws[1..]
    ensures forall x :: x in ws[1..] ==> x.tid != ws[0].tid
  {
    var us := ws[1..];
    assert ws == [ws[0]] + us;
    assert forall i :: 0 <= i < |us| ==> us[i] == ws[i + 1];
  }

  /** Unlinking a thread, wherever it is on the list. */
  function Remove(ws: seq<Waiter>, tid: nat): seq<Waiter> {
    if ws == [] then []
    else if ws[0].tid == tid then ws[1..]
    else [ws[0]] + Remove(ws[1..], tid)
  }

  ghost predicate OnList(ws: seq<Waiter>, t: nat) {
    exists w :: w in ws && w.tid == t
  }

  lemma ConsKeeps(w: Waiter, ws: seq<Waiter>)
    requires forall x :: x in ws ==> x.tid != w.tid
    ensures Distinct(ws) ==> Distinct([w] + ws)
    ensures Ordered(ws) && (forall x :: x in ws ==> w.prio <= x.prio) ==> Ordered([w] + ws)
  {
    var us := [w] + ws;
    assert forall b :: 0 < b < |us| ==> us[b] == ws[b - 1] && us[b] in ws;
  }

  lemma {:induction false} RemoveMembers(ws: seq<Waiter>, tid: nat)
    requires Distinct(ws)
    ensures forall x :: x in Remove(ws, tid) <==> x in ws && x.tid != tid
    ensures |Remove(ws, tid)| <= |ws|
    ensures Distinct(Remove(ws, tid))
    ensures Ordered(ws) ==> Ordered(Remove(ws, tid))
    decreases |ws|
  {
    if ws != [] {
      TailKeeps(ws);
      if ws[0].tid != tid {
        RemoveMembers(ws[1..], tid);
        ConsKeeps(ws[0], Remove(ws[1..], tid));
      }
    }
  }

  // ----- the list as queues -------------------------------------------------------------------

  /** The threads that wait for their turn in order of arrival: all of them, or those of one priority. */
  function Lane(ws: seq<Waiter>, flag: Flag, p: nat): seq<Waiter> {
    if ws == [] then []
    else if flag.Fifo? || ws[0].prio == p then [ws[0]] + Lane(ws[1..], flag, p)
    else Lane(ws[1..], flag, p)
  }

  /** `w` has joined: it is the last of its lane, and the other lanes are as before. */
  ghost predicate Joined(ws: seq<Waiter>, w: Waiter, flag: Flag, ws': seq<Waiter>) {
    forall p: nat :: Lane(ws', flag, p) == Lane(ws, flag, p) + if flag.Fifo? || p == w.prio then [w] else []
  }

  /** `w` has been served: it was the first of its lane, no thread left in priority order is more urgent,
      and the other lanes are as before. */
  ghost predicate Served(ws: seq<Waiter>, w: Waiter, flag: Flag, ws': seq<Waiter>) {
    && (forall p: nat :: Lane(ws, flag, p) == (if flag.Fifo? || p == w.prio then [w] else []) + Lane(ws', flag, p))
    && (flag.Prio? ==> forall x :: x in ws' ==> w.prio <= x.prio)
  }

  lemma {:induction false} LaneConcat(a: seq<Waiter>, b: seq<Waiter>, flag: Flag, p: nat)
    ensures Lane(a + b, flag, p) == Lane(a, flag, p) + Lane(b, flag, p)
    decreases |a|
  {
    if a == [] {
      assert a + b == b;
    } else {
      assert (a + b)[1..] == a[1..] + b;
      LaneConcat(a[1..], b, flag, p);
    }
  }

  /** A lane of other threads than those of priority `p` is empty. */
  lemma {:induction false} LaneEmpty(ws: seq<Waiter>, p: nat)
    requires forall w :: w in ws ==> w.prio != p
    ensures Lane(ws, Prio, p) == []
    decreases |ws|
  {
    if ws != [] {
      assert ws[0] in ws;
      LaneEmpty(ws[1..], p);
    }
  }

  lemma LaneOne(w: Waiter, flag: Flag, p: nat)
    ensures Lane([w], flag, p) == if flag.Fifo? || p == w.prio then [w] else []
  {
  }

  /** A suspended thread is the last of its lane. */
  lemma SuspendJoins(ws: seq<Waiter>, w: Waiter, flag: Flag)
    requires flag.Prio? ==> Ordered(ws)
    ensures Joined(ws, w, flag, Suspend(ws, w, flag))
  {
    forall p: nat
      ensures Lane(Suspend(ws, w, flag), flag, p) == Lane(ws, flag, p) + if flag.Fifo? || p == w.prio then [w] else []
    {
      JoinsLane(ws, w, flag, p);
    }
  }

  lemma JoinsLane(ws: seq<Waiter>, w: Waiter, flag: Flag, p: nat)
    requires flag.Prio? ==> Ordered(ws)
    ensures Lane(Suspend(ws, w, flag), flag, p) == Lane(ws, flag, p) + if flag.Fifo? || p == w.prio then [w] else []
  {
    var i := Position(ws, w, flag);
    var a, b := ws[..i], ws[i..];
    assert ws == a + b;
    assert Suspend(ws, w, flag) == a + [w] + b;
    hide *;
    LaneConcat(a, b, flag, p);
    LaneConcat(a + [w], b, flag, p);
    LaneConcat(a, [w], flag, p);
    LaneOne(w, flag, p);
    var l, m := Lane(a, flag, p), Lane(b, flag, p);
    if flag.Fifo? || p == w.prio {
      BehindEmpty(ws, w, flag, p);
      assert l + [w] + [] == l + [] + [w];
    } else {
      assert l + [] + m == l + m + [];
    }
  }

  /** Behind the place of a thread nobody of its lane is left. */
  lemma BehindEmpty(ws: seq<Waiter>, w: Waiter, flag: Flag, p: nat)
    requires flag.Prio? ==> Ordered(ws) && p == w.prio
    ensures Lane(ws[Position(ws, w, flag)..], flag, p) == []
  {
    var i := Position(ws, w, flag);
    if flag.Prio? {
      forall x | x in ws[i..] ensures x.prio != w.prio {
        var j :| 0 <= j < |ws[i..]| && ws[i..][j] == x;
        assert ws[i + j] == x && ws[i].prio <= ws[i + j].prio;
      }
      LaneEmpty(ws[i..], w.prio);
      assert flag == Prio;
    } else {
      assert ws[i..] == [];
    }
  }

  /** The head of the list is the one to be served. */
  lemma HeadServed(ws: seq<Waiter>, flag: Flag)
    requires ws != [] && (flag.Prio? ==> Ordered(ws))
    ensures Served(ws, ws[0], flag, ws[1..])
  {
    assert forall i :: 0 <= i < |ws[1..]| ==> ws[1..][i] == ws[i + 1];
  }

  /** Unlinking takes out the thread's entry and nothing else. */
  lemma {:induction false} RemoveAt(ws: seq<Waiter>, tid: nat, i: nat)
    requires Distinct(ws) && i < |ws| && ws[i].tid == tid
    ensures Remove(ws, tid) == ws[..i] + ws[i + 1..]
    decreases i
  {
    if i > 0 {
      TailKeeps(ws);
      RemoveAt(ws[1..], tid, i - 1);
      assert ws[1..][..i - 1] == ws[1..i] && ws[..i] == [ws[0]] + ws[1..i];
    }
  }

  /** Unlinking a thread leaves every lane without it, in its order. */
  lemma {:induction false} RemoveFromLanes(ws: seq<Waiter>, tid: nat, flag: Flag, p: nat)
    requires Distinct(ws)
    ensures Lane(Remove(ws, tid), flag, p) == Remove(Lane(ws, flag, p), tid)
    decreases |ws|
  {
    if ws != [] {
      TailKeeps(ws);
      if ws[0].tid == tid {
        RemoveNobody(Lane(ws, flag, p), tid);
        LaneMembers(ws[1..], flag, p);
        RemoveNobody(Lane(ws[1..], flag, p), tid);
      } else {
        RemoveFromLanes(ws[1..], tid, flag, p);
        assert ([ws[0]] + Remove(ws[1..], tid))[1..] == Remove(ws[1..], tid);
        assert ([ws[0]] + Lane(ws[1..], flag, p))[1..] == Lane(ws[1..], flag, p);
      }
    }
  }

  lemma {:induction false} LaneMembers(ws: seq<Waiter>, flag: Flag, p: nat)
    ensures forall w :: w in Lane(ws, flag, p) ==> w in ws
    decreases |ws|
  {
    if ws != [] { LaneMembers(ws[1..], flag, p); }
  }

  lemma {:induction false} RemoveNobody(ws: seq<Waiter>, tid: nat)
    ensures (forall w :: w in ws ==> w.tid != tid) ==> Remove(ws, tid) == ws
    decreases |ws|
  {
    if ws != [] && forall w :: w in ws ==> w.tid != tid {
      assert ws[0] in ws && ws == [ws[0]] + ws[1..];
      RemoveNobody(ws[1..], tid);
    }
  }
}
