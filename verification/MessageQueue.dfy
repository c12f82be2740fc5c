/** The message queue as ipc.c runs it: a pool of nodes linked through their `next` fields into a free
    list and a queue with head and tail. Each method is one region with interrupts disabled, or one byte
    of a copy; `tasks` holds the local variables of the calls in progress. */
module MessageQueue {
  import opened Ipc
  import opened MessageQueueSpec
  import opened Sequences
  import opened WaitList
  import opened Wrappers

  type Links = seq<Option<nat>>

  /** The nodes met on the way from `first` to the null pointer. */
  ghost predicate Chain(next: Links, first: Option<nat>, q: seq<nat>)
    decreases |q|
  {
    if q == [] then first.None?
    else first == Some(q[0]) && q[0] < |next| && Chain(next, next[q[0]], q[1..])
  }

  lemma {:induction false} ChainFrame(next: Links, next': Links, first: Option<nat>, q: seq<nat>)
    requires Chain(next, first, q) && |next'| == |next|
    requires forall n: nat :: n in q && n < |next| ==> next'[n] == next[n]
    ensures Chain(next', first, q)
    decreases |q|
  {
    if q != [] {
      assert q[0] in q;
      ChainFrame(next, next', next[q[0]], q[1..]);
    }
  }

  /** Writing the link of a node outside a list leaves the list as it is. */
  lemma ChainUpdate(next: Links, first: Option<nat>, q: seq<nat>, n: nat, v: Option<nat>)
    requires Chain(next, first, q) && n < |next| && n !in q
    ensures Chain(next[n := v], first, q)
  {
    ChainFrame(next, next[n := v], first, q);
  }

  lemma ChainPush(next: Links, first: Option<nat>, q: seq<nat>, n: nat)
    requires Chain(next, first, q) && n < |next| && n !in q
    ensures Chain(next[n := first], Some(n), [n] + q)
  {
    ChainUpdate(next, first, q, n, first);
    assert ([n] + q)[1..] == q;
  }

  lemma {:induction false} ChainAppend(next: Links, first: Option<nat>, q: seq<nat>, n: nat)
    requires Chain(next, first, q) && NoDup(q) && n < |next| && n !in q && next[n].None?
    requires q != [] ==> q[|q| - 1] < |next|
    ensures if q == [] then Chain(next, Some(n), [n])
            else Chain(next[q[|q| - 1] := Some(n)], first, q + [n])
    decreases |q|
  {
    if q == [] {
      assert [n][1..] == [];
    } else if |q| == 1 {
      assert (q + [n])[1..] == [n] && [n][1..] == [];
    } else {
      Behead(q);
      var l := q[|q| - 1];
      assert q[1..][|q[1..]| - 1] == l;
      ChainAppend(next, next[q[0]], q[1..], n);
      assert (q + [n])[1..] == q[1..] + [n];
      assert q[0] != l && next[l := Some(n)][q[0]] == next[q[0]];
    }
  }

  lemma {:induction false} ChainInRange(next: Links, first: Option<nat>, q: seq<nat>)
    requires Chain(next, first, q)
    ensures forall n: nat :: n in q ==> n < |next|
    decreases |q|
  {
    if q != [] {
      ChainInRange(next, next[q[0]], q[1..]);
      assert q == [q[0]] + q[1..];
    }
  }

  /** The list after its head. */
  lemma ChainTail(next: Links, first: Option<nat>, q: seq<nat>)
    requires Chain(next, first, q)
    ensures first.None? <==> q == []
    ensures q != [] ==> first == Some(q[0]) && q[0] < |next| && Chain(next, next[q[0]], q[1..])
  {
  }

  /** A sender that has cleared the link of its node finds it cleared when it links it. */
  ghost predicate ClearedOk(next: Links, tasks: map<nat, Task>) {
    forall t: nat :: t in tasks && tasks[t].Sending? && !tasks[t].urgent && tasks[t].cleared
      ==> tasks[t].node < |next| && next[tasks[t].node].None?
  }

  function LastOf(q: seq<nat>): Option<nat> {
    if q == [] then None else Some(q[|q| - 1])
  }

  /** The node a sender is about to link is its own, filled, and on neither list. */
  lemma LinkReady(s: State, t: nat, next: Links)
    requires Inv(s) && Enabled(s, Action.SendLink(t)) && ClearedOk(next, s.tasks)
    ensures !s.tasks[t].urgent ==> s.tasks[t].node < |next| && next[s.tasks[t].node].None?
    ensures var n := s.tasks[t].node; n < |s.data| && n !in s.queue && n !in s.free
    ensures NoDup(s.queue) && forall n: nat :: n in s.queue ==> n !in s.free && !Held(s.tasks, n)
    ensures forall u: nat :: HeldBy(s.tasks, u, s.tasks[t].node) ==> u == t
    ensures Inv(Step(s, Action.SendLink(t)))
  {
    var n := s.tasks[t].node;
    assert HeldBy(s.tasks, t, n) && Held(s.tasks, n);
    StepInv(s, Action.SendLink(t));
  }

  lemma LinkIs(s: State, t: nat)
    requires Enabled(s, Action.SendLink(t))
    ensures Step(s, Action.SendLink(t)) == ResumeFirst(Enqueue(s, t))
    ensures Answer(s, Action.SendLink(t)) == Linked(if s.waiters == [] then None else Some(s.waiters[0].tid))
  {
  }

  /** A sender begins with a node it has not cleared, or one that needs no clearing. */
  lemma StartCleared(next: Links, tasks: map<nat, Task>, t: nat, n: nat, msg: Bytes, urgent: bool)
    requires ClearedOk(next, tasks)
    ensures ClearedOk(next, tasks[t := Sending(n, msg, urgent, urgent, 0)])
  {
  }

  lemma StillOthers(next: Links, tasks: map<nat, Task>, t: nat)
    requires ClearedOk(next, tasks)
    ensures ClearedOk(next, tasks - {t})
  {
  }

  /** Resuming a receiver clears no link and needs none cleared. */
  lemma StillCleared(s: State, t: nat)
    requires Enabled(s, Action.SendLink(t))
    ensures var s' := Enqueue(s, t);
      forall next: Links :: ClearedOk(next, s'.tasks) ==> ClearedOk(next, ResumeFirst(s').tasks)
  {
  }

  /** Waking every waiting receiver moves no node. */
  lemma ResetReady(s: State, next: Links)
    requires Inv(s) && ClearedOk(next, s.tasks)
    ensures Inv(Step(s, Action.Reset)) && ClearedOk(next, WakeAll(s.tasks)) && NoDup(s.queue)
    ensures Step(s, Action.Reset) ==
      State(s.msgSize, s.flag, [], Reversed(s.queue) + s.free, s.data, [], WakeAll(s.tasks), [], s.promised)
    ensures forall n: nat :: n in s.queue ==> n !in s.free && !Held(WakeAll(s.tasks), n)
  {
    StepInv(s, Action.Reset);
    forall n: nat | Held(WakeAll(s.tasks), n) ensures Held(s.tasks, n) {
      var t: nat :| HeldBy(WakeAll(s.tasks), t, n);
      assert HeldBy(s.tasks, t, n);
    }
  }

  /** The node a receiver gives back is its own and on neither list. */
  lemma FinishReady(s: State, t: nat)
    requires Inv(s) && Enabled(s, Action.RecvFinish(t))
    ensures Inv(Step(s, Action.RecvFinish(t)))
    ensures Step(s, Action.RecvFinish(t)) ==
      s.(free := [s.tasks[t].node] + s.free, tasks := s.tasks - {t}, promised := s.promised - {t})
    ensures var n := s.tasks[t].node; n < |s.data| && n !in s.queue && n !in s.free
    ensures forall u: nat :: HeldBy(s.tasks, u, s.tasks[t].node) ==> u == t
  {
    var n := s.tasks[t].node;
    assert HeldBy(s.tasks, t, n) && Held(s.tasks, n);
    StepInv(s, Action.RecvFinish(t));
  }

  lemma SenderOk(s: State, t: nat)
    requires Inv(s) && t in s.tasks
    ensures TaskOk(s, s.tasks[t])
  {
  }

  /** The node a sender clears is its own and on neither list. */
  lemma ClearReady(s: State, t: nat)
    requires Inv(s) && Enabled(s, Action.SendClear(t))
    ensures Inv(Step(s, Action.SendClear(t)))
    ensures var n := s.tasks[t].node; n < |s.data| && n !in s.queue && n !in s.free
  {
    var n := s.tasks[t].node;
    assert HeldBy(s.tasks, t, n) && Held(s.tasks, n);
    StepInv(s, Action.SendClear(t));
  }

  /** A receiver copies within its node. */
  lemma CopyOutReady(s: State, t: nat, next: Links)
    requires Inv(s) && Enabled(s, Action.RecvCopy(t)) && ClearedOk(next, s.tasks)
    ensures var x := s.tasks[t]; x.node < |s.data| && |x.buf| < |s.data[x.node]|
    ensures Inv(Step(s, Action.RecvCopy(t))) && ClearedOk(next, Step(s, Action.RecvCopy(t)).tasks)
  {
    assert TaskOk(s, s.tasks[t]);
    assert Inv(Step(s, Action.RecvCopy(t))) by { StepInv(s, Action.RecvCopy(t)); }
  }

  lemma QueueFacts(s: State)
    requires Inv(s)
    ensures |s.queue| == |s.msgs| && NoDup(s.queue)
  {
  }

  /** A thread that leaves its call or goes on receiving fills no node. */
  lemma NotSendingCleared(next: Links, tasks: map<nat, Task>, t: nat, x: Task)
    requires ClearedOk(next, tasks) && !x.Sending?
    ensures ClearedOk(next, tasks - {t}) && ClearedOk(next, tasks[t := x])
  {
  }

  /** The tail field after the head has been taken. */
  lemma TailOf(q: seq<nat>)
    requires q != [] && NoDup(q)
    ensures LastOf(q) == Some(q[0]) <==> |q| == 1
    ensures LastOf(q[1..]) == if |q| == 1 then None else LastOf(q)
  {
  }

  /** Writing the link of a node nobody fills disturbs no cleared link. */
  lemma NotHeldCleared(next: Links, next': Links, tasks: map<nat, Task>, n: nat)
    requires ClearedOk(next, tasks) && !Held(tasks, n) && |next'| == |next|
    requires forall m: nat :: m < |next| && m != n ==> next'[m] == next[m]
    ensures ClearedOk(next', tasks)
  {
    forall t: nat | t in tasks && tasks[t].Sending? ensures tasks[t].node != n {
      assert HeldBy(tasks, t, tasks[t].node);
    }
  }

  lemma OthersCleared(next: Links, next': Links, tasks: map<nat, Task>, t: nat, n: nat)
    requires ClearedOk(next, tasks) && |next'| == |next|
    requires forall u: nat :: HeldBy(tasks, u, n) ==> u == t
    requires forall m: nat :: m < |next| && m != n ==> next'[m] == next[m]
    ensures ClearedOk(next', tasks - {t})
  {
    forall u: nat | u in tasks && u != t && tasks[u].Sending? ensures tasks[u].node != n {
      assert HeldBy(tasks, u, tasks[u].node);
    }
  }

  class MessageQueue {
    const msgSize: nat
    const flag: Flag
    const next: array<Option<nat>>
    const data: array<Bytes>
    var entry: nat
    var head: Option<nat>
    var tail: Option<nat>
    var freeList: Option<nat>
    var waiters: seq<Waiter>
    var tasks: map<nat, Task>
    ghost var queue: seq<nat>
    ghost var free: seq<nat>
    ghost var msgs: seq<Bytes>
    ghost var promised: map<nat, Promise>

    ghost function Abs(): State
      reads this, data
    {
      State(msgSize, flag, queue, free, data[..], waiters, tasks, msgs, promised)
    }

    /** The node lists are what the fields say. */
    ghost predicate Lists()
      reads this, next
    {
      && next.Length == data.Length
      && Chain(next[..], head, queue) && tail == LastOf(queue) && entry == |queue|
      && Chain(next[..], freeList, free)
      && ClearedOk(next[..], tasks)
    }

    ghost predicate Valid()
      reads this, next, data
    {
      Lists() && Inv(Abs())
    }

    /** rt_mq_init: all nodes go onto the free list. */
    constructor (size: nat, flg: Flag, pool: array<Bytes>)
      requires forall n :: 0 <= n < pool.Length ==> |pool[n]| == size
      ensures Valid() && fresh(next) && data == pool && msgSize == size && flag == flg
      ensures queue == [] && tasks == map[] && waiters == [] && msgs == []
    {
      msgSize, flag, data := size, flg, pool;
      next := new Option<nat>[pool.Length](_ => None);
      entry, head, tail := 0, None, None;
      waiters, tasks := [], map[];
      freeList := None;
      queue, free, msgs, promised := [], [], [], map[];
      new;
      for temp := 0 to data.Length
        invariant Chain(next[..], freeList, free) && |free| == temp
        invariant forall i :: 0 <= i < temp ==> free[i] == temp - 1 - i
        invariant entry == 0 && head.None? && tail.None? && queue == [] && msgs == [] && waiters == [] && tasks == map[] && promised == map[]
      {
        ChainPush(next[..], freeList, free, temp);
        next[temp] := freeList;
        freeList := Some(temp);
        free := [temp] + free;
      }
      forall n: nat | n < data.Length ensures n in free { assert free[data.Length - 1 - n] == n; }
      InitInv(msgSize, flag, free, data[..]);
    }

    /** The first region of rt_mq_send and rt_mq_urgent. */
    method SendStart(t: nat, msg: Bytes, urgent: bool) returns (r: Code)
      requires Valid() && Enabled(Abs(), Action.SendStart(t, msg, urgent))
      modifies this`freeList, this`free, this`tasks
      ensures Valid() && Abs() == Step(old(Abs()), Action.SendStart(t, msg, urgent))
      ensures Returns(r) == Answer(old(Abs()), Action.SendStart(t, msg, urgent))
    {
      hide Inv, Chain, ClearedOk;
      assert Inv(Step(Abs(), Action.SendStart(t, msg, urgent))) by { StepInv(Abs(), Action.SendStart(t, msg, urgent)); }
      ChainTail(next[..], freeList, free);
      if |msg| > msgSize { return ERROR; }
      if freeList.None? { return EFULL; }
      StartCleared(next[..], tasks, t, free[0], msg, urgent);
      var node := freeList.value;
      freeList := next[node];
      tasks := tasks[t := Sending(node, msg, urgent, urgent, 0)];
      free := free[1..];
      return InProgress;
    }

    /** msg->next = RT_NULL, with interrupts enabled. */
    method SendClear(t: nat)
      requires Valid() && Enabled(Abs(), Action.SendClear(t))
      modifies this`tasks, next
      ensures Valid() && Abs() == Step(old(Abs()), Action.SendClear(t))
    {
      hide Inv, Chain, HeldBy;
      ghost var s := Abs();
      ClearReady(s, t);
      var node := tasks[t].node;
      ChainUpdate(next[..], head, queue, node, None);
      ChainUpdate(next[..], freeList, free, node, None);
      next[node] := None;
      tasks := tasks[t := tasks[t].(cleared := true)];
      assert next[..] == old(next[..])[node := None];
    }

    /** One byte of the copy into the node. */
    method SendCopy(t: nat)
      requires Valid() && Enabled(Abs(), Action.SendCopy(t))
      modifies this`tasks, data
      ensures Valid() && Abs() == Step(old(Abs()), Action.SendCopy(t))
    {
      hide Inv, Chain;
      ghost var s := Abs();
      assert Inv(Step(s, Action.SendCopy(t))) && TaskOk(s, tasks[t]) by { StepInv(s, Action.SendCopy(t)); SenderOk(s, t); }
      var x := tasks[t];
      data[x.node] := data[x.node][x.copied := x.msg[x.copied]];
      tasks := tasks[t := x.(copied := x.copied + 1)];
    }

    /** rt_ipc_list_resume, when somebody waits. */
    method Resume() returns (ready: Option<nat>)
      modifies this`waiters, this`tasks
      ensures Abs() == ResumeFirst(old(Abs()))
      ensures ready == if old(waiters) == [] then None else Some(old(waiters)[0].tid)
    {
      ready := None;
      if waiters != [] {
        ready := Some(waiters[0].tid);
        tasks := Wake(tasks, waiters[0].tid, EOK);
        waiters := waiters[1..];
      }
    }

    /** The last region of rt_mq_send and rt_mq_urgent; `ready` is the receiver that is resumed. */
    method SendLink(t: nat) returns (ready: Option<nat>)
      requires Valid() && Enabled(Abs(), Action.SendLink(t))
      modifies this, next
      ensures Valid() && Abs() == Step(old(Abs()), Action.SendLink(t))
      ensures Linked(ready) == Answer(old(Abs()), Action.SendLink(t))
    {
      hide Inv, Chain, NoDup, ClearedOk, Link, ResumeFirst, Step, Answer, Held, HeldBy;
      ghost var s := Abs();
      LinkReady(s, t, next[..]);
      LinkIs(s, t);
      StillCleared(s, t);
      PutNode(t);
      ready := Resume();
    }

    /** The node goes into the queue and out of its sender's hands. */
    method PutNode(t: nat)
      requires Lists() && t in tasks && tasks[t].Sending? && tasks[t].node < next.Length
      requires tasks[t].node !in queue && tasks[t].node !in free
      requires !tasks[t].urgent ==> next[tasks[t].node].None?
      requires NoDup(queue) && forall n: nat :: n in queue ==> n !in free && !Held(tasks, n)
      requires forall u: nat :: HeldBy(tasks, u, tasks[t].node) ==> u == t
      modifies this`head, this`tail, this`entry, this`queue, this`msgs, this`tasks, next
      ensures Lists() && Abs() == Enqueue(old(Abs()), t)
    {
      hide Chain, NoDup, ClearedOk, Held;
      var x := tasks[t];
      if x.urgent { LinkFront(x.node); } else { LinkBack(x.node); }
      queue := if x.urgent then [x.node] + queue else queue + [x.node];
      msgs := if x.urgent then [x.msg] + msgs else msgs + [x.msg];
      StillOthers(next[..], tasks, t);
      tasks := tasks - {t};
    }

    method LinkFront(msg: nat)
      requires Lists() && msg < next.Length && msg !in queue && msg !in free
      requires forall t: nat :: HeldBy(tasks, t, msg) ==> tasks[t].Sending? && tasks[t].urgent
      modifies this`head, this`tail, this`entry, next
      ensures Chain(next[..], head, [msg] + queue) && tail == LastOf([msg] + queue) && entry == |queue| + 1
      ensures Chain(next[..], freeList, free) && ClearedOk(next[..], tasks)
    {
      ChainPush(next[..], head, queue, msg);
      ChainUpdate(next[..], freeList, free, msg, head);
      next[msg] := head;
      head := Some(msg);
      if tail.None? { tail := Some(msg); }
      entry := entry + 1;
      assert next[..] == old(next[..])[msg := old(head)];
      forall t: nat | t in tasks && tasks[t].Sending? && !tasks[t].urgent ensures tasks[t].node != msg {
        assert tasks[t].node == msg ==> HeldBy(tasks, t, msg);
      }
    }

    method LinkBack(msg: nat)
      requires Lists() && msg < next.Length && msg !in queue && msg !in free && next[msg].None?
      requires NoDup(queue) && forall n :: n in queue ==> n !in free && !Held(tasks, n)
      modifies this`head, this`tail, this`entry, next
      ensures Chain(next[..], head, queue + [msg]) && tail == LastOf(queue + [msg]) && entry == |queue| + 1
      ensures Chain(next[..], freeList, free) && ClearedOk(next[..], tasks)
    {
      ChainInRange(next[..], head, queue);
      assert queue != [] ==> queue[|queue| - 1] in queue;
      ChainAppend(next[..], head, queue, msg);
      if tail.Some? {
        assert tail.value in queue;
        ChainUpdate(next[..], freeList, free, tail.value, Some(msg));
        next[tail.value] := Some(msg);
        assert next[..] == old(next[..])[tail.value := Some(msg)];
        assert !Held(tasks, tail.value);
        forall t: nat | t in tasks && tasks[t].Sending? ensures tasks[t].node != tail.value {
          assert HeldBy(tasks, t, tasks[t].node);
        }
      }
      tail := Some(msg);
      if head.None? { head := Some(msg); }
      entry := entry + 1;
      assert queue == [] ==> queue + [msg] == [msg];
    }

    /** One pass of the receive loop: take the head, give up, or suspend. */
    method Receive(t: nat, prio: nat, size: nat, timeout: int) returns (r: Code)
      requires Lists() && Inv(Abs())
      modifies this`head, this`tail, this`entry, this`waiters, this`tasks, this`queue, this`msgs, this`promised
      ensures Lists() && Abs() == MessageQueueSpec.Receive(old(Abs()), t, prio, size, timeout)
      ensures r == if old(entry) == 0 && timeout == 0 then ETIMEOUT else InProgress
    {
      hide Inv, Chain, NoDup, ClearedOk;
      QueueFacts(Abs());
      if entry == 0 {
        NotSendingCleared(next[..], tasks, t, Waiting(size, timeout));
        if timeout == 0 {
          tasks := tasks - {t};
          return ETIMEOUT;
        }
        var w := Waiter(t, prio);
        var i := FindPosition(waiters, w, flag);
        waiters := waiters[..i] + [w] + waiters[i..];
        tasks := tasks[t := Waiting(size, timeout)];
        return InProgress;
      }
      TakeHead(t, size);
      return InProgress;
    }

    /** The first node leaves the queue; the receiver has it and is promised its message. */
    method TakeHead(t: nat, size: nat)
      requires Lists() && queue != [] && NoDup(queue) && |msgs| == |queue|
      modifies this`head, this`tail, this`entry, this`tasks, this`queue, this`msgs, this`promised
      ensures Lists() && queue == old(queue)[1..] && msgs == old(msgs)[1..]
      ensures tasks == old(tasks)[t := Receiving(old(queue)[0], size, [])]
      ensures promised == old(promised)[t := Promise(old(msgs)[0], size)]
    {
      hide Chain, NoDup, ClearedOk;
      ChainTail(next[..], head, queue);
      var msg := head.value;
      TailOf(queue);
      head := next[msg];
      if tail == Some(msg) { tail := None; }
      entry := entry - 1;
      NotSendingCleared(next[..], tasks, t, Receiving(msg, size, []));
      tasks := tasks[t := Receiving(msg, size, [])];
      promised := promised[t := Promise(msgs[0], size)];
      queue := queue[1..];
      msgs := msgs[1..];
    }

    /** The first region of rt_mq_recv. */
    method RecvStart(t: nat, prio: nat, size: nat, timeout: int) returns (r: Code)
      requires Valid() && Enabled(Abs(), Action.RecvStart(t, prio, size, timeout))
      modifies this
      ensures Valid() && Abs() == Step(old(Abs()), Action.RecvStart(t, prio, size, timeout))
      ensures Returns(r) == Answer(old(Abs()), Action.RecvStart(t, prio, size, timeout))
    {
      hide Inv, MessageQueueSpec.Receive;

      assert Inv(Step(Abs(), Action.RecvStart(t, prio, size, timeout))) by {
        StepInv(Abs(), Action.RecvStart(t, prio, size, timeout));
      }
      r := Receive(t, prio, size, timeout);
    }

    /** The receive loop after a resume without error: the waiting time is recomputed first. */
    method RecvRetry(t: nat, prio: nat, elapsed: nat) returns (r: Code)
      requires Valid() && Enabled(Abs(), Action.RecvRetry(t, prio, elapsed))
      modifies this
      ensures Valid() && Abs() == Step(old(Abs()), Action.RecvRetry(t, prio, elapsed))
      ensures Returns(r) == Answer(old(Abs()), Action.RecvRetry(t, prio, elapsed))
    {
      hide Inv, MessageQueueSpec.Receive;

      assert Inv(Step(Abs(), Action.RecvRetry(t, prio, elapsed))) by {
        StepInv(Abs(), Action.RecvRetry(t, prio, elapsed));
      }
      var timeout := tasks[t].timeout;
      if timeout > 0 {
        timeout := timeout - elapsed;
        if timeout < 0 { timeout := 0; }
      }
      r := Receive(t, prio, tasks[t].size, timeout);
    }

    /** The error return after a timeout or a reset. */
    method RecvAbort(t: nat) returns (r: Code)
      requires Valid() && Enabled(Abs(), Action.RecvAbort(t))
      modifies this`tasks
      ensures Valid() && Abs() == Step(old(Abs()), Action.RecvAbort(t))
      ensures Returns(r) == Answer(old(Abs()), Action.RecvAbort(t))
    {
      StepInv(Abs(), Action.RecvAbort(t));
      r := tasks[t].error;
      tasks := tasks - {t};
    }

    /** One byte of the copy out of the node. */
    method RecvCopy(t: nat)
      requires Valid() && Enabled(Abs(), Action.RecvCopy(t))
      modifies this`tasks
      ensures Valid() && Abs() == Step(old(Abs()), Action.RecvCopy(t))
    {
      hide Inv, ClearedOk, Chain;
      CopyOutReady(Abs(), t, next[..]);
      var x := tasks[t];
      tasks := tasks[t := x.(buf := x.buf + [data[x.node][|x.buf|]])];
    }

    /** The last region of rt_mq_recv: the node goes back onto the free list. */
    method RecvFinish(t: nat) returns (buf: Bytes)
      requires Valid() && Enabled(Abs(), Action.RecvFinish(t))
      modifies this`freeList, this`free, this`tasks, this`promised, next
      ensures Valid() && Abs() == Step(old(Abs()), Action.RecvFinish(t))
      ensures Delivers(buf) == Answer(old(Abs()), Action.RecvFinish(t))
    {
      hide Inv, ClearedOk, Chain, Step, HeldBy;
      var msg := tasks[t].node;
      buf := tasks[t].buf;
      FinishReady(Abs(), t);
      ChainUpdate(next[..], head, queue, msg, freeList);
      ChainPush(next[..], freeList, free, msg);
      next[msg] := freeList;
      assert next[..] == old(next[..])[msg := freeList];
      assert ClearedOk(next[..], tasks - {t}) by { OthersCleared(old(next[..]), next[..], tasks, t, msg); }
      freeList := Some(msg);
      free := [msg] + free;
      tasks := tasks - {t};
      promised := promised - {t};
    }

    /** rt_thread_timeout on a waiting receiver. */
    method Timeout(t: nat)
      requires Valid() && Enabled(Abs(), Action.Timeout(t))
      modifies this`tasks, this`waiters
      ensures Valid() && Abs() == Step(old(Abs()), Action.Timeout(t))
    {
      hide Inv, Chain;
      assert Inv(Step(Abs(), Action.Timeout(t))) by { StepInv(Abs(), Action.Timeout(t)); }
      waiters := Remove(waiters, t);
      tasks := Wake(tasks, t, ETIMEOUT);
    }

    /** rt_mq_control with the reset command. */
    method Reset()
      requires Valid()
      modifies this, next
      ensures Valid() && Abs() == Step(old(Abs()), Action.Reset)
    {
      hide Inv, Chain, NoDup, ClearedOk, WakeAll, Held, Reversed, Step;
      ResetReady(Abs(), next[..]);
      waiters := [];
      tasks := WakeAll(tasks);
      EmptyQueue();
      entry := 0;
      msgs := [];
    }

    method EmptyQueue()
      requires Lists() && NoDup(queue) && forall n: nat :: n in queue ==> n !in free && !Held(tasks, n)
      modifies this`head, this`tail, this`freeList, this`queue, this`free, next
      ensures head.None? && tail.None? && queue == [] && free == Reversed(old(queue)) + old(free)
      ensures Chain(next[..], head, queue)
      ensures Chain(next[..], freeList, free) && ClearedOk(next[..], tasks)
    {
      ghost var q0, f0 := queue, free;
      while head.Some?
        invariant Chain(next[..], head, queue) && tail == LastOf(queue) && NoDup(queue)
        invariant Chain(next[..], freeList, free) && ClearedOk(next[..], tasks)
        invariant forall n: nat :: n in queue ==> n !in free && !Held(tasks, n)
        invariant Reversed(q0) + f0 == Reversed(queue) + free
        decreases |queue|
      {
        EmptyOne();
      }
      assert Reversed(queue) + free == free;
    }

    /** Move the first node of the queue to the free list. */
    method EmptyOne()
      requires next.Length == data.Length && Chain(next[..], head, queue) && tail == LastOf(queue) && NoDup(queue) && head.Some?
      requires Chain(next[..], freeList, free) && ClearedOk(next[..], tasks)
      requires forall n: nat :: n in queue ==> n !in free && !Held(tasks, n)
      modifies this`head, this`tail, this`freeList, this`queue, this`free, next
      ensures queue == old(queue)[1..] && free == [old(queue)[0]] + old(free)
      ensures Reversed(queue) + free == Reversed(old(queue)) + old(free)
      ensures Chain(next[..], head, queue) && tail == LastOf(queue) && NoDup(queue)
      ensures Chain(next[..], freeList, free) && ClearedOk(next[..], tasks)
      ensures forall n: nat :: n in queue ==> n !in free && !Held(tasks, n)
    {
      hide Chain, ClearedOk;
      ChainTail(next[..], head, queue);
      var msg := head.value;
      Behead(queue);
      TailOf(queue);
      head := next[msg];
      if tail == Some(msg) { tail := None; }
      ChainUpdate(next[..], head, queue[1..], msg, freeList);
      ChainPush(next[..], freeList, free, msg);
      next[msg] := freeList;
      assert next[..] == old(next[..])[msg := freeList];
      assert ClearedOk(next[..], tasks) by { NotHeldCleared(old(next[..]), next[..], tasks, msg); }
      freeList := Some(msg);
      queue := queue[1..];
      free := [msg] + free;
    }
  }
}
