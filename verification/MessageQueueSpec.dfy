/** The message queue of ipc.c as a state machine: every region that runs with interrupts disabled is
    one step, and the payload copies, which run with interrupts enabled, are one step per byte. Steps of
    any number of senders, urgent senders, receivers, timeouts and resets interleave freely. */
module MessageQueueSpec {
  import opened Ipc
  import opened Sequences
  import opened WaitList
  import opened Wrappers

  type Bytes = seq<bv8>

  /** Where a thread stands inside a call; a thread without an entry is outside. */
  datatype Task =
    | Sending(node: nat, msg: Bytes, urgent: bool, cleared: bool, copied: nat)
    | Waiting(size: nat, timeout: int)
    | Woken(size: nat, timeout: int, error: Code)
    | Receiving(node: nat, size: nat, buf: Bytes)

  /** What a receiver that has taken a node is to get: the first `size` bytes of `msg`. */
  datatype Promise = Promise(msg: Bytes, size: nat)

  /** `queue` and `free` are the two node lists from head to end, `data` the payload of each pool node.
      The last two fields are history: the messages linked and not yet taken, and what each receiver
      was promised when it took its node, the message that was first in line. */
  datatype State = State(
    msgSize: nat, flag: Flag, queue: seq<nat>, free: seq<nat>, data: seq<Bytes>,
    waiters: seq<Waiter>, tasks: map<nat, Task>, msgs: seq<Bytes>, promised: map<nat, Promise>)

  datatype Action =
    | SendStart(t: nat, msg: Bytes, urgent: bool)
    | SendClear(t: nat)
    | SendCopy(t: nat)
    | SendLink(t: nat)
    | RecvStart(t: nat, prio: nat, size: nat, timeout: int)
    | RecvRetry(t: nat, prio: nat, elapsed: nat)
    | RecvAbort(t: nat)
    | RecvCopy(t: nat)
    | RecvFinish(t: nat)
    | Timeout(t: nat)
    | Reset

  function Init(msgSize: nat, flag: Flag, free: seq<nat>, data: seq<Bytes>): State {
    State(msgSize, flag, [], free, data, [], map[], [], map[])
  }

  /** When a step can happen: the thread stands at that point of a call. */
  predicate Enabled(s: State, a: Action) {
    match a
    case SendStart(t, msg, _) => t !in s.tasks && msg != []
    case SendClear(t) => t in s.tasks && s.tasks[t].Sending? && !s.tasks[t].cleared
    case SendCopy(t) =>
      t in s.tasks && s.tasks[t].Sending? && s.tasks[t].cleared && s.tasks[t].copied < |s.tasks[t].msg|
    case SendLink(t) =>
      t in s.tasks && s.tasks[t].Sending? && s.tasks[t].cleared && s.tasks[t].copied == |s.tasks[t].msg|
    case RecvStart(t, _, size, _) => t !in s.tasks && size > 0
    case RecvRetry(t, _, _) => t in s.tasks && s.tasks[t].Woken? && s.tasks[t].error == EOK
    case RecvAbort(t) => t in s.tasks && s.tasks[t].Woken? && s.tasks[t].error != EOK
    case RecvCopy(t) =>
      t in s.tasks && s.tasks[t].Receiving? && |s.tasks[t].buf| < Min(s.tasks[t].size, s.msgSize)
    case RecvFinish(t) =>
      t in s.tasks && s.tasks[t].Receiving? && |s.tasks[t].buf| == Min(s.tasks[t].size, s.msgSize)
    case Timeout(t) => t in s.tasks && s.tasks[t].Waiting? && s.tasks[t].timeout > 0
    case Reset => true
  }

  /** rt_mq_send and rt_mq_urgent up to the first copy: take a node off the free list. */
  function StartSend(s: State, t: nat, msg: Bytes, urgent: bool): State {
    if |msg| > s.msgSize || s.free == [] then s
    else s.(free := s.free[1..], tasks := s.tasks[t := Sending(s.free[0], msg, urgent, urgent, 0)])
  }

  /** Byte `k` of the message goes into the node. */
  function CopyIn(s: State, t: nat): State
    requires t in s.tasks && s.tasks[t].Sending?
  {
    var x := s.tasks[t];
    if x.node < |s.data| && x.copied < |s.data[x.node]| && x.copied < |x.msg| then
      s.(data := s.data[x.node := s.data[x.node][x.copied := x.msg[x.copied]]],
         tasks := s.tasks[t := x.(copied := x.copied + 1)])
    else s
  }

  /** rt_ipc_list_resume on the receivers' list: the first one becomes ready. */
  function ResumeFirst(s: State): State {
    if s.waiters == [] then s
    else s.(waiters := s.waiters[1..], tasks := Wake(s.tasks, s.waiters[0].tid, EOK))
  }

  function Wake(tasks: map<nat, Task>, t: nat, error: Code): map<nat, Task> {
    if t in tasks && tasks[t].Waiting? then tasks[t := Woken(tasks[t].size, tasks[t].timeout, error)] else tasks
  }

  /** The node enters the queue: at the end, or at the front when urgent. */
  function Enqueue(s: State, t: nat): State
    requires t in s.tasks && s.tasks[t].Sending?
  {
    var x := s.tasks[t];
    s.(queue := if x.urgent then [x.node] + s.queue else s.queue + [x.node],
       msgs := if x.urgent then [x.msg] + s.msgs else s.msgs + [x.msg],
       tasks := s.tasks - {t})
  }

  function Link(s: State, t: nat): State
    requires t in s.tasks && s.tasks[t].Sending?
  {
    ResumeFirst(Enqueue(s, t))
  }

  /** The receive loop once: take the first node, or give up, or suspend. */
  function Receive(s: State, t: nat, prio: nat, size: nat, timeout: int): State {
    if s.queue != [] && s.msgs != [] then
      s.(queue := s.queue[1..], msgs := s.msgs[1..],
         tasks := s.tasks[t := Receiving(s.queue[0], size, [])],
         promised := s.promised[t := Promise(s.msgs[0], size)])
    else if timeout == 0 then s.(tasks := s.tasks - {t})
    else s.(waiters := Suspend(s.waiters, Waiter(t, prio), s.flag), tasks := s.tasks[t := Waiting(size, timeout)])
  }

  function CopyOut(s: State, t: nat): State
    requires t in s.tasks && s.tasks[t].Receiving?
  {
    var x := s.tasks[t];
    if x.node < |s.data| && |x.buf| < |s.data[x.node]| then
      s.(tasks := s.tasks[t := x.(buf := x.buf + [s.data[x.node][|x.buf|]])])
    else s
  }

  /** rt_ipc_list_resume_all: every waiting receiver becomes ready with an error. */
  function WakeAll(tasks: map<nat, Task>): map<nat, Task> {
    map t | t in tasks :: if tasks[t].Waiting? then Woken(tasks[t].size, tasks[t].timeout, ERROR) else tasks[t]
  }

  function Reversed(q: seq<nat>): seq<nat> {
    if q == [] then [] else Reversed(q[1..]) + [q[0]]
  }

  function Step(s: State, a: Action): State
    requires Enabled(s, a)
  {
    match a
    case SendStart(t, msg, urgent) => StartSend(s, t, msg, urgent)
    case SendClear(t) => s.(tasks := s.tasks[t := s.tasks[t].(cleared := true)])
    case SendCopy(t) => CopyIn(s, t)
    case SendLink(t) => Link(s, t)
    case RecvStart(t, prio, size, timeout) => Receive(s, t, prio, size, timeout)
    case RecvRetry(t, prio, elapsed) =>
      Receive(s, t, prio, s.tasks[t].size, Remaining(s.tasks[t].timeout, elapsed))
    case RecvAbort(t) => s.(tasks := s.tasks - {t})
    case RecvCopy(t) => CopyOut(s, t)
    case RecvFinish(t) =>
      s.(free := [s.tasks[t].node] + s.free, tasks := s.tasks - {t}, promised := s.promised - {t})
    case Timeout(t) => s.(waiters := Remove(s.waiters, t), tasks := Wake(s.tasks, t, ETIMEOUT))
    case Reset =>
      s.(waiters := [], tasks := WakeAll(s.tasks), queue := [], msgs := [],
         free := Reversed(s.queue) + s.free)
  }

  /** What a step shows outside: a return code, the receiver that a link makes ready, or the buffer filled. */
  datatype Reply = Silent | Returns(code: Code) | Linked(ready: Option<nat>) | Delivers(buf: Bytes)

  function Answer(s: State, a: Action): Reply
    requires Enabled(s, a)
  {
    match a
    case SendStart(_, msg, _) => Returns(if |msg| > s.msgSize then ERROR else if s.free == [] then EFULL else InProgress)
    case SendLink(_) => Linked(if s.waiters == [] then None else Some(s.waiters[0].tid))
    case RecvStart(_, _, _, timeout) => Returns(if s.queue == [] && timeout == 0 then ETIMEOUT else InProgress)
    case RecvRetry(t, _, elapsed) =>
      Returns(if s.queue == [] && Remaining(s.tasks[t].timeout, elapsed) == 0 then ETIMEOUT else InProgress)
    case RecvAbort(t) => Returns(s.tasks[t].error)
    case RecvFinish(t) => Delivers(s.tasks[t].buf)
    case _ => Silent
  }

  // ----- the pool -----------------------------------------------------------------------------

  predicate Holds(x: Task, n: nat) {
    (x.Sending? && x.node == n) || (x.Receiving? && x.node == n)
  }

  predicate HeldBy(tasks: map<nat, Task>, t: nat, n: nat) {
    t in tasks && Holds(tasks[t], n)
  }

  ghost predicate Held(tasks: map<nat, Task>, n: nat) {
    exists t: nat :: HeldBy(tasks, t, n)
  }

  /** Each of the `size` pool nodes is in exactly one place: the free list, the queue, or the hands of
      one thread. */
  ghost predicate Pool(queue: seq<nat>, free: seq<nat>, tasks: map<nat, Task>, size: nat) {
    && NoDup(free) && NoDup(queue)
    && (forall n: nat :: n in free ==> n < size && n !in queue && !Held(tasks, n))
    && (forall n: nat :: n in queue ==> n < size && !Held(tasks, n))
    && (forall t: nat, n: nat :: HeldBy(tasks, t, n) ==> n < size)
    && (forall t: nat, u: nat, n: nat :: HeldBy(tasks, t, n) && HeldBy(tasks, u, n) ==> t == u)
    && (forall n: nat :: n < size ==> n in free || n in queue || Held(tasks, n))
  }

  /** Two tables in which the same threads hold the same nodes. */
  ghost predicate SameHolds(a: map<nat, Task>, b: map<nat, Task>) {
    forall t: nat, n: nat :: HeldBy(a, t, n) <==> HeldBy(b, t, n)
  }

  lemma SameHoldsPool(queue: seq<nat>, free: seq<nat>, a: map<nat, Task>, b: map<nat, Task>, size: nat)
    requires Pool(queue, free, a, size) && SameHolds(a, b)
    ensures Pool(queue, free, b, size)
  {
    forall n: nat ensures Held(a, n) <==> Held(b, n) {
      if Held(a, n) { var t: nat :| HeldBy(a, t, n); assert HeldBy(b, t, n); }
      if Held(b, n) { var t: nat :| HeldBy(b, t, n); assert HeldBy(a, t, n); }
    }
  }

  /** The table `b` differs from `a` in that thread `t`, which held nothing, now holds `n`. */
  ghost predicate Gains(a: map<nat, Task>, b: map<nat, Task>, t: nat, n: nat) {
    && (forall m: nat :: !HeldBy(a, t, m))
    && (forall u: nat, m: nat :: HeldBy(b, u, m) <==> HeldBy(a, u, m) || (u == t && m == n))
  }

  lemma GainsHeld(a: map<nat, Task>, b: map<nat, Task>, t: nat, n: nat)
    requires Gains(a, b, t, n)
    ensures forall m: nat :: Held(b, m) <==> Held(a, m) || m == n
  {
    forall m: nat ensures Held(b, m) <==> Held(a, m) || m == n {
      if Held(a, m) { var u: nat :| HeldBy(a, u, m); assert HeldBy(b, u, m); }
      if m == n { assert HeldBy(b, t, n); }
    }
  }

  lemma Behead(q: seq<nat>)
    requires NoDup(q) && q != []
    ensures NoDup(q[1..]) && q[0] in q && q[0] !in q[1..]
    ensures forall n: nat :: n in q <==> n == q[0] || n in q[1..]
  {
    assert q == [q[0]] + q[1..];
    forall i, j | 0 <= i < j < |q[1..]| ensures q[1..][i] != q[1..][j] {
      assert q[1..][i] == q[i + 1] && q[1..][j] == q[j + 1];
    }
    forall n: nat | n in q[1..] ensures n != q[0] {
      var i :| 0 <= i < |q[1..]| && q[1..][i] == n;
      assert q[i + 1] == n;
    }
  }

  lemma TakeFree(queue: seq<nat>, free: seq<nat>, a: map<nat, Task>, b: map<nat, Task>, t: nat, size: nat)
    requires Pool(queue, free, a, size) && free != [] && Gains(a, b, t, free[0])
    ensures Pool(queue, free[1..], b, size)
  {
    GainsHeld(a, b, t, free[0]);
    Behead(free);
  }

  lemma TakeQueued(queue: seq<nat>, free: seq<nat>, a: map<nat, Task>, b: map<nat, Task>, t: nat, size: nat)
    requires Pool(queue, free, a, size) && queue != [] && Gains(a, b, t, queue[0])
    ensures Pool(queue[1..], free, b, size)
  {
    GainsHeld(a, b, t, queue[0]);
    Behead(queue);
  }

  lemma GiveFree(queue: seq<nat>, free: seq<nat>, a: map<nat, Task>, b: map<nat, Task>, t: nat, n: nat, size: nat)
    requires Pool(queue, free, a, size) && Gains(b, a, t, n)
    ensures Pool(queue, [n] + free, b, size)
  {
    GainsHeld(b, a, t, n);
    assert HeldBy(a, t, n) && Held(a, n);
    GivenAway(a, b, t, n);
    Prepended(free, n);
  }

  lemma GiveQueue(queue: seq<nat>, free: seq<nat>, a: map<nat, Task>, b: map<nat, Task>, t: nat, n: nat,
                  urgent: bool, size: nat)
    requires Pool(queue, free, a, size) && Gains(b, a, t, n)
    ensures Pool(if urgent then [n] + queue else queue + [n], free, b, size)
  {
    GainsHeld(b, a, t, n);
    assert HeldBy(a, t, n) && Held(a, n);
    GivenAway(a, b, t, n);
    Prepended(queue, n);
  }

  lemma Prepended(q: seq<nat>, n: nat)
    requires NoDup(q) && n !in q
    ensures NoDup([n] + q) && NoDup(q + [n])
  {
  }

  /** Nobody else holds a node that is given away. */
  lemma GivenAway(a: map<nat, Task>, b: map<nat, Task>, t: nat, n: nat)
    requires Gains(b, a, t, n)
    requires forall u: nat, v: nat, m: nat :: HeldBy(a, u, m) && HeldBy(a, v, m) ==> u == v
    ensures !Held(b, n)
  {
    assert HeldBy(a, t, n);
    assert forall u: nat :: HeldBy(b, u, n) ==> HeldBy(a, u, n) && u == t;
  }

  lemma {:induction false} ReversedMembers(q: seq<nat>)
    requires NoDup(q)
    ensures |Reversed(q)| == |q| && NoDup(Reversed(q))
    ensures forall n: nat :: n in Reversed(q) <==> n in q
  {
    if q != [] {
      var r := q[1..];
      assert forall i, j :: 0 <= i < j < |r| ==> r[i] == q[i + 1] && r[j] == q[j + 1];
      assert q == [q[0]] + r;
      ReversedMembers(r);
      Prepended(Reversed(r), q[0]);
    }
  }

  lemma ResetPool(queue: seq<nat>, free: seq<nat>, a: map<nat, Task>, size: nat)
    requires Pool(queue, free, a, size)
    ensures Pool([], Reversed(queue) + free, a, size)
  {
    ReversedMembers(queue);
    var f := Reversed(queue) + free;
    forall i, j | 0 <= i < j < |f| ensures f[i] != f[j] {
      if i < |queue| { assert f[i] in queue; } else { assert f[i] == free[i - |queue|]; }
      if j >= |queue| { assert f[j] == free[j - |queue|] && f[j] in free; }
    }
  }

  // ----- payloads -----------------------------------------------------------------------------

  /** The first bytes of `d` are the message `m`. */
  predicate Carries(d: Bytes, m: Bytes) {
    |m| <= |d| && d[..|m|] == m
  }

  /** Queued nodes carry the linked messages in order; a sender has filled its node as far as it says;
      a receiver's node carries the message it was promised, and its buffer is what it has copied. */
  ghost predicate Payloads(s: State) {
    && (forall n :: 0 <= n < |s.data| ==> |s.data[n]| == s.msgSize)
    && |s.msgs| == |s.queue|
    && (forall i :: 0 <= i < |s.queue| ==> s.queue[i] < |s.data| && Carries(s.data[s.queue[i]], s.msgs[i]))
    && (forall t: nat :: t in s.tasks ==> TaskOk(s, s.tasks[t]))
    && (forall t: nat :: t in s.promised <==> t in s.tasks && s.tasks[t].Receiving?)
    && (forall t: nat :: t in s.promised ==>
          && s.tasks[t].node < |s.data| && Carries(s.data[s.tasks[t].node], s.promised[t].msg)
          && s.promised[t].size == s.tasks[t].size)
  }

  predicate TaskOk(s: State, x: Task) {
    match x
    case Sending(n, msg, _, cleared, copied) =>
      n < |s.data| && |msg| <= s.msgSize && copied <= |msg| && |s.data[n]| == s.msgSize
      && s.data[n][..copied] == msg[..copied] && (copied > 0 ==> cleared)
    case Receiving(n, size, buf) =>
      n < |s.data| && |s.data[n]| == s.msgSize && |buf| <= Min(size, s.msgSize) && buf == s.data[n][..|buf|]
    case Waiting(_, _) => true
    case Woken(_, _, _) => true
  }

  // ----- waiting threads and wakeups ----------------------------------------------------------

  /** The list holds exactly the waiting threads, each once, by priority if the queue is so flagged. */
  ghost predicate Waits(s: State) {
    && Distinct(s.waiters)
    && (s.flag.Prio? ==> Ordered(s.waiters))
    && (forall w :: w in s.waiters ==> w.tid in s.tasks && s.tasks[w.tid].Waiting?)
    && (forall t: nat :: t in s.tasks && s.tasks[t].Waiting? ==> OnList(s.waiters, t))
  }

  /** Receivers made ready by a message that have not looked at the queue again yet. */
  function Rechecking(tasks: map<nat, Task>): set<nat> {
    set t | t in tasks && tasks[t].Woken? && tasks[t].error == EOK
  }

  /** No lost wakeup: while receivers wait, there are no more messages than receivers on their way. */
  ghost predicate NoLostWakeup(s: State) {
    s.waiters != [] ==> |s.queue| <= |Rechecking(s.tasks)|
  }

  ghost predicate Inv(s: State) {
    Pool(s.queue, s.free, s.tasks, |s.data|) && Payloads(s) && Waits(s) && NoLostWakeup(s)
  }

  lemma InitInv(msgSize: nat, flag: Flag, free: seq<nat>, data: seq<Bytes>)
    requires NoDup(free) && (forall n: nat :: n in free <==> n < |data|)
    requires forall n :: 0 <= n < |data| ==> |data[n]| == msgSize
    ensures Inv(Init(msgSize, flag, free, data))
  {
  }

  lemma StepPool(s: State, a: Action)
    requires Inv(s) && Enabled(s, a)
    ensures var s' := Step(s, a); Pool(s'.queue, s'.free, s'.tasks, |s'.data|)
  {
    match a
    case SendStart(t, msg, urgent) =>
      if |msg| <= s.msgSize && s.free != [] {
        TakeFree(s.queue, s.free, s.tasks, StartSend(s, t, msg, urgent).tasks, t, |s.data|);
      }
    case SendLink(t) => LinkPool(s, t);
    case RecvStart(t, prio, size, timeout) => ReceivePool(s, t, prio, size, timeout);
    case RecvRetry(t, prio, elapsed) =>
      ReceivePool(s, t, prio, s.tasks[t].size, Remaining(s.tasks[t].timeout, elapsed));
    case RecvFinish(t) => GiveFree(s.queue, s.free, s.tasks, s.tasks - {t}, t, s.tasks[t].node, |s.data|);
    case Reset =>
      ResetPool(s.queue, s.free, s.tasks, |s.data|);
      SameHoldsPool([], Reversed(s.queue) + s.free, s.tasks, WakeAll(s.tasks), |s.data|);
    case _ => OtherPool(s, a);
  }

  lemma LinkPool(s: State, t: nat)
    requires Pool(s.queue, s.free, s.tasks, |s.data|) && Enabled(s, SendLink(t))
    ensures var s' := Link(s, t); Pool(s'.queue, s'.free, s'.tasks, |s'.data|)
  {
    var s' := Link(s, t);
    GiveQueue(s.queue, s.free, s.tasks, s.tasks - {t}, t, s.tasks[t].node, s.tasks[t].urgent, |s.data|);
    SameHoldsPool(s'.queue, s.free, s.tasks - {t}, s'.tasks, |s.data|);
  }

  lemma OtherPool(s: State, a: Action)
    requires Pool(s.queue, s.free, s.tasks, |s.data|) && Enabled(s, a)
    requires a.SendClear? || a.SendCopy? || a.RecvAbort? || a.RecvCopy? || a.Timeout?
    ensures var s' := Step(s, a); Pool(s'.queue, s'.free, s'.tasks, |s'.data|)
  {
    SameHoldsPool(s.queue, s.free, s.tasks, Step(s, a).tasks, |s.data|);
  }

  lemma ReceivePool(s: State, t: nat, prio: nat, size: nat, timeout: int)
    requires Pool(s.queue, s.free, s.tasks, |s.data|) && (t in s.tasks ==> s.tasks[t].Woken?)
    ensures var s' := Receive(s, t, prio, size, timeout); Pool(s'.queue, s'.free, s'.tasks, |s'.data|)
  {
    var s' := Receive(s, t, prio, size, timeout);
    if s.queue != [] && s.msgs != [] {
      TakeQueued(s.queue, s.free, s.tasks, s'.tasks, t, |s.data|);
    } else {
      SameHoldsPool(s.queue, s.free, s.tasks, s'.tasks, |s.data|);
    }
  }

  lemma StepPayloads(s: State, a: Action)
    requires Inv(s) && Enabled(s, a)
    ensures Payloads(Step(s, a))
  {
    match a
    case SendStart(t, msg, urgent) => StartPayloads(s, t, msg, urgent);
    case SendCopy(t) => CopyInPayloads(s, t);
    case SendLink(t) => LinkPayloads(s, t);
    case RecvStart(t, prio, size, timeout) => ReceivePayloads(s, t, prio, size, timeout);
    case RecvRetry(t, prio, elapsed) =>
      ReceivePayloads(s, t, prio, s.tasks[t].size, Remaining(s.tasks[t].timeout, elapsed));
    case RecvCopy(t) => CopyOutPayloads(s, t);
    case _ => OtherPayloads(s, a);
  }

  lemma StartPayloads(s: State, t: nat, msg: Bytes, urgent: bool)
    requires Inv(s) && t !in s.tasks
    ensures Payloads(StartSend(s, t, msg, urgent))
  {
    if |msg| <= s.msgSize && s.free != [] { assert s.free[0] in s.free; }
  }

  lemma CopyOutPayloads(s: State, t: nat)
    requires Payloads(s) && Enabled(s, RecvCopy(t))
    ensures Payloads(CopyOut(s, t))
  {
    var x := s.tasks[t];
    assert TaskOk(s, x);
    assert s.data[x.node][..|x.buf| + 1] == s.data[x.node][..|x.buf|] + [s.data[x.node][|x.buf|]];
  }

  lemma OtherPayloads(s: State, a: Action)
    requires Payloads(s) && Enabled(s, a)
    requires a.SendClear? || a.RecvAbort? || a.RecvFinish? || a.Timeout? || a.Reset?
    ensures Payloads(Step(s, a))
  {
    var s' := Step(s, a);
    forall t: nat | t in s'.tasks ensures TaskOk(s', s'.tasks[t]) { assert TaskOk(s, s.tasks[t]); }
  }

  /** A byte that a sender writes is in nobody else's node. */
  lemma CopyInPayloads(s: State, t: nat)
    requires Inv(s) && Enabled(s, SendCopy(t))
    ensures Payloads(CopyIn(s, t))
  {
    hide Waits, NoLostWakeup, Rechecking;
    var s' := CopyIn(s, t);
    var x := s.tasks[t];
    assert HeldBy(s.tasks, t, x.node);
    forall i | 0 <= i < |s.queue| ensures s.queue[i] < |s.data| && Carries(s'.data[s.queue[i]], s.msgs[i]) {
      assert s.queue[i] in s.queue && Held(s.tasks, x.node);
    }
    forall u: nat | u in s.promised ensures Carries(s'.data[s.tasks[u].node], s.promised[u].msg) {
      assert HeldBy(s.tasks, u, s.tasks[u].node);
    }
    forall u: nat | u in s.tasks ensures TaskOk(s', s'.tasks[u]) {
      if u == t {
        assert x.msg[..x.copied + 1] == x.msg[..x.copied] + [x.msg[x.copied]];
        assert s'.data[x.node][..x.copied + 1] == s.data[x.node][..x.copied] + [x.msg[x.copied]];
      } else if s.tasks[u].Sending? || s.tasks[u].Receiving? {
        assert HeldBy(s.tasks, u, s.tasks[u].node);
      }
    }
  }

  lemma LinkPayloads(s: State, t: nat)
    requires Inv(s) && Enabled(s, SendLink(t))
    ensures Payloads(Link(s, t))
  {
    hide Pool, Waits, NoLostWakeup;
    LinkQueue(s, t);
    LinkTasks(s, t);
  }

  lemma LinkQueue(s: State, t: nat)
    requires Payloads(s) && Enabled(s, SendLink(t))
    ensures var s' := Link(s, t);
      && |s'.queue| == |s'.msgs|
      && forall i :: 0 <= i < |s'.queue| ==> s'.queue[i] < |s.data| && Carries(s.data[s'.queue[i]], s'.msgs[i])
  {
    hide Carries, TaskOk, Wake;
    var s' := Link(s, t);
    var x := s.tasks[t];
    FilledCarries(s, t);
    forall i | 0 <= i < |s'.queue| ensures s'.queue[i] < |s.data| && Carries(s.data[s'.queue[i]], s'.msgs[i]) {
      var j := if x.urgent then i - 1 else i;
      if 0 <= j < |s.queue| { assert s'.queue[i] == s.queue[j] && s'.msgs[i] == s.msgs[j]; }
    }
  }

  /** A node that has been filled carries its message. */
  lemma FilledCarries(s: State, t: nat)
    requires Payloads(s) && Enabled(s, SendLink(t))
    ensures var x := s.tasks[t]; x.node < |s.data| && Carries(s.data[x.node], x.msg)
  {
    var x := s.tasks[t];
    assert TaskOk(s, x);
    assert x.msg[..|x.msg|] == x.msg;
  }

  lemma LinkTasks(s: State, t: nat)
    requires Payloads(s) && Enabled(s, SendLink(t))
    ensures var s' := Link(s, t);
      && (forall u: nat :: u in s'.tasks ==> TaskOk(s', s'.tasks[u]))
      && (forall u: nat :: u in s'.promised <==> u in s'.tasks && s'.tasks[u].Receiving?)
  {
    var s1 := Enqueue(s, t);
    forall u: nat | u in s1.tasks ensures TaskOk(s1, s1.tasks[u]) {
      assert TaskOk(s, s.tasks[u]);
    }
    ResumeTasks(s1);
  }

  lemma ResumeTasks(s: State)
    requires forall u: nat :: u in s.tasks ==> TaskOk(s, s.tasks[u])
    requires forall u: nat :: u in s.promised <==> u in s.tasks && s.tasks[u].Receiving?
    ensures var s' := ResumeFirst(s);
      && (forall u: nat :: u in s'.tasks ==> TaskOk(s', s'.tasks[u]))
      && (forall u: nat :: u in s'.promised <==> u in s'.tasks && s'.tasks[u].Receiving?)
  {
  }

  lemma ReceivePayloads(s: State, t: nat, prio: nat, size: nat, timeout: int)
    requires Payloads(s) && (t in s.tasks ==> s.tasks[t].Woken?)
    ensures Payloads(Receive(s, t, prio, size, timeout))
  {
    var s' := Receive(s, t, prio, size, timeout);
    if s.queue != [] && s.msgs != [] {
      assert s.queue[0] in s.queue;
      forall i | 0 <= i < |s'.queue| ensures s'.queue[i] < |s.data| && Carries(s.data[s'.queue[i]], s'.msgs[i]) {
        assert s'.queue[i] == s.queue[i + 1] && s'.msgs[i] == s.msgs[i + 1];
      }
    }
    forall u: nat | u in s'.tasks ensures TaskOk(s', s'.tasks[u]) {
      if u != t { assert TaskOk(s, s.tasks[u]); }
    }
  }

  lemma StepWaits(s: State, a: Action)
    requires Waits(s) && Enabled(s, a)
    ensures Waits(Step(s, a))
  {
    var s' := Step(s, a);
    match a
    case RecvStart(t, prio, size, timeout) => ReceiveWaits(s, t, prio, size, timeout);
    case RecvRetry(t, prio, elapsed) =>
      ReceiveWaits(s, t, prio, s.tasks[t].size, Remaining(s.tasks[t].timeout, elapsed));
    case SendLink(t) =>
      var s1 := s.(tasks := s.tasks - {t});
      SameWaits(s, s1);
      ResumeWaits(s1);
      SameWaits(ResumeFirst(s1), s');
    case Timeout(t) =>
      RemoveMembers(s.waiters, t);
      forall u: nat | u in s'.tasks && s'.tasks[u].Waiting? ensures OnList(s'.waiters, u) {
        var w :| w in s.waiters && w.tid == u;
        assert w in s'.waiters;
      }
    case Reset =>
    case SendStart(_, _, _) => SameWaits(s, s');
    case SendClear(_) => SameWaits(s, s');
    case SendCopy(_) => SameWaits(s, s');
    case RecvAbort(_) => SameWaits(s, s');
    case RecvCopy(_) => SameWaits(s, s');
    case RecvFinish(_) => SameWaits(s, s');
  }

  lemma SameWaits(s: State, s': State)
    requires Waits(s) && s'.waiters == s.waiters && s'.flag == s.flag
    requires forall t: nat :: (t in s.tasks && s.tasks[t].Waiting?) <==> (t in s'.tasks && s'.tasks[t].Waiting?)
    ensures Waits(s')
  {
  }

  lemma ResumeWaits(s: State)
    requires Waits(s)
    ensures Waits(ResumeFirst(s))
  {
    if s.waiters != [] {
      TailKeeps(s.waiters);
      var s' := ResumeFirst(s);
      forall u: nat | u in s'.tasks && s'.tasks[u].Waiting? ensures OnList(s'.waiters, u) {
        var x :| x in s.waiters && x.tid == u;
        assert x in s'.waiters;
      }
    }
  }

  lemma ReceiveWaits(s: State, t: nat, prio: nat, size: nat, timeout: int)
    requires Waits(s) && (t in s.tasks ==> s.tasks[t].Woken?)
    ensures Waits(Receive(s, t, prio, size, timeout))
  {
    var s' := Receive(s, t, prio, size, timeout);
    if (s.queue != [] && s.msgs != []) || timeout == 0 {
      SameWaits(s, s');
    } else {
      var w := Waiter(t, prio);
      SuspendMembers(s.waiters, w, s.flag);
      SuspendDistinct(s.waiters, w, s.flag);
      if s.flag.Prio? { SuspendOrdered(s.waiters, w); }
      forall u: nat | u in s'.tasks && s'.tasks[u].Waiting? ensures OnList(s'.waiters, u) {
        if u == t { assert w in s'.waiters; }
        else { var x :| x in s.waiters && x.tid == u; assert x in s'.waiters; }
      }
    }
  }

  lemma LinkWakeups(s: State, t: nat)
    requires Inv(s) && Enabled(s, SendLink(t))
    ensures NoLostWakeup(Link(s, t))
  {
    if s.waiters != [] {
      var w := s.waiters[0].tid;
      assert s.waiters[0] in s.waiters;
      assert Rechecking(Link(s, t).tasks) == Rechecking(s.tasks) + {w};
    }
  }

  lemma RetryWakeups(s: State, t: nat, prio: nat, elapsed: nat)
    requires Inv(s) && Enabled(s, RecvRetry(t, prio, elapsed))
    ensures NoLostWakeup(Step(s, RecvRetry(t, prio, elapsed)))
  {
    var s' := Step(s, RecvRetry(t, prio, elapsed));
    assert Rechecking(s'.tasks) == Rechecking(s.tasks) - {t};
  }

  lemma StartWakeups(s: State, t: nat, prio: nat, size: nat, timeout: int)
    requires Inv(s) && t !in s.tasks
    ensures NoLostWakeup(Receive(s, t, prio, size, timeout))
  {
    var s' := Receive(s, t, prio, size, timeout);
    assert Rechecking(s'.tasks) == Rechecking(s.tasks);
  }

  lemma StepWakeups(s: State, a: Action)
    requires Inv(s) && Enabled(s, a)
    ensures NoLostWakeup(Step(s, a))
  {
    match a
    case SendLink(t) => LinkWakeups(s, t);
    case RecvRetry(t, prio, elapsed) => RetryWakeups(s, t, prio, elapsed);
    case RecvStart(t, prio, size, timeout) => StartWakeups(s, t, prio, size, timeout);
    case Timeout(t) =>
      RemoveMembers(s.waiters, t);
      OtherWakeups(s, a);
    case Reset =>
    case _ => OtherWakeups(s, a);
  }

  lemma OtherWakeups(s: State, a: Action)
    requires !a.SendLink? && !a.RecvRetry? && !a.RecvStart? && !a.Reset?
    requires NoLostWakeup(s) && Enabled(s, a) && (a.Timeout? ==> |Remove(s.waiters, a.t)| <= |s.waiters|)
    ensures NoLostWakeup(Step(s, a))
  {
    assert Rechecking(Step(s, a).tasks) == Rechecking(s.tasks);
  }

  lemma StepInv(s: State, a: Action)
    requires Inv(s) && Enabled(s, a)
    ensures Inv(Step(s, a))
  {
    StepPool(s, a);
    StepPayloads(s, a);
    StepWaits(s, a);
    StepWakeups(s, a);
  }

  // ----- whole runs ---------------------------------------------------------------------------

  predicate EnabledRun(s: State, run: seq<Action>)
    decreases |run|
  {
    run == [] || (Enabled(s, run[0]) && EnabledRun(Step(s, run[0]), run[1..]))
  }

  function Run(s: State, run: seq<Action>): State
    requires EnabledRun(s, run)
    decreases |run|
  {
    if run == [] then s else Run(Step(s, run[0]), run[1..])
  }

  /** Every interleaving keeps the invariant. */
  lemma {:induction false} RunInv(s: State, run: seq<Action>)
    requires Inv(s) && EnabledRun(s, run)
    ensures Inv(Run(s, run))
    decreases |run|
  {
    if run != [] {
      StepInv(s, run[0]);
      RunInv(Step(s, run[0]), run[1..]);
    }
  }
}
