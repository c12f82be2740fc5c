/** The message queue as its callers see it: messages that enter and leave a queue whole, calls in
    progress, and a line of waiting receivers. There are no nodes, no free list and no copies. */
module MessageService {
  import opened Ipc
  import opened MessageQueueSpec
  import opened Sequences
  import opened WaitList
  import opened Wrappers

  /** A call in progress: a message on its way in, a receiver that waits, one called by a message, one
      that is to return an error, and one that has its message. */
  datatype Call =
    | Brings(msg: Bytes, urgent: bool)
    | Awaits(size: nat, timeout: int)
    | Called(size: nat, timeout: int)
    | Failed(code: Code)
    | Gets(msg: Bytes, size: nat)

  /** `capacity` counts the messages in the queue, on their way in and on their way out. */
  datatype Service = Service(
    msgSize: nat, capacity: nat, flag: Flag, msgs: seq<Bytes>, line: seq<Waiter>, calls: map<nat, Call>)

  /** The calls that need room for a message. */
  function Busy(calls: map<nat, Call>): set<nat> {
    set t | t in calls && (calls[t].Brings? || calls[t].Gets?)
  }

  /** A buffer of as many bytes as were asked for, `msgSize` at most, begins with all of the message, or
      with as much of it as was asked for. */
  predicate Fulfils(msgSize: nat, buf: Bytes, msg: Bytes, size: nat) {
    var n := Min(size, |msg|);
    |buf| == Min(size, msgSize) && n <= |buf| && buf[..n] == msg[..n]
  }

  function When(allowed: bool, d: Service): Option<Service> {
    if allowed then Some(d) else None
  }

  /** A receiver takes the first message, or gives up, or joins the line. */
  function Take(d: Service, t: nat, prio: nat, size: nat, timeout: int, r: Reply): Option<Service> {
    if d.msgs != [] then
      When(r == Returns(InProgress), d.(msgs := d.msgs[1..], calls := d.calls[t := Gets(d.msgs[0], size)]))
    else if timeout == 0 then When(r == Returns(ETIMEOUT), d.(calls := d.calls - {t}))
    else
      When(r == Returns(InProgress),
           d.(line := Suspend(d.line, Waiter(t, prio), d.flag), calls := d.calls[t := Awaits(size, timeout)]))
  }

  /** The first in line is called, if anybody waits. */
  function CallFirst(d: Service, r: Reply): Option<Service> {
    if d.line == [] then When(r == Linked(None), d)
    else
      var t := d.line[0].tid;
      if t in d.calls && d.calls[t].Awaits? then
        When(r == Linked(Some(t)),
             d.(line := d.line[1..], calls := d.calls[t := Called(d.calls[t].size, d.calls[t].timeout)]))
      else None
  }

  /** What becomes of the service when a caller acts and the queue replies; None when it may not. A call's
      arguments come from the action that began it and from nowhere else. */
  function Replay(d: Service, a: Action, r: Reply): Option<Service> {
    match a
    case SendStart(t, msg, urgent) =>
      if |msg| > d.msgSize then When(r == Returns(ERROR), d)
      else if |d.msgs| + |Busy(d.calls)| == d.capacity then When(r == Returns(EFULL), d)
      else When(r == Returns(InProgress), d.(calls := d.calls[t := Brings(msg, urgent)]))
    case SendClear(_) => When(r == Silent, d)
    case SendCopy(_) => When(r == Silent, d)
    case SendLink(t) =>
      if t in d.calls && d.calls[t].Brings? then
        var x := d.calls[t];
        CallFirst(d.(msgs := if x.urgent then [x.msg] + d.msgs else d.msgs + [x.msg], calls := d.calls - {t}), r)
      else None
    case RecvStart(t, prio, size, timeout) => Take(d, t, prio, size, timeout, r)
    case RecvRetry(t, prio, elapsed) =>
      if t in d.calls && d.calls[t].Called? then
        Take(d, t, prio, d.calls[t].size, Remaining(d.calls[t].timeout, elapsed), r)
      else None
    case RecvAbort(t) =>
      if t in d.calls && d.calls[t].Failed? then When(r == Returns(d.calls[t].code), d.(calls := d.calls - {t}))
      else None
    case RecvCopy(_) => When(r == Silent, d)
    case RecvFinish(t) =>
      if t in d.calls && d.calls[t].Gets? then
        When(r.Delivers? && Fulfils(d.msgSize, r.buf, d.calls[t].msg, d.calls[t].size), d.(calls := d.calls - {t}))
      else None
    case Timeout(t) =>
      if t in d.calls && d.calls[t].Awaits? then
        When(r == Silent, d.(line := Remove(d.line, t), calls := d.calls[t := Failed(ETIMEOUT)]))
      else None
    case Reset =>
      When(r == Silent, d.(msgs := [], line := [],
        calls := map t | t in d.calls :: if d.calls[t].Awaits? then Failed(ERROR) else d.calls[t]))
  }

  function ReplayAll(d: Service, run: seq<Action>, rs: seq<Reply>): Option<Service>
    requires |rs| == |run|
    decreases |run|
  {
    if run == [] then Some(d)
    else
      var d' := Replay(d, run[0], rs[0]);
      if d'.None? then None else ReplayAll(d'.value, run[1..], rs[1..])
  }

  // ----- the queue is such a service ----------------------------------------------------------

  function View(x: Task, promised: map<nat, Promise>, t: nat): Call {
    match x
    case Sending(_, msg, urgent, _, _) => Brings(msg, urgent)
    case Waiting(size, timeout) => Awaits(size, timeout)
    case Woken(size, timeout, error) => if error == EOK then Called(size, timeout) else Failed(error)
    case Receiving(_, size, _) => if t in promised then Gets(promised[t].msg, promised[t].size) else Gets([], size)
  }

  function Views(tasks: map<nat, Task>, promised: map<nat, Promise>): map<nat, Call> {
    map t | t in tasks :: View(tasks[t], promised, t)
  }

  function Abstract(s: State): Service {
    Service(s.msgSize, |s.data|, s.flag, s.msgs, s.waiters, Views(s.tasks, s.promised))
  }

  function Answers(s: State, run: seq<Action>): (rs: seq<Reply>)
    requires EnabledRun(s, run)
    ensures |rs| == |run|
    decreases |run|
  {
    if run == [] then [] else [Answer(s, run[0])] + Answers(Step(s, run[0]), run[1..])
  }

  // ----- room in the pool ---------------------------------------------------------------------

  function Nodes(q: seq<nat>): set<nat> {
    set n | n in q
  }

  lemma {:induction false} NodesCount(q: seq<nat>)
    requires NoDup(q)
    ensures |Nodes(q)| == |q|
    decreases |q|
  {
    if q != [] {
      Behead(q);
      NodesCount(q[1..]);
      assert Nodes(q) == Nodes(q[1..]) + {q[0]};
    }
  }

  function Below(n: nat): (ns: set<nat>)
    ensures |ns| == n && forall i: nat :: i in ns <==> i < n
  {
    if n == 0 then {} else Below(n - 1) + {n - 1}
  }

  /** The nodes in the hands of some threads, each of which holds one of its own. */
  lemma {:induction false} HeldCount(ts: set<nat>, tasks: map<nat, Task>)
    requires forall t :: t in ts ==> t in tasks && (tasks[t].Sending? || tasks[t].Receiving?)
    requires forall t: nat, u: nat, n: nat :: HeldBy(tasks, t, n) && HeldBy(tasks, u, n) ==> t == u
    ensures |set t | t in ts :: tasks[t].node| == |ts|
    decreases |ts|
  {
    if ts != {} {
      var t :| t in ts;
      var us := ts - {t};
      HeldCount(us, tasks);
      var ns, ms := (set u | u in ts :: tasks[u].node), (set u | u in us :: tasks[u].node);
      forall u | u in us ensures tasks[u].node != tasks[t].node {
        assert HeldBy(tasks, u, tasks[u].node) && HeldBy(tasks, t, tasks[t].node);
      }
      assert ns == ms + {tasks[t].node};
    }
  }

  /** The free list is empty exactly when the messages queued and in hand are as many as the nodes. */
  lemma FullWhenNoneFree(s: State)
    requires Inv(s)
    ensures s.free == [] <==> |s.msgs| + |Busy(Abstract(s).calls)| == |s.data|
  {
    var busy := Busy(Abstract(s).calls);
    assert forall t :: t in busy <==> t in s.tasks && (s.tasks[t].Sending? || s.tasks[t].Receiving?);
    var held := set t | t in busy :: s.tasks[t].node;
    HeldCount(busy, s.tasks);
    NodesCount(s.free);
    NodesCount(s.queue);
    forall n: nat ensures n in held <==> Held(s.tasks, n) {
      if Held(s.tasks, n) { var t: nat :| HeldBy(s.tasks, t, n); assert t in busy && s.tasks[t].node == n; }
      if n in held { var t :| t in busy && s.tasks[t].node == n; assert HeldBy(s.tasks, t, n); }
    }
    AllNodes(s, held);
  }

  lemma AllNodes(s: State, held: set<nat>)
    requires Pool(s.queue, s.free, s.tasks, |s.data|) && forall n: nat :: n in held <==> Held(s.tasks, n)
    ensures |Nodes(s.free)| + |Nodes(s.queue)| + |held| == |Below(|s.data|)|
  {
    forall n: nat | n in held ensures n < |s.data| { var t: nat :| HeldBy(s.tasks, t, n); }
    assert Below(|s.data|) == Nodes(s.free) + Nodes(s.queue) + held;
    assert Nodes(s.free) !! Nodes(s.queue) && Nodes(s.free) + Nodes(s.queue) !! held;
  }

  // ----- refinement ---------------------------------------------------------------------------

  /** A step and its reply are what the service allows, and lead to what it says. */
  lemma StepRefines(s: State, a: Action)
    requires Inv(s) && Enabled(s, a)
    ensures Replay(Abstract(s), a, Answer(s, a)) == Some(Abstract(Step(s, a)))
  {
    hide Inv, Replay, Answer, Step;
    match a
    case SendStart(t, msg, urgent) => StartRefines(s, t, msg, urgent);
    case SendLink(t) => LinkRefines(s, t);
    case RecvStart(t, prio, size, timeout) => StartsTaking(s, t, prio, size, timeout);
    case RecvRetry(t, prio, elapsed) => RetryRefines(s, t, prio, elapsed);
    case RecvAbort(_) => LeaveRefines(s, a);
    case RecvFinish(_) => LeaveRefines(s, a);
    case Timeout(_) => LeaveRefines(s, a);
    case Reset => ResetRefines(s);
    case _ => CopyRefines(s, a);
  }

  lemma ViewsChange(tasks: map<nat, Task>, t: nat, x: Task, p: map<nat, Promise>, q: map<nat, Promise>)
    requires forall u :: u != t ==> (u in q <==> u in p) && (u in p ==> q[u] == p[u])
    ensures Views(tasks[t := x], q) == Views(tasks, p)[t := View(x, q, t)]
    ensures Views(tasks - {t}, q) == Views(tasks, p) - {t}
  {
  }

  lemma StartRefines(s: State, t: nat, msg: Bytes, urgent: bool)
    requires Inv(s) && Enabled(s, SendStart(t, msg, urgent))
    ensures var a := SendStart(t, msg, urgent); Replay(Abstract(s), a, Answer(s, a)) == Some(Abstract(Step(s, a)))
  {
    hide Inv, Views, Busy;
    FullWhenNoneFree(s);
    if |msg| <= s.msgSize && s.free != [] {
      ViewsChange(s.tasks, t, Sending(s.free[0], msg, urgent, urgent, 0), s.promised, s.promised);
    }
  }

  /** The receivers in line are waiting. */
  lemma FirstWaits(s: State)
    requires Inv(s) && s.waiters != []
    ensures s.waiters[0].tid in s.tasks && s.tasks[s.waiters[0].tid].Waiting?
  {
    assert s.waiters[0] in s.waiters;
  }

  lemma LinkRefines(s: State, t: nat)
    requires Inv(s) && Enabled(s, SendLink(t))
    ensures Replay(Abstract(s), SendLink(t), Answer(s, SendLink(t))) == Some(Abstract(Step(s, SendLink(t))))
  {
    hide Inv, Views;
    var x := s.tasks[t];
    ViewAt(s, t);
    ViewsChange(s.tasks, t, x, s.promised, s.promised);
    if s.waiters != [] {
      FirstWaits(s);
      var w := s.waiters[0].tid;
      var y := s.tasks[w];
      ViewAt(s, w);
      ViewsChange(s.tasks - {t}, w, Woken(y.size, y.timeout, EOK), s.promised, s.promised);
    }
  }

  lemma ViewAt(s: State, t: nat)
    requires t in s.tasks
    ensures t in Abstract(s).calls && Abstract(s).calls[t] == View(s.tasks[t], s.promised, t)
  {
  }

  lemma QueueEmpty(s: State)
    requires Inv(s)
    ensures |s.queue| == |s.msgs|
  {
  }

  lemma TakeRefines(s: State, t: nat, prio: nat, size: nat, timeout: int)
    requires Inv(s)
    ensures Take(Abstract(s), t, prio, size, timeout,
                 Returns(if s.queue == [] && timeout == 0 then ETIMEOUT else InProgress))
         == Some(Abstract(Receive(s, t, prio, size, timeout)))
  {
    hide Inv, Views;
    QueueEmpty(s);
    if s.queue != [] {
      var q := s.promised[t := Promise(s.msgs[0], size)];
      ViewsChange(s.tasks, t, Receiving(s.queue[0], size, []), s.promised, q);
    } else {
      ViewsChange(s.tasks, t, Waiting(size, timeout), s.promised, s.promised);
    }
  }

  lemma StartsTaking(s: State, t: nat, prio: nat, size: nat, timeout: int)
    requires Inv(s) && Enabled(s, RecvStart(t, prio, size, timeout))
    ensures var a := RecvStart(t, prio, size, timeout);
      Replay(Abstract(s), a, Answer(s, a)) == Some(Abstract(Step(s, a)))
  {
    hide Inv, Views, Receive, Take;
    TakeRefines(s, t, prio, size, timeout);
  }

  lemma RetryRefines(s: State, t: nat, prio: nat, elapsed: nat)
    requires Inv(s) && Enabled(s, RecvRetry(t, prio, elapsed))
    ensures var a := RecvRetry(t, prio, elapsed); Replay(Abstract(s), a, Answer(s, a)) == Some(Abstract(Step(s, a)))
  {
    hide Inv, Views, Receive, Take;
    ViewAt(s, t);
    TakeRefines(s, t, prio, s.tasks[t].size, Remaining(s.tasks[t].timeout, elapsed));
  }

  /** A thread that copies a byte shows nothing. */
  lemma CopyRefines(s: State, a: Action)
    requires Inv(s) && Enabled(s, a) && (a.SendClear? || a.SendCopy? || a.RecvCopy?)
    ensures Replay(Abstract(s), a, Answer(s, a)) == Some(Abstract(Step(s, a)))
  {
    hide Inv, Views;
    ViewAt(s, a.t);
    ViewsChange(s.tasks, a.t, Step(s, a).tasks[a.t], s.promised, s.promised);
    assert s.tasks[a.t := s.tasks[a.t]] == s.tasks;
    assert Abstract(s).calls[a.t := Abstract(s).calls[a.t]] == Abstract(s).calls;
  }

  lemma LeaveRefines(s: State, a: Action)
    requires Inv(s) && Enabled(s, a) && (a.RecvAbort? || a.RecvFinish? || a.Timeout?)
    ensures Replay(Abstract(s), a, Answer(s, a)) == Some(Abstract(Step(s, a)))
  {
    if a.RecvFinish? { DeliveredFulfils(s, a.t); }
    hide Inv, Views, Payloads;
    var x := s.tasks[a.t];
    ViewAt(s, a.t);
    if a.RecvAbort? { ViewsChange(s.tasks, a.t, x, s.promised, s.promised); return; }
    if a.Timeout? {
      ViewsChange(s.tasks, a.t, Woken(x.size, x.timeout, ETIMEOUT), s.promised, s.promised);
    } else {
      ViewsChange(s.tasks, a.t, x, s.promised, Step(s, a).promised);
    }
  }

  lemma ResetRefines(s: State)
    ensures Replay(Abstract(s), Reset, Answer(s, Reset)) == Some(Abstract(Step(s, Reset)))
  {
    var d := Abstract(s);
    assert Views(WakeAll(s.tasks), s.promised)
        == map t | t in d.calls :: if d.calls[t].Awaits? then Failed(ERROR) else d.calls[t];
  }

  /** A finished copy is what was promised: every byte of it came from a node that carried the message. */
  lemma DeliveredFulfils(s: State, t: nat)
    requires Payloads(s) && Enabled(s, RecvFinish(t))
    ensures t in s.promised && Fulfils(s.msgSize, s.tasks[t].buf, s.promised[t].msg, s.promised[t].size)
  {
    var x := s.tasks[t];
    var d := s.data[x.node];
    var m := s.promised[t].msg;
    assert TaskOk(s, x);
    var n := Min(x.size, |m|);
    assert x.buf[..n] == d[..n] by { assert x.buf == d[..|x.buf|]; assert d[..|x.buf|][..n] == d[..n]; }
    assert m[..n] == d[..n] by { assert m == d[..|m|]; assert d[..|m|][..n] == d[..n]; }
  }

  /** Every run of sends, urgent sends, receives, timeouts and resets, byte by byte and interleaved, is a
      run of the service with the same replies: a message counts from the call that brings it, enters the
      queue as that call says, at the end or urgently at the front, and the receiver that finds it first
      in the queue gets its first bytes, as many as the receiver's call asked for. */
  lemma {:induction false} RunRefines(s: State, run: seq<Action>)
    requires Inv(s) && EnabledRun(s, run)
    ensures ReplayAll(Abstract(s), run, Answers(s, run)) == Some(Abstract(Run(s, run)))
    decreases |run|
  {
    if run != [] {
      hide Abstract, Replay, Answer, Step, Inv;
      StepInv(s, run[0]);
      StepRefines(s, run[0]);
      RunRefines(Step(s, run[0]), run[1..]);
      assert Answers(s, run)[1..] == Answers(Step(s, run[0]), run[1..]);
    }
  }

  /** A new queue is a new service with room for as many messages as the pool has nodes. */
  lemma InitService(msgSize: nat, flag: Flag, free: seq<nat>, data: seq<Bytes>)
    ensures Abstract(Init(msgSize, flag, free, data)) == Service(msgSize, |data|, flag, [], [], map[])
  {
  }

  // ----- who is served ------------------------------------------------------------------------

  /** The receiver a message calls is the one to be served: the most urgent in priority order, of those
      the one that has waited longest, and in arrival order the one that has waited longest of all. */
  lemma LinkServes(s: State, t: nat)
    requires Inv(s) && Enabled(s, SendLink(t)) && s.waiters != []
    ensures exists w :: w in s.waiters && Answer(s, SendLink(t)) == Linked(Some(w.tid))
                     && Served(s.waiters, w, s.flag, Step(s, SendLink(t)).waiters)
  {
    HeadServed(s.waiters, s.flag);
    assert s.waiters[0] in s.waiters;
  }

  /** A receiver that has to wait joins the line behind those it is not more urgent than. */
  lemma WaitJoins(s: State, t: nat, prio: nat, size: nat, timeout: int)
    requires Inv(s) && s.queue == [] && timeout != 0
    ensures Joined(s.waiters, Waiter(t, prio), s.flag, Receive(s, t, prio, size, timeout).waiters)
  {
    SuspendJoins(s.waiters, Waiter(t, prio), s.flag);
  }
}
