/** The mailbox of ipc.c as a state machine: every region that runs with interrupts disabled is one
    step, and the steps of senders, receivers, timeouts and resets interleave freely. */
module MailboxSpec {
  import opened Ipc
  import opened Sequences
  import opened WaitList

  type Mail = bv32

  /** Where a thread stands inside a call; a thread without an entry is outside. */
  datatype Task =
    | SendWaiting(mail: Mail, timeout: int)
    | SendWoken(mail: Mail, timeout: int, error: Code)
    | RecvWaiting(timeout: int)
    | RecvWoken(timeout: int, error: Code)

  /** `box` is the mail from the oldest to the newest. */
  datatype State = State(
    size: nat, flag: Flag, box: seq<Mail>, receivers: seq<Waiter>, senders: seq<Waiter>, tasks: map<nat, Task>)

  datatype Action =
    | SendStart(t: nat, prio: nat, mail: Mail, timeout: int)
    | SendRetry(t: nat, prio: nat, elapsed: nat)
    | RecvStart(t: nat, prio: nat, timeout: int)
    | RecvRetry(t: nat, prio: nat, elapsed: nat)
    | Abort(t: nat)
    | Timeout(t: nat)
    | Reset

  function Init(size: nat, flag: Flag): State {
    State(size, flag, [], [], [], map[])
  }

  predicate Enabled(s: State, a: Action) {
    match a
    case SendStart(t, _, _, _) => t !in s.tasks
    case RecvStart(t, _, _) => t !in s.tasks
    case SendRetry(t, _, _) => t in s.tasks && s.tasks[t].SendWoken? && s.tasks[t].error == EOK
    case RecvRetry(t, _, _) => t in s.tasks && s.tasks[t].RecvWoken? && s.tasks[t].error == EOK
    case Abort(t) =>
      t in s.tasks && (s.tasks[t].SendWoken? || s.tasks[t].RecvWoken?) && s.tasks[t].error != EOK
    case Timeout(t) =>
      t in s.tasks && (s.tasks[t].SendWaiting? || s.tasks[t].RecvWaiting?) && s.tasks[t].timeout > 0
    case Reset => true
  }

  /** A suspended thread becomes ready. */
  function Wake(tasks: map<nat, Task>, t: nat, error: Code): map<nat, Task> {
    if t !in tasks then tasks
    else match tasks[t]
      case SendWaiting(mail, timeout) => tasks[t := SendWoken(mail, timeout, error)]
      case RecvWaiting(timeout) => tasks[t := RecvWoken(timeout, error)]
      case _ => tasks
  }

  function WakeAll(tasks: map<nat, Task>): map<nat, Task> {
    map t | t in tasks ::
      match tasks[t]
      case SendWaiting(mail, timeout) => SendWoken(mail, timeout, ERROR)
      case RecvWaiting(timeout) => RecvWoken(timeout, ERROR)
      case x => x
  }

  function ResumeReceiver(s: State): State {
    if s.receivers == [] then s
    else s.(receivers := s.receivers[1..], tasks := Wake(s.tasks, s.receivers[0].tid, EOK))
  }

  function ResumeSender(s: State): State {
    if s.senders == [] then s
    else s.(senders := s.senders[1..], tasks := Wake(s.tasks, s.senders[0].tid, EOK))
  }

  /** The send loop once: store the mail and resume a receiver, or give up, or suspend. */
  function Send(s: State, t: nat, prio: nat, mail: Mail, timeout: int): State {
    if |s.box| != s.size then ResumeReceiver(s.(box := s.box + [mail], tasks := s.tasks - {t}))
    else if timeout == 0 then s.(tasks := s.tasks - {t})
    else s.(senders := Suspend(s.senders, Waiter(t, prio), s.flag), tasks := s.tasks[t := SendWaiting(mail, timeout)])
  }

  /** The receive loop once: take the oldest mail and resume a sender, or give up, or suspend. */
  function Receive(s: State, t: nat, prio: nat, timeout: int): State {
    if s.box != [] then ResumeSender(s.(box := s.box[1..], tasks := s.tasks - {t}))
    else if timeout == 0 then s.(tasks := s.tasks - {t})
    else s.(receivers := Suspend(s.receivers, Waiter(t, prio), s.flag), tasks := s.tasks[t := RecvWaiting(timeout)])
  }

  function Step(s: State, a: Action): State
    requires Enabled(s, a)
  {
    match a
    case SendStart(t, prio, mail, timeout) => Send(s, t, prio, mail, timeout)
    case SendRetry(t, prio, elapsed) => Send(s, t, prio, s.tasks[t].mail, Remaining(s.tasks[t].timeout, elapsed))
    case RecvStart(t, prio, timeout) => Receive(s, t, prio, timeout)
    case RecvRetry(t, prio, elapsed) => Receive(s, t, prio, Remaining(s.tasks[t].timeout, elapsed))
    case Abort(t) => s.(tasks := s.tasks - {t})
    case Timeout(t) =>
      s.(senders := Remove(s.senders, t), receivers := Remove(s.receivers, t), tasks := Wake(s.tasks, t, ETIMEOUT))
    case Reset => s.(senders := [], receivers := [], tasks := WakeAll(s.tasks), box := [])
  }

  /** The code a step returns to its caller; EOK where there is none. */
  function Answer(s: State, a: Action): Code
    requires Enabled(s, a)
  {
    match a
    case SendStart(_, _, _, timeout) => if |s.box| != s.size then EOK else if timeout == 0 then EFULL else InProgress
    case SendRetry(t, _, elapsed) =>
      if |s.box| != s.size then EOK else if Remaining(s.tasks[t].timeout, elapsed) == 0 then EFULL else InProgress
    case RecvStart(_, _, timeout) => if s.box != [] then EOK else if timeout == 0 then ETIMEOUT else InProgress
    case RecvRetry(t, _, elapsed) =>
      if s.box != [] then EOK else if Remaining(s.tasks[t].timeout, elapsed) == 0 then ETIMEOUT else InProgress
    case Abort(t) => s.tasks[t].error
    case _ => EOK
  }

  // ----- invariant ----------------------------------------------------------------------------

  function WaitingToSend(tasks: map<nat, Task>): set<nat> {
    set t | t in tasks && tasks[t].SendWaiting?
  }

  function WaitingToReceive(tasks: map<nat, Task>): set<nat> {
    set t | t in tasks && tasks[t].RecvWaiting?
  }

  /** Threads resumed by the other side that have not looked at the mailbox again yet. */
  function SendersBack(tasks: map<nat, Task>): set<nat> {
    set t | t in tasks && tasks[t].SendWoken? && tasks[t].error == EOK
  }

  function ReceiversBack(tasks: map<nat, Task>): set<nat> {
    set t | t in tasks && tasks[t].RecvWoken? && tasks[t].error == EOK
  }

  function Tids(ws: seq<Waiter>): set<nat> {
    set w | w in ws :: w.tid
  }

  /** A list holds exactly the threads of a set, each once, by priority if so flagged. */
  ghost predicate Lists(ws: seq<Waiter>, ts: set<nat>, flag: Flag) {
    Distinct(ws) && (flag.Prio? ==> Ordered(ws)) && Tids(ws) == ts
  }

  /** While receivers wait, there is no more mail than receivers on their way to it. */
  ghost predicate NoLostReceiver(s: State) {
    s.receivers != [] ==> |s.box| <= |ReceiversBack(s.tasks)|
  }

  /** While senders wait, there are no more free slots than senders on their way to one. */
  ghost predicate NoLostSender(s: State) {
    s.senders != [] ==> s.size - |s.box| <= |SendersBack(s.tasks)|
  }

  ghost predicate Inv(s: State) {
    && |s.box| <= s.size
    && Lists(s.receivers, WaitingToReceive(s.tasks), s.flag)
    && Lists(s.senders, WaitingToSend(s.tasks), s.flag)
    && NoLostReceiver(s) && NoLostSender(s)
  }

  lemma InitInv(size: nat, flag: Flag)
    ensures Inv(Init(size, flag))
  {
  }

  lemma SuspendLists(ws: seq<Waiter>, ts: set<nat>, flag: Flag, w: Waiter)
    requires Lists(ws, ts, flag) && w.tid !in ts
    ensures Lists(Suspend(ws, w, flag), ts + {w.tid}, flag)
  {
    forall x | x in ws ensures x.tid != w.tid { assert x.tid in Tids(ws); }
    SuspendMembers(ws, w, flag);
    SuspendDistinct(ws, w, flag);
    if flag.Prio? { SuspendOrdered(ws, w); }
    var us := Suspend(ws, w, flag);
    forall t ensures t in Tids(us) <==> t in ts + {w.tid} {
      if t in Tids(us) { var x :| x in us && x.tid == t; assert x == w || x.tid in Tids(ws); }
      if t in Tids(ws) { var x :| x in ws && x.tid == t; assert x in us; }
      assert w in us;
    }
  }

  lemma TailLists(ws: seq<Waiter>, ts: set<nat>, flag: Flag)
    requires Lists(ws, ts, flag) && ws != []
    ensures ws[0].tid in ts && Lists(ws[1..], ts - {ws[0].tid}, flag)
  {
    TailKeeps(ws);
    assert ws[0] in ws;
    forall t ensures t in Tids(ws[1..]) <==> t in ts - {ws[0].tid} {
      if t in Tids(ws) { var x :| x in ws && x.tid == t; }
    }
  }

  lemma RemoveLists(ws: seq<Waiter>, ts: set<nat>, flag: Flag, tid: nat)
    requires Lists(ws, ts, flag)
    ensures Lists(Remove(ws, tid), ts - {tid}, flag)
    ensures Remove(ws, tid) != [] ==> ws != []
  {
    RemoveMembers(ws, tid);
    var us := Remove(ws, tid);
    forall t ensures t in Tids(us) <==> t in ts - {tid} {
      if t in Tids(us) { var x :| x in us && x.tid == t; assert x in ws; }
      if t in Tids(ws) && t != tid { var x :| x in ws && x.tid == t; assert x in us; }
    }
  }

  /** What waking the head of the receivers' list changes. */
  lemma WakeReceiver(tasks: map<nat, Task>, t: nat)
    requires t in tasks && tasks[t].RecvWaiting?
    ensures var w := Wake(tasks, t, EOK);
      && WaitingToReceive(w) == WaitingToReceive(tasks) - {t} && WaitingToSend(w) == WaitingToSend(tasks)
      && ReceiversBack(w) == ReceiversBack(tasks) + {t} && SendersBack(w) == SendersBack(tasks)
  {
  }

  lemma WakeSender(tasks: map<nat, Task>, t: nat)
    requires t in tasks && tasks[t].SendWaiting?
    ensures var w := Wake(tasks, t, EOK);
      && WaitingToSend(w) == WaitingToSend(tasks) - {t} && WaitingToReceive(w) == WaitingToReceive(tasks)
      && SendersBack(w) == SendersBack(tasks) + {t} && ReceiversBack(w) == ReceiversBack(tasks)
  {
  }

  /** A thread that leaves its call, or enters a list, is no longer on its way back. */
  lemma LeaveSets(tasks: map<nat, Task>, t: nat)
    requires t in tasks ==> tasks[t].SendWoken? || tasks[t].RecvWoken?
    ensures var w := tasks - {t};
      && WaitingToSend(w) == WaitingToSend(tasks) && WaitingToReceive(w) == WaitingToReceive(tasks)
      && SendersBack(w) == SendersBack(tasks) - {t} && ReceiversBack(w) == ReceiversBack(tasks) - {t}
    ensures t !in WaitingToSend(tasks) && t !in WaitingToReceive(tasks)
  {
  }

  /** The send loop keeps the invariant when it stores the mail, and when it suspends. */
  lemma SendInv(s: State, t: nat, prio: nat, mail: Mail, timeout: int)
    requires Inv(s) && (t in s.tasks ==> s.tasks[t].SendWoken?)
    ensures Inv(Send(s, t, prio, mail, timeout))
  {
    hide Inv;
    if |s.box| != s.size {
      SendStores(s, t, prio, mail, timeout);
    } else if timeout != 0 {
      SendSuspends(s, t, prio, mail, timeout);
    } else {
      SendGivesUp(s, t, prio, mail);
    }
  }

  lemma SendStores(s: State, t: nat, prio: nat, mail: Mail, timeout: int)
    requires Inv(s) && (t in s.tasks ==> s.tasks[t].SendWoken?) && |s.box| != s.size
    ensures Inv(Send(s, t, prio, mail, timeout))
  {
    hide Lists, WaitingToSend, WaitingToReceive, ReceiversBack, SendersBack, Wake;
    assert t !in ReceiversBack(s.tasks) by { NotBack(s.tasks, t); }
    LeaveSets(s.tasks, t);
    if s.receivers != [] {
      var w := s.receivers[0].tid;
      TailLists(s.receivers, WaitingToReceive(s.tasks), s.flag);
      StillWaiting(s.tasks, t, w);
      WakeReceiver(s.tasks - {t}, w);
    }
  }

  lemma NotBack(tasks: map<nat, Task>, t: nat)
    ensures (t in tasks ==> tasks[t].SendWoken?) ==> t !in ReceiversBack(tasks)
    ensures (t in tasks ==> tasks[t].RecvWoken?) ==> t !in SendersBack(tasks)
  {
  }

  /** A thread on a list stays there when another one leaves its call. */
  lemma StillWaiting(tasks: map<nat, Task>, t: nat, w: nat)
    requires t in tasks ==> tasks[t].SendWoken? || tasks[t].RecvWoken?
    ensures w in WaitingToReceive(tasks) ==> w in tasks && w != t && tasks[w].RecvWaiting? && w !in ReceiversBack(tasks)
    ensures w in WaitingToSend(tasks) ==> w in tasks && w != t && tasks[w].SendWaiting? && w !in SendersBack(tasks)
  {
  }

  lemma SendSuspends(s: State, t: nat, prio: nat, mail: Mail, timeout: int)
    requires Inv(s) && (t in s.tasks ==> s.tasks[t].SendWoken?) && |s.box| == s.size && timeout != 0
    ensures Inv(Send(s, t, prio, mail, timeout))
  {
    hide Lists;
    var s' := Send(s, t, prio, mail, timeout);
    LeaveSets(s.tasks, t);
    SuspendLists(s.senders, WaitingToSend(s.tasks), s.flag, Waiter(t, prio));
    NotBack(s.tasks, t);
    EntersSenders(s.tasks, t, mail, timeout);
    hide WaitingToSend, WaitingToReceive, ReceiversBack, SendersBack;
  }

  lemma EntersSenders(tasks: map<nat, Task>, t: nat, mail: Mail, timeout: int)
    requires t in tasks ==> tasks[t].SendWoken?
    ensures var w := tasks[t := SendWaiting(mail, timeout)];
      && WaitingToSend(w) == WaitingToSend(tasks) + {t} && WaitingToReceive(w) == WaitingToReceive(tasks)
      && ReceiversBack(w) == ReceiversBack(tasks)
  {
  }

  lemma SendGivesUp(s: State, t: nat, prio: nat, mail: Mail)
    requires Inv(s) && (t in s.tasks ==> s.tasks[t].SendWoken?) && |s.box| == s.size
    ensures Inv(Send(s, t, prio, mail, 0))
  {
    hide Lists;
    LeaveSets(s.tasks, t);
    NotBack(s.tasks, t);
    hide WaitingToSend, WaitingToReceive, ReceiversBack, SendersBack;
  }

  /** The receive loop keeps the invariant when it takes a mail, and when it suspends. */
  lemma ReceiveInv(s: State, t: nat, prio: nat, timeout: int)
    requires Inv(s) && (t in s.tasks ==> s.tasks[t].RecvWoken?)
    ensures Inv(Receive(s, t, prio, timeout))
  {
    hide Inv;
    if s.box != [] {
      ReceiveTakes(s, t, prio, timeout);
    } else if timeout != 0 {
      ReceiveSuspends(s, t, prio, timeout);
    } else {
      ReceiveGivesUp(s, t, prio);
    }
  }

  lemma ReceiveTakes(s: State, t: nat, prio: nat, timeout: int)
    requires Inv(s) && (t in s.tasks ==> s.tasks[t].RecvWoken?) && s.box != []
    ensures Inv(Receive(s, t, prio, timeout))
  {
    hide Lists, WaitingToSend, WaitingToReceive, ReceiversBack, SendersBack, Wake;
    assert t !in SendersBack(s.tasks) by { NotBack(s.tasks, t); }
    LeaveSets(s.tasks, t);
    if s.senders != [] {
      var w := s.senders[0].tid;
      TailLists(s.senders, WaitingToSend(s.tasks), s.flag);
      StillWaiting(s.tasks, t, w);
      WakeSender(s.tasks - {t}, w);
    }
  }

  lemma ReceiveSuspends(s: State, t: nat, prio: nat, timeout: int)
    requires Inv(s) && (t in s.tasks ==> s.tasks[t].RecvWoken?) && s.box == [] && timeout != 0
    ensures Inv(Receive(s, t, prio, timeout))
  {
    hide Lists;
    var s' := Receive(s, t, prio, timeout);
    LeaveSets(s.tasks, t);
    SuspendLists(s.receivers, WaitingToReceive(s.tasks), s.flag, Waiter(t, prio));
    assert WaitingToReceive(s'.tasks) == WaitingToReceive(s.tasks) + {t};
    assert WaitingToSend(s'.tasks) == WaitingToSend(s.tasks);
    assert SendersBack(s'.tasks) == SendersBack(s.tasks - {t});
    hide WaitingToSend, WaitingToReceive;
    NotBack(s.tasks, t);
  }

  lemma ReceiveGivesUp(s: State, t: nat, prio: nat)
    requires Inv(s) && (t in s.tasks ==> s.tasks[t].RecvWoken?) && s.box == []
    ensures Inv(Receive(s, t, prio, 0))
  {
    hide Lists;
    LeaveSets(s.tasks, t);
    NotBack(s.tasks, t);
    hide WaitingToSend, WaitingToReceive, ReceiversBack, SendersBack;
  }

  lemma TimeoutInv(s: State, t: nat)
    requires Inv(s) && Enabled(s, Timeout(t))
    ensures Inv(Step(s, Timeout(t)))
  {
    hide Lists;
    var s' := Step(s, Timeout(t));
    RemoveLists(s.senders, WaitingToSend(s.tasks), s.flag, t);
    RemoveLists(s.receivers, WaitingToReceive(s.tasks), s.flag, t);
    assert WaitingToSend(s'.tasks) == WaitingToSend(s.tasks) - {t};
    assert WaitingToReceive(s'.tasks) == WaitingToReceive(s.tasks) - {t};
    assert SendersBack(s'.tasks) == SendersBack(s.tasks) && ReceiversBack(s'.tasks) == ReceiversBack(s.tasks);
  }

  lemma ResetInv(s: State)
    requires Inv(s)
    ensures Inv(Step(s, Reset))
  {
    var s' := Step(s, Reset);
    assert WaitingToSend(s'.tasks) == {} && WaitingToReceive(s'.tasks) == {};
  }

  lemma AbortInv(s: State, t: nat)
    requires Inv(s) && Enabled(s, Abort(t))
    ensures Inv(Step(s, Abort(t)))
  {
    hide Lists;
    LeaveSets(s.tasks, t);
  }

  /** Every step keeps the mailbox bounded, its lists right and every wakeup in sight. */
  lemma StepInv(s: State, a: Action)
    requires Inv(s) && Enabled(s, a)
    ensures Inv(Step(s, a))
  {
    hide Inv, Send, Receive;
    match a
    case SendStart(t, prio, mail, timeout) => SendInv(s, t, prio, mail, timeout);
    case SendRetry(t, prio, elapsed) =>
      SendInv(s, t, prio, s.tasks[t].mail, Remaining(s.tasks[t].timeout, elapsed));
    case RecvStart(t, prio, timeout) => ReceiveInv(s, t, prio, timeout);
    case RecvRetry(t, prio, elapsed) => ReceiveInv(s, t, prio, Remaining(s.tasks[t].timeout, elapsed));
    case Abort(t) => AbortInv(s, t);
    case Timeout(t) => TimeoutInv(s, t);
    case Reset => ResetInv(s);
  }

  // ----- whole runs ---------------------------------------------------------------------------

  predicate EnabledRun(s: State, run: seq<Action>)
    decreases |run|
  {
    run == [] || (Enabled(s, run[0]) && EnabledRun(Step(s, run[0]), run[1..]))
  }

  function Run(s: State, run: seq<Action>): State
    requires EnabledRun(s, run)
    decreases |run|
  {
    if run == [] then s else Run(Step(s, run[0]), run[1..])
  }

  /** In every reachable state no wakeup is lost: mail that waits for suspended receivers has a resumed
      receiver on its way to each piece, and the same for free slots and senders. */
  lemma {:induction false} RunInv(s: State, run: seq<Action>)
    requires Inv(s) && EnabledRun(s, run)
    ensures Inv(Run(s, run))
    decreases |run|
  {
    if run != [] {
      StepInv(s, run[0]);
      RunInv(Step(s, run[0]), run[1..]);
    }
  }

  // ----- what callers see ---------------------------------------------------------------------

  datatype Offer = Offer(mail: Mail, timeout: int)

  /** What the calls in progress were given: the mail to send, and the waiting time left. */
  datatype Passed = Passed(offers: map<nat, Offer>, wants: map<nat, int>)

  /** The same after a step, from the arguments of the step alone. */
  function Note(v: Passed, a: Action): Passed {
    match a
    case SendStart(t, _, mail, timeout) => v.(offers := v.offers[t := Offer(mail, timeout)])
    case SendRetry(t, _, elapsed) =>
      if t in v.offers then v.(offers := v.offers[t := Offer(v.offers[t].mail, Remaining(v.offers[t].timeout, elapsed))])
      else v
    case RecvStart(t, _, timeout) => v.(wants := v.wants[t := timeout])
    case RecvRetry(t, _, elapsed) =>
      if t in v.wants then v.(wants := v.wants[t := Remaining(v.wants[t], elapsed)]) else v
    case _ => v
  }

  /** A suspended call remembers what it was given. */
  predicate Remembers(x: Task, t: nat, v: Passed) {
    match x
    case SendWaiting(mail, timeout) => t in v.offers && v.offers[t] == Offer(mail, timeout)
    case SendWoken(mail, timeout, _) => t in v.offers && v.offers[t] == Offer(mail, timeout)
    case RecvWaiting(timeout) => t in v.wants && v.wants[t] == timeout
    case RecvWoken(timeout, _) => t in v.wants && v.wants[t] == timeout
  }

  ghost predicate Agrees(s: State, v: Passed) {
    forall t :: t in s.tasks ==> Remembers(s.tasks[t], t, v)
  }

  lemma StepAgrees(s: State, a: Action, v: Passed)
    requires Enabled(s, a) && Agrees(s, v)
    ensures Agrees(Step(s, a), Note(v, a))
  {
    match a
    case SendStart(t, prio, mail, timeout) => SendAgrees(s, t, prio, mail, timeout, Note(v, a));
    case SendRetry(t, prio, elapsed) =>
      assert Remembers(s.tasks[t], t, v);
      SendAgrees(s, t, prio, s.tasks[t].mail, Remaining(s.tasks[t].timeout, elapsed), Note(v, a));
    case RecvStart(t, prio, timeout) => ReceiveAgrees(s, t, prio, timeout, Note(v, a));
    case RecvRetry(t, prio, elapsed) =>
      assert Remembers(s.tasks[t], t, v);
      ReceiveAgrees(s, t, prio, Remaining(s.tasks[t].timeout, elapsed), Note(v, a));
    case _ =>
  }

  lemma SendAgrees(s: State, t: nat, prio: nat, mail: Mail, timeout: int, v: Passed)
    requires t in v.offers && v.offers[t] == Offer(mail, timeout)
    requires forall u :: u in s.tasks && u != t ==> Remembers(s.tasks[u], u, v)
    ensures Agrees(Send(s, t, prio, mail, timeout), v)
  {
  }

  lemma ReceiveAgrees(s: State, t: nat, prio: nat, timeout: int, v: Passed)
    requires t in v.wants && v.wants[t] == timeout
    requires forall u :: u in s.tasks && u != t ==> Remembers(s.tasks[u], u, v)
    ensures Agrees(Receive(s, t, prio, timeout), v)
  {
  }

  /** From `ws` the thread to be served is made ready, if anybody waits, and the calls of all others are as
      they were; `t` is the thread that runs. */
  ghost predicate WakesNext(ws: seq<Waiter>, ws': seq<Waiter>, flag: Flag, tasks: map<nat, Task>, tasks': map<nat, Task>, t: nat) {
    if ws == [] then ws' == [] && tasks' == tasks - {t}
    else exists w: Waiter ::
      && Served(ws, w, flag, ws') && w.tid in tasks && w.tid != t
      && tasks' == Wake(tasks - {t}, w.tid, EOK) && w.tid in tasks' && (tasks'[w.tid].SendWoken? || tasks'[w.tid].RecvWoken?)
  }

  lemma NextWakes(ws: seq<Waiter>, ts: set<nat>, flag: Flag, tasks: map<nat, Task>, t: nat)
    requires Lists(ws, ts, flag) && t !in ts
    requires forall u :: u in ts ==> u in tasks && (tasks[u].SendWaiting? || tasks[u].RecvWaiting?)
    ensures if ws == [] then WakesNext(ws, ws, flag, tasks, tasks - {t}, t)
            else WakesNext(ws, ws[1..], flag, tasks, Wake(tasks - {t}, ws[0].tid, EOK), t)
  {
    if ws != [] {
      HeadServed(ws, flag);
      assert ws[0] in ws && ws[0].tid in Tids(ws);
    }
  }

  /** A send stores the mail its caller passed if and only if there is room, and calls the receiver to be
      served. Without room it gives up exactly when no time is left, and otherwise joins the senders. */
  lemma SendOutcome(s: State, a: Action, v: Passed)
    requires Inv(s) && Enabled(s, a) && Agrees(s, v) && (a.SendStart? || a.SendRetry?)
    ensures a.t in Note(v, a).offers
    ensures var s', o := Step(s, a), Note(v, a).offers[a.t];
      if |s.box| < s.size then
        && Answer(s, a) == EOK && s' == s.(box := s.box + [o.mail], receivers := s'.receivers, tasks := s'.tasks)
        && WakesNext(s.receivers, s'.receivers, s.flag, s.tasks, s'.tasks, a.t)
      else if o.timeout == 0 then Answer(s, a) == EFULL && s' == s.(tasks := s.tasks - {a.t})
      else
        && Answer(s, a) == InProgress && Joined(s.senders, Waiter(a.t, a.prio), s.flag, s'.senders)
        && s' == s.(senders := s'.senders, tasks := s.tasks[a.t := SendWaiting(o.mail, o.timeout)])
  {
    SuspendJoins(s.senders, Waiter(a.t, a.prio), s.flag);
    NextWakes(s.receivers, WaitingToReceive(s.tasks), s.flag, s.tasks, a.t);
  }

  /** A receive takes the oldest mail if and only if there is any, and calls the sender to be served. Without
      mail it gives up exactly when no time is left, and otherwise joins the receivers. */
  lemma RecvOutcome(s: State, a: Action, v: Passed)
    requires Inv(s) && Enabled(s, a) && Agrees(s, v) && (a.RecvStart? || a.RecvRetry?)
    ensures a.t in Note(v, a).wants
    ensures var s', timeout := Step(s, a), Note(v, a).wants[a.t];
      if |s.box| > 0 then
        && Answer(s, a) == EOK && s' == s.(box := s.box[1..], senders := s'.senders, tasks := s'.tasks)
        && WakesNext(s.senders, s'.senders, s.flag, s.tasks, s'.tasks, a.t)
      else if timeout == 0 then Answer(s, a) == ETIMEOUT && s' == s.(tasks := s.tasks - {a.t})
      else
        && Answer(s, a) == InProgress && Joined(s.receivers, Waiter(a.t, a.prio), s.flag, s'.receivers)
        && s' == s.(receivers := s'.receivers, tasks := s.tasks[a.t := RecvWaiting(timeout)])
  {
    SuspendJoins(s.receivers, Waiter(a.t, a.prio), s.flag);
    NextWakes(s.senders, WaitingToSend(s.tasks), s.flag, s.tasks, a.t);
  }

  /** A suspended thread that times out leaves its list and nothing else changes; its call is cut short
      and returns the timeout. */
  lemma TimeoutOutcome(s: State, t: nat)
    requires Inv(s) && Enabled(s, Timeout(t))
    ensures var s' := Step(s, Timeout(t));
      && s' == s.(senders := s'.senders, receivers := s'.receivers, tasks := s'.tasks)
      && (forall w :: w in s'.senders <==> w in s.senders && w.tid != t)
      && (forall w :: w in s'.receivers <==> w in s.receivers && w.tid != t)
      && s'.tasks - {t} == s.tasks - {t}
      && Enabled(s', Abort(t)) && Answer(s', Abort(t)) == ETIMEOUT && Step(s', Abort(t)).tasks == s.tasks - {t}
  {
    hide Inv, Wake, Remove;
    ListsDistinct(s);
    RemoveMembers(s.senders, t);
    RemoveMembers(s.receivers, t);
    WakeChanges(s.tasks, t, ETIMEOUT);
    assert Step(s, Timeout(t)).tasks == Wake(s.tasks, t, ETIMEOUT);
  }

  /** Waking changes the call of one thread. */
  lemma WakeChanges(tasks: map<nat, Task>, t: nat, error: Code)
    requires t in tasks && (tasks[t].SendWaiting? || tasks[t].RecvWaiting?)
    ensures var w := Wake(tasks, t, error);
      w - {t} == tasks - {t} && t in w && (w[t].SendWoken? || w[t].RecvWoken?) && w[t].error == error
  {
  }

  lemma ListsDistinct(s: State)
    requires Inv(s)
    ensures Distinct(s.senders) && Distinct(s.receivers)
  {
  }

  /** A reset empties the mailbox and both lists; the calls of exactly the suspended threads are cut short
      and return the error. */
  lemma ResetOutcome(s: State, t: nat)
    requires t in s.tasks
    ensures var s' := Step(s, Reset); var x := s.tasks[t];
      && s'.box == [] && s'.senders == [] && s'.receivers == [] && t in s'.tasks
      && if x.SendWaiting? || x.RecvWaiting? then Enabled(s', Abort(t)) && Answer(s', Abort(t)) == ERROR
         else s'.tasks[t] == x
  {
  }

  /** The mail a step stores: what the caller of a send passed, when the send returns EOK. */
  function Stored(s: State, v: Passed, a: Action): seq<Mail>
    requires Enabled(s, a)
  {
    if (a.SendStart? || a.SendRetry?) && Answer(s, a) == EOK && a.t in v.offers then [v.offers[a.t].mail] else []
  }

  /** The mail a step hands to a receiver. */
  function Fetched(s: State, a: Action): seq<Mail>
    requires Enabled(s, a)
  {
    if (a.RecvStart? || a.RecvRetry?) && Answer(s, a) == EOK && s.box != [] then [s.box[0]] else []
  }

  function AllStored(s: State, v: Passed, run: seq<Action>): seq<Mail>
    requires EnabledRun(s, run)
    decreases |run|
  {
    if run == [] then []
    else Stored(s, Note(v, run[0]), run[0]) + AllStored(Step(s, run[0]), Note(v, run[0]), run[1..])
  }

  function AllFetched(s: State, run: seq<Action>): seq<Mail>
    requires EnabledRun(s, run)
    decreases |run|
  {
    if run == [] then [] else Fetched(s, run[0]) + AllFetched(Step(s, run[0]), run[1..])
  }

  lemma StepConserves(s: State, v: Passed, a: Action)
    requires Enabled(s, a) && !a.Reset? && Agrees(s, v)
    ensures s.box + Stored(s, Note(v, a), a) == Fetched(s, a) + Step(s, a).box
  {
  }

  /** First in, first out, nothing lost and nothing doubled: over a run without reset the mail that was
      in the box followed by the mail that callers passed to the sends that returned EOK, at once or after
      waiting, is the mail fetched followed by the mail left. */
  lemma {:induction false} RunConserves(s: State, v: Passed, run: seq<Action>)
    requires EnabledRun(s, run) && Agrees(s, v) && forall a :: a in run ==> !a.Reset?
    ensures s.box + AllStored(s, v, run) == AllFetched(s, run) + Run(s, run).box
    decreases |run|
  {
    if run != [] {
      var s', v' := Step(s, run[0]), Note(v, run[0]);
      StepConserves(s, v, run[0]);
      StepAgrees(s, run[0], v);
      RunConserves(s', v', run[1..]);
      hide Stored, Fetched, Step, Agrees, Note;
      var st, fe := Stored(s, v', run[0]), Fetched(s, run[0]);
      Assoc(s.box, st, AllStored(s', v', run[1..]));
      Assoc(fe, s'.box, AllStored(s', v', run[1..]));
      Assoc(fe, AllFetched(s', run[1..]), Run(s', run[1..]).box);
    }
  }

  /** In a new mailbox no call is in progress. */
  lemma InitAgrees(size: nat, flag: Flag)
    ensures Agrees(Init(size, flag), Passed(map[], map[]))
  {
  }
}
