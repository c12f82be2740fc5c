/** The mailbox as ipc.c runs it: a ring of `size` slots with two offsets and an entry count. Each
    method is one region with interrupts disabled; `tasks` holds the local variables of the calls in
    progress. */
module Mailbox {
  import opened Ipc
  import opened MailboxSpec
  import opened WaitList

  /** The slot `i` places after `out` in a ring of `size` slots. */
  function Slot(out: nat, i: nat, size: nat): nat {
    if out + i < size then out + i else out + i - size
  }

  /** The ring holds `box` from slot `out` on, and the next mail goes to slot `inn`. */
  ghost predicate Ring(pool: seq<Mail>, inn: nat, out: nat, entry: nat, box: seq<Mail>) {
    var size := |pool|;
    && entry == |box| <= size
    && (size == 0 ==> inn == 0 && out == 0)
    && (size > 0 ==> inn < size && out < size && inn == Slot(out, entry, size))
    && (forall i {:trigger box[i]} :: 0 <= i < entry ==> pool[Slot(out, i, size)] == box[i])
  }

  /** The write offset is the read offset plus the entries, modulo the size. */
  lemma RingOffsets(pool: seq<Mail>, inn: nat, out: nat, entry: nat, box: seq<Mail>)
    requires Ring(pool, inn, out, entry, box) && |pool| > 0
    ensures inn == (out + entry) % |pool|
  {
    if out + entry < |pool| { ModSmall(out + entry, |pool|); } else { ModOnce(out + entry, |pool|); }
  }

  lemma ModSmall(x: nat, size: nat)
    requires x < size
    ensures x % size == x
  {
  }

  lemma ModOnce(x: nat, size: nat)
    requires size <= x < 2 * size
    ensures x % size == x - size
  {
    assert x == 1 * size + (x - size);
  }

  lemma RingPut(pool: seq<Mail>, inn: nat, out: nat, entry: nat, box: seq<Mail>, mail: Mail)
    requires Ring(pool, inn, out, entry, box) && entry != |pool|
    ensures Ring(pool[inn := mail], if inn + 1 >= |pool| then 0 else inn + 1, out, entry + 1, box + [mail])
  {
    var pool' := pool[inn := mail];
    forall i | 0 <= i < entry + 1 ensures pool'[Slot(out, i, |pool|)] == (box + [mail])[i] {
      if i < entry { assert pool[Slot(out, i, |pool|)] == box[i]; }
    }
  }

  lemma RingGet(pool: seq<Mail>, inn: nat, out: nat, entry: nat, box: seq<Mail>)
    requires Ring(pool, inn, out, entry, box) && entry != 0
    ensures pool[out] == box[0]
    ensures Ring(pool, inn, if out + 1 >= |pool| then 0 else out + 1, entry - 1, box[1..])
  {
    assert pool[Slot(out, 0, |pool|)] == box[0];
    var out' := if out + 1 >= |pool| then 0 else out + 1;
    forall i | 0 <= i < entry - 1 ensures pool[Slot(out', i, |pool|)] == box[1..][i] {
      assert pool[Slot(out, i + 1, |pool|)] == box[i + 1];
    }
  }

  class Mailbox {
    const pool: array<Mail>
    const flag: Flag
    var entry: nat
    var inOffset: nat
    var outOffset: nat
    var receivers: seq<Waiter>
    var senders: seq<Waiter>
    var tasks: map<nat, Task>
    ghost var box: seq<Mail>

    ghost function Abs(): State
      reads this
    {
      State(pool.Length, flag, box, receivers, senders, tasks)
    }

    ghost predicate Valid()
      reads this, pool
    {
      Ring(pool[..], inOffset, outOffset, entry, box) && Inv(Abs())
    }

    /** rt_mb_init. */
    constructor (msgPool: array<Mail>, flg: Flag)
      ensures Valid() && pool == msgPool && Abs() == Init(msgPool.Length, flg)
    {
      pool, flag := msgPool, flg;
      entry, inOffset, outOffset := 0, 0, 0;
      receivers, senders, tasks := [], [], map[];
      box := [];
      new;
      InitInv(pool.Length, flag);
    }

    /** One pass of the send loop. */
    method Send(t: nat, prio: nat, mail: Mail, timeout: int) returns (r: Code)
      requires Ring(pool[..], inOffset, outOffset, entry, box)
      modifies this, pool
      ensures Ring(pool[..], inOffset, outOffset, entry, box)
      ensures Abs() == MailboxSpec.Send(old(Abs()), t, prio, mail, timeout)
      ensures r == if old(entry) != pool.Length then EOK else if timeout == 0 then EFULL else InProgress
      ensures old(entry) == |old(box)|
    {
      if entry == pool.Length {
        if timeout == 0 {
          tasks := tasks - {t};
          return EFULL;
        }
        var w := Waiter(t, prio);
        var i := FindPosition(senders, w, flag);
        senders := senders[..i] + [w] + senders[i..];
        tasks := tasks[t := SendWaiting(mail, timeout)];
        return InProgress;
      }
      RingPut(pool[..], inOffset, outOffset, entry, box, mail);
      pool[inOffset] := mail;
      assert pool[..] == old(pool[..])[old(inOffset) := mail];
      inOffset := inOffset + 1;
      if inOffset >= pool.Length { inOffset := 0; }
      entry := entry + 1;
      box := box + [mail];
      tasks := tasks - {t};
      if receivers != [] {
        tasks := Wake(tasks, receivers[0].tid, EOK);
        receivers := receivers[1..];
      }
      return EOK;
    }

    /** One pass of the receive loop. */
    method Receive(t: nat, prio: nat, timeout: int) returns (r: Code, mail: Mail)
      requires Ring(pool[..], inOffset, outOffset, entry, box)
      modifies this
      ensures Ring(pool[..], inOffset, outOffset, entry, box)
      ensures Abs() == MailboxSpec.Receive(old(Abs()), t, prio, timeout)
      ensures r == if old(entry) != 0 then EOK else if timeout == 0 then ETIMEOUT else InProgress
      ensures old(entry) == |old(box)| && (r == EOK ==> mail == old(box)[0])
    {
      mail := 0;
      if entry == 0 {
        if timeout == 0 {
          tasks := tasks - {t};
          return ETIMEOUT, mail;
        }
        var w := Waiter(t, prio);
        var i := FindPosition(receivers, w, flag);
        receivers := receivers[..i] + [w] + receivers[i..];
        tasks := tasks[t := RecvWaiting(timeout)];
        return InProgress, mail;
      }
      RingGet(pool[..], inOffset, outOffset, entry, box);
      mail := pool[outOffset];
      outOffset := outOffset + 1;
      if outOffset >= pool.Length { outOffset := 0; }
      entry := entry - 1;
      box := box[1..];
      tasks := tasks - {t};
      if senders != [] {
        tasks := Wake(tasks, senders[0].tid, EOK);
        senders := senders[1..];
      }
      return EOK, mail;
    }

    /** rt_mb_send_wait up to the first suspension. */
    method SendStart(t: nat, prio: nat, mail: Mail, timeout: int) returns (r: Code)
      requires Valid() && Enabled(Abs(), Action.SendStart(t, prio, mail, timeout))
      modifies this, pool
      ensures Valid() && Abs() == Step(old(Abs()), Action.SendStart(t, prio, mail, timeout))
      ensures r == Answer(old(Abs()), Action.SendStart(t, prio, mail, timeout))
      ensures r == if old(entry) != pool.Length then EOK else if timeout == 0 then EFULL else InProgress
    {
      hide Inv, Ring, MailboxSpec.Send;
      StepInv(Abs(), Action.SendStart(t, prio, mail, timeout));
      r := Send(t, prio, mail, timeout);
    }

    /** rt_mb_send_wait after a resume without error. */
    method SendRetry(t: nat, prio: nat, elapsed: nat) returns (r: Code)
      requires Valid() && Enabled(Abs(), Action.SendRetry(t, prio, elapsed))
      modifies this, pool
      ensures Valid() && Abs() == Step(old(Abs()), Action.SendRetry(t, prio, elapsed))
      ensures r == Answer(old(Abs()), Action.SendRetry(t, prio, elapsed))
    {
      hide Inv, Ring, MailboxSpec.Send;
      StepInv(Abs(), Action.SendRetry(t, prio, elapsed));
      var timeout := tasks[t].timeout;
      if timeout > 0 {
        timeout := timeout - elapsed;
        if timeout < 0 { timeout := 0; }
      }
      r := Send(t, prio, tasks[t].mail, timeout);
    }

    /** rt_mb_recv up to the first suspension. */
    method RecvStart(t: nat, prio: nat, timeout: int) returns (r: Code, mail: Mail)
      requires Valid() && Enabled(Abs(), Action.RecvStart(t, prio, timeout))
      modifies this
      ensures Valid() && Abs() == Step(old(Abs()), Action.RecvStart(t, prio, timeout))
      ensures r == Answer(old(Abs()), Action.RecvStart(t, prio, timeout))
      ensures r == if old(entry) != 0 then EOK else if timeout == 0 then ETIMEOUT else InProgress
      ensures r == EOK ==> Fetched(old(Abs()), Action.RecvStart(t, prio, timeout)) == [mail]
    {
      hide Inv, MailboxSpec.Receive;
      StepInv(Abs(), Action.RecvStart(t, prio, timeout));
      r, mail := Receive(t, prio, timeout);
    }

    /** rt_mb_recv after a resume without error. */
    method RecvRetry(t: nat, prio: nat, elapsed: nat) returns (r: Code, mail: Mail)
      requires Valid() && Enabled(Abs(), Action.RecvRetry(t, prio, elapsed))
      modifies this
      ensures Valid() && Abs() == Step(old(Abs()), Action.RecvRetry(t, prio, elapsed))
      ensures r == Answer(old(Abs()), Action.RecvRetry(t, prio, elapsed))
      ensures r == EOK ==> Fetched(old(Abs()), Action.RecvRetry(t, prio, elapsed)) == [mail]
    {
      hide Inv, MailboxSpec.Receive;
      StepInv(Abs(), Action.RecvRetry(t, prio, elapsed));
      var timeout := tasks[t].timeout;
      if timeout > 0 {
        timeout := timeout - elapsed;
        if timeout < 0 { timeout := 0; }
      }
      r, mail := Receive(t, prio, timeout);
    }

    /** The error return after a timeout or a reset. */
    method Abort(t: nat) returns (r: Code)
      requires Valid() && Enabled(Abs(), Action.Abort(t))
      modifies this`tasks
      ensures Valid() && Abs() == Step(old(Abs()), Action.Abort(t))
      ensures r == Answer(old(Abs()), Action.Abort(t))
    {
      hide Inv;
      StepInv(Abs(), Action.Abort(t));
      r := tasks[t].error;
      tasks := tasks - {t};
    }

    /** rt_thread_timeout on a suspended sender or receiver. */
    method Timeout(t: nat)
      requires Valid() && Enabled(Abs(), Action.Timeout(t))
      modifies this`tasks, this`senders, this`receivers
      ensures Valid() && Abs() == Step(old(Abs()), Action.Timeout(t))
    {
      hide Inv;
      StepInv(Abs(), Action.Timeout(t));
      senders := Remove(senders, t);
      receivers := Remove(receivers, t);
      tasks := Wake(tasks, t, ETIMEOUT);
    }

    /** rt_mb_control with the reset command. */
    method Reset()
      requires Valid()
      modifies this
      ensures Valid() && Abs() == Step(old(Abs()), Action.Reset)
    {
      hide Inv;
      StepInv(Abs(), Action.Reset);
      receivers, senders := [], [];
      tasks := WakeAll(tasks);
      entry, inOffset, outOffset := 0, 0, 0;
      box := [];
    }
  }
}
