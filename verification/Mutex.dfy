/** The mutex as ipc.c runs it. The table `priority` stands for the current_priority fields of the
    threads, which rt_thread_control changes. */
module Mutex {
  import opened Ipc
  import opened MutexSpec
  import opened WaitList
  import opened Wrappers

  class Mutex {
    const flag: Flag
    var value: nat
    var owner: Option<nat>
    var originalPriority: nat
    var hold: nat
    var suspended: seq<Waiter>
    var priority: map<nat, nat>
    ghost const base: map<nat, nat>

    ghost function Abs(): State
      reads this
    {
      State(flag, value, owner, originalPriority, hold, suspended, priority, base)
    }

    ghost predicate Valid()
      reads this
    {
      Inv(Abs())
    }

    /** rt_mutex_init, among threads that run at the given priorities. */
    constructor (flg: Flag, threads: map<nat, nat>)
      ensures Valid() && Abs() == Init(flg, threads)
    {
      flag, value, owner, originalPriority, hold := flg, 1, None, NO_PRIORITY, 0;
      suspended, priority, base := [], threads, threads;
      new;
      InitInv(flag, base);
    }

    /** rt_mutex_take by the running thread. */
    method Take(thread: nat, time: int) returns (r: Code)
      requires Valid() && Enabled(Abs(), Action.Take(thread, time))
      modifies this
      ensures Valid() && Abs() == Step(old(Abs()), Action.Take(thread, time))
      ensures r == Answer(old(Abs()), Action.Take(thread, time))
    {
      assert Inv(Step(Abs(), Action.Take(thread, time))) by { TakeInv(Abs(), thread, time); }
      if owner == Some(thread) {
        hold := hold + 1;
        return EOK;
      }
      if value > 0 {
        value := value - 1;
        owner := Some(thread);
        originalPriority := priority[thread];
        hold := hold + 1;
        return EOK;
      }
      if time == 0 { return ETIMEOUT; }
      var w := Waiter(thread, priority[thread]);
      if priority[thread] < priority[owner.value] {
        priority := priority[owner.value := priority[thread]];
      }
      var i := FindPosition(suspended, w, flag);
      suspended := suspended[..i] + [w] + suspended[i..];
      return InProgress;
    }

    /** rt_mutex_release by the running thread; `ready` is the thread that is resumed. */
    method Release(thread: nat) returns (r: Code, ready: Option<nat>)
      requires Valid() && Enabled(Abs(), Action.Release(thread))
      modifies this
      ensures Valid() && Abs() == Step(old(Abs()), Action.Release(thread))
      ensures r == Answer(old(Abs()), Action.Release(thread)) && ready == Ready(old(Abs()), Action.Release(thread))
    {
      hide Inv, DoRelease;
      StepInv(Abs(), Action.Release(thread));
      ReleaseCases(Abs(), thread);
      if owner != Some(thread) { return ERROR, None; }
      ready := None;
      OwnerFacts(Abs(), thread);
      hold := hold - 1;
      if hold == 0 {
        if originalPriority != priority[thread] {
          priority := priority[thread := originalPriority];
        }
        assert priority == old(priority)[thread := originalPriority];
        if suspended != [] {
          var next := suspended[0].tid;
          owner := Some(next);
          originalPriority := priority[next];
          hold := hold + 1;
          suspended := suspended[1..];
          ready := Some(next);
        } else {
          value := value + 1;
          owner := None;
          originalPriority := NO_PRIORITY;
        }
      }
      r := EOK;
    }

    /** rt_thread_timeout on a waiting thread. */
    method Expire(thread: nat)
      requires Valid() && Enabled(Abs(), Action.Expire(thread))
      modifies this`suspended
      ensures Valid() && Abs() == Step(old(Abs()), Action.Expire(thread))
    {
      assert Inv(Step(Abs(), Action.Expire(thread))) by { ExpireInv(Abs(), thread); }
      suspended := Remove(suspended, thread);
    }
  }
}
