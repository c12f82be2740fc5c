/** The scheduler as scheduler.c runs it. */
module Scheduler {
  import opened SchedulerSpec
  import opened Sequences
  import opened Wrappers

  class Scheduler {
    const lists: array<seq<nat>>
    const table: array<Bits>
    var group: Bits
    var locks: int
    var current: Option<nat>
    var currentPriority: nat
    var priority: map<nat, nat>

    ghost function Abs(): State
      reads this, lists, table
      requires locks >= 0
    {
      State(lists[..], group, table[..], locks, current, priority)
    }

    ghost predicate Valid()
      reads this, lists, table
    {
      locks >= 0 && Inv(Abs())
    }

    /** rt_system_scheduler_init. */
    constructor (n: nat, threads: map<nat, nat>)
      requires 0 < n <= 256 && forall t: nat :: t in threads ==> threads[t] < n
      ensures Valid() && Abs() == Init(n, threads) && fresh(lists) && fresh(table)
    {
      locks, group, current, currentPriority, priority := 0, {}, None, n - 1, threads;
      lists := new seq<nat>[n](_ => []);
      table := new Bits[32](_ => {});
      new;
      InitInv(n, threads);
      assert lists[..] == seq(n, _ => []) && table[..] == seq(32, _ => {});
    }

    /** rt_schedule_insert_thread. */
    method Insert(t: nat)
      requires Valid() && t in priority && !Ready(Abs(), t)
      modifies this`group, lists, table
      ensures Valid() && Abs() == DoInsert(old(Abs()), t)
    {
      InsertInv(Abs(), t);
      var p := priority[t];
      lists[p] := lists[p] + [t];
      if lists.Length > 32 {
        table[p / 8] := table[p / 8] + {p % 8};
        group := group + {p / 8};
      } else {
        group := group + {p};
      }
    }

    /** rt_schedule_remove_thread. */
    method Remove(t: nat)
      requires Valid() && Ready(Abs(), t)
      modifies this`group, lists, table
      ensures Valid() && Abs() == DoRemove(old(Abs()), t)
    {
      RemoveInv(Abs(), t);
      var p := priority[t];
      lists[p] := Without(lists[p], t);
      if lists[p] == [] {
        if lists.Length > 32 {
          table[p / 8] := table[p / 8] - {p % 8};
          if table[p / 8] == {} { group := group - {p / 8}; }
        } else {
          group := group - {p};
        }
      }
    }

    /** rt_thread_control with the change-priority command. */
    method ChangePriority(t: nat, p: nat)
      requires Valid() && t in priority && p < lists.Length
      modifies this`group, this`priority, lists, table
      ensures Valid() && Abs() == DoChange(old(Abs()), t, p)
    {
      if t in lists[priority[t]] {
        RemoveInv(Abs(), t);
        Remove(t);
        RepriorInv(Abs(), t, p);
        priority := priority[t := p];
        Insert(t);
      } else {
        RepriorInv(Abs(), t, p);
        priority := priority[t := p];
      }
    }

    /** The priority whose bit __rt_ffs finds first. */
    method HighestPriority() returns (highest: int)
      requires Valid() && exists t :: Ready(Abs(), t)
      ensures highest == Highest(Abs())
    {
      ghost var t :| Ready(Abs(), t);
      HighestIsMostUrgent(Abs(), t);
      if lists.Length <= 32 {
        highest := Ffs(group, 0, 32) - 1;
      } else {
        var number := Ffs(group, 0, 32) - 1;
        highest := number * 8 + Ffs(table[number], 0, 8) - 1;
      }
    }

    /** rt_schedule: the thread it switches to, if it switches. */
    method Schedule() returns (to: Option<nat>)
      requires Valid() && Enabled(Abs(), Action.Schedule)
      modifies this`current, this`currentPriority
      ensures Valid() && Abs() == DoSchedule(old(Abs()))
      ensures old(locks) > 0 ==> to == None && currentPriority == old(currentPriority)
      ensures old(locks) == 0 ==> UrgentRuns(Abs()) && to == if current == old(current) then None else current
      ensures to.Some? ==> to.value in priority && currentPriority == priority[to.value]
    {
      to := None;
      StepInv(Abs(), Action.Schedule);
      if locks == 0 {
        SchedulePicks(Abs());
        var highest := HighestPriority();
        hide Inv, Ready, UrgentRuns, Highest;
        var next := lists[highest][0];
        if current != Some(next) {
          currentPriority := highest;
          current := Some(next);
          to := Some(next);
        }
      }
    }

    /** rt_enter_critical. */
    method EnterCritical()
      requires Valid()
      modifies this`locks
      ensures Valid() && Abs() == Step(old(Abs()), Action.Lock)
    {
      locks := locks + 1;
    }

    /** rt_exit_critical: the outermost exit schedules. */
    method ExitCritical() returns (to: Option<nat>)
      requires Valid() && Enabled(Abs(), Action.Schedule)
      modifies this`locks, this`current, this`currentPriority
      ensures Valid()
      ensures var unlocked := Step(old(Abs()), Action.Unlock);
        Abs() == if unlocked.locks == 0 then DoSchedule(unlocked) else unlocked
      ensures old(locks) > 1 ==> to == None
    {
      to := None;
      ghost var before := Abs();
      locks := locks - 1;
      if locks <= 0 {
        locks := 0;
        assert Abs() == Step(before, Action.Unlock);
        ghost var t: nat :| Ready(before, t);
        assert Ready(Abs(), t);
        to := Schedule();
      }
    }
  }
}
