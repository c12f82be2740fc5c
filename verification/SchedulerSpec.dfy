/** The ready queue of scheduler.c as a state machine, in both builds: one bitmap word for up to 32
    priorities, or a group word over a table of bytes for up to 256. Each step is one region with
    interrupts disabled; a smaller priority number is more urgent. */
module SchedulerSpec {
  import opened Sequences
  import opened Wrappers

  /** A machine word as the set of the numbers of its set bits. */
  type Bits = set<nat>

  /** `lists[p]` is the ready list of priority `p` from its head; `prio` the current priorities. */
  datatype State = State(
    lists: seq<seq<nat>>, group: Bits, table: seq<Bits>,
    locks: nat, current: Option<nat>, prio: map<nat, nat>)

  datatype Action =
    | Insert(t: nat)
    | Remove(t: nat)
    | ChangePriority(t: nat, p: nat)
    | Lock
    | Unlock
    | Schedule

  /** The number of the lowest set bit from bit `k` on, plus one; zero when no bit below `n` is set. */
  function Ffs(bits: Bits, k: nat, n: nat): (r: nat)
    ensures r == 0 <==> forall b: nat :: k <= b < n ==> b !in bits
    ensures r > 0 ==> k < r <= n && r - 1 in bits && forall b: nat :: k <= b < r - 1 ==> b !in bits
    decreases n - k
  {
    if k >= n then 0 else if k in bits then k + 1 else Ffs(bits, k + 1, n)
  }

  /** More than 32 priorities use the table. */
  predicate Wide(s: State) {
    |s.lists| > 32
  }

  /** The priority the bitmaps name as the most urgent one. */
  function Highest(s: State): int
    requires |s.table| == 32
  {
    if Wide(s) then
      var number := Ffs(s.group, 0, 32) - 1;
      if number < 0 then -1 else number * 8 + Ffs(s.table[number], 0, 8) - 1
    else Ffs(s.group, 0, 32) - 1
  }

  function SetBit(s: State, p: nat): State
    requires |s.table| == 32 && p < 256
  {
    if Wide(s) then s.(table := s.table[p / 8 := s.table[p / 8] + {p % 8}], group := s.group + {p / 8})
    else s.(group := s.group + {p})
  }

  function ClearBit(s: State, p: nat): State
    requires |s.table| == 32 && p < 256
  {
    if Wide(s) then
      var byte := s.table[p / 8] - {p % 8};
      s.(table := s.table[p / 8 := byte], group := if byte == {} then s.group - {p / 8} else s.group)
    else s.(group := s.group - {p})
  }

  predicate Shape(s: State) {
    && 0 < |s.lists| <= 256 && |s.table| == 32
    && forall t: nat :: t in s.prio ==> s.prio[t] < |s.lists|
  }

  predicate Ready(s: State, t: nat)
    requires Shape(s)
  {
    t in s.prio && t in s.lists[s.prio[t]]
  }

  /** rt_schedule_insert_thread. */
  function DoInsert(s: State, t: nat): State
    requires Shape(s) && t in s.prio
  {
    var p := s.prio[t];
    SetBit(s.(lists := s.lists[p := s.lists[p] + [t]]), p)
  }

  /** rt_schedule_remove_thread. */
  function DoRemove(s: State, t: nat): State
    requires Shape(s) && t in s.prio
  {
    var p := s.prio[t];
    var rest := Without(s.lists[p], t);
    var s' := s.(lists := s.lists[p := rest]);
    if rest == [] then ClearBit(s', p) else s'
  }

  /** rt_thread_control with the change-priority command. */
  function DoChange(s: State, t: nat, p: nat): State
    requires Shape(s) && t in s.prio && p < |s.lists|
  {
    if Ready(s, t) then
      var removed := DoRemove(s, t);
      DoInsert(removed.(prio := s.prio[t := p]), t)
    else s.(prio := s.prio[t := p])
  }

  /** rt_schedule: nothing while locked, otherwise the head of the list the bitmaps name. */
  function DoSchedule(s: State): State
    requires Shape(s)
  {
    if s.locks != 0 then s
    else
      var h := Highest(s);
      if 0 <= h < |s.lists| && s.lists[h] != [] then s.(current := Some(s.lists[h][0])) else s
  }

  /** A thread enters the ready lists when it is on none; some thread, the idle thread at least, is
      always ready when the scheduler runs. */
  ghost predicate Enabled(s: State, a: Action)
    requires Shape(s)
  {
    match a
    case Insert(t) => t in s.prio && !Ready(s, t)
    case Remove(t) => Ready(s, t)
    case ChangePriority(t, p) => t in s.prio && p < |s.lists|
    case Schedule => exists t :: Ready(s, t)
    case _ => true
  }

  ghost function Step(s: State, a: Action): State
    requires Shape(s) && Enabled(s, a)
  {
    match a
    case Insert(t) => DoInsert(s, t)
    case Remove(t) => DoRemove(s, t)
    case ChangePriority(t, p) => DoChange(s, t, p)
    case Lock => s.(locks := s.locks + 1)
    case Unlock => s.(locks := if s.locks <= 1 then 0 else s.locks - 1)
    case Schedule => DoSchedule(s)
  }

  // ----- the bitmaps agree with the lists -----------------------------------------------------

  /** The priorities whose bit is set. */
  predicate BitSet(s: State, p: nat)
    requires |s.table| == 32 && p < 256
  {
    if Wide(s) then p % 8 in s.table[p / 8] else p in s.group
  }

  /** Bits beyond the priorities are clear; in the table build a group bit says its byte is not empty. */
  ghost predicate BitsShape(s: State)
    requires |s.table| == 32
  {
    if Wide(s) then
      && (forall n: nat :: n in s.group <==> n < 32 && s.table[n] != {})
      && (forall n: nat, b: nat :: n < 32 && b in s.table[n] ==> b < 8 && 8 * n + b < |s.lists|)
    else forall p :: p in s.group ==> p < |s.lists|
  }

  ghost predicate BitsAgree(s: State)
    requires Shape(s)
  {
    forall p: nat :: p < |s.lists| ==> (BitSet(s, p) <==> s.lists[p] != [])
  }

  /** Each ready thread is on the list of its own priority, once. */
  ghost predicate ListsAgree(s: State)
    requires Shape(s)
  {
    && (forall p: nat, t :: p < |s.lists| && t in s.lists[p] ==> t in s.prio && s.prio[t] == p)
    && (forall p: nat :: p < |s.lists| ==> NoDup(s.lists[p]))
  }

  ghost predicate Inv(s: State) {
    Shape(s) && BitsShape(s) && BitsAgree(s) && ListsAgree(s)
  }

  /** rt_system_scheduler_init for `n` priorities, among threads of the given priorities. */
  function Init(n: nat, prio: map<nat, nat>): State {
    State(seq(n, _ => []), {}, seq(32, _ => {}), 0, None, prio)
  }

  lemma InitInv(n: nat, prio: map<nat, nat>)
    requires 0 < n <= 256 && forall t: nat :: t in prio ==> prio[t] < n
    ensures Inv(Init(n, prio))
  {
    var s := Init(n, prio);
    assert forall p :: 0 <= p < |s.lists| ==> s.lists[p] == [];
  }

  lemma SetBitEffect(s: State, p: nat)
    requires |s.table| == 32 && |s.lists| <= 256 && p < |s.lists| && BitsShape(s)
    ensures var s' := SetBit(s, p); BitsShape(s') && forall q: nat :: q < |s.lists| ==> (BitSet(s', q) <==> q == p || BitSet(s, q))
  {
    var s' := SetBit(s, p);
    if Wide(s) {
      forall q: nat | q < |s.lists| ensures BitSet(s', q) <==> q == p || BitSet(s, q) {
        assert q / 8 == p / 8 && q % 8 == p % 8 <==> q == p;
      }
      forall n: nat, b: nat | n < 32 && b in s'.table[n] ensures b < 8 && 8 * n + b < |s.lists| {
      }
    }
  }

  lemma ClearBitEffect(s: State, p: nat)
    requires |s.table| == 32 && |s.lists| <= 256 && p < |s.lists| && BitsShape(s)
    ensures var s' := ClearBit(s, p); BitsShape(s') && forall q: nat :: q < |s.lists| ==> (BitSet(s', q) <==> q != p && BitSet(s, q))
  {
    var s' := ClearBit(s, p);
    if Wide(s) {
      forall q: nat | q < |s.lists| ensures BitSet(s', q) <==> q != p && BitSet(s, q) {
        assert q / 8 == p / 8 && q % 8 == p % 8 <==> q == p;
      }
    }
  }

  lemma InsertInv(s: State, t: nat)
    requires Inv(s) && t in s.prio && !Ready(s, t)
    ensures Inv(DoInsert(s, t)) && Ready(DoInsert(s, t), t)
  {
    var p := s.prio[t];
    SetBitEffect(s.(lists := s.lists[p := s.lists[p] + [t]]), p);
  }

  lemma RemoveLists(s: State, t: nat)
    requires Shape(s) && ListsAgree(s) && Ready(s, t)
    ensures Shape(DoRemove(s, t)) && ListsAgree(DoRemove(s, t)) && !Ready(DoRemove(s, t), t)
  {
    WithoutMembers(s.lists[s.prio[t]], t);
  }

  lemma RemoveInv(s: State, t: nat)
    requires Inv(s) && Ready(s, t)
    ensures Inv(DoRemove(s, t)) && !Ready(DoRemove(s, t), t)
  {
    RemoveLists(s, t);
    var p := s.prio[t];
    var rest := Without(s.lists[p], t);
    if rest == [] { ClearBitEffect(s.(lists := s.lists[p := rest]), p); }
    hide ListsAgree;
  }

  /** A thread on no list may have any priority. */
  lemma RepriorInv(s: State, t: nat, p: nat)
    requires Inv(s) && t in s.prio && !Ready(s, t) && p < |s.lists|
    ensures Inv(s.(prio := s.prio[t := p])) && !Ready(s.(prio := s.prio[t := p]), t)
  {
  }

  lemma StepInv(s: State, a: Action)
    requires Inv(s) && Enabled(s, a)
    ensures Inv(Step(s, a))
  {
    match a
    case Insert(t) => InsertInv(s, t);
    case Remove(t) => RemoveInv(s, t);
    case ChangePriority(t, p) =>
      if Ready(s, t) {
        RemoveInv(s, t);
        RepriorInv(DoRemove(s, t), t, p);
        InsertInv(DoRemove(s, t).(prio := s.prio[t := p]), t);
      } else {
        RepriorInv(s, t, p);
      }
    case _ =>
  }

  // ----- what schedule picks ------------------------------------------------------------------

  /** Priority `p` has a ready thread and no more urgent one has. */
  ghost predicate MostUrgent(s: State, p: nat) {
    p < |s.lists| && s.lists[p] != [] && forall q: nat :: q < p ==> s.lists[q] == []
  }

  lemma ByteAndBit(n: nat, b: nat)
    requires b < 8
    ensures (n * 8 + b) / 8 == n && (n * 8 + b) % 8 == b
    ensures forall q: nat :: q < n * 8 + b ==> q / 8 < n || (q / 8 == n && q % 8 < b)
  {
  }

  lemma WideHighest(s: State, t: nat)
    requires Inv(s) && Ready(s, t) && Wide(s)
    ensures Highest(s) >= 0 && MostUrgent(s, Highest(s))
  {
    var p := s.prio[t];
    assert BitSet(s, p);
    var number := Ffs(s.group, 0, 32) - 1;
    var bit := Ffs(s.table[number], 0, 8) - 1;
    var b :| b in s.table[number];
    assert b < 8 && bit >= 0;
    ByteAndBit(number, bit);
    forall q: nat | q < Highest(s) ensures s.lists[q] == [] {
      assert q / 8 < number ==> q / 8 !in s.group && s.table[q / 8] == {};
      assert !BitSet(s, q);
    }
  }

  /** One bitmap word or group and table: the bitmaps name the first non-empty list. */
  lemma HighestIsMostUrgent(s: State, t: nat)
    requires Inv(s) && Ready(s, t)
    ensures Highest(s) >= 0 && MostUrgent(s, Highest(s))
  {
    if Wide(s) {
      WideHighest(s, t);
    } else {
      assert BitSet(s, s.prio[t]);
      var h := Ffs(s.group, 0, 32) - 1;
      forall q: nat | q < h ensures s.lists[q] == [] {
        assert !BitSet(s, q);
      }
    }
  }

  /** A ready thread runs and no ready thread is more urgent. */
  ghost predicate UrgentRuns(s: State)
    requires Shape(s)
  {
    && s.current.Some? && Ready(s, s.current.value)
    && forall t :: Ready(s, t) ==> s.prio[s.current.value] <= s.prio[t]
  }

  /** With the scheduler unlocked the thread that runs next is the head of the most urgent list: no
      ready thread is more urgent. */
  lemma SchedulePicks(s: State)
    requires Inv(s) && Enabled(s, Schedule) && s.locks == 0
    ensures var h := Highest(s);
      && h >= 0 && MostUrgent(s, h) && DoSchedule(s) == s.(current := Some(s.lists[h][0]))
      && s.lists[h][0] in s.prio && s.prio[s.lists[h][0]] == h && UrgentRuns(DoSchedule(s))
  {
    var t :| Ready(s, t);
    HighestIsMostUrgent(s, t);
    HeadIsUrgent(s, Highest(s));
  }

  lemma HeadIsUrgent(s: State, h: nat)
    requires Inv(s) && MostUrgent(s, h)
    ensures var head := s.lists[h][0]; head in s.prio && s.prio[head] == h && UrgentRuns(s.(current := Some(head)))
  {
    hide BitsShape, BitsAgree;
    var head := s.lists[h][0];
    assert head in s.lists[h];
  }

  // ----- whole runs ---------------------------------------------------------------------------

  ghost predicate EnabledRun(s: State, run: seq<Action>)
    requires Inv(s)
    decreases |run|
  {
    run == [] || (Enabled(s, run[0]) && (StepInv(s, run[0]); EnabledRun(Step(s, run[0]), run[1..])))
  }

  ghost function Run(s: State, run: seq<Action>): State
    requires Inv(s) && EnabledRun(s, run)
    decreases |run|
  {
    if run == [] then s else StepInv(s, run[0]); Run(Step(s, run[0]), run[1..])
  }

  /** Over any run each bit is set exactly when its list is not empty and each ready thread is on the
      list of its own priority, once. */
  lemma {:induction false} RunInv(s: State, run: seq<Action>)
    requires Inv(s) && EnabledRun(s, run)
    ensures Inv(Run(s, run))
    decreases |run|
  {
    if run != [] {
      StepInv(s, run[0]);
      RunInv(Step(s, run[0]), run[1..]);
    }
  }

  /** The lock count stays positive: fewer unlocks than locks in every prefix. */
  ghost predicate StaysLocked(locks: nat, run: seq<Action>)
    decreases |run|
  {
    && locks > 0
    && (run == [] || StaysLocked(if run[0].Lock? then locks + 1 else if run[0].Unlock? then locks - 1 else locks, run[1..]))
  }

  /** While the scheduler is locked no run of calls switches the thread. */
  lemma {:induction false} LockedNeverSwitches(s: State, run: seq<Action>)
    requires Inv(s) && EnabledRun(s, run) && StaysLocked(s.locks, run)
    ensures Run(s, run).current == s.current && Run(s, run).locks > 0
    decreases |run|
  {
    if run != [] {
      StepInv(s, run[0]);
      assert Step(s, run[0]).current == s.current;
      LockedNeverSwitches(Step(s, run[0]), run[1..]);
    }
  }

  // ----- both builds refine one scheduler without bitmaps -------------------------------------

  /** The first non-empty list, found by looking at the lists. */
  function FirstNonEmpty(lists: seq<seq<nat>>, k: nat): (r: nat)
    requires k <= |lists|
    ensures k <= r <= |lists| && (forall q: nat :: k <= q < r ==> lists[q] == [])
    ensures r < |lists| ==> lists[r] != []
    decreases |lists| - k
  {
    if k == |lists| || lists[k] != [] then k else FirstNonEmpty(lists, k + 1)
  }

  datatype Plain = Plain(lists: seq<seq<nat>>, locks: nat, current: Option<nat>, prio: map<nat, nat>)

  function Forget(s: State): Plain {
    Plain(s.lists, s.locks, s.current, s.prio)
  }

  function Take(x: Plain, t: nat): Plain
    requires t in x.prio && x.prio[t] < |x.lists|
  {
    var p := x.prio[t];
    x.(lists := x.lists[p := Without(x.lists[p], t)])
  }

  function Put(x: Plain, t: nat): Plain
    requires t in x.prio && x.prio[t] < |x.lists|
  {
    var p := x.prio[t];
    x.(lists := x.lists[p := x.lists[p] + [t]])
  }

  predicate PlainOk(x: Plain, a: Action) {
    && (forall t: nat :: t in x.prio ==> x.prio[t] < |x.lists|)
    && (a.Insert? || a.Remove? || a.ChangePriority? ==> a.t in x.prio)
    && (a.ChangePriority? ==> a.p < |x.lists|)
  }

  function PlainStep(x: Plain, a: Action): Plain
    requires PlainOk(x, a)
  {
    match a
    case Insert(t) => Put(x, t)
    case Remove(t) => Take(x, t)
    case ChangePriority(t, p) =>
      if t in x.lists[x.prio[t]] then Put(Take(x, t).(prio := x.prio[t := p]), t) else x.(prio := x.prio[t := p])
    case Lock => x.(locks := x.locks + 1)
    case Unlock => x.(locks := if x.locks <= 1 then 0 else x.locks - 1)
    case Schedule =>
      var h := FirstNonEmpty(x.lists, 0);
      if x.locks == 0 && h < |x.lists| then x.(current := Some(x.lists[h][0])) else x
  }

  function PlainRun(x: Plain, run: seq<Action>): Plain
    decreases |run|
  {
    if run == [] || !PlainOk(x, run[0]) then x else PlainRun(PlainStep(x, run[0]), run[1..])
  }

  lemma StepRefines(s: State, a: Action)
    requires Inv(s) && Enabled(s, a)
    ensures PlainOk(Forget(s), a) && Forget(Step(s, a)) == PlainStep(Forget(s), a)
  {
    if a.Schedule? && s.locks == 0 {
      SchedulePicks(s);
      var h := Highest(s);
      assert FirstNonEmpty(s.lists, 0) == h;
    }
  }

  /** The bitmap and the two-level table change nothing a caller can see: any run of either build ends
      with the lists, the lock count and the thread of the scheduler that searches the lists. */
  lemma {:induction false} RunRefines(s: State, run: seq<Action>)
    requires Inv(s) && EnabledRun(s, run)
    ensures Forget(Run(s, run)) == PlainRun(Forget(s), run)
    decreases |run|
  {
    if run != [] {
      StepInv(s, run[0]);
      StepRefines(s, run[0]);
      RunRefines(Step(s, run[0]), run[1..]);
    }
  }
}
