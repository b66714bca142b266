/**
 N rank-threads bringing up a multi-threaded communicator of one group: the barrier is created
 under a mutex by whoever comes first, rank 0 then grows the group table between two waits
 (src/comm/mt_comm.cpp, src/MT/shared_resource.hpp).
 */
module MtInit {
  import opened Basics
  import opened FiniteSets
  import opened ThreadBarrier

  datatype GroupBufferEntry = GroupBufferEntry(
    bufferPtr: nat, groupDiscoveryPhase: bool, copyDone: int, regDone: int, copyCounter: int, regCounter: int)

  const FRESH_ENTRY := GroupBufferEntry(0, true, 0, 0, 1, 1)

  type Row = seq<GroupBufferEntry>

  /**
   Where a thread is. It locks the group's mutex, checks and perhaps creates the barrier, unlocks,
   waits, waits again, lets rank 0 allocate, and waits a third time.
   */
  datatype Pc = Enter | Locked | Checked | Ready1 | Wait1 | Ready2 | Wait2 | Ready3 | Rows(done: nat) | Wait3 | Inited

  function Arrivals(pc: Pc): nat {
    match pc
    case Enter => 0
    case Locked => 0
    case Checked => 0
    case Ready1 => 0
    case Wait1 => 1
    case Ready2 => 1
    case Wait2 => 2
    case Ready3 => 2
    case Rows(_) => 2
    case Wait3 => 3
    case Inited => 3
  }

  /** How often the thread has got past the barrier. */
  function Passed(pc: Pc): nat {
    match pc
    case Ready2 => 1
    case Wait2 => 1
    case Ready3 => 2
    case Rows(_) => 2
    case Wait3 => 2
    case Inited => 3
    case _ => 0
  }

  /**
   `inits` counts pthread_barrier_init calls; `waitedUninitialised` records a wait on a barrier
   that does not exist yet. Thread t runs rank t of the group.
   */
  datatype State = State(
    group: nat, pcs: seq<Pc>, mutex: Option<nat>, flag: bool, barrier: Option<Barrier>,
    inits: nat, waitedUninitialised: bool, table: seq<seq<Row>>)

  function FreshRow(n: nat): Row { seq(n, _ => FRESH_ENTRY) }

  function Resized(table: seq<seq<Row>>, size: nat): seq<seq<Row>> {
    if |table| < size then table + seq(size - |table|, _ => []) else table
  }

  predicate CanStep(s: State, t: nat) {
    t < |s.pcs| &&
    match s.pcs[t]
    case Enter => s.mutex == None
    case Wait1 => s.barrier.Some? && s.barrier.value.openings >= 1
    case Wait2 => s.barrier.Some? && s.barrier.value.openings >= 2
    case Wait3 => s.barrier.Some? && s.barrier.value.openings >= 3
    case Inited => false
    case _ => true
  }

  function Moved(s: State, t: nat, pc: Pc): State
    requires t < |s.pcs|
  {
    s.(pcs := s.pcs[t := pc])
  }

  /** pthread_barrier_wait up to the point where the thread blocks. */
  function WaitAt(s: State, t: nat, pc: Pc): State
    requires t < |s.pcs|
  {
    if s.barrier.None? then Moved(s, t, pc).(waitedUninitialised := true)
    else Moved(s, t, pc).(barrier := Some(s.barrier.value.Arrive(t)))
  }

  function Step(s: State, t: nat): State
    requires CanStep(s, t)
  {
    match s.pcs[t]
    case Enter => Moved(s, t, Locked).(mutex := Some(t))
    case Locked =>
      if s.flag then Moved(s, t, Checked)
      else Moved(s, t, Checked).(barrier := Some(Barrier(|s.pcs|, {}, 0)), flag := true, inits := s.inits + 1)
    case Checked => Moved(s, t, Ready1).(mutex := None)
    case Ready1 => WaitAt(s, t, Wait1)
    case Wait1 => Moved(s, t, Ready2)
    case Ready2 => WaitAt(s, t, Wait2)
    case Wait2 => Moved(s, t, Ready3)
    case Ready3 =>
      if t == 0 then Moved(s, t, Rows(0)).(table := Resized(s.table, s.group + 1)) else WaitAt(s, t, Wait3)
    case Rows(i) =>
      if i < |s.pcs| && s.group < |s.table| then
        Moved(s, t, Rows(i + 1)).(table := s.table[s.group := s.table[s.group] + [FreshRow(|s.pcs|)]])
      else WaitAt(s, t, Wait3)
    case Wait3 => Moved(s, t, Inited)
  }

  // ----- runs of a group that was never used before

  ghost predicate Init(s: State) {
    && |s.pcs| > 0
    && (forall t :: 0 <= t < |s.pcs| ==> s.pcs[t] == Enter)
    && s.mutex == None && !s.flag && s.barrier == None && s.inits == 0 && !s.waitedUninitialised
    && (s.group < |s.table| ==> s.table[s.group] == [])
  }

  ghost predicate Run(ss: seq<State>, schedule: seq<nat>) {
    && |ss| == |schedule| + 1
    && Init(ss[0])
    && forall i :: 0 <= i < |schedule| ==> CanStep(ss[i], schedule[i]) && ss[i + 1] == Step(ss[i], schedule[i])
  }

  // ----- the invariant

  ghost predicate MutexInv(s: State) {
    && (s.mutex.Some? ==> s.mutex.value < |s.pcs|)
    && forall t :: 0 <= t < |s.pcs| ==> (s.mutex == Some(t) <==> s.pcs[t] == Locked || s.pcs[t] == Checked)
  }

  ghost predicate BarrierInv(s: State) {
    && !s.waitedUninitialised
    && s.flag == s.barrier.Some?
    && s.inits == (if s.flag then 1 else 0)
    && (forall t :: 0 <= t < |s.pcs| ==> s.flag || s.pcs[t] == Enter || s.pcs[t] == Locked)
    && (s.barrier.Some? ==>
          && InStep(s.barrier.value, ArrivalsOf(s.pcs, Arrivals))
          && forall t :: 0 <= t < |s.pcs| ==> Passed(s.pcs[t]) <= s.barrier.value.openings)
  }

  /** The start table with `rows` new rows for the group. */
  function Grown(start: seq<seq<Row>>, group: nat, rows: nat, n: nat): seq<seq<Row>> {
    var resized := Resized(start, group + 1);
    resized[group := resized[group] + seq(rows, _ => FreshRow(n))]
  }

  /** How far the table has grown when rank 0 is at `pc`. */
  function TableAt(pc: Pc, start: seq<seq<Row>>, group: nat, n: nat): seq<seq<Row>> {
    match pc
    case Rows(i) => Grown(start, group, i, n)
    case Wait3 => Grown(start, group, n, n)
    case Inited => Grown(start, group, n, n)
    case _ => start
  }

  /** Rank 0's place in the code says what the table holds; no other rank is ever allocating. */
  ghost predicate TableInv(s: State, start: seq<seq<Row>>) {
    && |s.pcs| > 0
    && (forall t :: 0 < t < |s.pcs| ==> !s.pcs[t].Rows?)
    && (s.pcs[0].Rows? ==> s.pcs[0].done <= |s.pcs|)
    && s.table == TableAt(s.pcs[0], start, s.group, |s.pcs|)
  }

  ghost predicate Inv(s: State, start: seq<seq<Row>>) {
    MutexInv(s) && BarrierInv(s) && TableInv(s, start)
  }

  lemma WaitInv(s: State, t: nat, pc: Pc)
    requires BarrierInv(s) && t < |s.pcs| && s.flag
    requires Arrivals(pc) == Arrivals(s.pcs[t]) + 1 && Passed(pc) == Passed(s.pcs[t]) == Arrivals(s.pcs[t])
    ensures BarrierInv(WaitAt(s, t, pc))
  {
    ArrivalsMoved(s.pcs, Arrivals, t, pc);
    ArriveInStep(s.barrier.value, ArrivalsOf(s.pcs, Arrivals), t);
  }

  lemma CreateInv(s: State, t: nat)
    requires BarrierInv(s) && t < |s.pcs| && s.pcs[t] == Locked && !s.flag
    ensures BarrierInv(Step(s, t))
  {
    var r := Step(s, t);
    ArrivalsMoved(s.pcs, Arrivals, t, Checked);
    StartInStep(r.barrier.value, ArrivalsOf(r.pcs, Arrivals));
  }

  /** A step that is neither a wait nor the creation of the barrier. */
  lemma MoveInv(s: State, r: State, t: nat)
    requires BarrierInv(s) && t < |s.pcs| == |r.pcs| && r.pcs == s.pcs[t := r.pcs[t]]
    requires r.flag == s.flag && r.barrier == s.barrier && r.inits == s.inits && !r.waitedUninitialised
    requires Arrivals(r.pcs[t]) == Arrivals(s.pcs[t])
    requires s.flag || r.pcs[t] == Locked
    requires s.barrier.Some? ==> Passed(r.pcs[t]) <= s.barrier.value.openings
    ensures BarrierInv(r)
  {
    ArrivalsMoved(s.pcs, Arrivals, t, r.pcs[t]);
  }

  lemma StepBarrierInv(s: State, t: nat)
    requires BarrierInv(s) && CanStep(s, t)
    ensures BarrierInv(Step(s, t))
  {
    var pc := s.pcs[t];
    if pc == Ready1 {
      WaitInv(s, t, Wait1);
    } else if pc == Ready2 {
      WaitInv(s, t, Wait2);
    } else if (pc == Ready3 && t != 0) || (pc.Rows? && !(pc.done < |s.pcs| && s.group < |s.table|)) {
      WaitInv(s, t, Wait3);
    } else if pc == Locked && !s.flag {
      CreateInv(s, t);
    } else {
      MoveInv(s, Step(s, t), t);
    }
  }

  lemma GrownByOne(start: seq<seq<Row>>, group: nat, rows: nat, n: nat)
    ensures var g := Grown(start, group, rows, n);
            group < |g| && g[group := g[group] + [FreshRow(n)]] == Grown(start, group, rows + 1, n)
  {
    var g := Grown(start, group, rows, n);
    var resized := Resized(start, group + 1);
    assert resized[group] + seq(rows, _ => FreshRow(n)) + [FreshRow(n)]
           == resized[group] + seq(rows + 1, _ => FreshRow(n));
    assert g[group := g[group] + [FreshRow(n)]] == Grown(start, group, rows + 1, n);
  }

  lemma GrownByNone(start: seq<seq<Row>>, group: nat, n: nat)
    ensures Grown(start, group, 0, n) == Resized(start, group + 1)
  {
    var resized := Resized(start, group + 1);
    assert resized[group] + seq(0, _ => FreshRow(n)) == resized[group];
  }

  lemma RankZeroTableInv(s: State, start: seq<seq<Row>>)
    requires TableInv(s, start) && CanStep(s, 0) && (s.pcs[0] == Ready3 || s.pcs[0].Rows?)
    ensures TableInv(Step(s, 0), start)
  {
    if s.pcs[0] == Ready3 {
      GrownByNone(start, s.group, |s.pcs|);
    } else {
      GrownByOne(start, s.group, s.pcs[0].done, |s.pcs|);
    }
  }

  lemma StepTableInv(s: State, t: nat, start: seq<seq<Row>>)
    requires TableInv(s, start) && CanStep(s, t)
    ensures TableInv(Step(s, t), start)
  {
    if t == 0 && (s.pcs[0] == Ready3 || s.pcs[0].Rows?) {
      RankZeroTableInv(s, start);
    } else {
      OtherStep(s, t);
    }
  }

  /** Any other step leaves the table alone and starts no allocation. */
  lemma OtherStep(s: State, t: nat)
    requires CanStep(s, t) && !s.pcs[t].Rows? && !(t == 0 && s.pcs[0] == Ready3)
    ensures var r := Step(s, t);
            && r.table == s.table && r.group == s.group && r.pcs == s.pcs[t := r.pcs[t]]
            && !r.pcs[t].Rows? && (r.pcs[t] == Wait3 ==> t != 0) && (r.pcs[t] == Inited ==> s.pcs[t] == Wait3)
  {
  }

  lemma StepInv(s: State, t: nat, start: seq<seq<Row>>)
    requires Inv(s, start) && CanStep(s, t)
    ensures Inv(Step(s, t), start)
  {
    StepBarrierInv(s, t);
    StepTableInv(s, t, start);
  }

  lemma {:induction false} RunInv(ss: seq<State>, schedule: seq<nat>, i: nat)
    requires Run(ss, schedule) && i < |ss|
    ensures Inv(ss[i], ss[0].table) && ss[i].group == ss[0].group && |ss[i].pcs| == |ss[0].pcs|
  {
    if i > 0 {
      RunInv(ss, schedule, i - 1);
      StepInv(ss[i - 1], schedule[i - 1], ss[0].table);
    }
  }

  // ----- what the threads get

  /** In every schedule the barrier is initialised at most once, and nobody waits before it is. */
  lemma BarrierInitialisedOnce(ss: seq<State>, schedule: seq<nat>, i: nat)
    requires Run(ss, schedule) && i < |ss|
    ensures !ss[i].waitedUninitialised && ss[i].inits <= 1
    ensures (exists t :: 0 <= t < |ss[i].pcs| && Arrivals(ss[i].pcs[t]) > 0) ==> ss[i].inits == 1
  {
    RunInv(ss, schedule, i);
  }

  /** In every schedule a rank past the k-th wait has seen every rank arrive there. */
  lemma NobodyLeavesEarly(ss: seq<State>, schedule: seq<nat>, i: nat, t: nat, u: nat)
    requires Run(ss, schedule) && i < |ss| && t < |ss[i].pcs| && u < |ss[i].pcs|
    ensures Passed(ss[i].pcs[t]) <= Arrivals(ss[i].pcs[u])
  {
    RunInv(ss, schedule, i);
    if ss[i].flag {
      var b := ss[i].barrier.value;
      AllArrived(b, ArrivalsOf(ss[i].pcs, Arrivals), Passed(ss[i].pcs[t]));
      assert ArrivalsOf(ss[i].pcs, Arrivals)[u] == Arrivals(ss[i].pcs[u]);
    }
  }

  /**
   In every schedule the table changes only by a step of rank 0, and only while every rank has reached
   the second wait and none has passed the third.
   */
  lemma OnlyRankZeroGrowsTheTable(ss: seq<State>, schedule: seq<nat>, i: nat, u: nat)
    requires Run(ss, schedule) && i < |schedule| && ss[i + 1].table != ss[i].table && u < |ss[i].pcs|
    ensures schedule[i] == 0
    ensures Arrivals(ss[i].pcs[u]) >= 2 && Passed(ss[i].pcs[u]) <= 2
  {
    RunInv(ss, schedule, i);
    NobodyLeavesEarly(ss, schedule, i, 0, u);
    NobodyLeavesEarly(ss, schedule, i, u, 0);
  }

  /**
   In every schedule a rank past the third wait sees n rows of n entries, each as the source initialises one:
   no buffer, in the discovery phase, nothing copied or registered, both checking counters at one. The table is
   just long enough for the group, or as long as it was, and other groups' rows are unchanged.
   */
  lemma TableCompleteAfterInit(ss: seq<State>, schedule: seq<nat>, i: nat, t: nat)
    requires Run(ss, schedule) && i < |ss| && t < |ss[i].pcs| && ss[i].pcs[t] == Inited
    ensures var table, group, n := ss[i].table, ss[i].group, |ss[i].pcs|;
            && |table| == (if |ss[0].table| <= group then group + 1 else |ss[0].table|)
            && |table[group]| == n
            && forall row, col :: 0 <= row < n && 0 <= col < n ==>
                 && |table[group][row]| == n
                 && var e := table[group][row][col];
                    && e.bufferPtr == 0 && e.groupDiscoveryPhase && e.copyDone == 0 && e.regDone == 0
                    && e.copyCounter == 1 && e.regCounter == 1
    ensures forall g :: 0 <= g < |ss[0].table| && g != ss[i].group ==>
              g < |ss[i].table| && ss[i].table[g] == ss[0].table[g]
    ensures forall g :: |ss[0].table| <= g < ss[i].group ==> g < |ss[i].table| && ss[i].table[g] == []
  {
    RunInv(ss, schedule, i);
    NobodyLeavesEarly(ss, schedule, i, t, 0);
    var start, n := ss[0].table, |ss[i].pcs|;
    var resized := Resized(start, ss[i].group + 1);
    assert resized[ss[i].group] == [];
    assert ss[i].table[ss[i].group] == seq(n, _ => FreshRow(n));
  }

  // ----- nobody gets stuck

  function Stage(pc: Pc): nat {
    match pc
    case Enter => 0
    case Locked => 1
    case Checked => 2
    case Ready1 => 3
    case Wait1 => 4
    case Ready2 => 5
    case Wait2 => 6
    case Ready3 => 7
    case Rows(_) => 8
    case Wait3 => 9
    case Inited => 10
  }

  /** In every schedule every step takes its thread further, row by row while rank 0 allocates. */
  lemma StepsGoForward(ss: seq<State>, schedule: seq<nat>, i: nat)
    requires Run(ss, schedule) && i < |schedule|
    ensures var t := schedule[i];
            && t < |ss[i].pcs| == |ss[i + 1].pcs|
            && var before, after := ss[i].pcs[t], ss[i + 1].pcs[t];
               || Stage(before) < Stage(after)
               || (before.Rows? && after.Rows? && after.done == before.done + 1 && after.done <= |ss[i].pcs|)
  {
    RunInv(ss, schedule, i);
  }

  /** A thread that cannot go on waits for the mutex, waits at the barrier, or is through. */
  lemma StuckWaits(s: State, start: seq<seq<Row>>, t: nat)
    requires Inv(s, start) && t < |s.pcs| && !CanStep(s, t)
    ensures s.pcs[t] == Inited || s.pcs[t] == Enter || (s.barrier.Some? && t in s.barrier.value.waiting)
    ensures s.pcs[t] == Enter ==> s.mutex.Some? && CanStep(s, s.mutex.value)
    ensures s.pcs[t] == Inited ==> s.barrier.Some? && s.barrier.value.openings >= 3
  {
    if s.barrier.Some? {
      var b := s.barrier.value;
      assert ArrivalsOf(s.pcs, Arrivals)[t] == Arrivals(s.pcs[t]);
      assert Passed(s.pcs[t]) <= b.openings;
    }
  }

  /** In every schedule, as long as some thread is not initialised, some thread can go on. */
  lemma NoDeadlock(ss: seq<State>, schedule: seq<nat>, i: nat, u: nat)
    requires Run(ss, schedule) && i < |ss| && u < |ss[i].pcs| && ss[i].pcs[u] != Inited
    ensures exists t :: CanStep(ss[i], t)
  {
    RunInv(ss, schedule, i);
    var s := ss[i];
    if forall t: nat :: t < |s.pcs| ==> !CanStep(s, t) {
      StuckWaits(s, ss[0].table, u);
      assert s.barrier.Some?;
      forall t: nat | t < |s.pcs| ensures t in s.barrier.value.waiting {
        StuckWaits(s, ss[0].table, t);
        assert ArrivalsOf(s.pcs, Arrivals)[u] == Arrivals(s.pcs[u]) <= 3;
      }
      var all := Below(|s.pcs|);
      assert all <= s.barrier.value.waiting;
      SubsetSize(all, s.barrier.value.waiting);
    }
  }
}
