/**
 Pointer-exchange rounds of N rank-threads under one exchange id: publish under a lock, wait at the
 barrier, fill the table of remote pointers peer by peer, and wait once more before the next round
 (src/MT/shared_resource.hpp and its callers).
 */
module IpcExchange {
  import opened Basics
  import opened FiniteSets
  import opened ThreadBarrier
  import opened SubComm
  import opened NodeRank

  type Ptr = nat
  const NULL: Ptr := 0

  // ----- the order peers are visited in

  function PeerAt(rank: nat, i: nat, size: nat): nat
    requires 0 < size
  {
    (rank + i) % size
  }

  lemma PeerAtIs(rank: nat, i: nat, size: nat)
    requires rank < size && i < size
    ensures PeerAt(rank, i, size) == if rank + i < size then rank + i else rank + i - size
  {
  }

  /** The step at which a peer's turn comes. */
  function TurnOf(rank: nat, peer: nat, size: nat): nat
    requires rank < size && peer < size
  {
    if rank <= peer then peer - rank else peer + size - rank
  }

  /** The loop visits every other peer exactly once: TurnOf inverts PeerAt, and only turn 0 would be the rank itself. */
  lemma EachPeerVisitedOnce(rank: nat, size: nat, i: nat, peer: nat)
    requires rank < size && i < size && peer < size
    ensures PeerAt(rank, i, size) < size && TurnOf(rank, PeerAt(rank, i, size), size) == i
    ensures TurnOf(rank, peer, size) < size && PeerAt(rank, TurnOf(rank, peer, size), size) == peer
    ensures TurnOf(rank, peer, size) == 0 <==> peer == rank
  {
    PeerAtIs(rank, i, size);
    PeerAtIs(rank, TurnOf(rank, peer, size), size);
  }

  // ----- the pointer-filling loop

  /** The communicator a thread reads for: its rank there and the node rank of every peer. */
  datatype View = View(rank: nat, nodeOf: seq<nat>)

  predicate ValidView(v: View) { v.rank < |v.nodeOf| }

  /** What the hash table offers for one node rank at one handle index, null if nothing was published. */
  function Lookup(table: map<nat, seq<Ptr>>, node: nat, handle: nat): Ptr {
    if node in table && handle < |table[node]| then table[node][handle] else NULL
  }

  /** `get_ipc_ptrsExt`; `None` is the failed null assertion. */
  method GetIpcPtrs(table: map<nat, seq<Ptr>>, view: View, handle: nat, localPtr: Ptr) returns (r: Option<seq<Ptr>>)
    requires ValidView(view)
    requires forall node :: node in table ==> handle < |table[node]|
    ensures r.Some? <==>
            forall p :: 0 <= p < |view.nodeOf| && p != view.rank ==> Lookup(table, view.nodeOf[p], handle) != NULL
    ensures r.Some? ==> |r.value| == |view.nodeOf| && r.value[view.rank] == localPtr
    ensures r.Some? ==>
              forall p :: 0 <= p < |view.nodeOf| && p != view.rank ==>
                r.value[p] == Lookup(table, view.nodeOf[p], handle)
  {
    var size := |view.nodeOf|;
    var remote := seq(size, _ => NULL);
    remote := remote[view.rank := localPtr];
    var i := 1;
    while i < size
      invariant 1 <= i && (size == 1 || i <= size) && |remote| == size && remote[view.rank] == localPtr
      invariant forall p :: 0 <= p < size && p != view.rank ==>
                  if TurnOf(view.rank, p, size) < i
                  then remote[p] == Lookup(table, view.nodeOf[p], handle) != NULL
                  else remote[p] == NULL
    {
      var peer := PeerAt(view.rank, i, size);
      EachPeerVisitedOnce(view.rank, size, i, peer);
      forall p | 0 <= p < size ensures TurnOf(view.rank, p, size) == i <==> p == peer {
        EachPeerVisitedOnce(view.rank, size, i, p);
      }
      if view.nodeOf[peer] in table {
        remote := remote[peer := table[view.nodeOf[peer]][handle]];
      }
      if remote[peer] == NULL {
        return None;
      }
      i := i + 1;
    }
    forall p | 0 <= p < size ensures TurnOf(view.rank, p, size) < size {
      EachPeerVisitedOnce(view.rank, size, 0, p);
    }
    return Some(remote);
  }

  // ----- the rounds as interleaved steps

  /** What the threads of one round publish, and what each reads: a view and a handle index. */
  datatype Round = Round(offers: seq<seq<Ptr>>, views: seq<View>, handle: nat)

  /** In a round of n threads everybody publishes a pointer at the handle, and every peer is one of the threads. */
  ghost predicate WellSetUp(rd: Round, n: nat) {
    && |rd.offers| == n && |rd.views| == n
    && (forall t :: 0 <= t < n ==> rd.handle < |rd.offers[t]| && rd.offers[t][rd.handle] != NULL)
    && (forall t :: 0 <= t < n ==> ValidView(rd.views[t]))
    && (forall t, p :: 0 <= t < n && 0 <= p < |rd.views[t].nodeOf| ==> rd.views[t].nodeOf[p] < n)
  }

  datatype Pc = Publish | Arrive | Wait | Read(next: nat) | ArriveEnd | WaitEnd | Finished | AssertFailed

  /** A thread in its round, with the array it fills. */
  datatype Thread = Thread(pc: Pc, round: nat, remote: seq<Ptr>)

  datatype State = State(threads: seq<Thread>, barrier: Barrier, table: map<nat, seq<Ptr>>)

  predicate CanStep(rounds: seq<Round>, s: State, t: nat) {
    && t < |s.threads| && s.threads[t].round < |rounds|
    && var rd, th := rounds[s.threads[t].round], s.threads[t];
       && t < |rd.offers| && t < |rd.views| && ValidView(rd.views[t]) && rd.handle < |rd.offers[t]|
       && match th.pc
          case Wait => s.barrier.openings >= 2 * th.round + 1
          case WaitEnd => s.barrier.openings >= 2 * th.round + 2
          case Read(_) => |th.remote| == |rd.views[t].nodeOf|
          case Finished => false
          case AssertFailed => false
          case _ => true
  }

  /** One peer of the reading loop, or its end. */
  function ReadStep(rd: Round, table: map<nat, seq<Ptr>>, th: Thread, t: nat): Thread
    requires t < |rd.views| && ValidView(rd.views[t]) && th.pc.Read? && |th.remote| == |rd.views[t].nodeOf|
  {
    var v, size := rd.views[t], |rd.views[t].nodeOf|;
    if th.pc.next < size then
      var peer := PeerAt(v.rank, th.pc.next, size);
      var found := Lookup(table, v.nodeOf[peer], rd.handle);
      var filled := if found != NULL then th.remote[peer := found] else th.remote;
      th.(pc := if filled[peer] != NULL then Read(th.pc.next + 1) else AssertFailed, remote := filled)
    else th.(pc := ArriveEnd)
  }

  /** A thread's next place, for the table as it is. */
  function Advanced(rounds: seq<Round>, s: State, t: nat): Thread
    requires CanStep(rounds, s, t)
  {
    var th := s.threads[t];
    var rd := rounds[th.round];
    match th.pc
    case Publish => th.(pc := Arrive)
    case Arrive => th.(pc := Wait)
    case Wait =>
      th.(pc := Read(1),
          remote := seq(|rd.views[t].nodeOf|, _ => NULL)[rd.views[t].rank := rd.offers[t][rd.handle]])
    case Read(_) => ReadStep(rd, s.table, th, t)
    case ArriveEnd => th.(pc := WaitEnd)
    case WaitEnd => if th.round + 1 < |rounds| then th.(pc := Publish, round := th.round + 1) else th.(pc := Finished)
  }

  function Step(rounds: seq<Round>, s: State, t: nat): State
    requires CanStep(rounds, s, t)
  {
    var pc := s.threads[t].pc;
    State(s.threads[t := Advanced(rounds, s, t)],
          if pc == Arrive || pc == ArriveEnd then s.barrier.Arrive(t) else s.barrier,
          if pc == Publish then s.table[t := rounds[s.threads[t].round].offers[t]] else s.table)
  }

  /** Whatever the table holds from before, every thread starts its first round. */
  ghost predicate Init(rounds: seq<Round>, s: State) {
    && |s.threads| > 0 && 0 < |rounds|
    && (forall k :: 0 <= k < |rounds| ==> WellSetUp(rounds[k], |s.threads|))
    && (forall t :: 0 <= t < |s.threads| ==> s.threads[t].pc == Publish && s.threads[t].round == 0)
    && Started(s.barrier) && s.barrier.count == |s.threads|
  }

  ghost predicate Run(rounds: seq<Round>, ss: seq<State>, schedule: seq<nat>) {
    && |ss| == |schedule| + 1
    && Init(rounds, ss[0])
    && forall i :: 0 <= i < |schedule| ==>
         CanStep(rounds, ss[i], schedule[i]) && ss[i + 1] == Step(rounds, ss[i], schedule[i])
  }

  // ----- the invariant

  function Arrivals(th: Thread): nat {
    2 * th.round +
    match th.pc
    case Publish => 0
    case Arrive => 0
    case WaitEnd => 2
    case Finished => 2
    case _ => 1
  }

  /** How often the thread has got past the barrier. */
  function Passed(th: Thread): nat {
    2 * th.round +
    match th.pc
    case Publish => 0
    case Arrive => 0
    case Wait => 0
    case Finished => 2
    case _ => 1
  }

  ghost predicate BarrierInv(s: State) {
    && InStep(s.barrier, ArrivalsOf(s.threads, Arrivals))
    && forall t :: 0 <= t < |s.threads| ==> Passed(s.threads[t]) <= s.barrier.openings
  }

  /** Past its publication a thread's entry is what it publishes in its round. */
  ghost predicate TableInv(rounds: seq<Round>, s: State) {
    forall t: nat :: t < |s.threads| && s.threads[t].pc != Publish ==>
      && s.threads[t].round < |rounds| && t < |rounds[s.threads[t].round].offers|
      && t in s.table && s.table[t] == rounds[s.threads[t].round].offers[t]
  }

  /** The pointer thread t has to end up with for a peer: what that peer publishes in the round. */
  ghost function Wanted(rd: Round, t: nat, peer: nat): Ptr
    requires exists n :: t < n && WellSetUp(rd, n)
    requires peer < |rd.views[t].nodeOf|
  {
    if peer == rd.views[t].rank then rd.offers[t][rd.handle] else rd.offers[rd.views[t].nodeOf[peer]][rd.handle]
  }

  /** The array holds what is wanted for every peer whose turn came before `next`. */
  ghost predicate FilledBelow(rd: Round, t: nat, remote: seq<Ptr>, next: nat)
    requires exists n :: t < n && WellSetUp(rd, n)
  {
    var v, size := rd.views[t], |rd.views[t].nodeOf|;
    && |remote| == size
    && forall p :: 0 <= p < size && TurnOf(v.rank, p, size) < next ==> remote[p] == Wanted(rd, t, p)
  }

  ghost predicate ThreadInv(rd: Round, t: nat, th: Thread)
    requires exists n :: t < n && WellSetUp(rd, n)
  {
    match th.pc
    case Read(next) => 1 <= next <= |rd.views[t].nodeOf| && FilledBelow(rd, t, th.remote, next)
    case ArriveEnd => FilledBelow(rd, t, th.remote, |rd.views[t].nodeOf|)
    case WaitEnd => FilledBelow(rd, t, th.remote, |rd.views[t].nodeOf|)
    case Finished => FilledBelow(rd, t, th.remote, |rd.views[t].nodeOf|)
    case AssertFailed => false
    case _ => true
  }

  ghost predicate AllSetUp(rounds: seq<Round>, n: nat) {
    0 < n && forall k :: 0 <= k < |rounds| ==> WellSetUp(rounds[k], n)
  }

  ghost predicate ThreadsInv(rounds: seq<Round>, s: State)
    requires AllSetUp(rounds, |s.threads|)
  {
    forall t: nat :: t < |s.threads| ==>
      && s.threads[t].round < |rounds| && ThreadInv(rounds[s.threads[t].round], t, s.threads[t])
      && (s.threads[t].pc == Finished ==> s.threads[t].round + 1 == |rounds|)
  }

  ghost predicate Inv(rounds: seq<Round>, s: State) {
    AllSetUp(rounds, |s.threads|) && BarrierInv(s) && TableInv(rounds, s) && ThreadsInv(rounds, s)
  }

  lemma ArriveInv(rounds: seq<Round>, s: State, t: nat)
    requires BarrierInv(s) && CanStep(rounds, s, t) && (s.threads[t].pc == Arrive || s.threads[t].pc == ArriveEnd)
    ensures BarrierInv(Step(rounds, s, t))
  {
    var th := Advanced(rounds, s, t);
    ArrivalsMoved(s.threads, Arrivals, t, th);
    assert Passed(th) == Passed(s.threads[t]) == Arrivals(s.threads[t]) && Arrivals(th) == Arrivals(s.threads[t]) + 1;
    assert ArrivalsOf(s.threads, Arrivals)[t] == Arrivals(s.threads[t]);
    ArriveInStep(s.barrier, ArrivalsOf(s.threads, Arrivals), t);
  }

  lemma StepBarrierInv(rounds: seq<Round>, s: State, t: nat)
    requires BarrierInv(s) && CanStep(rounds, s, t)
    ensures BarrierInv(Step(rounds, s, t))
  {
    if s.threads[t].pc == Arrive || s.threads[t].pc == ArriveEnd {
      ArriveInv(rounds, s, t);
    } else {
      ArrivalsMoved(s.threads, Arrivals, t, Advanced(rounds, s, t));
    }
  }

  /**
   While a thread reads, every thread is in the same round and has published: the first barrier keeps the
   slow ones from being behind, the second one keeps the fast ones from being ahead.
   */
  lemma ReadersShareARound(s: State, u: nat, t: nat)
    requires BarrierInv(s) && u < |s.threads| && t < |s.threads| && s.threads[u].pc.Read?
    ensures s.threads[t].round == s.threads[u].round && s.threads[t].pc != Publish
  {
    AllArrived(s.barrier, ArrivalsOf(s.threads, Arrivals), s.barrier.openings);
    assert ArrivalsOf(s.threads, Arrivals)[t] == Arrivals(s.threads[t]);
    assert ArrivalsOf(s.threads, Arrivals)[u] == Arrivals(s.threads[u]);
  }

  lemma LookupFinds(rounds: seq<Round>, s: State, t: nat, peer: nat)
    requires Inv(rounds, s) && t < |s.threads| && s.threads[t].pc.Read?
    requires peer < |rounds[s.threads[t].round].views[t].nodeOf| && peer != rounds[s.threads[t].round].views[t].rank
    ensures var rd := rounds[s.threads[t].round];
            Lookup(s.table, rd.views[t].nodeOf[peer], rd.handle) == Wanted(rd, t, peer) != NULL
  {
    var rd := rounds[s.threads[t].round];
    ReadersShareARound(s, t, rd.views[t].nodeOf[peer]);
  }

  lemma ReadInv(rd: Round, n: nat, table: map<nat, seq<Ptr>>, th: Thread, t: nat)
    requires WellSetUp(rd, n) && t < n && th.pc.Read? && ThreadInv(rd, t, th)
    requires forall p :: 0 <= p < |rd.views[t].nodeOf| && p != rd.views[t].rank ==>
               Lookup(table, rd.views[t].nodeOf[p], rd.handle) == Wanted(rd, t, p) != NULL
    ensures ThreadInv(rd, t, ReadStep(rd, table, th, t))
  {
    var v, size, i := rd.views[t], |rd.views[t].nodeOf|, th.pc.next;
    forall p | 0 <= p < size ensures TurnOf(v.rank, p, size) < size { EachPeerVisitedOnce(v.rank, size, 0, p); }
    if i < size {
      var peer := PeerAt(v.rank, i, size);
      EachPeerVisitedOnce(v.rank, size, i, peer);
      forall p | 0 <= p < size ensures TurnOf(v.rank, p, size) == i <==> p == peer {
        EachPeerVisitedOnce(v.rank, size, i, p);
      }
    }
  }

  lemma StartReadInv(rd: Round, n: nat, t: nat, th: Thread)
    requires WellSetUp(rd, n) && t < n && th.pc == Read(1)
    requires th.remote == seq(|rd.views[t].nodeOf|, _ => NULL)[rd.views[t].rank := rd.offers[t][rd.handle]]
    ensures ThreadInv(rd, t, th)
  {
    var v, size := rd.views[t], |rd.views[t].nodeOf|;
    forall p | 0 <= p < size ensures TurnOf(v.rank, p, size) == 0 <==> p == v.rank {
      EachPeerVisitedOnce(v.rank, size, 0, p);
    }
  }

  lemma OwnThreadInv(rounds: seq<Round>, s: State, t: nat)
    requires Inv(rounds, s) && CanStep(rounds, s, t)
    ensures var th := Advanced(rounds, s, t);
            th.round < |rounds| && WellSetUp(rounds[th.round], |s.threads|) && ThreadInv(rounds[th.round], t, th)
  {
    var th := s.threads[t];
    var rd := rounds[th.round];
    if th.pc.Read? {
      forall p | 0 <= p < |rd.views[t].nodeOf| && p != rd.views[t].rank
        ensures Lookup(s.table, rd.views[t].nodeOf[p], rd.handle) == Wanted(rd, t, p) != NULL
      {
        LookupFinds(rounds, s, t, p);
      }
      ReadInv(rd, |s.threads|, s.table, th, t);
    } else if th.pc == Wait {
      StartReadInv(rd, |s.threads|, t, Advanced(rounds, s, t));
    }
  }

  lemma StepTableInv(rounds: seq<Round>, s: State, t: nat)
    requires Inv(rounds, s) && CanStep(rounds, s, t)
    ensures TableInv(rounds, Step(rounds, s, t))
  {
    var r := Step(rounds, s, t);
    assert s.threads[t].pc != Publish && r.threads[t].pc != Publish ==> r.threads[t].round == s.threads[t].round;
  }

  lemma StepInv(rounds: seq<Round>, s: State, t: nat)
    requires Inv(rounds, s) && CanStep(rounds, s, t)
    ensures Inv(rounds, Step(rounds, s, t))
  {
    StepBarrierInv(rounds, s, t);
    StepTableInv(rounds, s, t);
    OwnThreadInv(rounds, s, t);
  }

  lemma StartInv(rounds: seq<Round>, s: State)
    requires Init(rounds, s)
    ensures Inv(rounds, s)
  {
    var arrivals := ArrivalsOf(s.threads, Arrivals);
    forall t | 0 <= t < |arrivals| ensures arrivals[t] == 0 { assert arrivals[t] == Arrivals(s.threads[t]); }
    StartInStep(s.barrier, arrivals);
  }

  lemma {:induction false} RunInv(rounds: seq<Round>, ss: seq<State>, schedule: seq<nat>, i: nat)
    requires Run(rounds, ss, schedule) && i < |ss|
    ensures Inv(rounds, ss[i]) && |ss[i].threads| == |ss[0].threads|
  {
    if i == 0 {
      StartInv(rounds, ss[0]);
    } else {
      RunInv(rounds, ss, schedule, i - 1);
      StepInv(rounds, ss[i - 1], schedule[i - 1]);
    }
  }

  // ----- what the ranks get

  /** The thread has filled its array for the round it is in. */
  predicate HasRead(th: Thread) { th.pc == ArriveEnd || th.pc == WaitEnd || th.pc == Finished }

  /** The array holds, for every peer of the thread's view, the pointer that peer publishes in this round. */
  ghost predicate Complete(rd: Round, t: nat, remote: seq<Ptr>) {
    && t < |rd.views| && t < |rd.offers| && |remote| == |rd.views[t].nodeOf|
    && forall p :: 0 <= p < |remote| ==>
         var node := if p == rd.views[t].rank then t else rd.views[t].nodeOf[p];
         node < |rd.offers| && rd.handle < |rd.offers[node]| && remote[p] == rd.offers[node][rd.handle] != NULL
  }

  /**
   In every interleaving of any number of rounds, a rank that has read holds exactly what each peer published
   in the same round; the assertion never fires.
   */
  lemma ExchangeComplete(rounds: seq<Round>, ss: seq<State>, schedule: seq<nat>, i: nat, t: nat)
    requires Run(rounds, ss, schedule) && i < |ss| && t < |ss[i].threads|
    ensures ss[i].threads[t].pc != AssertFailed && ss[i].threads[t].round < |rounds|
    ensures HasRead(ss[i].threads[t]) ==> Complete(rounds[ss[i].threads[t].round], t, ss[i].threads[t].remote)
  {
    RunInv(rounds, ss, schedule, i);
    var th := ss[i].threads[t];
    var rd := rounds[th.round];
    assert ThreadInv(rd, t, th);
    if HasRead(th) {
      forall p | 0 <= p < |rd.views[t].nodeOf| ensures th.remote[p] == Wanted(rd, t, p) {
        EachPeerVisitedOnce(rd.views[t].rank, |rd.views[t].nodeOf|, 0, p);
      }
    }
  }

  // ----- nobody gets stuck

  /** How far a thread has come: its round, its place in it, and the peer it reads. */
  function Stage(pc: Pc): nat {
    match pc
    case Publish => 0
    case Arrive => 1
    case Wait => 2
    case Read(_) => 3
    case ArriveEnd => 4
    case WaitEnd => 5
    case Finished => 6
    case AssertFailed => 7
  }

  predicate Further(a: Thread, b: Thread) {
    || a.round < b.round
    || (a.round == b.round && Stage(a.pc) < Stage(b.pc))
    || (a.round == b.round && a.pc.Read? && b.pc.Read? && a.pc.next < b.pc.next)
  }

  /** In every interleaving every step takes its thread further, within the rounds and the peers there are. */
  lemma StepsGoForward(rounds: seq<Round>, ss: seq<State>, schedule: seq<nat>, i: nat)
    requires Run(rounds, ss, schedule) && i < |schedule|
    ensures var t := schedule[i];
            && t < |ss[i].threads| == |ss[i + 1].threads| && Further(ss[i].threads[t], ss[i + 1].threads[t])
            && ss[i + 1].threads[t].round < |rounds| && t < |rounds[ss[i + 1].threads[t].round].views|
            && (ss[i + 1].threads[t].pc.Read? ==>
                  ss[i + 1].threads[t].pc.next <= |rounds[ss[i + 1].threads[t].round].views[t].nodeOf|)
  {
    RunInv(rounds, ss, schedule, i);
    RunInv(rounds, ss, schedule, i + 1);
    var t := schedule[i];
    assert ThreadInv(rounds[ss[i + 1].threads[t].round], t, ss[i + 1].threads[t]);
  }

  /** A thread that cannot go on waits at the barrier, is through, or is not there. */
  lemma StuckWaits(rounds: seq<Round>, s: State, t: nat)
    requires Inv(rounds, s) && t < |s.threads| && !CanStep(rounds, s, t)
    ensures s.threads[t].pc == Finished || t in s.barrier.waiting
    ensures s.threads[t].pc == Finished ==> s.threads[t].round < |rounds| && t !in s.barrier.waiting
  {
    assert ThreadInv(rounds[s.threads[t].round], t, s.threads[t]);
    AllArrived(s.barrier, ArrivalsOf(s.threads, Arrivals), s.barrier.openings);
    assert ArrivalsOf(s.threads, Arrivals)[t] == Arrivals(s.threads[t]);
    assert Passed(s.threads[t]) <= s.barrier.openings;
  }

  /** In every interleaving, as long as some thread is not through all its rounds, some thread can go on. */
  lemma NoDeadlock(rounds: seq<Round>, ss: seq<State>, schedule: seq<nat>, i: nat, u: nat)
    requires Run(rounds, ss, schedule) && i < |ss| && u < |ss[i].threads| && ss[i].threads[u].pc != Finished
    ensures exists t :: CanStep(rounds, ss[i], t)
  {
    RunInv(rounds, ss, schedule, i);
    var s := ss[i];
    if forall t: nat :: t < |s.threads| ==> !CanStep(rounds, s, t) {
      forall t: nat | t < |s.threads| ensures t in s.barrier.waiting {
        StuckWaits(rounds, s, t);
        StuckWaits(rounds, s, u);
        FinishedIsLast(rounds, s, t, u);
      }
      var all := Below(|s.threads|);
      assert all <= s.barrier.waiting;
      SubsetSize(all, s.barrier.waiting);
    }
  }

  /** A thread that is through has seen every other thread arrive at the last wait, so none waits at the barrier. */
  lemma FinishedIsLast(rounds: seq<Round>, s: State, t: nat, u: nat)
    requires Inv(rounds, s) && t < |s.threads| && u < |s.threads| && u in s.barrier.waiting
    requires s.threads[t].pc == Finished ==> s.threads[t].round + 1 == |rounds|
    ensures s.threads[t].pc != Finished
  {
    AllArrived(s.barrier, ArrivalsOf(s.threads, Arrivals), s.barrier.openings);
    assert ArrivalsOf(s.threads, Arrivals)[u] == Arrivals(s.threads[u]);
    assert ArrivalsOf(s.threads, Arrivals)[t] == Arrivals(s.threads[t]);
    assert s.threads[u].round < |rounds| && Passed(s.threads[t]) <= s.barrier.openings;
  }

  // ----- reading for the node, even and pair communicators of a node with `perCard` ranks a card

  /** Node communicator: peers are node ranks. */
  function NodeView(size: nat, r: nat): View {
    View(r, seq(size, p => p))
  }

  /** Even communicator: `get_node_rank` with the peer in the even place. */
  function EvenView(size: nat, perCard: nat, r: nat): View
    requires 0 < perCard && r < size
  {
    View(EvenRank(size, perCard, r),
         seq(|Members(InterColors(size, perCard), r % perCard)|,
             e requires 0 <= e => GetNodeRank(e, PairRank(size, perCard, r), PairSize(size, perCard, r))))
  }

  /** Pair communicator: `get_node_rank` with the peer in the pair place. */
  function PairView(size: nat, perCard: nat, r: nat): View
    requires 0 < perCard && r < size
  {
    View(PairRank(size, perCard, r),
         seq(PairSize(size, perCard, r),
             q requires 0 <= q => GetNodeRank(EvenRank(size, perCard, r), q, PairSize(size, perCard, r))))
  }

  lemma DivMod(m: nat, perCard: nat)
    requires 0 < perCard
    ensures (m / perCard) * perCard + m % perCard == m && m % perCard < perCard
  {
  }

  /** Rank m has colours m % P and m / P, and is numbered m / P and m % P in their classes. */
  lemma SubRanksOf(size: nat, perCard: nat, m: nat)
    requires 0 < perCard && m < size
    ensures var inter, intra := InterColors(size, perCard), IntraColors(size, perCard);
            && inter[m] == m % perCard && ClassRank(inter, m) == m / perCard
            && intra[m] == m / perCard && ClassRank(intra, m) == m % perCard
    ensures m / perCard <= size / perCard
    ensures PairSize(size, perCard, m) == if m / perCard < size / perCard then perCard else size % perCard
  {
    DivMod(m, perCard);
    DivMod(size, perCard);
    CardOrder(size / perCard, size % perCard, perCard, m / perCard, m % perCard);
    SubRanks(size / perCard, size % perCard, perCard, m / perCard, m % perCard);
  }

  lemma EvenMember(size: nat, perCard: nat, slot: nat, e: nat)
    requires 0 < perCard && e < |Members(InterColors(size, perCard), slot)|
    ensures Members(InterColors(size, perCard), slot)[e] == e * perCard + slot < size
  {
    var colors := InterColors(size, perCard);
    ClassNumberedInRankOrder(colors, 0, 0, slot, e);
    var m := Members(colors, slot)[e];
    SubRanksOf(size, perCard, m);
    DivMod(m, perCard);
  }

  lemma PairMember(size: nat, perCard: nat, card: nat, q: nat)
    requires 0 < perCard && q < |Members(IntraColors(size, perCard), card)|
    ensures Members(IntraColors(size, perCard), card)[q] == card * perCard + q < size
  {
    var colors := IntraColors(size, perCard);
    ClassNumberedInRankOrder(colors, 0, 0, card, q);
    var m := Members(colors, card)[q];
    SubRanksOf(size, perCard, m);
    DivMod(m, perCard);
  }

  /** The caller sits on a full card or on the first one. */
  predicate OnFullOrFirstCard(size: nat, perCard: nat, r: nat)
    requires 0 < perCard
  {
    r / perCard < size / perCard || r / perCard == 0
  }

  /** In its own place a caller computes its own node rank exactly on a full or first card. */
  lemma OwnPlace(size: nat, perCard: nat, r: nat)
    requires 0 < perCard && r < size
    ensures ValidView(EvenView(size, perCard, r)) && ValidView(PairView(size, perCard, r))
    ensures var v := EvenView(size, perCard, r);
            v.nodeOf[v.rank] == r <==> OnFullOrFirstCard(size, perCard, r)
    ensures var v := PairView(size, perCard, r);
            v.nodeOf[v.rank] == r <==> OnFullOrFirstCard(size, perCard, r)
  {
    SubRanksOf(size, perCard, r);
    ClassRankIsPosition(InterColors(size, perCard), r);
    ClassRankIsPosition(IntraColors(size, perCard), r);
    DivMod(r, perCard);
    DivMod(size, perCard);
    NodeRankRoundTripIff(size / perCard, size % perCard, perCard, r / perCard, r % perCard);
  }

  lemma EvenNamed(size: nat, perCard: nat, r: nat, e: nat)
    requires 0 < perCard && r < size && OnFullOrFirstCard(size, perCard, r)
    requires e < |Members(InterColors(size, perCard), r % perCard)|
    ensures EvenView(size, perCard, r).nodeOf[e] == Members(InterColors(size, perCard), r % perCard)[e]
  {
    SubRanksOf(size, perCard, r);
    EvenMember(size, perCard, r % perCard, e);
    if size / perCard == 0 {
      DivMod(size, perCard);
      MultipleWithin(perCard, e);
    }
  }

  lemma PairNamed(size: nat, perCard: nat, r: nat, q: nat)
    requires 0 < perCard && r < size && OnFullOrFirstCard(size, perCard, r) && q < PairSize(size, perCard, r)
    ensures PairView(size, perCard, r).nodeOf[q] == Members(IntraColors(size, perCard), r / perCard)[q]
  {
    SubRanksOf(size, perCard, r);
    PairMember(size, perCard, r / perCard, q);
  }

  /**
   The node ranks a caller computes for its even peers are the members of its even communicator, in order,
   exactly when the caller sits on a full card or on the first one; and likewise for its pair peers.
   */
  lemma ViewsNameTheMembersIff(size: nat, perCard: nat, r: nat)
    requires 0 < perCard && r < size
    ensures EvenView(size, perCard, r).nodeOf == Members(InterColors(size, perCard), r % perCard)
            <==> OnFullOrFirstCard(size, perCard, r)
    ensures PairView(size, perCard, r).nodeOf == Members(IntraColors(size, perCard), r / perCard)
            <==> OnFullOrFirstCard(size, perCard, r)
  {
    OwnPlace(size, perCard, r);
    SubRanksOf(size, perCard, r);
    ClassRankIsPosition(InterColors(size, perCard), r);
    ClassRankIsPosition(IntraColors(size, perCard), r);
    if OnFullOrFirstCard(size, perCard, r) {
      forall e | 0 <= e < |EvenView(size, perCard, r).nodeOf|
        ensures EvenView(size, perCard, r).nodeOf[e] == Members(InterColors(size, perCard), r % perCard)[e]
      {
        EvenNamed(size, perCard, r, e);
      }
      forall q | 0 <= q < |PairView(size, perCard, r).nodeOf|
        ensures PairView(size, perCard, r).nodeOf[q] == Members(IntraColors(size, perCard), r / perCard)[q]
      {
        PairNamed(size, perCard, r, q);
      }
    }
  }

  lemma ScaledDown(e: nat, a: nat, b: nat)
    requires a <= b
    ensures e * a <= e * b
  {
  }

  /** Every caller's views stay on the node, so every lookup of an exchange finds some rank's entry. */
  lemma ViewsStayOnTheNode(size: nat, perCard: nat, r: nat)
    requires 0 < perCard && r < size
    ensures forall e :: 0 <= e < |EvenView(size, perCard, r).nodeOf| ==> EvenView(size, perCard, r).nodeOf[e] < size
    ensures forall q :: 0 <= q < |PairView(size, perCard, r).nodeOf| ==> PairView(size, perCard, r).nodeOf[q] < size
  {
    SubRanksOf(size, perCard, r);
    DivMod(size, perCard);
    var s := PairSize(size, perCard, r);
    forall e | 0 <= e < |EvenView(size, perCard, r).nodeOf| ensures EvenView(size, perCard, r).nodeOf[e] < size {
      EvenMember(size, perCard, r % perCard, e);
      ScaledDown(e, s, perCard);
    }
    forall q | 0 <= q < |PairView(size, perCard, r).nodeOf| ensures PairView(size, perCard, r).nodeOf[q] < size {
      PairMember(size, perCard, r / perCard, q);
      ScaledDown(r / perCard, s, perCard);
    }
  }

  /** On five ranks with two a card, rank 4 looks up node rank 1 for its even peer 2. */
  lemma PartCardMisnames()
    ensures |Members(InterColors(5, 2), 0)| > 1 && Members(InterColors(5, 2), 0)[1] == 2
    ensures |EvenView(5, 2, 4).nodeOf| > 1 && EvenView(5, 2, 4).nodeOf[1] == 1
  {
    SubRanksOf(5, 2, 4);
    ClassRankIsPosition(InterColors(5, 2), 4);
    EvenMember(5, 2, 0, 1);
  }

  /** What thread t's array holds for a peer is what node rank `node` published in the thread's round. */
  ghost predicate Delivered(rounds: seq<Round>, s: State, t: nat, peer: nat, node: nat) {
    && t < |s.threads| && s.threads[t].round < |rounds| && peer < |s.threads[t].remote|
    && var rd := rounds[s.threads[t].round];
       && node < |rd.offers| && rd.handle < |rd.offers[node]|
       && s.threads[t].remote[peer] == rd.offers[node][rd.handle]
  }

  /** End to end for the node communicator: slot p holds the pointer of node rank p. */
  lemma NodeExchange(rounds: seq<Round>, ss: seq<State>, schedule: seq<nat>, i: nat, t: nat, p: nat)
    requires Run(rounds, ss, schedule) && i < |ss| && t < |ss[i].threads| && HasRead(ss[i].threads[t])
    requires ss[i].threads[t].round < |rounds| && t < |rounds[ss[i].threads[t].round].views|
    requires rounds[ss[i].threads[t].round].views[t] == NodeView(|ss[i].threads|, t) && p < |ss[i].threads|
    ensures Delivered(rounds, ss[i], t, p, p)
  {
    ExchangeComplete(rounds, ss, schedule, i, t);
    assert NodeView(|ss[i].threads|, t).nodeOf[p] == p && ss[i].threads[t].remote[p] != NULL;
  }

  /**
   End to end for even communicators, in every round: slot e holds the pointer of the e-th rank of the caller's
   even communicator, for every caller on a full card or on the first one.
   */
  lemma EvenExchange(rounds: seq<Round>, ss: seq<State>, schedule: seq<nat>, i: nat, t: nat, perCard: nat, e: nat)
    requires Run(rounds, ss, schedule) && i < |ss| && t < |ss[i].threads| && HasRead(ss[i].threads[t])
    requires ss[i].threads[t].round < |rounds| && t < |rounds[ss[i].threads[t].round].views| && 0 < perCard
    requires rounds[ss[i].threads[t].round].views[t] == EvenView(|ss[i].threads|, perCard, t)
    requires OnFullOrFirstCard(|ss[i].threads|, perCard, t)
    requires e < |Members(InterColors(|ss[i].threads|, perCard), t % perCard)|
    ensures Delivered(rounds, ss[i], t, e, Members(InterColors(|ss[i].threads|, perCard), t % perCard)[e])
  {
    ExchangeComplete(rounds, ss, schedule, i, t);
    ViewsNameTheMembersIff(|ss[i].threads|, perCard, t);
    OwnPlace(|ss[i].threads|, perCard, t);
  }

  /** The same for pair communicators. */
  lemma PairExchange(rounds: seq<Round>, ss: seq<State>, schedule: seq<nat>, i: nat, t: nat, perCard: nat, q: nat)
    requires Run(rounds, ss, schedule) && i < |ss| && t < |ss[i].threads| && HasRead(ss[i].threads[t])
    requires ss[i].threads[t].round < |rounds| && t < |rounds[ss[i].threads[t].round].views| && 0 < perCard
    requires rounds[ss[i].threads[t].round].views[t] == PairView(|ss[i].threads|, perCard, t)
    requires OnFullOrFirstCard(|ss[i].threads|, perCard, t)
    requires q < |Members(IntraColors(|ss[i].threads|, perCard), t / perCard)|
    ensures Delivered(rounds, ss[i], t, q, Members(IntraColors(|ss[i].threads|, perCard), t / perCard)[q])
  {
    ExchangeComplete(rounds, ss, schedule, i, t);
    ViewsNameTheMembersIff(|ss[i].threads|, perCard, t);
    OwnPlace(|ss[i].threads|, perCard, t);
  }
}
