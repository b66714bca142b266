/**
 The ring of scale-out host buffers (`ccl_scaleout_host_bufs` in src/comm/comm.cpp and src/comm/comm.hpp), and the
 stack of depth three it stands for.
 */
module HostBufs {

  /** An address; null is 0. */
  type Address = nat
  const NULLPTR: Address := 0

  const BUF_COUNT: nat := 3

  /** What the allocator gives when asked: memory, null on failure, or an unknown allocation mode. */
  datatype Allocation = Memory(ptr: Address) | UnexpectedMode

  datatype Op = Get(envBufSize: nat, allocation: Allocation) | Put(buf: Address)

  datatype Outcome = Buf(ptr: Address) | Done | Thrown

  /** The fields of the class as a value. */
  datatype Ring = Ring(bufSize: nat, bufs: seq<Address>, index: nat) {
    predicate Valid() {
      |bufs| == BUF_COUNT && index < BUF_COUNT
    }
  }

  const START := Ring(0, [NULLPTR, NULLPTR, NULLPTR], 0)

  function Next(i: nat): nat { (i + 1) % BUF_COUNT }

  function Prev(i: nat): nat { (i + BUF_COUNT - 1) % BUF_COUNT }

  /** One call: the new state and what the caller sees. */
  function Step(r: Ring, op: Op): (Ring, Outcome)
    requires r.Valid()
  {
    match op
    case Get(envBufSize, allocation) =>
      var size := if r.bufSize == 0 then envBufSize else r.bufSize;
      if r.bufs[r.index] != NULLPTR then (r.(index := Next(r.index)), Buf(r.bufs[r.index]))
      else if size == 0 then (r, Thrown)
      else if allocation.UnexpectedMode? || allocation.ptr == NULLPTR then (r.(bufSize := size), Thrown)
      else (Ring(size, r.bufs[r.index := allocation.ptr], Next(r.index)), Buf(allocation.ptr))
    case Put(buf) =>
      if r.bufs[Prev(r.index)] == buf then (r.(index := Prev(r.index)), Done) else (r, Thrown)
  }

  class ScaleoutHostBufs {
    var bufSize: nat
    var index: nat
    const hostBufs: array<Address>

    ghost predicate Valid()
      reads this
    {
      hostBufs.Length == BUF_COUNT && index < BUF_COUNT
    }

    ghost function State(): (r: Ring)
      requires Valid()
      reads this, hostBufs
      ensures r.Valid()
    {
      Ring(bufSize, hostBufs[..], index)
    }

    constructor ()
      ensures Valid() && fresh(hostBufs) && State() == START
    {
      bufSize := 0;
      index := 0;
      hostBufs := new Address[BUF_COUNT](_ => NULLPTR);
      new;
      assert hostBufs[..] == START.bufs;
    }

    method GetScaleoutHostBufSize(envBufSize: nat) returns (size: nat)
      modifies this`bufSize
      ensures size == bufSize == if old(bufSize) == 0 then envBufSize else old(bufSize)
    {
      if bufSize == 0 {
        bufSize := envBufSize;
      }
      return bufSize;
    }

    method GetScaleoutHostBuf(envBufSize: nat, allocation: Allocation) returns (o: Outcome)
      requires Valid()
      modifies this, hostBufs
      ensures Valid() && (State(), o) == Step(old(State()), Get(envBufSize, allocation))
    {
      if hostBufs[index] == NULLPTR {
        var size := GetScaleoutHostBufSize(envBufSize);
        if size == 0 {
          return Thrown;
        }
        if allocation.UnexpectedMode? {
          return Thrown;
        }
        hostBufs[index] := allocation.ptr;
        if hostBufs[index] == NULLPTR {
          assert hostBufs[..] == old(hostBufs[..]);
          return Thrown;
        }
      }
      var oldIndex := index;
      index := (index + 1) % BUF_COUNT;
      return Buf(hostBufs[oldIndex]);
    }

    method PutScaleoutHostBuf(buf: Address) returns (o: Outcome)
      requires Valid()
      modifies this`index
      ensures Valid() && (State(), o) == Step(old(State()), Put(buf))
    {
      var oldIndex := (index + BUF_COUNT - 1) % BUF_COUNT;
      if hostBufs[oldIndex] != buf {
        return Thrown;
      }
      index := oldIndex;
      return Done;
    }
  }

  // ---------------------------------------------------------------- the stack

  /** The callers' view: the buffers handed out and not yet returned, the newest last. */
  type Stack = seq<Address>

  /** The next slot is empty, and there is no size to allocate or the allocation fails. */
  predicate Exhausted(r: Ring, op: Op)
    requires r.Valid() && op.Get?
  {
    && r.bufs[r.index] == NULLPTR
    && ((r.bufSize == 0 && op.envBufSize == 0) || op.allocation.UnexpectedMode? || op.allocation.ptr == NULLPTR)
  }

  /** What a stack of buffers lets a call do; a get throws exactly when no buffer can be had. */
  predicate Allows(s: Stack, exhausted: bool, op: Op, o: Outcome, after: Stack) {
    match (op, o)
    case (Get(_, _), Buf(b)) => !exhausted && b != NULLPTR && b !in s && after == s + [b]
    case (Put(b), Done) => s != [] && b == s[|s| - 1] && after == s[..|s| - 1]
    case (Get(_, _), Thrown) => exhausted && after == s
    case (Put(b), Thrown) => after == s && (s == [] || b != s[|s| - 1])
    case _ => false
  }

  /** The stack after a call, by the outcome alone; a return that succeeds on an empty stack leaves it empty. */
  function Tracked(s: Stack, o: Outcome): Stack {
    match o
    case Buf(b) => s + [b]
    case Done => if s == [] then [] else s[..|s| - 1]
    case Thrown => s
  }

  /** The slot that holds the k-th newest outstanding buffer. */
  function SlotOf(index: nat, k: nat): nat { (index + 2 * BUF_COUNT - 1 - k) % BUF_COUNT }

  predicate Distinct(bufs: seq<Address>) {
    forall i, j :: 0 <= i < j < |bufs| && bufs[i] == bufs[j] ==> bufs[i] == NULLPTR
  }

  /** The ring holds the stack: the outstanding buffers are the slots just behind the index. */
  predicate Holds(r: Ring, s: Stack) {
    && r.Valid()
    && |s| <= BUF_COUNT
    && Distinct(r.bufs)
    && (forall k :: 0 <= k < |s| ==> s[|s| - 1 - k] == r.bufs[SlotOf(r.index, k)] != NULLPTR)
  }

  /** The allocator never hands out memory that is still in use. */
  predicate FreshMemory(r: Ring, op: Op) {
    op.Get? && op.allocation.Memory? && op.allocation.ptr != NULLPTR ==> op.allocation.ptr !in r.bufs
  }

  lemma OnlyOneSlot(r: Ring, s: Stack, slot: nat)
    requires Holds(r, s) && slot < BUF_COUNT && r.bufs[slot] != NULLPTR
    ensures r.bufs[slot] in s <==> exists k :: 0 <= k < |s| && SlotOf(r.index, k) == slot
  {
    if k :| 0 <= k < |s| && SlotOf(r.index, k) == slot {
      assert s[|s| - 1 - k] == r.bufs[slot];
    }
    if i :| 0 <= i < |s| && s[i] == r.bufs[slot] {
      var k := |s| - 1 - i;
      assert s[|s| - 1 - k] == r.bufs[SlotOf(r.index, k)];
    }
  }

  /** The slot at the index is outstanding exactly when all three are: then it is the oldest. */
  lemma NextSlotTaken(r: Ring, s: Stack)
    requires Holds(r, s)
    ensures (exists k :: 0 <= k < |s| && SlotOf(r.index, k) == r.index) <==> |s| == BUF_COUNT
  {
    assert SlotOf(r.index, 2) == r.index;
  }

  /** A get with fewer than three outstanding keeps ring and stack in step. */
  lemma GetHolds(r: Ring, s: Stack, op: Op)
    requires Holds(r, s) && op.Get? && FreshMemory(r, op) && |s| < BUF_COUNT
    ensures Holds(Step(r, op).0, Tracked(s, Step(r, op).1))
  {
    var (after, o) := Step(r, op);
    if o.Buf? {
      var t := s + [o.ptr];
      forall k | 0 <= k < |t| ensures t[|t| - 1 - k] == after.bufs[SlotOf(after.index, k)] != NULLPTR {
        if 0 < k {
          assert SlotOf(after.index, k) == SlotOf(r.index, k - 1);
          assert t[|t| - 1 - k] == s[|s| - 1 - (k - 1)];
        }
      }
    }
  }

  /** A return keeps ring and stack in step when something is outstanding or the pointer is refused. */
  lemma PutHolds(r: Ring, s: Stack, op: Op)
    requires Holds(r, s) && op.Put? && (s != [] || op.buf != r.bufs[Prev(r.index)])
    ensures Holds(Step(r, op).0, Tracked(s, Step(r, op).1))
  {
    var (after, o) := Step(r, op);
    assert SlotOf(r.index, 0) == Prev(r.index);
    if o.Done? {
      var t := s[..|s| - 1];
      forall k | 0 <= k < |t| ensures t[|t| - 1 - k] == after.bufs[SlotOf(after.index, k)] != NULLPTR {
        assert SlotOf(after.index, k) == SlotOf(r.index, k + 1);
        assert t[|t| - 1 - k] == s[|s| - 1 - (k + 1)];
      }
    }
  }

  /**
   A get does what the stack allows exactly when fewer than three buffers are outstanding. With three
   outstanding it hands the oldest one out again.
   */
  lemma GetRefinesIff(r: Ring, s: Stack, op: Op)
    requires Holds(r, s) && op.Get? && FreshMemory(r, op)
    ensures Allows(s, Exhausted(r, op), op, Step(r, op).1, Tracked(s, Step(r, op).1)) <==> |s| < BUF_COUNT
    ensures |s| == BUF_COUNT ==> Step(r, op).1 == Buf(s[0])
  {
    NextSlotTaken(r, s);
    if r.bufs[r.index] != NULLPTR {
      OnlyOneSlot(r, s, r.index);
    }
    if |s| == BUF_COUNT {
      assert SlotOf(r.index, 2) == r.index;
      assert s[|s| - 1 - 2] == r.bufs[r.index] != NULLPTR;
    } else if r.bufs[r.index] == NULLPTR && op.allocation.Memory? {
      forall i | 0 <= i < |s| ensures s[i] in r.bufs {
        var k := |s| - 1 - i;
        assert s[|s| - 1 - k] == r.bufs[SlotOf(r.index, k)];
      }
    }
  }

  /**
   A return does what the stack allows exactly when something is outstanding or the pointer is not the
   content of the slot behind the index. So while anything is outstanding only the newest can be returned.
   */
  lemma PutRefinesIff(r: Ring, s: Stack, op: Op)
    requires Holds(r, s) && op.Put?
    ensures Allows(s, false, op, Step(r, op).1, Tracked(s, Step(r, op).1)) <==>
            s != [] || op.buf != r.bufs[Prev(r.index)]
    ensures s != [] ==> (Step(r, op).1 == Done <==> op.buf == s[|s| - 1])
  {
    if s != [] {
      assert SlotOf(r.index, 0) == Prev(r.index);
      assert s[|s| - 1 - 0] == r.bufs[Prev(r.index)];
    }
  }

  // ---------------------------------------------------------------- runs

  datatype World = World(ring: Ring, stack: Stack)

  function After(w: World, op: Op): World
    requires w.ring.Valid()
  {
    var (r, o) := Step(w.ring, op);
    World(r, Tracked(w.stack, o))
  }

  /**
   A run of calls in which every get finds fewer than three outstanding, and a return with nothing
   outstanding does not name the content of the slot behind the index.
   */
  ghost predicate Run(ws: seq<World>, ops: seq<Op>) {
    && |ws| == |ops| + 1
    && ws[0] == World(START, [])
    && forall n {:trigger ops[n]} :: 0 <= n < |ops| ==>
         && ws[n].ring.Valid()
         && FreshMemory(ws[n].ring, ops[n])
         && (ops[n].Get? ==> |ws[n].stack| < BUF_COUNT)
         && (ops[n].Put? ==> ws[n].stack != [] || ops[n].buf != ws[n].ring.bufs[Prev(ws[n].ring.index)])
         && ws[n + 1] == After(ws[n], ops[n])
  }

  lemma {:induction false} RunHolds(ws: seq<World>, ops: seq<Op>, n: nat)
    requires Run(ws, ops) && n <= |ops|
    ensures Holds(ws[n].ring, ws[n].stack)
  {
    if n != 0 {
      RunHolds(ws, ops, n - 1);
      var w, op := ws[n - 1], ops[n - 1];
      assert ws[n] == After(w, op);
      if op.Get? { GetHolds(w.ring, w.stack, op); } else { PutHolds(w.ring, w.stack, op); }
    }
  }

  /** Every call of such a run does what a stack of buffers allows. */
  lemma RingRefinesStack(ws: seq<World>, ops: seq<Op>, n: nat)
    requires Run(ws, ops) && n < |ops|
    ensures ws[n].ring.Valid()
    ensures var exhausted := ops[n].Get? && Exhausted(ws[n].ring, ops[n]);
            Allows(ws[n].stack, exhausted, ops[n], Step(ws[n].ring, ops[n]).1, ws[n + 1].stack)
  {
    RunHolds(ws, ops, n);
    var w := ws[n];
    assert ws[n + 1] == After(w, ops[n]);
    if ops[n].Get? { GetRefinesIff(w.ring, w.stack, ops[n]); } else { PutRefinesIff(w.ring, w.stack, ops[n]); }
  }

  /** At every point of a run the outstanding buffers are pairwise different and not null. */
  lemma OutstandingDiffer(ws: seq<World>, ops: seq<Op>, n: nat, i: nat, j: nat)
    requires Run(ws, ops) && n <= |ops| && i < j < |ws[n].stack|
    ensures ws[n].stack[i] != ws[n].stack[j] && ws[n].stack[i] != NULLPTR
  {
    RunHolds(ws, ops, n);
    var w := ws[n];
    var ki, kj := |w.stack| - 1 - i, |w.stack| - 1 - j;
    assert w.stack[|w.stack| - 1 - ki] == w.ring.bufs[SlotOf(w.ring.index, ki)];
    assert w.stack[|w.stack| - 1 - kj] == w.ring.bufs[SlotOf(w.ring.index, kj)];
  }

  /** From the start, the index is the number of buffers outstanding, and the buffer at depth d is slot d. */
  lemma {:induction false} RunIndex(ws: seq<World>, ops: seq<Op>, n: nat)
    requires Run(ws, ops) && n <= |ops|
    ensures ws[n].ring.index == |ws[n].stack| % BUF_COUNT
  {
    if n != 0 {
      RunIndex(ws, ops, n - 1);
      assert ws[n] == After(ws[n - 1], ops[n - 1]);
      RunHolds(ws, ops, n - 1);
    }
  }

  lemma DepthIsSlot(ws: seq<World>, ops: seq<Op>, n: nat, d: nat)
    requires Run(ws, ops) && n <= |ops| && d < |ws[n].stack|
    ensures d < BUF_COUNT == |ws[n].ring.bufs| && ws[n].stack[d] == ws[n].ring.bufs[d] != NULLPTR
  {
    RunIndex(ws, ops, n);
    RunHolds(ws, ops, n);
    var w := ws[n];
    var k := |w.stack| - 1 - d;
    assert w.stack[|w.stack| - 1 - k] == w.ring.bufs[SlotOf(w.ring.index, k)];
    assert SlotOf(w.ring.index, k) == d;
  }

  lemma {:induction false} RunSlotsStable(ws: seq<World>, ops: seq<Op>, m: nat, n: nat, slot: nat)
    requires Run(ws, ops) && m <= n <= |ops| && slot < BUF_COUNT
    requires ws[m].ring.Valid() && ws[m].ring.bufs[slot] != NULLPTR
    ensures ws[n].ring.Valid() && ws[n].ring.bufs[slot] == ws[m].ring.bufs[slot]
  {
    if m < n {
      RunSlotsStable(ws, ops, m, n - 1, slot);
      assert ws[n] == After(ws[n - 1], ops[n - 1]);
    }
  }

  /** A get at a depth that was in use before in the run cannot throw: it hands out the very buffer it did then. */
  lemma DepthKeepsItsBuffer(ws: seq<World>, ops: seq<Op>, m: nat, n: nat)
    requires Run(ws, ops) && m <= n < |ops| && ops[n].Get? && |ws[n].stack| < |ws[m].stack|
    ensures ws[n].ring.Valid() && Step(ws[n].ring, ops[n]).1 == Buf(ws[m].stack[|ws[n].stack|])
  {
    var d := |ws[n].stack|;
    DepthIsSlot(ws, ops, m, d);
    RunHolds(ws, ops, m);
    RunSlotsStable(ws, ops, m, n, d);
    RunIndex(ws, ops, n);
  }

  /** Any calls at all, in any order. */
  function Calls(r: Ring, ops: seq<Op>): (after: Ring)
    requires r.Valid()
    ensures after.Valid()
    decreases |ops|
  {
    if ops == [] then r else Calls(Step(r, ops[0]).0, ops[1..])
  }

  /** A slot is allocated at most once: over any calls, once it holds a pointer it keeps that pointer. */
  lemma {:induction false} SlotsAreStable(r: Ring, ops: seq<Op>, slot: nat)
    requires r.Valid() && slot < BUF_COUNT && r.bufs[slot] != NULLPTR
    ensures Calls(r, ops).bufs[slot] == r.bufs[slot]
    decreases |ops|
  {
    if ops != [] {
      SlotsAreStable(Step(r, ops[0]).0, ops[1..], slot);
    }
  }

  /**
   The buffer size is taken from the environment by the first get that finds its slot empty and the size zero,
   and by no other call.
   */
  lemma SizeAfterCall(r: Ring, op: Op)
    requires r.Valid()
    ensures Step(r, op).0.bufSize
            == if op.Get? && r.bufs[r.index] == NULLPTR && r.bufSize == 0 then op.envBufSize else r.bufSize
  {
  }

  /** Once it is not zero it stays, over any calls. */
  lemma {:induction false} SizeIsStable(r: Ring, ops: seq<Op>)
    requires r.Valid() && r.bufSize != 0
    ensures Calls(r, ops).bufSize == r.bufSize
    decreases |ops|
  {
    if ops != [] {
      SizeAfterCall(r, ops[0]);
      SizeIsStable(Step(r, ops[0]).0, ops[1..]);
    }
  }

  /** Returning a buffer undoes its get, and the next get hands out the same pointer, whatever the allocator says. */
  lemma PutUndoesGet(r: Ring, get: Op, again: Op)
    requires r.Valid() && get.Get? && again.Get? && Step(r, get).1.Buf?
    ensures var (r1, o1) := Step(r, get);
            var (r2, o2) := Step(r1, Put(o1.ptr));
            && o2 == Done && r2.index == r.index
            && r2.bufs == r.bufs[r.index := o1.ptr]
            && Step(r2, again) == (r1, o1)
  {
    assert Prev(Next(r.index)) == r.index;
  }

  /** With nothing ever handed out, returning null succeeds and moves the index back: outside the stack. */
  lemma NullReturnAccepted()
    ensures Step(START, Put(NULLPTR)) == (START.(index := 2), Done)
  {
    assert Prev(0) == 2;
  }
}
