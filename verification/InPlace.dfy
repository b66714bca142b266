/**
 In-place detection: is the send buffer the rank's own slot of the receive buffer
 (src/coll/coll_util.cpp, src/coll/coll_param.cpp).
 */
module InPlace {
  import opened ScaleoutStaging

  /** An address; null is 0. */
  type Address = nat
  const NULLPTR: Address := 0

  datatype Verdict = Placed(inplace: bool, aliasing: bool) | CountMismatch | AliasingError

  /** The start of a rank's slot when the slots lie one after the other. */
  function Slot(buf: Address, counts: seq<nat>, dtypeSize: nat, rank: nat): Address
    requires rank <= |counts|
  {
    buf + Offset(Bytes(counts, dtypeSize), rank)
  }

  /** The address lies in the buffer of all slots. */
  predicate Overlaps(p: Address, buf: Address, counts: seq<nat>, dtypeSize: nat) {
    buf <= p < buf + Sum(Bytes(counts, dtypeSize))
  }

  /** The exceptional outcomes of both tests: an overlap that is not in place, when the check is switched on. */
  function Outcome(inplace: bool, aliasing: bool, checkAliasing: bool): Verdict {
    if aliasing && !inplace && checkAliasing then AliasingError else Placed(inplace, aliasing)
  }

  lemma PrefixStep(counts: seq<nat>, i: nat)
    requires i < |counts|
    ensures Sum(counts[..i + 1]) == Sum(counts[..i]) + counts[i]
  {
    assert counts[..i + 1][..i] == counts[..i];
  }

  lemma SlotScaled(counts: seq<nat>, dtypeSize: nat, rank: nat)
    requires rank <= |counts|
    ensures Offset(Bytes(counts, dtypeSize), rank) == Sum(counts[..rank]) * dtypeSize
  {
    SumScaled(counts[..rank], dtypeSize);
    assert Bytes(counts, dtypeSize)[..rank] == Bytes(counts[..rank], dtypeSize);
  }

  /** Slot 0 starts the buffer, and each slot is followed by the next. */
  lemma SlotsInRankOrder(buf: Address, counts: seq<nat>, dtypeSize: nat, r: nat)
    requires r < |counts|
    ensures Slot(buf, counts, dtypeSize, 0) == buf
    ensures Slot(buf, counts, dtypeSize, r + 1) == Slot(buf, counts, dtypeSize, r) + counts[r] * dtypeSize
  {
    OffsetStep(Bytes(counts, dtypeSize), r);
  }

  /** The address is a byte of rank r's slot. */
  predicate InSlot(p: Address, buf: Address, counts: seq<nat>, dtypeSize: nat, r: nat)
    requires r < |counts|
  {
    Slot(buf, counts, dtypeSize, r) <= p < Slot(buf, counts, dtypeSize, r) + counts[r] * dtypeSize
  }

  /** The slots tile the receive buffer: its bytes are exactly those of the slots, and no two slots share one. */
  lemma SlotsTile(p: Address, buf: Address, counts: seq<nat>, dtypeSize: nat)
    ensures Overlaps(p, buf, counts, dtypeSize) <==>
            exists r: nat :: r < |counts| && InSlot(p, buf, counts, dtypeSize, r)
    ensures forall r: nat, s: nat ::
              && r < |counts| && s < |counts|
              && InSlot(p, buf, counts, dtypeSize, r) && InSlot(p, buf, counts, dtypeSize, s)
              ==> r == s
  {
    var lens := Bytes(counts, dtypeSize);
    if Overlaps(p, buf, counts, dtypeSize) {
      var r := RangesTile(lens, p - buf);
      assert InSlot(p, buf, counts, dtypeSize, r);
    }
    forall r: nat | r < |counts| && InSlot(p, buf, counts, dtypeSize, r)
      ensures Overlaps(p, buf, counts, dtypeSize)
      ensures forall s: nat :: s < |counts| && InSlot(p, buf, counts, dtypeSize, s) ==> r == s
    {
      assert lens[..|lens|] == lens;
      OffsetsOrdered(lens, r, |lens|);
      var owner := RangesTile(lens, p - buf);
    }
  }

  datatype OptionalOffset = Given(bytes: nat) | NotGiven

  /** `is_allgatherv_inplace`. `recvOffset` is the rank's byte offset when the caller gives offsets. */
  method IsAllgathervInplace(
    sendBuf: Address, sendCount: nat, recvBuf: Address, recvCounts: seq<nat>, recvOffset: OptionalOffset,
    dtypeSize: nat, rank: nat, checkAliasing: bool)
    returns (v: Verdict)
    requires rank < |recvCounts|
    ensures v == AllgathervVerdict(sendBuf, sendCount, recvBuf, recvCounts, recvOffset, dtypeSize, rank, checkAliasing)
    ensures v == CountMismatch <==> sendCount != recvCounts[rank]
    ensures v == AliasingError <==>
            && sendCount == recvCounts[rank] && checkAliasing && sendBuf != NULLPTR
            && sendBuf != (if recvOffset.Given? then recvBuf + recvOffset.bytes
                           else Slot(recvBuf, recvCounts, dtypeSize, rank))
            && exists r: nat :: r < |recvCounts| && InSlot(sendBuf, recvBuf, recvCounts, dtypeSize, r)
    ensures v.Placed? ==>
              && (v.inplace <==>
                  || sendBuf == NULLPTR
                  || sendBuf == if recvOffset.Given? then recvBuf + recvOffset.bytes
                                else Slot(recvBuf, recvCounts, dtypeSize, rank))
              && (v.aliasing <==>
                  exists r: nat :: r < |recvCounts| && InSlot(sendBuf, recvBuf, recvCounts, dtypeSize, r))
  {
    SlotsTile(sendBuf, recvBuf, recvCounts, dtypeSize);
    var totalRecvBufCount := 0;
    var currRecvBufOffsetCount := 0;
    var i := 0;
    while i < |recvCounts|
      invariant 0 <= i <= |recvCounts|
      invariant totalRecvBufCount == Sum(recvCounts[..i])
      invariant currRecvBufOffsetCount == if rank < i then Sum(recvCounts[..rank]) else 0
    {
      PrefixStep(recvCounts, i);
      if i == rank {
        currRecvBufOffsetCount := totalRecvBufCount;
      }
      totalRecvBufCount := totalRecvBufCount + recvCounts[i];
      i := i + 1;
    }
    assert recvCounts[..|recvCounts|] == recvCounts;
    SumScaled(recvCounts, dtypeSize);
    SlotScaled(recvCounts, dtypeSize, rank);
    var recvBufSize := totalRecvBufCount * dtypeSize;
    var aliasing := recvBuf <= sendBuf && sendBuf < recvBuf + recvBufSize;
    var currOffset := if recvOffset.Given? then recvOffset.bytes else currRecvBufOffsetCount * dtypeSize;
    var inplace := sendBuf == NULLPTR || sendBuf == recvBuf + currOffset;
    if sendCount != recvCounts[rank] {
      return CountMismatch;
    }
    if aliasing && !inplace && checkAliasing {
      return AliasingError;
    }
    return Placed(inplace, aliasing);
  }

  function AllgathervVerdict(
    sendBuf: Address, sendCount: nat, recvBuf: Address, recvCounts: seq<nat>, recvOffset: OptionalOffset,
    dtypeSize: nat, rank: nat, checkAliasing: bool): Verdict
    requires rank < |recvCounts|
  {
    var slot := if recvOffset.Given? then recvBuf + recvOffset.bytes else Slot(recvBuf, recvCounts, dtypeSize, rank);
    if sendCount != recvCounts[rank] then CountMismatch
    else
      Outcome(sendBuf == NULLPTR || sendBuf == slot, Overlaps(sendBuf, recvBuf, recvCounts, dtypeSize), checkAliasing)
  }

  /** `is_reduce_scatter_inplace`, in closed form. */
  function IsReduceScatterInplace(
    sendBuf: Address, recvBuf: Address, recvCount: nat, dtypeSize: nat, rank: nat, commSize: nat,
    checkAliasing: bool): Verdict
  {
    var recvBufSize := recvCount * dtypeSize;
    var sendBufSize := recvBufSize * commSize;
    var aliasing := sendBuf <= recvBuf && recvBuf < sendBuf + sendBufSize;
    Outcome(recvBuf == sendBuf + rank * recvBufSize, aliasing, checkAliasing)
  }

  lemma Reassociated(a: nat, b: nat, c: nat)
    ensures a * (b * c) == a * b * c && (b * c) * a == b * a * c
  {
  }

  /**
   What the closed form decides: it throws exactly when the check is on and the receive buffer, not being the
   rank's slot of the send buffer, is a byte of some slot; otherwise in place means being that slot, and
   aliasing being a byte of some slot.
   */
  lemma ReduceScatterVerdict(
    sendBuf: Address, recvBuf: Address, count: nat, dtypeSize: nat, rank: nat, commSize: nat, checkAliasing: bool)
    requires rank < commSize
    ensures var counts := seq(commSize, _ => count);
            var v := IsReduceScatterInplace(sendBuf, recvBuf, count, dtypeSize, rank, commSize, checkAliasing);
            var own := recvBuf == Slot(sendBuf, counts, dtypeSize, rank);
            var touches := exists r: nat :: r < |counts| && InSlot(recvBuf, sendBuf, counts, dtypeSize, r);
            && v != CountMismatch
            && (v == AliasingError <==> checkAliasing && !own && touches)
            && (v.Placed? ==> (v.inplace <==> own) && (v.aliasing <==> touches))
  {
    EqualCounts(commSize, count, rank, dtypeSize);
    Reassociated(rank, count, dtypeSize);
    Reassociated(commSize, count, dtypeSize);
    SlotsTile(recvBuf, sendBuf, seq(commSize, _ => count), dtypeSize);
  }

  /**
   The closed-form reduce-scatter test gives the verdict of the loop test with equal counts and the two
   buffers swapped, for every input but a null receive buffer that is not the rank's slot of the send
   buffer: the loop test takes null for in place.
   */
  lemma ReduceScatterIsAllgathervSwapped(
    sendBuf: Address, recvBuf: Address, count: nat, dtypeSize: nat, rank: nat, commSize: nat, checkAliasing: bool)
    requires rank < commSize
    ensures var counts := seq(commSize, _ => count);
            IsReduceScatterInplace(sendBuf, recvBuf, count, dtypeSize, rank, commSize, checkAliasing)
            == AllgathervVerdict(recvBuf, count, sendBuf, counts, NotGiven, dtypeSize, rank, checkAliasing)
            <==> recvBuf != NULLPTR || recvBuf == Slot(sendBuf, counts, dtypeSize, rank)
  {
    var counts := seq(commSize, _ => count);
    EqualCounts(commSize, count, rank, dtypeSize);
    Reassociated(rank, count, dtypeSize);
    Reassociated(commSize, count, dtypeSize);
  }

  /** An in-place buffer that is not empty always lies in the receive buffer, so the aliasing flag is up as well. */
  lemma InPlaceOverlaps(sendBuf: Address, recvBuf: Address, counts: seq<nat>, dtypeSize: nat, rank: nat)
    requires rank < |counts| && sendBuf == Slot(recvBuf, counts, dtypeSize, rank) && 0 < counts[rank] * dtypeSize
    ensures Overlaps(sendBuf, recvBuf, counts, dtypeSize)
  {
    var lens := Bytes(counts, dtypeSize);
    assert lens[..|lens|] == lens;
    OffsetsOrdered(lens, rank, |lens|);
  }

  // ---------------------------------------------------------------- the parameters of one call

  datatype Collective = AllgathervCall | ReduceScatterCall

  /** The fields of `ccl_coll_param` that the two factories fill and the in-place test reads. */
  datatype CollParam = CollParam(
    ctype: Collective, sendBufs: seq<Address>, sendCounts: seq<nat>, recvBufs: seq<Address>, recvCounts: seq<nat>,
    dtypeSize: nat, rank: nat, commSize: nat)

  datatype Created = Ok(param: CollParam) | Rejected

  datatype Reduction = Builtin | Avg | Custom

  /** `validate` for the two collectives. The built-in reductions are the only ones the scheduler path takes. */
  predicate Validated(p: CollParam, reduction: Reduction)
    requires p.rank < p.commSize
  {
    && p.sendCounts != [] && p.recvCounts != [] && p.sendBufs != [] && p.recvBufs != []
    && match p.ctype {
         case AllgathervCall =>
           && (|p.recvBufs| == 1 || |p.recvBufs| == p.commSize)
           && |p.sendCounts| == 1
           && (p.rank < |p.recvCounts| && p.sendCounts[0] == p.recvCounts[p.rank])
           && (1 < |p.recvCounts| ==> |p.recvCounts| == p.commSize)
         case ReduceScatterCall =>
           && |p.sendBufs| == |p.sendCounts|
           && |p.recvBufs| == |p.recvCounts|
           && reduction == Builtin
           && |p.sendCounts| == 1
           && p.sendCounts[0] == p.recvCounts[0] * p.commSize
       }
  }

  /**
   `create_allgatherv_param`. With vector buffers the receive pointer names one buffer per rank; without,
   one buffer for all. The call is rejected exactly when the send count is not the rank's own receive count.
   */
  method CreateAllgathervParam(
    sendBuf: Address, sendCount: nat, recvBufs: seq<Address>, isVectorBuf: bool, recvCounts: seq<nat>,
    dtypeSize: nat, rank: nat, commSize: nat)
    returns (r: Created)
    requires rank < commSize == |recvCounts|
    requires |recvBufs| == if isVectorBuf then commSize else 1
    ensures r.Ok? <==> sendCount == recvCounts[rank]
    ensures r.Ok? ==>
              r.param
              == CollParam(AllgathervCall, [sendBuf], [sendCount], recvBufs, recvCounts, dtypeSize, rank, commSize)
    ensures r.Ok? ==> Complete(r.param)
  {
    var param := CollParam(AllgathervCall, [], [], [], [], dtypeSize, rank, commSize);
    param := param.(sendBufs := param.sendBufs + [sendBuf], sendCounts := param.sendCounts + [sendCount]);
    if isVectorBuf {
      param := param.(recvBufs := recvBufs[..commSize]);
    } else {
      param := param.(recvBufs := param.recvBufs + [recvBufs[0]]);
    }
    assert param.recvBufs == recvBufs;
    param := param.(recvCounts := recvCounts);
    return if Validated(param, Builtin) then Ok(param) else Rejected;
  }

  /** `create_reduce_scatter_param`. The counts always agree, so only the reduction can make it fail. */
  method CreateReduceScatterParam(
    sendBuf: Address, recvBuf: Address, recvCount: nat, reduction: Reduction, dtypeSize: nat, rank: nat, commSize: nat)
    returns (r: Created)
    requires rank < commSize
    ensures r.Ok? <==> reduction == Builtin
    ensures r.Ok? ==>
              r.param
              == CollParam(ReduceScatterCall, [sendBuf], [recvCount * commSize], [recvBuf], [recvCount],
                           dtypeSize, rank, commSize)
    ensures r.Ok? ==> Complete(r.param)
  {
    var param := CollParam(ReduceScatterCall, [], [], [], [], dtypeSize, rank, commSize);
    param := param.(sendBufs := param.sendBufs + [sendBuf], sendCounts := param.sendCounts + [commSize * recvCount]);
    param := param.(recvBufs := param.recvBufs + [recvBuf], recvCounts := param.recvCounts + [recvCount]);
    return if Validated(param, reduction) then Ok(param) else Rejected;
  }

  /** The rank's own place in an allgatherv's receive memory: its slot of the one buffer, or its own buffer. */
  function OwnPlace(p: CollParam): Address
    requires p.ctype == AllgathervCall && p.rank < |p.recvCounts|
    requires |p.recvBufs| == 1 || p.rank < |p.recvBufs|
  {
    if |p.recvBufs| == 1 then Slot(p.recvBufs[0], p.recvCounts, p.dtypeSize, p.rank) else p.recvBufs[p.rank]
  }

  /** A parameter set as a factory leaves it: validated, with one receive count per rank for an allgatherv. */
  predicate Complete(p: CollParam) {
    && p.rank < p.commSize
    && Validated(p, Builtin)
    && (p.ctype == AllgathervCall ==> |p.recvCounts| == p.commSize)
  }

  /**
   `is_inplace` on a factory's parameters: never a count mismatch. For an allgatherv with a send buffer it is
   in place exactly when that buffer starts at the rank's own place; a null send buffer counts as in place
   for the single receive buffer only. For a reduce-scatter it is in place exactly when the receive buffer
   starts at the rank's slot of the send buffer.
   */
  method IsInplace(p: CollParam, checkAliasing: bool) returns (v: Verdict)
    requires Complete(p)
    ensures v != CountMismatch
    ensures v == AliasingError <==>
            && checkAliasing
            && if p.ctype == AllgathervCall then
                 && |p.recvBufs| == 1 && p.sendBufs[0] != NULLPTR && p.sendBufs[0] != OwnPlace(p)
                 && exists r: nat ::
                      r < |p.recvCounts| && InSlot(p.sendBufs[0], p.recvBufs[0], p.recvCounts, p.dtypeSize, r)
               else
                 var counts := seq(p.commSize, _ => p.recvCounts[0]);
                 && p.recvBufs[0] != Slot(p.sendBufs[0], counts, p.dtypeSize, p.rank)
                 && exists r: nat :: r < |counts| && InSlot(p.recvBufs[0], p.sendBufs[0], counts, p.dtypeSize, r)
    ensures v.Placed? && p.ctype == AllgathervCall && p.sendBufs[0] != NULLPTR ==>
              (v.inplace <==> p.sendBufs[0] == OwnPlace(p))
    ensures v.Placed? && p.ctype == AllgathervCall && p.sendBufs[0] == NULLPTR ==> (v.inplace <==> |p.recvBufs| == 1)
    ensures p.ctype == AllgathervCall && |p.recvBufs| == 1 ==>
              v == AllgathervVerdict(p.sendBufs[0], p.sendCounts[0], p.recvBufs[0], p.recvCounts, NotGiven,
                                     p.dtypeSize, p.rank, checkAliasing)
    ensures p.ctype == ReduceScatterCall ==>
              v == IsReduceScatterInplace(p.sendBufs[0], p.recvBufs[0], p.recvCounts[0], p.dtypeSize, p.rank,
                                          p.commSize, checkAliasing)
    ensures v.Placed? && p.ctype == ReduceScatterCall ==>
              (v.inplace <==>
               p.recvBufs[0] == Slot(p.sendBufs[0], seq(p.commSize, _ => p.recvCounts[0]), p.dtypeSize, p.rank))
  {
    var sendBufPtr := p.sendBufs[0];
    var recvBufPtr := if p.ctype == AllgathervCall && 1 < |p.recvBufs| then p.recvBufs[p.rank] else p.recvBufs[0];
    if p.ctype == AllgathervCall && |p.recvBufs| == 1 {
      v := IsAllgathervInplace(
        sendBufPtr, p.sendCounts[0], recvBufPtr, p.recvCounts, NotGiven, p.dtypeSize, p.rank, checkAliasing);
      return;
    }
    if p.ctype == ReduceScatterCall {
      ReduceScatterVerdict(
        sendBufPtr, recvBufPtr, p.recvCounts[0], p.dtypeSize, p.rank, p.commSize, checkAliasing);
      return IsReduceScatterInplace(
          sendBufPtr, recvBufPtr, p.recvCounts[0], p.dtypeSize, p.rank, p.commSize, checkAliasing);
    }
    return Placed(sendBufPtr != NULLPTR && sendBufPtr == recvBufPtr, false);
  }
}
