/**
 Staging of the scale-out phase: device buffers are packed into one contiguous host buffer and
 unpacked again, buffer i at the sum of the lengths before it (src/coll/coll_util.cpp).
 */
module ScaleoutStaging {

  type Byte = bv8

  // ----- offsets

  function Sum(s: seq<nat>): nat {
    if s == [] then 0 else Sum(s[..|s| - 1]) + s[|s| - 1]
  }

  /** Byte lengths of `counts` elements of a datatype. */
  function Bytes(counts: seq<nat>, dtypeSize: nat): seq<nat> {
    seq(|counts|, i requires 0 <= i < |counts| => counts[i] * dtypeSize)
  }

  function Offset(lens: seq<nat>, i: nat): nat
    requires i <= |lens|
  {
    Sum(lens[..i])
  }

  lemma OffsetStep(lens: seq<nat>, i: nat)
    requires i < |lens|
    ensures Offset(lens, i + 1) == Offset(lens, i) + lens[i]
  {
    assert lens[..i + 1][..i] == lens[..i];
  }

  lemma {:induction false} OffsetsOrdered(lens: seq<nat>, i: nat, j: nat)
    requires i < j <= |lens|
    ensures Offset(lens, i) + lens[i] <= Offset(lens, j)
    decreases j
  {
    OffsetStep(lens, j - 1);
    if i < j - 1 { OffsetsOrdered(lens, i, j - 1); }
  }

  lemma {:induction false} SumScaled(counts: seq<nat>, dtypeSize: nat)
    ensures Sum(Bytes(counts, dtypeSize)) == Sum(counts) * dtypeSize
  {
    if counts != [] {
      var n := |counts| - 1;
      SumScaled(counts[..n], dtypeSize);
      assert Bytes(counts, dtypeSize)[..n] == Bytes(counts[..n], dtypeSize);
    }
  }

  /** The ranges are pairwise disjoint and exactly fill the sum: every byte below it lies in one range. */
  lemma {:induction false} RangesTile(lens: seq<nat>, x: nat) returns (i: nat)
    requires x < Sum(lens)
    ensures i < |lens| && Offset(lens, i) <= x < Offset(lens, i) + lens[i]
    ensures forall j :: 0 <= j < |lens| && Offset(lens, j) <= x < Offset(lens, j) + lens[j] ==> j == i
  {
    i := FindRange(lens, |lens|, x);
    forall j | 0 <= j < |lens| && j != i ensures !(Offset(lens, j) <= x < Offset(lens, j) + lens[j]) {
      if i < j { OffsetsOrdered(lens, i, j); } else { OffsetsOrdered(lens, j, i); }
    }
  }

  lemma {:induction false} FindRange(lens: seq<nat>, n: nat, x: nat) returns (i: nat)
    requires n <= |lens| && x < (if n == |lens| then Sum(lens) else Offset(lens, n))
    ensures i < |lens| && Offset(lens, i) <= x < Offset(lens, i) + lens[i]
  {
    assert lens[..|lens|] == lens;
    OffsetStep(lens, n - 1);
    if x < Offset(lens, n - 1) { i := FindRange(lens, n - 1, x); } else { i := n - 1; }
  }

  // ----- copy entries

  datatype Direction = D2H | H2D

  /** One copy between the start of device buffer `idx` and `offset` in the host buffer. */
  datatype Copy = Copy(idx: nat, offset: nat, bytes: nat)

  datatype CopyResult = Entries(direction: Direction, copies: seq<Copy>) | BufferCountMismatch

  /**
   The copies are those of the non-empty buffers, the own rank's left out when the flag says so; each stands for
   the whole buffer at its offset.
   */
  ghost predicate StagedBy(copies: seq<Copy>, lens: seq<nat>, n: nat, skipOwnRank: bool, rank: nat)
    requires n <= |lens|
  {
    forall c :: c in copies <==>
      && c.idx < n && lens[c.idx] != 0 && !(skipOwnRank && c.idx == rank)
      && c.offset == Offset(lens, c.idx) && c.bytes == lens[c.idx]
  }

  /** `add_copy_entry_with_offset`: one entry per non-empty buffer, the offset advancing past skipped ones too. */
  method AddCopyEntries(
    bufCount: nat, counts: seq<nat>, commSize: nat, rank: nat, dtypeSize: nat, direction: Direction, skipOwnRank: bool)
    returns (r: CopyResult)
    requires |counts| == commSize && 0 < dtypeSize
    ensures r.Entries? <==> bufCount == commSize
    ensures r.Entries? ==> r.direction == direction
    ensures r.Entries? ==> StagedBy(r.copies, Bytes(counts, dtypeSize), commSize, skipOwnRank, rank)
    ensures r.Entries? ==>
              forall idx :: 0 <= idx < commSize ==>
                ((exists c :: c in r.copies && c.idx == idx) <==> counts[idx] != 0 && !(skipOwnRank && idx == rank))
    ensures r.Entries? ==> forall i, j :: 0 <= i < j < |r.copies| ==> r.copies[i].idx < r.copies[j].idx
  {
    if bufCount != commSize {
      return BufferCountMismatch;
    }
    ghost var lens := Bytes(counts, dtypeSize);
    var offset := 0;
    var copies := [];
    var idx := 0;
    while idx < commSize
      invariant 0 <= idx <= commSize
      invariant offset == Offset(lens, idx)
      invariant StagedBy(copies, lens, idx, skipOwnRank, rank)
      invariant forall i, j :: 0 <= i < j < |copies| ==> copies[i].idx < copies[j].idx
      invariant forall i :: 0 <= i < |copies| ==> copies[i].idx < idx
    {
      OffsetStep(lens, idx);
      NonZeroBytes(counts[idx], dtypeSize);
      ghost var before := copies;
      if counts[idx] == 0 {
        idx := idx + 1;
        continue;
      }
      if !skipOwnRank || idx != rank {
        copies := copies + [Copy(idx, offset, counts[idx] * dtypeSize)];
        OneMore(before, lens, idx, skipOwnRank, rank);
      }
      offset := offset + counts[idx] * dtypeSize;
      idx := idx + 1;
    }
    EntryPerBuffer(copies, counts, dtypeSize, skipOwnRank, rank);
    return Entries(direction, copies);
  }

  lemma OneMore(copies: seq<Copy>, lens: seq<nat>, n: nat, skipOwnRank: bool, rank: nat)
    requires n < |lens| && lens[n] != 0 && !(skipOwnRank && n == rank) && StagedBy(copies, lens, n, skipOwnRank, rank)
    ensures StagedBy(copies + [Copy(n, Offset(lens, n), lens[n])], lens, n + 1, skipOwnRank, rank)
  {
  }

  lemma EntryPerBuffer(copies: seq<Copy>, counts: seq<nat>, dtypeSize: nat, skipOwnRank: bool, rank: nat)
    requires 0 < dtypeSize && StagedBy(copies, Bytes(counts, dtypeSize), |counts|, skipOwnRank, rank)
    ensures forall idx :: 0 <= idx < |counts| ==>
              ((exists c :: c in copies && c.idx == idx) <==> counts[idx] != 0 && !(skipOwnRank && idx == rank))
  {
    var lens := Bytes(counts, dtypeSize);
    forall idx | 0 <= idx < |counts|
      ensures (exists c :: c in copies && c.idx == idx) <==> counts[idx] != 0 && !(skipOwnRank && idx == rank)
    {
      NonZeroBytes(counts[idx], dtypeSize);
      if counts[idx] != 0 && !(skipOwnRank && idx == rank) {
        assert Copy(idx, Offset(lens, idx), lens[idx]) in copies;
      }
    }
  }

  lemma NonZeroBytes(count: nat, dtypeSize: nat)
    requires 0 < dtypeSize
    ensures count * dtypeSize == 0 <==> count == 0
  {
  }

  // ----- what the copies do, in whatever order the engine runs them

  datatype Memory = Memory(host: seq<Byte>, dev: seq<seq<Byte>>)

  predicate Fits(m: Memory, c: Copy) {
    c.idx < |m.dev| && c.bytes <= |m.dev[c.idx]| && c.offset + c.bytes <= |m.host|
  }

  function ToHost(m: Memory, c: Copy): Memory
    requires Fits(m, c)
  {
    m.(host := m.host[..c.offset] + m.dev[c.idx][..c.bytes] + m.host[c.offset + c.bytes..])
  }

  function ToDevice(m: Memory, c: Copy): Memory
    requires Fits(m, c)
  {
    m.(dev := m.dev[c.idx := m.host[c.offset..c.offset + c.bytes] + m.dev[c.idx][c.bytes..]])
  }

  predicate SameShape(a: Memory, b: Memory) {
    |a.host| == |b.host| && |a.dev| == |b.dev| && forall i :: 0 <= i < |a.dev| ==> |a.dev[i]| == |b.dev[i]|
  }

  predicate AllFit(m: Memory, cs: seq<Copy>) {
    forall i :: 0 <= i < |cs| ==> Fits(m, cs[i])
  }

  function RunToHost(m: Memory, cs: seq<Copy>): (r: Memory)
    requires AllFit(m, cs)
    ensures SameShape(r, m) && r.dev == m.dev
    decreases |cs|
  {
    if cs == [] then m
    else
      var next := ToHost(m, cs[0]);
      assert AllFit(next, cs[1..]) by {
        forall i | 0 <= i < |cs[1..]| ensures Fits(next, cs[1..][i]) { assert Fits(m, cs[i + 1]); }
      }
      RunToHost(next, cs[1..])
  }

  function RunToDevice(m: Memory, cs: seq<Copy>): (r: Memory)
    requires AllFit(m, cs)
    ensures SameShape(r, m) && r.host == m.host
    decreases |cs|
  {
    if cs == [] then m
    else
      var next := ToDevice(m, cs[0]);
      assert AllFit(next, cs[1..]) by {
        forall i | 0 <= i < |cs[1..]| ensures Fits(next, cs[1..][i]) { assert Fits(m, cs[i + 1]); }
      }
      RunToDevice(next, cs[1..])
  }

  /** Running the entries in any order, each once, is still running the staged copies. */
  lemma AnyOrderStaged(cs: seq<Copy>, entries: seq<Copy>, lens: seq<nat>, skipOwnRank: bool, rank: nat)
    requires multiset(cs) == multiset(entries) && StagedBy(entries, lens, |lens|, skipOwnRank, rank)
    ensures StagedBy(cs, lens, |lens|, skipOwnRank, rank)
  {
    forall c ensures c in cs <==> c in entries {
      assert c in cs <==> c in multiset(cs);
      assert c in entries <==> c in multiset(entries);
    }
  }

  /** Host space for everything and device buffers of at least the staged lengths. */
  predicate Roomy(m: Memory, lens: seq<nat>) {
    Sum(lens) <= |m.host| && |m.dev| == |lens| && forall i :: 0 <= i < |lens| ==> lens[i] <= |m.dev[i]|
  }

  lemma CopiesFit(m: Memory, lens: seq<nat>, skipOwnRank: bool, rank: nat, cs: seq<Copy>)
    requires Roomy(m, lens) && StagedBy(cs, lens, |lens|, skipOwnRank, rank)
    ensures AllFit(m, cs)
  {
    forall k | 0 <= k < |cs| ensures Fits(m, cs[k]) {
      assert cs[k] in cs;
      OffsetsOrdered(lens, cs[k].idx, |lens|);
      assert lens[..|lens|] == lens;
    }
  }

  predicate Covers(c: Copy, x: nat) { c.offset <= x < c.offset + c.bytes }

  /** A host byte on which all copies over it agree ends with that value, in any order. */
  lemma {:induction false} HostByte(m: Memory, cs: seq<Copy>, x: nat, v: Byte)
    requires AllFit(m, cs) && x < |m.host|
    requires forall c :: c in cs && Covers(c, x) ==> m.dev[c.idx][x - c.offset] == v
    ensures RunToHost(m, cs).host[x] == if exists c :: c in cs && Covers(c, x) then v else m.host[x]
    decreases |cs|
  {
    if cs != [] {
      var next := ToHost(m, cs[0]);
      assert AllFit(next, cs[1..]) by {
        forall i | 0 <= i < |cs[1..]| ensures Fits(next, cs[1..][i]) { assert Fits(m, cs[i + 1]); }
      }
      assert cs[0] in cs && forall c :: c in cs[1..] ==> c in cs;
      assert forall c :: c in cs ==> c == cs[0] || c in cs[1..];
      HostByte(next, cs[1..], x, v);
      assert next.host[x] == if Covers(cs[0], x) then v else m.host[x];
    }
  }

  /** Byte k of range i is covered by the copy of buffer i alone, and by none when that buffer is skipped. */
  lemma CoveredOnce(lens: seq<nat>, skipOwnRank: bool, rank: nat, cs: seq<Copy>, i: nat, k: nat)
    requires StagedBy(cs, lens, |lens|, skipOwnRank, rank) && i < |lens| && k < lens[i]
    ensures forall c :: c in cs && Covers(c, Offset(lens, i) + k) ==> c == Copy(i, Offset(lens, i), lens[i])
    ensures (exists c :: c in cs && Covers(c, Offset(lens, i) + k)) <==> !(skipOwnRank && i == rank)
  {
    var x := Offset(lens, i) + k;
    forall c | c in cs && Covers(c, x) ensures c.idx == i {
      if c.idx < i { OffsetsOrdered(lens, c.idx, i); } else if i < c.idx { OffsetsOrdered(lens, i, c.idx); }
    }
    if !(skipOwnRank && i == rank) {
      assert Copy(i, Offset(lens, i), lens[i]) in cs && Covers(Copy(i, Offset(lens, i), lens[i]), x);
    }
  }

  /** Device-to-host packing, copies in any order: every staged buffer ends at its offset, a skipped range stays. */
  lemma PackPlacesBuffers(m: Memory, lens: seq<nat>, skipOwnRank: bool, rank: nat, cs: seq<Copy>, i: nat, k: nat)
    requires Roomy(m, lens) && StagedBy(cs, lens, |lens|, skipOwnRank, rank) && i < |lens| && k < lens[i]
    ensures AllFit(m, cs) && Offset(lens, i) + k < |m.host|
    ensures RunToHost(m, cs).host[Offset(lens, i) + k]
            == if skipOwnRank && i == rank then m.host[Offset(lens, i) + k] else m.dev[i][k]
  {
    CopiesFit(m, lens, skipOwnRank, rank, cs);
    RangeInside(lens, i);
    PackedByte(m, lens, skipOwnRank, rank, cs, i, k);
  }

  lemma PackedByte(m: Memory, lens: seq<nat>, skipOwnRank: bool, rank: nat, cs: seq<Copy>, i: nat, k: nat)
    requires AllFit(m, cs) && StagedBy(cs, lens, |lens|, skipOwnRank, rank) && i < |lens| && k < lens[i]
    requires Offset(lens, i) + k < |m.host| && i < |m.dev| && k < |m.dev[i]|
    ensures RunToHost(m, cs).host[Offset(lens, i) + k]
            == if skipOwnRank && i == rank then m.host[Offset(lens, i) + k] else m.dev[i][k]
  {
    CoveredOnce(lens, skipOwnRank, rank, cs, i, k);
    HostByte(m, cs, Offset(lens, i) + k, m.dev[i][k]);
  }

  /** Packing changes no host byte past the sum of the lengths. */
  lemma PackKeepsTheRest(m: Memory, lens: seq<nat>, skipOwnRank: bool, rank: nat, cs: seq<Copy>, x: nat)
    requires Roomy(m, lens) && StagedBy(cs, lens, |lens|, skipOwnRank, rank) && Sum(lens) <= x < |m.host|
    ensures AllFit(m, cs) && RunToHost(m, cs).host[x] == m.host[x]
  {
    CopiesFit(m, lens, skipOwnRank, rank, cs);
    assert lens[..|lens|] == lens;
    forall c | c in cs ensures !Covers(c, x) { OffsetsOrdered(lens, c.idx, |lens|); }
    HostByte(m, cs, x, m.host[x]);
  }

  /** A device buffer ends with what the copies into it bring, if they agree, in any order. */
  lemma {:induction false} DeviceBuffer(m: Memory, cs: seq<Copy>, i: nat, c: Copy)
    requires AllFit(m, cs) && i < |m.dev| && c.idx == i && Fits(m, c)
    requires forall d :: d in cs && d.idx == i ==> d == c
    ensures RunToDevice(m, cs).dev[i]
            == if c in cs then m.host[c.offset..c.offset + c.bytes] + m.dev[i][c.bytes..] else m.dev[i]
    decreases |cs|
  {
    if cs != [] {
      var next := ToDevice(m, cs[0]);
      assert AllFit(next, cs[1..]) by {
        forall k | 0 <= k < |cs[1..]| ensures Fits(next, cs[1..][k]) { assert Fits(m, cs[k + 1]); }
      }
      assert cs[0] in cs && forall d :: d in cs[1..] ==> d in cs;
      assert forall d :: d in cs ==> d == cs[0] || d in cs[1..];
      DeviceBuffer(next, cs[1..], i, c);
      var brought := m.host[c.offset..c.offset + c.bytes];
      assert (brought + m.dev[i][c.bytes..])[c.bytes..] == m.dev[i][c.bytes..];
    }
  }

  lemma OneCopyPerBuffer(lens: seq<nat>, skipOwnRank: bool, rank: nat, cs: seq<Copy>, i: nat)
    requires StagedBy(cs, lens, |lens|, skipOwnRank, rank) && i < |lens|
    ensures var c := Copy(i, Offset(lens, i), lens[i]);
            (c in cs <==> lens[i] != 0 && !(skipOwnRank && i == rank)) && forall d :: d in cs && d.idx == i ==> d == c
  {
  }

  /** Host-to-device unpacking, copies in any order: a buffer gets its range and keeps its tail; skipped ones stay. */
  lemma UnpackDeliversRanges(m: Memory, lens: seq<nat>, skipOwnRank: bool, rank: nat, cs: seq<Copy>, i: nat)
    requires Roomy(m, lens) && StagedBy(cs, lens, |lens|, skipOwnRank, rank) && i < |lens|
    ensures AllFit(m, cs) && Offset(lens, i) + lens[i] <= |m.host|
    ensures RunToDevice(m, cs).dev[i] ==
              if skipOwnRank && i == rank then m.dev[i]
              else m.host[Offset(lens, i)..Offset(lens, i) + lens[i]] + m.dev[i][lens[i]..]
  {
    CopiesFit(m, lens, skipOwnRank, rank, cs);
    RangeInside(lens, i);
    UnpackedBuffer(m, lens, skipOwnRank, rank, cs, i);
  }

  lemma UnpackedBuffer(m: Memory, lens: seq<nat>, skipOwnRank: bool, rank: nat, cs: seq<Copy>, i: nat)
    requires AllFit(m, cs) && StagedBy(cs, lens, |lens|, skipOwnRank, rank) && i < |lens|
    requires Offset(lens, i) + lens[i] <= |m.host| && i < |m.dev| && lens[i] <= |m.dev[i]|
    ensures RunToDevice(m, cs).dev[i] ==
              if skipOwnRank && i == rank then m.dev[i]
              else m.host[Offset(lens, i)..Offset(lens, i) + lens[i]] + m.dev[i][lens[i]..]
  {
    OneCopyPerBuffer(lens, skipOwnRank, rank, cs, i);
    var c := Copy(i, Offset(lens, i), lens[i]);
    DeviceBuffer(m, cs, i, c);
    SameWhenEmpty(m.host, m.dev[i], Offset(lens, i), lens[i]);
  }

  lemma RangeInside(lens: seq<nat>, i: nat)
    requires i < |lens|
    ensures Offset(lens, i) + lens[i] <= Sum(lens)
  {
    assert lens[..|lens|] == lens;
    OffsetsOrdered(lens, i, |lens|);
  }

  lemma SameWhenEmpty(host: seq<Byte>, buf: seq<Byte>, at: nat, len: nat)
    requires at + len <= |host| && len <= |buf|
    ensures len == 0 ==> host[at..at + len] + buf[len..] == buf
  {
  }

  lemma PackedRange(m: Memory, lens: seq<nat>, rank: nat, pack: seq<Copy>, i: nat)
    requires Roomy(m, lens) && StagedBy(pack, lens, |lens|, false, rank) && AllFit(m, pack) && i < |lens|
    ensures Offset(lens, i) + lens[i] <= |m.host|
    ensures RunToHost(m, pack).host[Offset(lens, i)..Offset(lens, i) + lens[i]] == m.dev[i][..lens[i]]
  {
    assert lens[..|lens|] == lens;
    OffsetsOrdered(lens, i, |lens|);
    forall k | 0 <= k < lens[i] ensures RunToHost(m, pack).host[Offset(lens, i) + k] == m.dev[i][k] {
      PackPlacesBuffers(m, lens, false, rank, pack, i, k);
    }
  }

  /**
   Unpacking undoes packing, zero lengths and any copy orders included: whatever the device buffers hold in
   between, each gets its staged bytes back, and a skipped own buffer is left alone.
   */
  lemma UnpackUndoesPack(
    m: Memory, lens: seq<nat>, pack: seq<Copy>, between: Memory, skipOwnRank: bool, rank: nat, unpack: seq<Copy>,
    i: nat)
    requires Roomy(m, lens) && StagedBy(pack, lens, |lens|, false, rank) && AllFit(m, pack)
    requires SameShape(between, m) && between.host == RunToHost(m, pack).host
    requires StagedBy(unpack, lens, |lens|, skipOwnRank, rank) && i < |lens|
    ensures AllFit(between, unpack)
    ensures RunToDevice(between, unpack).dev[i]
            == if skipOwnRank && i == rank then between.dev[i] else m.dev[i][..lens[i]] + between.dev[i][lens[i]..]
  {
    UnpackDeliversRanges(between, lens, skipOwnRank, rank, unpack, i);
    PackedRange(m, lens, rank, pack, i);
  }

  /** What the copy engine does with entries of a direction. */
  function Engine(m: Memory, direction: Direction, cs: seq<Copy>): Memory
    requires AllFit(m, cs)
  {
    if direction == D2H then RunToHost(m, cs) else RunToDevice(m, cs)
  }

  /** The entries `AddCopyEntries` returns for these arguments. */
  ghost predicate ReturnedFor(
    r: CopyResult, counts: seq<nat>, rank: nat, dtypeSize: nat, direction: Direction, skipOwnRank: bool)
  {
    && r.Entries? && r.direction == direction
    && StagedBy(r.copies, Bytes(counts, dtypeSize), |counts|, skipOwnRank, rank)
  }

  /** The device-to-host entries, run in any order, place every buffer at its offset, the own one included. */
  lemma PackingPlacesEveryBuffer(
    m: Memory, counts: seq<nat>, rank: nat, dtypeSize: nat, r: CopyResult, cs: seq<Copy>, i: nat, k: nat)
    requires ReturnedFor(r, counts, rank, dtypeSize, D2H, false) && multiset(cs) == multiset(r.copies)
    requires Roomy(m, Bytes(counts, dtypeSize)) && i < |counts| && k < counts[i] * dtypeSize
    ensures var at := Offset(Bytes(counts, dtypeSize), i) + k;
            AllFit(m, cs) && at < |m.host| && Engine(m, r.direction, cs).host[at] == m.dev[i][k]
  {
    var lens := Bytes(counts, dtypeSize);
    AnyOrderStaged(cs, r.copies, lens, false, rank);
    PackPlacesBuffers(m, lens, false, rank, cs, i, k);
  }

  /**
   The device-to-host entries and then the host-to-device entries for the same counts, each run in any order,
   with any change of the device buffers between: every buffer has its bytes again, but for the own rank's when
   the flag leaves that one out, and then it is as it was.
   */
  lemma StagingRoundTrip(
    m: Memory, counts: seq<nat>, rank: nat, dtypeSize: nat, d2h: CopyResult, pack: seq<Copy>, between: Memory,
    skipOwnRank: bool, h2d: CopyResult, unpack: seq<Copy>, i: nat)
    requires ReturnedFor(d2h, counts, rank, dtypeSize, D2H, false) && multiset(pack) == multiset(d2h.copies)
    requires ReturnedFor(h2d, counts, rank, dtypeSize, H2D, skipOwnRank) && multiset(unpack) == multiset(h2d.copies)
    requires Roomy(m, Bytes(counts, dtypeSize)) && AllFit(m, pack) && i < |counts|
    requires SameShape(between, m) && between.host == Engine(m, d2h.direction, pack).host
    ensures AllFit(between, unpack)
    ensures Engine(between, h2d.direction, unpack).dev[i]
            == if skipOwnRank && i == rank then between.dev[i]
               else m.dev[i][..counts[i] * dtypeSize] + between.dev[i][counts[i] * dtypeSize..]
  {
    var lens := Bytes(counts, dtypeSize);
    AnyOrderStaged(pack, d2h.copies, lens, false, rank);
    AnyOrderStaged(unpack, h2d.copies, lens, skipOwnRank, rank);
    UnpackUndoesPack(m, lens, pack, between, skipOwnRank, rank, unpack, i);
  }

  // ----- the host buffer of the scale-out collective

  datatype CollType = Alltoallv | Alltoall | Allgatherv | Allgather | ReduceScatter | Other

  /**
   Where the collective sends from and receives into: two host buffers (alltoallv), one buffer with
   two offsets into it, no staging at all, or the exception for an empty reduce-scatter.
   */
  datatype Plan =
    | NoStaging
    | UnexpectedSize
    | TwoBuffers(sendBytes: nat, recvBytes: nat)
    | OneBuffer(bytes: nat, sendOffset: nat, recvOffset: nat)

  /** The sizes and offsets `fill_scaleout_coll_param` settles on. */
  method FillScaleoutParam(
    ctype: CollType, count: nat, sendCounts: seq<nat>, recvCounts: seq<nat>, rank: nat, commSize: nat, dtypeSize: nat)
    returns (p: Plan)
    requires rank < commSize && 0 < dtypeSize
    requires ctype == Allgatherv || ctype == Allgather ==> rank <= |recvCounts|
    ensures ctype == Alltoallv ==>
              p == if Sum(sendCounts) == 0 || Sum(recvCounts) == 0 then NoStaging
                   else TwoBuffers(Sum(Bytes(sendCounts, dtypeSize)), Sum(Bytes(recvCounts, dtypeSize)))
    ensures ctype == Allgatherv || ctype == Allgather ==>
              var lens := Bytes(recvCounts, dtypeSize);
              p == if Sum(lens) == 0 then NoStaging else OneBuffer(Sum(lens), Offset(lens, rank), 0)
    ensures ctype == Alltoall ==>
              var lens := Bytes(recvCounts, dtypeSize);
              p == if Sum(lens) == 0 then NoStaging else OneBuffer(Sum(lens), 0, 0)
    ensures ctype == ReduceScatter ==>
              var lens := Bytes(seq(commSize, _ => count), dtypeSize);
              p == if Sum(lens) == 0 then UnexpectedSize else OneBuffer(Sum(lens), 0, Offset(lens, rank))
    ensures ctype == Other ==> p == if count == 0 then NoStaging else OneBuffer(count * dtypeSize, 0, 0)
  {
    SumScaled(sendCounts, dtypeSize);
    SumScaled(recvCounts, dtypeSize);
    if rank <= |recvCounts| {
      SumScaled(recvCounts[..rank], dtypeSize);
      assert Bytes(recvCounts, dtypeSize)[..rank] == Bytes(recvCounts[..rank], dtypeSize);
    }
    NonZeroBytes(Sum(sendCounts), dtypeSize);
    NonZeroBytes(Sum(recvCounts), dtypeSize);
    NonZeroBytes(count, dtypeSize);
    EqualCounts(commSize, count, rank, dtypeSize);
    if ctype == Alltoallv {
      var sendBytes := Sum(sendCounts) * dtypeSize;
      var recvBytes := Sum(recvCounts) * dtypeSize;
      if sendBytes == 0 || Sum(recvCounts) == 0 {
        return NoStaging;
      }
      return TwoBuffers(sendBytes, recvBytes);
    }
    if ctype == ReduceScatter {
      if count * commSize * dtypeSize == 0 {
        return UnexpectedSize;
      }
      return OneBuffer(count * commSize * dtypeSize, 0, rank * count * dtypeSize);
    }
    var hostBufSize := if ctype == Other then count * dtypeSize else Sum(recvCounts) * dtypeSize;
    if hostBufSize == 0 {
      return NoStaging;
    }
    if ctype == Allgatherv || ctype == Allgather {
      return OneBuffer(hostBufSize, Sum(recvCounts[..rank]) * dtypeSize, 0);
    }
    return OneBuffer(hostBufSize, 0, 0);
  }

  lemma {:induction false} SumOfEqual(n: nat, count: nat)
    ensures Sum(seq(n, _ => count)) == n * count
  {
    if n > 0 {
      SumOfEqual(n - 1, count);
      assert seq(n, _ => count)[..n - 1] == seq(n - 1, _ => count);
    }
  }

  lemma EqualCounts(commSize: nat, count: nat, rank: nat, dtypeSize: nat)
    requires rank < commSize
    ensures var lens := Bytes(seq(commSize, _ => count), dtypeSize);
            Sum(lens) == count * commSize * dtypeSize && Offset(lens, rank) == rank * count * dtypeSize
  {
    var counts := seq(commSize, _ => count);
    SumScaled(counts, dtypeSize);
    SumScaled(counts[..rank], dtypeSize);
    SumOfEqual(commSize, count);
    SumOfEqual(rank, count);
    assert counts[..rank] == seq(rank, _ => count);
    assert Bytes(counts, dtypeSize)[..rank] == Bytes(counts[..rank], dtypeSize);
  }

  /** The staged own slot lies inside the host buffer and meets no other rank's slot. */
  lemma OwnSlot(lens: seq<nat>, rank: nat, other: nat)
    requires rank < |lens| && other < |lens| && rank != other
    ensures Offset(lens, rank) + lens[rank] <= Sum(lens)
    ensures || Offset(lens, rank) + lens[rank] <= Offset(lens, other)
            || Offset(lens, other) + lens[other] <= Offset(lens, rank)
  {
    assert lens[..|lens|] == lens;
    OffsetsOrdered(lens, rank, |lens|);
    if rank < other { OffsetsOrdered(lens, rank, other); } else { OffsetsOrdered(lens, other, rank); }
  }

  /**
   Alltoall sizes the host buffer by the receive counts and packs by the send counts. The source assumes that
   their sums are equal, as its factory makes them; the packing stays inside exactly when the sum of the send
   counts is no larger.
   */
  lemma AlltoallPackFitsIff(sendCounts: seq<nat>, recvCounts: seq<nat>, dtypeSize: nat)
    requires 0 < dtypeSize
    ensures var lens := Bytes(sendCounts, dtypeSize);
            (forall i :: 0 <= i < |lens| ==> Offset(lens, i) + lens[i] <= Sum(Bytes(recvCounts, dtypeSize)))
            <==> Sum(sendCounts) <= Sum(recvCounts)
  {
    var lens := Bytes(sendCounts, dtypeSize);
    SumScaled(sendCounts, dtypeSize);
    SumScaled(recvCounts, dtypeSize);
    ScaledOrder(Sum(sendCounts), Sum(recvCounts), dtypeSize);
    assert lens[..|lens|] == lens;
    if Sum(lens) <= Sum(Bytes(recvCounts, dtypeSize)) {
      forall i | 0 <= i < |lens| ensures Offset(lens, i) + lens[i] <= Sum(lens) { OffsetsOrdered(lens, i, |lens|); }
    } else {
      assert |lens| > 0;
      OffsetStep(lens, |lens| - 1);
    }
  }

  lemma ScaledOrder(a: nat, b: nat, m: nat)
    requires 0 < m
    ensures a <= b <==> a * m <= b * m
  {
    if a <= b { assert b * m == a * m + (b - a) * m; } else { assert a * m == b * m + (a - b) * m; }
  }
}
