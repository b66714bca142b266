/**
 Where the four ids stand in a tag, with the bit positions of the three layouts written out, and when two tags
 are equal (src/comm/atl_tag.hpp, src/comm/atl_tag.cpp).
 */
module TagFields {
  import opened AtlTag

  // ----- reading a raw tag, layout by layout

  lemma CommonOp(r: bv32, c: bv16, s: bv16, o: bv8)
    ensures COMMON.RawTag(r, c, s, o) & 0xFF == o as bv64
  {
  }

  lemma CommonSched(r: bv32, c: bv16, s: bv16, o: bv8)
    ensures (COMMON.RawTag(r, c, s, o) >> 8) & 0xFFFF == s as bv64
  {
  }

  lemma CommonComm(r: bv32, c: bv16, s: bv16, o: bv8)
    ensures (COMMON.RawTag(r, c, s, o) >> 24) & 0xFFFF == c as bv64
  {
  }

  lemma Widened24(r: bv32)
    ensures (r as bv64) & 0xFF_FFFF == (r & 0xFF_FFFF) as bv64
  {
  }

  lemma SignBits24(x: bv64)
    ensures (x | 0xFFFF_FFFF_0000_0000) & 0xFF_FFFF == x & 0xFF_FFFF
  {
  }

  lemma Low24(r: bv32)
    ensures SignExtended(r) & 0xFF_FFFF == (r & 0xFF_FFFF) as bv64
  {
    var x := r as bv64;
    Widened24(r);
    SignBits24(x);
    assert SignExtended(r) == x || SignExtended(r) == x | 0xFFFF_FFFF_0000_0000;
  }

  lemma Field24At40(x: bv64)
    ensures ((x << 40) & 0xFFFF_FF00_0000_0000) >> 40 == x & 0xFF_FFFF
  {
  }

  lemma CommonRankBits(r: bv32)
    ensures COMMON.RankField(r) >> 40 == (r & 0xFF_FFFF) as bv64
  {
    Field24At40(SignExtended(r));
    Low24(r);
  }

  lemma CommonLow(c: bv16, s: bv16, o: bv8)
    ensures COMMON.OpIdField(o) <= 0xFF && COMMON.SchedIdField(s) <= 0xFF_FFFF
    ensures COMMON.CommIdField(c) <= 0xFF_FFFF_FFFF
  {
  }

  lemma Above40(op: bv64, sched: bv64, comm: bv64, rank: bv64)
    requires op <= 0xFF && sched <= 0xFF_FFFF && comm <= 0xFF_FFFF_FFFF
    ensures Joined(op, sched, comm, rank) >> 40 == rank >> 40
  {
  }

  lemma CommonRank(r: bv32, c: bv16, s: bv16, o: bv8)
    ensures COMMON.RawTag(r, c, s, o) >> 40 == (r & 0xFF_FFFF) as bv64
  {
    CommonLow(c, s, o);
    Above40(COMMON.OpIdField(o), COMMON.SchedIdField(s), COMMON.CommIdField(c), COMMON.RankField(r));
    CommonRankBits(r);
  }

  /** The common layout: 8 bits of operation, 16 of schedule, 16 of communicator and 24 of rank. */
  lemma CommonReadsBack(r: bv32, c: bv16, s: bv16, o: bv8)
    ensures var raw := COMMON.RawTag(r, c, s, o);
            && raw & 0xFF == o as bv64
            && (raw >> 8) & 0xFFFF == s as bv64
            && (raw >> 24) & 0xFFFF == c as bv64
            && raw >> 40 == (r & 0xFF_FFFF) as bv64
  {
    CommonOp(r, c, s, o);
    CommonSched(r, c, s, o);
    CommonComm(r, c, s, o);
    CommonRank(r, c, s, o);
  }

  lemma CxiOp(r: bv32, c: bv16, s: bv16, o: bv8)
    ensures OFI_CXI.RawTag(r, c, s, o) & 0xF == (o & 0xF) as bv64
  {
  }

  lemma CxiSched(r: bv32, c: bv16, s: bv16, o: bv8)
    ensures (OFI_CXI.RawTag(r, c, s, o) >> 4) & 0xFFF == (s & 0xFFF) as bv64
  {
  }

  lemma CxiComm(r: bv32, c: bv16, s: bv16, o: bv8)
    ensures (OFI_CXI.RawTag(r, c, s, o) >> 16) & 0xFFF == (c & 0xFFF) as bv64
  {
  }

  lemma Widened20(r: bv32)
    ensures (r as bv64) & 0xF_FFFF == (r & 0xF_FFFF) as bv64
  {
  }

  lemma SignBits20(x: bv64)
    ensures (x | 0xFFFF_FFFF_0000_0000) & 0xF_FFFF == x & 0xF_FFFF
  {
  }

  lemma Low20(r: bv32)
    ensures SignExtended(r) & 0xF_FFFF == (r & 0xF_FFFF) as bv64
  {
    var x := r as bv64;
    Widened20(r);
    SignBits20(x);
    assert SignExtended(r) == x || SignExtended(r) == x | 0xFFFF_FFFF_0000_0000;
  }

  lemma Field20At28(x: bv64)
    ensures ((x << 28) & 0xFFFF_F000_0000) >> 28 == x & 0xF_FFFF
  {
  }

  lemma CxiRankBits(r: bv32)
    ensures OFI_CXI.RankField(r) >> 28 == (r & 0xF_FFFF) as bv64
  {
    Field20At28(SignExtended(r));
    Low20(r);
  }

  lemma CxiLow(c: bv16, s: bv16, o: bv8)
    ensures OFI_CXI.OpIdField(o) <= 0xF && OFI_CXI.SchedIdField(s) <= 0xFFFF && OFI_CXI.CommIdField(c) <= 0xFFF_FFFF
  {
  }

  lemma Above28(op: bv64, sched: bv64, comm: bv64, rank: bv64)
    requires op <= 0xF && sched <= 0xFFFF && comm <= 0xFFF_FFFF
    ensures Joined(op, sched, comm, rank) >> 28 == rank >> 28
  {
  }

  lemma CxiRank(r: bv32, c: bv16, s: bv16, o: bv8)
    ensures OFI_CXI.RawTag(r, c, s, o) >> 28 == (r & 0xF_FFFF) as bv64
  {
    CxiLow(c, s, o);
    Above28(OFI_CXI.OpIdField(o), OFI_CXI.SchedIdField(s), OFI_CXI.CommIdField(c), OFI_CXI.RankField(r));
    CxiRankBits(r);
  }

  /** The CXI layout: 4 bits of operation, 12 of schedule, 12 of communicator and 20 of rank. */
  lemma CxiReadsBack(r: bv32, c: bv16, s: bv16, o: bv8)
    ensures var raw := OFI_CXI.RawTag(r, c, s, o);
            && raw & 0xF == (o & 0xF) as bv64
            && (raw >> 4) & 0xFFF == (s & 0xFFF) as bv64
            && (raw >> 16) & 0xFFF == (c & 0xFFF) as bv64
            && raw >> 28 == (r & 0xF_FFFF) as bv64
  {
    CxiOp(r, c, s, o);
    CxiSched(r, c, s, o);
    CxiComm(r, c, s, o);
    CxiRank(r, c, s, o);
  }

  lemma MpiOp(r: bv32, c: bv16, s: bv16, o: bv8)
    ensures MPI.RawTag(r, c, s, o) & 0xF == (o & 0xF) as bv64
  {
  }

  lemma MpiSched(r: bv32, c: bv16, s: bv16, o: bv8)
    ensures (MPI.RawTag(r, c, s, o) >> 4) & 0xFFF == (s & 0xFFF) as bv64
  {
  }

  lemma MpiComm(r: bv32, c: bv16, s: bv16, o: bv8)
    ensures (MPI.RawTag(r, c, s, o) >> 16) & 0xFF == (c & 0xFF) as bv64
  {
  }

  lemma MpiRank(r: bv32, c: bv16, s: bv16, o: bv8)
    ensures MPI.RawTag(r, c, s, o) >> 24 == (r & 0xFF) as bv64
  {
  }

  /** The MPI layout: 4 bits of operation, 12 of schedule, 8 of communicator and 8 of rank. */
  lemma MpiReadsBack(r: bv32, c: bv16, s: bv16, o: bv8)
    ensures var raw := MPI.RawTag(r, c, s, o);
            && raw & 0xF == (o & 0xF) as bv64
            && (raw >> 4) & 0xFFF == (s & 0xFFF) as bv64
            && (raw >> 16) & 0xFF == (c & 0xFF) as bv64
            && raw >> 24 == (r & 0xFF) as bv64
  {
    MpiOp(r, c, s, o);
    MpiSched(r, c, s, o);
    MpiComm(r, c, s, o);
    MpiRank(r, c, s, o);
  }

  // ----- what truncation does to one tag, and to two

  /** A raw tag that fits is not cut. */
  lemma FittingTagIsRaw(t: TagCreator, r: bv32, c: bv16, s: bv16, o: bv8)
    requires Within(t.layout.RawTag(r, c, s, o), t.maxTag)
    ensures t.Create(r, c, s, o) == Ok(t.layout.RawTag(r, c, s, o))
  {
  }

  /** The raw tag fits but has bits the mask would cut: only a largest tag that is not 2^k - 1 has such a window. */
  predicate InWindow(t: TagCreator, raw: bv64) { Within(raw, t.maxTag) && Masked(raw, t.maxTagMask) != raw }

  lemma MaskedTwice(x: bv64, mask: bv64)
    ensures Masked(Masked(x, mask), mask) == Masked(x, mask)
  {
  }

  lemma TruncatedEqualIff(t: TagCreator, a: bv64, b: bv64)
    ensures t.Truncated(a) == t.Truncated(b) <==>
            Masked(a, t.maxTagMask) == Masked(b, t.maxTagMask) && (a == b || (!InWindow(t, a) && !InWindow(t, b)))
  {
    MaskedTwice(a, t.maxTagMask);
    MaskedTwice(b, t.maxTagMask);
  }

  // ----- ranks

  predicate Clear(x: bv64, field: bv64) { x & field == 0 }

  /** A field that the other three leave clear is read back from the whole. */
  lemma PartOfJoined(op: bv64, sched: bv64, comm: bv64, rank: bv64, field: bv64)
    requires Clear(op, field) && Clear(sched, field) && Clear(comm, field) && Part(rank, field) == rank
    ensures Part(Joined(op, sched, comm, rank), field) == rank
  {
  }

  predicate RankPlaced(l: Layout, r: bv32, c: bv16, s: bv16, o: bv8) {
    && Clear(l.OpIdField(o), l.rankMask) && Clear(l.SchedIdField(s), l.rankMask) && Clear(l.CommIdField(c), l.rankMask)
    && Part(l.RankField(r), l.rankMask) == l.RankField(r)
  }

  lemma CommonRankPlaced(r: bv32, c: bv16, s: bv16, o: bv8)
    ensures RankPlaced(COMMON, r, c, s, o)
  {
  }

  lemma CxiRankPlaced(r: bv32, c: bv16, s: bv16, o: bv8)
    ensures RankPlaced(OFI_CXI, r, c, s, o)
  {
  }

  lemma MpiRankPlaced(r: bv32, c: bv16, s: bv16, o: bv8)
    ensures RankPlaced(MPI, r, c, s, o)
  {
  }

  lemma RankApart(l: Layout, r: bv32, c: bv16, s: bv16, o: bv8)
    requires Supported(l)
    ensures Part(l.RawTag(r, c, s, o), l.rankMask) == l.RankField(r)
  {
    if l == COMMON {
      CommonRankPlaced(r, c, s, o);
    } else if l == OFI_CXI {
      CxiRankPlaced(r, c, s, o);
    } else {
      MpiRankPlaced(r, c, s, o);
    }
    PartOfJoined(l.OpIdField(o), l.SchedIdField(s), l.CommIdField(c), l.RankField(r), l.rankMask);
  }

  /** The bits of the rank field that the tag mask leaves. */
  function KeptRank(t: TagCreator, r: bv32): bv64 { Masked(t.layout.RankField(r), t.maxTagMask) }

  lemma SameRankAfterMask(op: bv64, sched: bv64, comm: bv64, a: bv64, b: bv64, mask: bv64)
    requires Masked(a, mask) == Masked(b, mask)
    ensures Masked(Joined(op, sched, comm, a), mask) == Masked(Joined(op, sched, comm, b), mask)
  {
  }

  lemma KeptRankOfRaw(t: TagCreator, r: bv32, c: bv16, s: bv16, o: bv8)
    requires Supported(t.layout)
    ensures Part(Masked(t.layout.RawTag(r, c, s, o), t.maxTagMask), t.layout.rankMask) == KeptRank(t, r)
  {
    RankApart(t.layout, r, c, s, o);
    MaskedPart(t.layout.RawTag(r, c, s, o), t.layout.rankMask, t.maxTagMask);
  }

  lemma MaskedRawEqualIff(t: TagCreator, r1: bv32, r2: bv32, c: bv16, s: bv16, o: bv8)
    requires Supported(t.layout)
    ensures Masked(t.layout.RawTag(r1, c, s, o), t.maxTagMask) == Masked(t.layout.RawTag(r2, c, s, o), t.maxTagMask)
            <==> KeptRank(t, r1) == KeptRank(t, r2)
  {
    KeptRankOfRaw(t, r1, c, s, o);
    KeptRankOfRaw(t, r2, c, s, o);
    if KeptRank(t, r1) == KeptRank(t, r2) {
      var l := t.layout;
      SameRankAfterMask(
        l.OpIdField(o), l.SchedIdField(s), l.CommIdField(c), l.RankField(r1), l.RankField(r2), t.maxTagMask);
    }
  }

  lemma RawEqualIff(l: Layout, r1: bv32, r2: bv32, c: bv16, s: bv16, o: bv8)
    requires Supported(l)
    ensures l.RawTag(r1, c, s, o) == l.RawTag(r2, c, s, o) <==> l.RankField(r1) == l.RankField(r2)
  {
    RankApart(l, r1, c, s, o);
    RankApart(l, r2, c, s, o);
  }

  lemma CutRanksIff(t: TagCreator, r1: bv32, r2: bv32, c: bv16, s: bv16, o: bv8)
    requires Supported(t.layout)
    ensures t.Truncated(t.layout.RawTag(r1, c, s, o)) != t.Truncated(t.layout.RawTag(r2, c, s, o)) <==>
            || KeptRank(t, r1) != KeptRank(t, r2)
            || (&& t.layout.RankField(r1) != t.layout.RankField(r2)
                && (InWindow(t, t.layout.RawTag(r1, c, s, o)) || InWindow(t, t.layout.RawTag(r2, c, s, o))))
  {
    TruncatedEqualIff(t, t.layout.RawTag(r1, c, s, o), t.layout.RawTag(r2, c, s, o));
    MaskedRawEqualIff(t, r1, r2, c, s, o);
    RawEqualIff(t.layout, r1, r2, c, s, o);
  }

  /**
   Two ranks in one operation of one schedule of one communicator get different tags exactly when a bit the
   mask keeps tells them apart, or any bit does and one of the two tags fits although it has bits past the mask.
   */
  lemma RanksSeparatedIff(t: TagCreator, r1: bv32, r2: bv32, c: bv16, s: bv16, o: bv8)
    requires t.Valid() && Supported(t.layout) && t.maxTag != 0
    ensures t.Create(r1, c, s, o) != t.Create(r2, c, s, o) <==>
            || KeptRank(t, r1) != KeptRank(t, r2)
            || (&& t.layout.RankField(r1) != t.layout.RankField(r2)
                && (InWindow(t, t.layout.RawTag(r1, c, s, o)) || InWindow(t, t.layout.RawTag(r2, c, s, o))))
  {
    CreateIsTruncated(t, r1, c, s, o);
    CreateIsTruncated(t, r2, c, s, o);
    CutRanksIff(t, r1, r2, c, s, o);
  }

  /** With a largest tag of the form 2^k - 1, exactly when a bit the mask keeps tells the ranks apart. */
  lemma RanksSeparatedByMaskIff(t: TagCreator, r1: bv32, r2: bv32, c: bv16, s: bv16, o: bv8)
    requires t.Valid() && Supported(t.layout) && t.maxTag != 0 && t.maxTagMask == t.maxTag && IsLowMask(t.maxTag)
    ensures t.Create(r1, c, s, o) != t.Create(r2, c, s, o) <==> KeptRank(t, r1) != KeptRank(t, r2)
  {
    NoWindow(t, t.layout.RawTag(r1, c, s, o));
    NoWindow(t, t.layout.RawTag(r2, c, s, o));
    RanksSeparatedIff(t, r1, r2, c, s, o);
  }

  lemma BelowLowMask(x: bv64, mask: bv64)
    requires IsLowMask(mask) && Within(x, mask)
    ensures Masked(x, mask) == x
  {
  }

  lemma NoWindow(t: TagCreator, raw: bv64)
    requires t.maxTagMask == t.maxTag && IsLowMask(t.maxTag)
    ensures !InWindow(t, raw)
  {
    if Within(raw, t.maxTag) { BelowLowMask(raw, t.maxTag); }
  }

  /** Otherwise the mask alone does not decide: with largest tag 2^41, ranks 0 and 2 keep no bit apart and differ. */
  lemma WindowSeparates(t: TagCreator)
    requires t.Valid() && t.layout == COMMON && t.maxTag == 0x200_0000_0000 && t.maxTagMask == 0x1FF_FFFF_FFFF
    ensures KeptRank(t, 0) == KeptRank(t, 2) && t.Create(0, 0, 0, 0) != t.Create(2, 0, 0, 0)
  {
    assert COMMON.RankField(0) == 0 && COMMON.RankField(2) == 0x200_0000_0000;
    assert COMMON.RawTag(0, 0, 0, 0) == 0 && COMMON.RawTag(2, 0, 0, 0) == 0x200_0000_0000;
  }

  // ----- when the provider's tags cover the whole layout

  lemma WidenedOp(a: bv8, b: bv8)
    ensures a as bv64 == b as bv64 <==> a == b
  {
  }

  lemma WidenedId(a: bv16, b: bv16)
    ensures a as bv64 == b as bv64 <==> a == b
  {
  }

  lemma WidenedRank(a: bv32, b: bv32)
    ensures a as bv64 == b as bv64 <==> a == b
  {
  }

  lemma ShiftedBack40(x: bv64)
    ensures (x & 0xFFFF_FF00_0000_0000) == ((x & 0xFFFF_FF00_0000_0000) >> 40) << 40
  {
  }

  lemma ShiftedBack28(x: bv64)
    ensures (x & 0xFFFF_F000_0000) == ((x & 0xFFFF_F000_0000) >> 28) << 28
  {
  }

  lemma CommonSameRank(r1: bv32, r2: bv32)
    requires r1 & 0xFF_FFFF == r2 & 0xFF_FFFF
    ensures COMMON.RankField(r1) == COMMON.RankField(r2)
  {
    CommonRankBits(r1);
    CommonRankBits(r2);
    ShiftedBack40(SignExtended(r1) << 40);
    ShiftedBack40(SignExtended(r2) << 40);
  }

  lemma CxiSameRank(r1: bv32, r2: bv32)
    requires r1 & 0xF_FFFF == r2 & 0xF_FFFF
    ensures OFI_CXI.RankField(r1) == OFI_CXI.RankField(r2)
  {
    CxiRankBits(r1);
    CxiRankBits(r2);
    ShiftedBack28(SignExtended(r1) << 28);
    ShiftedBack28(SignExtended(r2) << 28);
  }

  predicate CommonSame(r1: bv32, c1: bv16, s1: bv16, o1: bv8, r2: bv32, c2: bv16, s2: bv16, o2: bv8) {
    r1 & 0xFF_FFFF == r2 & 0xFF_FFFF && c1 == c2 && s1 == s2 && o1 == o2
  }

  lemma CommonFromTag(r1: bv32, c1: bv16, s1: bv16, o1: bv8, r2: bv32, c2: bv16, s2: bv16, o2: bv8)
    requires COMMON.RawTag(r1, c1, s1, o1) == COMMON.RawTag(r2, c2, s2, o2)
    ensures CommonSame(r1, c1, s1, o1, r2, c2, s2, o2)
  {
    CommonReadsBack(r1, c1, s1, o1);
    CommonReadsBack(r2, c2, s2, o2);
    WidenedOp(o1, o2);
    WidenedId(s1, s2);
    WidenedId(c1, c2);
    WidenedRank(r1 & 0xFF_FFFF, r2 & 0xFF_FFFF);
  }

  lemma CommonToTag(r1: bv32, c1: bv16, s1: bv16, o1: bv8, r2: bv32, c2: bv16, s2: bv16, o2: bv8)
    requires CommonSame(r1, c1, s1, o1, r2, c2, s2, o2)
    ensures COMMON.RawTag(r1, c1, s1, o1) == COMMON.RawTag(r2, c2, s2, o2)
  {
    CommonSameRank(r1, r2);
  }

  lemma CxiSameOthers(c1: bv16, s1: bv16, o1: bv8, c2: bv16, s2: bv16, o2: bv8)
    ensures o1 & 0xF == o2 & 0xF ==> OFI_CXI.OpIdField(o1) == OFI_CXI.OpIdField(o2)
    ensures s1 & 0xFFF == s2 & 0xFFF ==> OFI_CXI.SchedIdField(s1) == OFI_CXI.SchedIdField(s2)
    ensures c1 & 0xFFF == c2 & 0xFFF ==> OFI_CXI.CommIdField(c1) == OFI_CXI.CommIdField(c2)
  {
  }

  predicate CxiSame(r1: bv32, c1: bv16, s1: bv16, o1: bv8, r2: bv32, c2: bv16, s2: bv16, o2: bv8) {
    r1 & 0xF_FFFF == r2 & 0xF_FFFF && c1 & 0xFFF == c2 & 0xFFF && s1 & 0xFFF == s2 & 0xFFF && o1 & 0xF == o2 & 0xF
  }

  lemma CxiFromTag(r1: bv32, c1: bv16, s1: bv16, o1: bv8, r2: bv32, c2: bv16, s2: bv16, o2: bv8)
    requires OFI_CXI.RawTag(r1, c1, s1, o1) == OFI_CXI.RawTag(r2, c2, s2, o2)
    ensures CxiSame(r1, c1, s1, o1, r2, c2, s2, o2)
  {
    CxiReadsBack(r1, c1, s1, o1);
    CxiReadsBack(r2, c2, s2, o2);
    WidenedOp(o1 & 0xF, o2 & 0xF);
    WidenedId(s1 & 0xFFF, s2 & 0xFFF);
    WidenedId(c1 & 0xFFF, c2 & 0xFFF);
    WidenedRank(r1 & 0xF_FFFF, r2 & 0xF_FFFF);
  }

  lemma CxiToTag(r1: bv32, c1: bv16, s1: bv16, o1: bv8, r2: bv32, c2: bv16, s2: bv16, o2: bv8)
    requires CxiSame(r1, c1, s1, o1, r2, c2, s2, o2)
    ensures OFI_CXI.RawTag(r1, c1, s1, o1) == OFI_CXI.RawTag(r2, c2, s2, o2)
  {
    CxiSameOthers(c1, s1, o1, c2, s2, o2);
    CxiSameRank(r1, r2);
  }

  lemma MpiSameFields(r1: bv32, c1: bv16, s1: bv16, o1: bv8, r2: bv32, c2: bv16, s2: bv16, o2: bv8)
    ensures o1 & 0xF == o2 & 0xF ==> MPI.OpIdField(o1) == MPI.OpIdField(o2)
    ensures s1 & 0xFFF == s2 & 0xFFF ==> MPI.SchedIdField(s1) == MPI.SchedIdField(s2)
    ensures c1 & 0xFF == c2 & 0xFF ==> MPI.CommIdField(c1) == MPI.CommIdField(c2)
    ensures r1 & 0xFF == r2 & 0xFF ==> MPI.RankField(r1) == MPI.RankField(r2)
  {
  }

  predicate MpiSame(r1: bv32, c1: bv16, s1: bv16, o1: bv8, r2: bv32, c2: bv16, s2: bv16, o2: bv8) {
    r1 & 0xFF == r2 & 0xFF && c1 & 0xFF == c2 & 0xFF && s1 & 0xFFF == s2 & 0xFFF && o1 & 0xF == o2 & 0xF
  }

  lemma MpiFromTag(r1: bv32, c1: bv16, s1: bv16, o1: bv8, r2: bv32, c2: bv16, s2: bv16, o2: bv8)
    requires MPI.RawTag(r1, c1, s1, o1) == MPI.RawTag(r2, c2, s2, o2)
    ensures MpiSame(r1, c1, s1, o1, r2, c2, s2, o2)
  {
    MpiReadsBack(r1, c1, s1, o1);
    MpiReadsBack(r2, c2, s2, o2);
    WidenedOp(o1 & 0xF, o2 & 0xF);
    WidenedId(s1 & 0xFFF, s2 & 0xFFF);
    WidenedId(c1 & 0xFF, c2 & 0xFF);
    WidenedRank(r1 & 0xFF, r2 & 0xFF);
  }

  lemma MpiToTag(r1: bv32, c1: bv16, s1: bv16, o1: bv8, r2: bv32, c2: bv16, s2: bv16, o2: bv8)
    requires MpiSame(r1, c1, s1, o1, r2, c2, s2, o2)
    ensures MPI.RawTag(r1, c1, s1, o1) == MPI.RawTag(r2, c2, s2, o2)
  {
    MpiSameFields(r1, c1, s1, o1, r2, c2, s2, o2);
  }

  /** The ids agree in the bits each layout has for them. */
  predicate SameIds(l: Layout, r1: bv32, c1: bv16, s1: bv16, o1: bv8, r2: bv32, c2: bv16, s2: bv16, o2: bv8) {
    if l == COMMON then CommonSame(r1, c1, s1, o1, r2, c2, s2, o2)
    else if l == OFI_CXI then CxiSame(r1, c1, s1, o1, r2, c2, s2, o2)
    else MpiSame(r1, c1, s1, o1, r2, c2, s2, o2)
  }

  lemma IdsFromTag(l: Layout, r1: bv32, c1: bv16, s1: bv16, o1: bv8, r2: bv32, c2: bv16, s2: bv16, o2: bv8)
    requires Supported(l) && l.RawTag(r1, c1, s1, o1) == l.RawTag(r2, c2, s2, o2)
    ensures SameIds(l, r1, c1, s1, o1, r2, c2, s2, o2)
  {
    if l == COMMON {
      CommonFromTag(r1, c1, s1, o1, r2, c2, s2, o2);
    } else if l == OFI_CXI {
      CxiFromTag(r1, c1, s1, o1, r2, c2, s2, o2);
    } else {
      MpiFromTag(r1, c1, s1, o1, r2, c2, s2, o2);
    }
  }

  lemma TagFromIds(l: Layout, r1: bv32, c1: bv16, s1: bv16, o1: bv8, r2: bv32, c2: bv16, s2: bv16, o2: bv8)
    requires Supported(l) && SameIds(l, r1, c1, s1, o1, r2, c2, s2, o2)
    ensures l.RawTag(r1, c1, s1, o1) == l.RawTag(r2, c2, s2, o2)
  {
    if l == COMMON {
      CommonToTag(r1, c1, s1, o1, r2, c2, s2, o2);
    } else if l == OFI_CXI {
      CxiToTag(r1, c1, s1, o1, r2, c2, s2, o2);
    } else {
      MpiToTag(r1, c1, s1, o1, r2, c2, s2, o2);
    }
  }

  /** The provider's tags have room for the whole layout: 64, 48 or 32 bits. */
  predicate CoversLayout(t: TagCreator) {
    Within(if t.layout == COMMON then 0xFFFF_FFFF_FFFF_FFFF
           else if t.layout == OFI_CXI then 0xFFFF_FFFF_FFFF
           else 0xFFFF_FFFF, t.maxTag)
  }

  lemma CommonFits(raw: bv64, maxTag: bv64)
    requires Within(0xFFFF_FFFF_FFFF_FFFF, maxTag)
    ensures Within(raw, maxTag)
  {
  }

  lemma CxiFits(r: bv32, c: bv16, s: bv16, o: bv8, maxTag: bv64)
    requires Within(0xFFFF_FFFF_FFFF, maxTag)
    ensures Within(OFI_CXI.RawTag(r, c, s, o), maxTag)
  {
  }

  lemma MpiFits(r: bv32, c: bv16, s: bv16, o: bv8, maxTag: bv64)
    requires Within(0xFFFF_FFFF, maxTag)
    ensures Within(MPI.RawTag(r, c, s, o), maxTag)
  {
  }

  lemma WholeTagIsRaw(t: TagCreator, r: bv32, c: bv16, s: bv16, o: bv8)
    requires Supported(t.layout) && CoversLayout(t)
    ensures t.Create(r, c, s, o) == Ok(t.layout.RawTag(r, c, s, o))
  {
    if t.layout == COMMON {
      CommonFits(COMMON.RawTag(r, c, s, o), t.maxTag);
    } else if t.layout == OFI_CXI {
      CxiFits(r, c, s, o, t.maxTag);
    } else {
      MpiFits(r, c, s, o, t.maxTag);
    }
    FittingTagIsRaw(t, r, c, s, o);
  }

  lemma EqualTagsShareIds(
    t: TagCreator, r1: bv32, c1: bv16, s1: bv16, o1: bv8, r2: bv32, c2: bv16, s2: bv16, o2: bv8)
    requires Supported(t.layout) && CoversLayout(t) && t.Create(r1, c1, s1, o1) == t.Create(r2, c2, s2, o2)
    ensures SameIds(t.layout, r1, c1, s1, o1, r2, c2, s2, o2)
  {
    WholeTagIsRaw(t, r1, c1, s1, o1);
    WholeTagIsRaw(t, r2, c2, s2, o2);
    IdsFromTag(t.layout, r1, c1, s1, o1, r2, c2, s2, o2);
  }

  lemma SharedIdsEqualTags(
    t: TagCreator, r1: bv32, c1: bv16, s1: bv16, o1: bv8, r2: bv32, c2: bv16, s2: bv16, o2: bv8)
    requires Supported(t.layout) && SameIds(t.layout, r1, c1, s1, o1, r2, c2, s2, o2)
    ensures t.Create(r1, c1, s1, o1) == t.Create(r2, c2, s2, o2)
  {
    TagFromIds(t.layout, r1, c1, s1, o1, r2, c2, s2, o2);
  }

  /** With room for the whole layout, two tags are equal exactly when all four ids agree in the layout's bits. */
  lemma TagsEqualIff(
    t: TagCreator, r1: bv32, c1: bv16, s1: bv16, o1: bv8, r2: bv32, c2: bv16, s2: bv16, o2: bv8)
    requires Supported(t.layout) && CoversLayout(t)
    ensures t.Create(r1, c1, s1, o1) == t.Create(r2, c2, s2, o2) <==>
            SameIds(t.layout, r1, c1, s1, o1, r2, c2, s2, o2)
  {
    if t.Create(r1, c1, s1, o1) == t.Create(r2, c2, s2, o2) {
      EqualTagsShareIds(t, r1, c1, s1, o1, r2, c2, s2, o2);
    }
    if SameIds(t.layout, r1, c1, s1, o1, r2, c2, s2, o2) {
      SharedIdsEqualTags(t, r1, c1, s1, o1, r2, c2, s2, o2);
    }
  }
}
