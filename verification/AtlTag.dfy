/**
 Message tags: three bit layouts, truncation to the provider's largest tag, and the
 schedule ids reserved for point-to-point traffic
 (src/comm/atl_tag.hpp, src/comm/atl_tag.cpp, src/common/utils/utils.cpp).
 */
module AtlTag {

  // ----- powers of two

  predicate IsPow2(b: bv64) { b != 0 && b & (b - 1) == 0 }

  /** All-ones from bit 0 up: a value of the form 2^k - 1, zero and 2^64 - 1 included. */
  predicate IsLowMask(m: bv64) { m & (m + 1) == 0 }

  /** `p` is the largest power of two that does not exceed `n`. */
  predicate IsPof2(n: bv64, p: bv64) {
    IsPow2(p) && p <= n && n - p < p
  }

  lemma Pof2Unique(n: bv64, p: bv64, q: bv64)
    requires IsPof2(n, p) && IsPow2(q) && q <= n
    ensures q <= p
  {
    if q > p {
      TopBit(p, q);
    }
  }

  lemma TopBit(p: bv64, k: bv64)
    requires IsPow2(p) && p <= k && k - p < p
    ensures k & p == p
  {
  }

  const LAST_BIT_MASK: bv64 := 0x8000_0000_0000_0000

  lemma Doubled(p: bv64)
    requires IsPow2(p) && p < LAST_BIT_MASK
    ensures IsPow2(p << 1) && p < p << 1 <= LAST_BIT_MASK && (p << 1) >> 1 == p
  {
  }

  lemma Halved(n: bv64, p: bv64)
    requires IsPow2(p) && 1 < p && n < p && p >> 1 <= n
    ensures IsPof2(n, p >> 1)
  {
  }

  lemma HighBit(n: bv64)
    ensures n & LAST_BIT_MASK != 0 ==> IsPof2(n, LAST_BIT_MASK)
    ensures n & LAST_BIT_MASK == 0 ==> n < LAST_BIT_MASK
  {
  }

  /** `p` is a power of two, and the one below it is still within `n`. */
  predicate Climbing(n: bv64, p: bv64) {
    IsPow2(p) && p <= LAST_BIT_MASK && (p == 1 || p >> 1 <= n)
  }

  lemma ClimbEnds(n: bv64, p: bv64)
    requires Climbing(n, p) && n < p
    ensures if n == 0 then p >> 1 == 0 else IsPof2(n, p >> 1)
  {
    if 1 < p { Halved(n, p); }
  }

  lemma ClimbStep(n: bv64, p: bv64)
    requires Climbing(n, p) && p <= n && n < LAST_BIT_MASK
    ensures Climbing(n, p << 1) && LAST_BIT_MASK - (p << 1) < LAST_BIT_MASK - p
  {
    Doubled(p);
  }

  /** The shift loop: stops at the first power of two above `number`. */
  method Climb(number: bv64) returns (p: bv64)
    requires number < LAST_BIT_MASK
    ensures Climbing(number, p) && number < p
  {
    p := 1;
    while p <= number
      invariant Climbing(number, p)
      decreases LAST_BIT_MASK - p
    {
      ClimbStep(number, p);
      p := p << 1;
    }
  }

  /** The utility, with the early exit that keeps the shift from wrapping to zero. */
  method Pof2(number: bv64) returns (p: bv64)
    ensures if number == 0 then p == 0 else IsPof2(number, p)
  {
    HighBit(number);
    if number & LAST_BIT_MASK != 0 {
      p := LAST_BIT_MASK;
    } else {
      p := Climb(number);
      ClimbEnds(number, p);
      p := p >> 1;
    }
  }

  // ----- the largest tag a provider accepts

  /** `mask` is the largest 2^k - 1 that does not exceed `maxTag`. */
  ghost predicate IsTagMask(maxTag: bv64, mask: bv64) {
    IsLowMask(mask) && mask <= maxTag && forall k :: IsLowMask(k) && k <= maxTag ==> k <= mask
  }

  predicate Keeps(mask: bv64, field: bv64) { mask & field == field }

  lemma LowMaskNested(a: bv64, b: bv64)
    requires IsLowMask(a) && IsLowMask(b) && a <= b
    ensures Keeps(b, a)
  {
  }

  lemma DoubledMask(p: bv64)
    requires IsPow2(p)
    ensures IsLowMask(p - 1) && IsLowMask(p * 2 - 1)
  {
  }

  /** A low mask from the power of two upwards is the next one: nothing lies in between. */
  lemma MaskAbove(n: bv64, p: bv64, k: bv64)
    requires IsPow2(p) && p <= k && k <= n && n - p < p && IsLowMask(k)
    ensures k == p * 2 - 1 && n == k
  {
    TopBit(p, k);
  }

  /** The constructor's two-way choice of the mask. */
  function MaskFor(maxTag: bv64, p: bv64): bv64 {
    if maxTag == p * 2 - 1 then maxTag else p - 1
  }

  lemma MaskForIsLargest(maxTag: bv64, p: bv64, k: bv64)
    requires IsPof2(maxTag, p) && IsLowMask(k) && k <= maxTag
    ensures k <= MaskFor(maxTag, p)
  {
    if p <= k { MaskAbove(maxTag, p, k); }
  }

  lemma MaskForIsTagMask(maxTag: bv64, p: bv64)
    requires IsPof2(maxTag, p)
    ensures IsTagMask(maxTag, MaskFor(maxTag, p))
  {
    DoubledMask(p);
    forall k | IsLowMask(k) && k <= maxTag
      ensures k <= MaskFor(maxTag, p)
    {
      MaskForIsLargest(maxTag, p, k);
    }
  }

  // ----- layouts

  type Shift = bv6

  /**
   The constants of one layout struct. `pt2ptSchedId` is the all-ones schedule id of
   `pt2pt_tag_layout<N>`; `commIdBits` is what the communicator mask leaves of an id.
   */
  datatype Layout = Layout(
    opIdShift: Shift, schedIdShift: Shift, commIdShift: Shift, rankShift: Shift,
    opIdMask: bv64, schedIdMask: bv64, commIdMask: bv64, rankMask: bv64,
    pt2ptSchedId: bv16, commIdBits: bv16)
  {
    function OpIdField(opId: bv8): bv64 { ((opId as bv64) << opIdShift) & opIdMask }
    function SchedIdField(schedId: bv16): bv64 { ((schedId as bv64) << schedIdShift) & schedIdMask }
    function CommIdField(commId: bv16): bv64 { ((commId as bv64) << commIdShift) & commIdMask }
    function RankField(rank: bv32): bv64 { (SignExtended(rank) << rankShift) & rankMask }

    function RawTag(rank: bv32, commId: bv16, schedId: bv16, opId: bv8): bv64 {
      Joined(OpIdField(opId), SchedIdField(schedId), CommIdField(commId), RankField(rank))
    }

    /** The ids read back out of a tag. */
    function SchedIdOf(tag: bv64): bv64 { SchedIdOfField(Part(tag, schedIdMask)) }
    function CommIdOf(tag: bv64): bv64 { CommIdOfField(Part(tag, commIdMask)) }
    function SchedIdOfField(field: bv64): bv64 { field >> schedIdShift }
    function CommIdOfField(field: bv64): bv64 { field >> commIdShift }

    /** The largest tag that ends with the schedule id field, and with the communicator id field. */
    function SchedLimit(): bv64 { opIdMask | schedIdMask }
    function CommLimit(): bv64 { opIdMask | schedIdMask | commIdMask }

    function Pt2ptAckTag(): bv16 { pt2ptSchedId - 1 }
    function Pt2ptAckFirst(): bv16 { pt2ptSchedId - 2 }
    function Pt2ptAckSecond(): bv16 { pt2ptSchedId - 3 }
    function MaxSchedCount(): bv16 { pt2ptSchedId - 4 }
  }

  function Joined(op: bv64, sched: bv64, comm: bv64, rank: bv64): bv64 { op | sched | comm | rank }

  const COMMON := Layout(0, 8, 24, 40, 0xFF, 0xFF_FF00, 0xFF_FF00_0000, 0xFFFF_FF00_0000_0000, 0xFFFF, 0xFFFF)
  const OFI_CXI := Layout(0, 4, 16, 28, 0xF, 0xFFF0, 0xFFF_0000, 0xFFFF_F000_0000, 0xFFF, 0xFFF)
  const MPI := Layout(0, 4, 16, 24, 0xF, 0xFFF0, 0xFF_0000, 0xFF00_0000, 0xFFF, 0xFF)

  predicate Supported(l: Layout) { l == COMMON || l == OFI_CXI || l == MPI }

  /** static_cast of a 32-bit signed rank to a 64-bit unsigned value. */
  function SignExtended(rank: bv32): bv64 {
    if rank & 0x8000_0000 != 0 then (rank as bv64) | 0xFFFF_FFFF_0000_0000 else rank as bv64
  }

  /** The bits of `x` inside a field. */
  function Part(x: bv64, field: bv64): bv64 { x & field }

  function Widened(x: bv16): bv64 { x as bv64 }

  // What a layout has to get right: the fields of a raw tag do not disturb each other, a field gives
  // back the id bits there is room for and ignores the others, and the fields fill the tag from the
  // bottom.

  ghost predicate SchedApart(l: Layout) {
    forall r, c, s, o :: Part(l.RawTag(r, c, s, o), l.schedIdMask) == l.SchedIdField(s)
  }

  ghost predicate CommApart(l: Layout) {
    forall r, c, s, o :: Part(l.RawTag(r, c, s, o), l.commIdMask) == l.CommIdField(c)
  }

  ghost predicate SchedReadsBack(l: Layout) {
    forall x :: l.SchedIdOfField(l.SchedIdField(x)) == Widened(x & l.pt2ptSchedId)
  }

  ghost predicate CommReadsBack(l: Layout) {
    forall x :: l.CommIdOfField(l.CommIdField(x)) == Widened(x & l.commIdBits)
  }

  ghost predicate SchedTrimmed(l: Layout) {
    forall x :: l.SchedIdField(x & l.pt2ptSchedId) == l.SchedIdField(x)
  }

  ghost predicate CommTrimmed(l: Layout) {
    forall x :: l.CommIdField(x & l.commIdBits) == l.CommIdField(x)
  }

  ghost predicate LimitsNested(l: Layout) {
    && IsLowMask(l.SchedLimit()) && Keeps(l.SchedLimit(), l.schedIdMask)
    && IsLowMask(l.CommLimit()) && Keeps(l.CommLimit(), l.commIdMask)
  }

  ghost predicate SoundLayout(l: Layout) {
    && SchedApart(l) && SchedReadsBack(l) && SchedTrimmed(l)
    && CommApart(l) && CommReadsBack(l) && CommTrimmed(l)
    && LimitsNested(l)
  }

  lemma FullMask(x: bv16, mask: bv16)
    requires mask == 0xFFFF
    ensures x & mask == x
  {
  }

  lemma CommonApart()
    ensures SchedApart(COMMON) && CommApart(COMMON) && LimitsNested(COMMON)
  {
  }

  lemma CommonSchedRead(x: bv16)
    ensures COMMON.SchedIdOfField(COMMON.SchedIdField(x)) == Widened(x)
  {
  }

  lemma CommonSchedReadsBack()
    ensures SchedReadsBack(COMMON)
  {
    forall x: bv16 ensures COMMON.SchedIdOfField(COMMON.SchedIdField(x)) == Widened(x & COMMON.pt2ptSchedId) {
      FullMask(x, COMMON.pt2ptSchedId);
      CommonSchedRead(x);
    }
  }

  lemma CommonCommRead(x: bv16)
    ensures COMMON.CommIdOfField(COMMON.CommIdField(x)) == Widened(x)
  {
  }

  lemma CommonCommReadsBack()
    ensures CommReadsBack(COMMON)
  {
    forall x: bv16 ensures COMMON.CommIdOfField(COMMON.CommIdField(x)) == Widened(x & COMMON.commIdBits) {
      FullMask(x, COMMON.commIdBits);
      CommonCommRead(x);
    }
  }

  lemma CommonSchedTrimmed()
    ensures SchedTrimmed(COMMON)
  {
    forall x: bv16 ensures COMMON.SchedIdField(x & 0xFFFF) == COMMON.SchedIdField(x) { assert x & 0xFFFF == x; }
  }

  lemma CommonCommTrimmed()
    ensures CommTrimmed(COMMON)
  {
    forall x: bv16 ensures COMMON.CommIdField(x & 0xFFFF) == COMMON.CommIdField(x) { assert x & 0xFFFF == x; }
  }

  lemma CxiApart()
    ensures SchedApart(OFI_CXI) && CommApart(OFI_CXI) && LimitsNested(OFI_CXI)
  {
  }

  lemma CxiSchedReadsBack()
    ensures SchedReadsBack(OFI_CXI)
  {
  }

  lemma CxiCommReadsBack()
    ensures CommReadsBack(OFI_CXI)
  {
  }

  lemma CxiSchedTrimmed()
    ensures SchedTrimmed(OFI_CXI)
  {
  }

  lemma CxiCommTrimmed()
    ensures CommTrimmed(OFI_CXI)
  {
  }

  lemma MpiApart()
    ensures SchedApart(MPI) && CommApart(MPI) && LimitsNested(MPI)
  {
  }

  lemma MpiSchedReadsBack()
    ensures SchedReadsBack(MPI)
  {
  }

  lemma MpiCommReadsBack()
    ensures CommReadsBack(MPI)
  {
  }

  lemma MpiSchedTrimmed()
    ensures SchedTrimmed(MPI)
  {
  }

  lemma MpiCommTrimmed()
    ensures CommTrimmed(MPI)
  {
  }

  lemma SupportedIsSound(l: Layout)
    requires Supported(l)
    ensures SoundLayout(l)
  {
    if l == COMMON {
      CommonApart(); CommonSchedReadsBack(); CommonCommReadsBack(); CommonSchedTrimmed(); CommonCommTrimmed();
    } else if l == OFI_CXI {
      CxiApart(); CxiSchedReadsBack(); CxiCommReadsBack(); CxiSchedTrimmed(); CxiCommTrimmed();
    } else {
      MpiApart(); MpiSchedReadsBack(); MpiCommReadsBack(); MpiSchedTrimmed(); MpiCommTrimmed();
    }
  }

  // ----- truncation

  predicate Within(tag: bv64, maxTag: bv64) { tag <= maxTag }

  function Masked(x: bv64, mask: bv64): bv64 { x & mask }

  /** Masking always lands within the maximum and keeps every accepted run of low bits. */
  ghost predicate Truncates(maxTag: bv64, mask: bv64) {
    && (forall x :: Within(Masked(x, mask), maxTag))
    && (forall limit :: IsLowMask(limit) && Within(limit, maxTag) ==> Keeps(mask, limit))
  }

  lemma MaskedFits(x: bv64, mask: bv64, maxTag: bv64)
    requires mask <= maxTag
    ensures x & mask <= maxTag
  {
  }

  lemma TagMaskTruncates(maxTag: bv64, mask: bv64)
    requires IsTagMask(maxTag, mask)
    ensures Truncates(maxTag, mask)
  {
    forall x ensures Within(Masked(x, mask), maxTag) {
      MaskedFits(x, mask, maxTag);
    }
    forall limit | IsLowMask(limit) && Within(limit, maxTag) ensures Keeps(mask, limit) {
      LowMaskNested(limit, mask);
    }
  }

  // ----- the tag creator

  datatype Result<T> = Ok(value: T) | Throw

  datatype TagCreator = TagCreator(layout: Layout, maxTag: bv64, maxTagMask: bv64) {
    /** What the constructor leaves behind; a zero maxTag wraps the mask to all ones. */
    ghost predicate Valid() {
      SoundLayout(layout) && if maxTag == 0 then maxTagMask == 0xFFFF_FFFF_FFFF_FFFF else Truncates(maxTag, maxTagMask)
    }

    function Truncated(raw: bv64): bv64 {
      if Within(raw, maxTag) then raw else Masked(raw, maxTagMask)
    }

    function Create(rank: bv32, commId: bv16, schedId: bv16, opId: bv8): Result<bv64> {
      Checked(Truncated(layout.RawTag(rank, commId, schedId, opId)))
    }

    function Checked(tag: bv64): Result<bv64> {
      if Within(tag, maxTag) then Ok(tag) else Throw
    }
  }

  lemma MaskTruncates(maxTag: bv64, p: bv64)
    requires if maxTag == 0 then p == 0 else IsPof2(maxTag, p)
    ensures if maxTag == 0 then MaskFor(maxTag, p) == 0xFFFF_FFFF_FFFF_FFFF
            else IsTagMask(maxTag, MaskFor(maxTag, p)) && Truncates(maxTag, MaskFor(maxTag, p))
  {
    if maxTag != 0 {
      MaskForIsTagMask(maxTag, p);
      TagMaskTruncates(maxTag, MaskFor(maxTag, p));
    }
  }

  /** The constructor of `ccl_atl_tag`; it throws for fewer than 32 tag bits. */
  method MakeTagCreator(layout: Layout, tagBits: nat, maxTag: bv64) returns (r: Result<TagCreator>)
    requires Supported(layout)
    ensures r.Throw? <==> tagBits < 32
    ensures r.Ok? ==> r.value.layout == layout && r.value.maxTag == maxTag && r.value.Valid()
    ensures r.Ok? && maxTag != 0 ==> IsTagMask(maxTag, r.value.maxTagMask)
  {
    if tagBits < 32 {
      return Throw;
    }
    var p := Pof2(maxTag);
    MaskTruncates(maxTag, p);
    SupportedIsSound(layout);
    return Ok(TagCreator(layout, maxTag, MaskFor(maxTag, p)));
  }

  /** `init_tag` for the MPI transport refuses a provider whose tags would cut the schedule id. */
  method MakeMpiTagCreator(tagBits: nat, maxTag: bv64) returns (r: Result<TagCreator>)
    ensures r.Throw? <==> tagBits < 32 || !Within(0xFFFF, maxTag)
    ensures r.Ok? ==> r.value.layout == MPI && r.value.maxTag == maxTag && r.value.Valid()
    ensures r.Ok? ==> CarriesSched(r.value)
  {
    if !(maxTag >= MPI.opIdMask + MPI.schedIdMask) {
      return Throw;
    }
    r := MakeTagCreator(MPI, tagBits, maxTag);
  }

  // ----- what tags promise

  lemma AllOnes(x: bv64)
    ensures x & 0xFFFF_FFFF_FFFF_FFFF == x
    ensures Within(x, 0) <==> x == 0
  {
  }

  /** The final range check fires exactly for maxTag 0 and a non-zero tag: never for a provider that has tags at all. */
  lemma CreateThrowsIff(t: TagCreator, rank: bv32, commId: bv16, schedId: bv16, opId: bv8)
    requires t.Valid()
    ensures t.Create(rank, commId, schedId, opId).Throw?
            <==> t.maxTag == 0 && t.layout.RawTag(rank, commId, schedId, opId) != 0
    ensures var r := t.Create(rank, commId, schedId, opId); r.Ok? ==> Within(r.value, t.maxTag)
  {
    if t.maxTag == 0 { AllOnes(t.layout.RawTag(rank, commId, schedId, opId)); }
  }

  lemma KeepsTransitive(mask: bv64, limit: bv64, field: bv64)
    requires Keeps(mask, limit) && Keeps(limit, field)
    ensures Keeps(mask, field)
  {
  }

  lemma MaskTwice(x: bv64, mask: bv64, field: bv64)
    requires Keeps(mask, field)
    ensures Part(Masked(x, mask), field) == Part(x, field)
  {
  }

  lemma CutKeepsPart(t: TagCreator, raw: bv64, field: bv64)
    requires Keeps(t.maxTagMask, field)
    ensures Part(t.Truncated(raw), field) == Part(raw, field)
  {
    MaskTwice(raw, t.maxTagMask, field);
  }

  lemma FieldKept(t: TagCreator, limit: bv64, field: bv64)
    requires Truncates(t.maxTag, t.maxTagMask) && IsLowMask(limit) && Within(limit, t.maxTag) && Keeps(limit, field)
    ensures Keeps(t.maxTagMask, field)
  {
    KeepsTransitive(t.maxTagMask, limit, field);
  }

  /** Truncation never touches a field that lies below a limit the provider accepts. */
  lemma FieldSurvives(t: TagCreator, raw: bv64, limit: bv64, field: bv64)
    requires Truncates(t.maxTag, t.maxTagMask) && IsLowMask(limit) && Within(limit, t.maxTag) && Keeps(limit, field)
    ensures Part(t.Truncated(raw), field) == Part(raw, field)
  {
    FieldKept(t, limit, field);
    CutKeepsPart(t, raw, field);
  }

  predicate CarriesSched(t: TagCreator) { t.maxTag != 0 && Within(t.layout.SchedLimit(), t.maxTag) }
  predicate CarriesComm(t: TagCreator) { t.maxTag != 0 && Within(t.layout.CommLimit(), t.maxTag) }

  lemma CreateIsTruncated(t: TagCreator, r: bv32, c: bv16, s: bv16, o: bv8)
    requires t.Valid() && t.maxTag != 0
    ensures t.Create(r, c, s, o) == Ok(t.Truncated(t.layout.RawTag(r, c, s, o)))
  {
    CreateThrowsIff(t, r, c, s, o);
  }

  lemma SchedIdOfTruncated(t: TagCreator, raw: bv64)
    requires t.Valid() && CarriesSched(t)
    ensures t.layout.SchedIdOf(t.Truncated(raw)) == t.layout.SchedIdOf(raw)
  {
    FieldSurvives(t, raw, t.layout.SchedLimit(), t.layout.schedIdMask);
  }

  lemma SchedIdOfRaw(l: Layout, r: bv32, c: bv16, s: bv16, o: bv8)
    requires SoundLayout(l)
    ensures l.SchedIdOf(l.RawTag(r, c, s, o)) == Widened(s & l.pt2ptSchedId)
  {
    assert l.SchedIdOf(l.RawTag(r, c, s, o)) == l.SchedIdOfField(l.SchedIdField(s));
  }

  /** A tag gives its schedule id back whenever the provider's tags reach past that field, whatever the rank. */
  lemma SchedIdKept(t: TagCreator, r: bv32, c: bv16, s: bv16, o: bv8)
    requires t.Valid() && CarriesSched(t)
    ensures t.Create(r, c, s, o).Ok?
    ensures t.layout.SchedIdOf(t.Create(r, c, s, o).value) == Widened(s & t.layout.pt2ptSchedId)
  {
    CreateIsTruncated(t, r, c, s, o);
    SchedIdOfTruncated(t, t.layout.RawTag(r, c, s, o));
    SchedIdOfRaw(t.layout, r, c, s, o);
  }

  lemma CommIdOfTruncated(t: TagCreator, raw: bv64)
    requires t.Valid() && CarriesComm(t)
    ensures t.layout.CommIdOf(t.Truncated(raw)) == t.layout.CommIdOf(raw)
  {
    FieldSurvives(t, raw, t.layout.CommLimit(), t.layout.commIdMask);
  }

  lemma CommIdOfRaw(l: Layout, r: bv32, c: bv16, s: bv16, o: bv8)
    requires SoundLayout(l)
    ensures l.CommIdOf(l.RawTag(r, c, s, o)) == Widened(c & l.commIdBits)
  {
    assert l.CommIdOf(l.RawTag(r, c, s, o)) == l.CommIdOfField(l.CommIdField(c));
  }

  /** Likewise for the communicator id: cutting the rank bits never cuts the communicator. */
  lemma CommIdKept(t: TagCreator, r: bv32, c: bv16, s: bv16, o: bv8)
    requires t.Valid() && CarriesComm(t)
    ensures t.Create(r, c, s, o).Ok?
    ensures t.layout.CommIdOf(t.Create(r, c, s, o).value) == Widened(c & t.layout.commIdBits)
  {
    CreateIsTruncated(t, r, c, s, o);
    CommIdOfTruncated(t, t.layout.RawTag(r, c, s, o));
    CommIdOfRaw(t.layout, r, c, s, o);
  }

  ghost predicate CommsNeverMeet(t: TagCreator, c1: bv16, c2: bv16) {
    forall r1, s1, o1, r2, s2, o2 :: t.Create(r1, c1, s1, o1) != t.Create(r2, c2, s2, o2)
  }

  ghost predicate SchedsNeverMeet(t: TagCreator, s1: bv16, s2: bv16) {
    forall r1, c1, o1, r2, c2, o2 :: t.Create(r1, c1, s1, o1) != t.Create(r2, c2, s2, o2)
  }

  // ----- what any provider keeps of an id, however few bits its tags have

  /** The bits of the communicator field, and of the schedule field, that the tag mask leaves. */
  function KeptComm(t: TagCreator, c: bv16): bv64 { Masked(t.layout.CommIdField(c), t.maxTagMask) }
  function KeptSched(t: TagCreator, s: bv16): bv64 { Masked(t.layout.SchedIdField(s), t.maxTagMask) }

  lemma MaskTruncated(t: TagCreator, raw: bv64)
    ensures Masked(t.Truncated(raw), t.maxTagMask) == Masked(raw, t.maxTagMask)
  {
  }

  lemma MaskedPart(x: bv64, field: bv64, mask: bv64)
    ensures Masked(Part(x, field), mask) == Part(Masked(x, mask), field)
  {
  }

  /** Whatever else a tag holds, the kept communicator bits can be read from it, cut or not. */
  lemma KeptCommOfTag(t: TagCreator, r: bv32, c: bv16, s: bv16, o: bv8)
    requires t.Valid() && t.maxTag != 0
    ensures t.Create(r, c, s, o).Ok?
    ensures Part(Masked(t.Create(r, c, s, o).value, t.maxTagMask), t.layout.commIdMask) == KeptComm(t, c)
  {
    var raw := t.layout.RawTag(r, c, s, o);
    CreateIsTruncated(t, r, c, s, o);
    MaskTruncated(t, raw);
    MaskedPart(raw, t.layout.commIdMask, t.maxTagMask);
  }

  lemma KeptSchedOfTag(t: TagCreator, r: bv32, c: bv16, s: bv16, o: bv8)
    requires t.Valid() && t.maxTag != 0
    ensures t.Create(r, c, s, o).Ok?
    ensures Part(Masked(t.Create(r, c, s, o).value, t.maxTagMask), t.layout.schedIdMask) == KeptSched(t, s)
  {
    var raw := t.layout.RawTag(r, c, s, o);
    CreateIsTruncated(t, r, c, s, o);
    MaskTruncated(t, raw);
    MaskedPart(raw, t.layout.schedIdMask, t.maxTagMask);
  }

  lemma CommonPast(c: bv16, s: bv16, maxTag: bv64)
    requires Within(COMMON.RawTag(0xFFFF_FFFF, c, s, 0), maxTag)
    ensures Within(COMMON.CommLimit(), maxTag)
  {
  }

  lemma CxiPast(c: bv16, s: bv16, maxTag: bv64)
    requires Within(OFI_CXI.RawTag(0xFFFF_FFFF, c, s, 0), maxTag)
    ensures Within(OFI_CXI.CommLimit(), maxTag)
  {
  }

  lemma MpiPast(c: bv16, s: bv16, maxTag: bv64)
    requires Within(MPI.RawTag(0xFFFF_FFFF, c, s, 0), maxTag)
    ensures Within(MPI.CommLimit(), maxTag)
  {
  }

  /** A raw tag of rank -1 fits only where the communicator field fits whole. */
  lemma FullRankPast(l: Layout, c: bv16, s: bv16, maxTag: bv64)
    requires Supported(l) && Within(l.RawTag(0xFFFF_FFFF, c, s, 0), maxTag)
    ensures Within(l.CommLimit(), maxTag)
  {
    if l == COMMON {
      CommonPast(c, s, maxTag);
    } else if l == OFI_CXI {
      CxiPast(c, s, maxTag);
    } else {
      MpiPast(c, s, maxTag);
    }
  }

  lemma SchedUnderCommLimit(l: Layout)
    requires Supported(l)
    ensures Keeps(l.CommLimit(), l.schedIdMask)
  {
  }

  /** Where the communicator field fits whole, the mask cuts nothing of either id. */
  lemma NothingCut(t: TagCreator, c: bv16, s: bv16)
    requires t.Valid() && Supported(t.layout) && CarriesComm(t)
    ensures KeptComm(t, c) == t.layout.CommIdField(c) && KeptSched(t, s) == t.layout.SchedIdField(s)
  {
    SchedUnderCommLimit(t.layout);
    FieldKept(t, t.layout.CommLimit(), t.layout.commIdMask);
    FieldKept(t, t.layout.CommLimit(), t.layout.schedIdMask);
    CommUncut(t, c);
    SchedUncut(t, s);
  }

  lemma CommUncut(t: TagCreator, c: bv16)
    requires CommApart(t.layout) && Keeps(t.maxTagMask, t.layout.commIdMask)
    ensures KeptComm(t, c) == t.layout.CommIdField(c)
  {
    var raw := t.layout.RawTag(0, c, 0, 0);
    KeepsAll(raw, t.layout.commIdMask, t.maxTagMask);
  }

  lemma SchedUncut(t: TagCreator, s: bv16)
    requires SchedApart(t.layout) && Keeps(t.maxTagMask, t.layout.schedIdMask)
    ensures KeptSched(t, s) == t.layout.SchedIdField(s)
  {
    var raw := t.layout.RawTag(0, 0, s, 0);
    KeepsAll(raw, t.layout.schedIdMask, t.maxTagMask);
  }

  lemma KeepsAll(x: bv64, field: bv64, mask: bv64)
    requires Keeps(mask, field)
    ensures Masked(Part(x, field), mask) == Part(x, field)
  {
  }

  lemma SameAfterMask(op: bv64, sched: bv64, a: bv64, b: bv64, rank: bv64, mask: bv64)
    requires Masked(a, mask) == Masked(b, mask)
    ensures Masked(Joined(op, sched, a, rank), mask) == Masked(Joined(op, sched, b, rank), mask)
    ensures Masked(Joined(op, a, sched, rank), mask) == Masked(Joined(op, b, sched, rank), mask)
  {
  }

  /** Equal kept bits: the two communicators share the tag of rank -1. */
  lemma KeptCommAliases(t: TagCreator, c1: bv16, c2: bv16)
    requires t.Valid() && Supported(t.layout) && t.maxTag != 0 && KeptComm(t, c1) == KeptComm(t, c2)
    ensures t.Create(0xFFFF_FFFF, c1, 0, 0) == t.Create(0xFFFF_FFFF, c2, 0, 0)
  {
    var l := t.layout;
    if CarriesComm(t) {
      NothingCut(t, c1, 0);
      NothingCut(t, c2, 0);
    } else {
      if Within(l.RawTag(0xFFFF_FFFF, c1, 0, 0), t.maxTag) { FullRankPast(l, c1, 0, t.maxTag); }
      if Within(l.RawTag(0xFFFF_FFFF, c2, 0, 0), t.maxTag) { FullRankPast(l, c2, 0, t.maxTag); }
      SameAfterMask(l.OpIdField(0), l.SchedIdField(0), l.CommIdField(c1), l.CommIdField(c2), l.RankField(0xFFFF_FFFF),
                    t.maxTagMask);
    }
  }

  lemma KeptSchedAliases(t: TagCreator, s1: bv16, s2: bv16)
    requires t.Valid() && Supported(t.layout) && t.maxTag != 0 && KeptSched(t, s1) == KeptSched(t, s2)
    ensures t.Create(0xFFFF_FFFF, 0, s1, 0) == t.Create(0xFFFF_FFFF, 0, s2, 0)
  {
    var l := t.layout;
    if CarriesComm(t) {
      NothingCut(t, 0, s1);
      NothingCut(t, 0, s2);
    } else {
      if Within(l.RawTag(0xFFFF_FFFF, 0, s1, 0), t.maxTag) { FullRankPast(l, 0, s1, t.maxTag); }
      if Within(l.RawTag(0xFFFF_FFFF, 0, s2, 0), t.maxTag) { FullRankPast(l, 0, s2, t.maxTag); }
      SameAfterMask(l.OpIdField(0), l.CommIdField(0), l.SchedIdField(s1), l.SchedIdField(s2), l.RankField(0xFFFF_FFFF),
                    t.maxTagMask);
    }
  }

  /** Without any tags every call with an operation id throws alike. */
  lemma NoTagsAllThrow(t: TagCreator, r: bv32, c: bv16, s: bv16)
    requires t.Valid() && Supported(t.layout) && t.maxTag == 0
    ensures t.Create(r, c, s, 1) == Throw
  {
    OpIdLeavesABit(t.layout, r, c, s);
    CreateThrowsIff(t, r, c, s, 1);
  }

  lemma OpIdLeavesABit(l: Layout, r: bv32, c: bv16, s: bv16)
    requires Supported(l)
    ensures l.RawTag(r, c, s, 1) != 0
  {
    BitOfJoined(l.OpIdField(1), l.SchedIdField(s), l.CommIdField(c), l.RankField(r));
  }

  lemma BitOfJoined(op: bv64, sched: bv64, comm: bv64, rank: bv64)
    ensures op != 0 ==> Joined(op, sched, comm, rank) != 0
  {
  }

  /**
   Two communicators never share a tag, for any ranks, schedules and operations, exactly when the
   provider has tags and leaves some bit in which the two communicator fields differ.
   */
  lemma CommsSeparatedIff(t: TagCreator, c1: bv16, c2: bv16)
    requires t.Valid() && Supported(t.layout)
    ensures CommsNeverMeet(t, c1, c2) <==> t.maxTag != 0 && KeptComm(t, c1) != KeptComm(t, c2)
  {
    if t.maxTag == 0 {
      NoTagsAllThrow(t, 0, c1, 0);
      NoTagsAllThrow(t, 0, c2, 0);
    } else if KeptComm(t, c1) == KeptComm(t, c2) {
      KeptCommAliases(t, c1, c2);
    } else {
      forall r1, s1, o1, r2, s2, o2
        ensures t.Create(r1, c1, s1, o1) != t.Create(r2, c2, s2, o2)
      {
        KeptCommOfTag(t, r1, c1, s1, o1);
        KeptCommOfTag(t, r2, c2, s2, o2);
      }
    }
  }

  /** The same for schedule ids: for any ranks, communicators and operations. */
  lemma SchedsSeparatedIff(t: TagCreator, s1: bv16, s2: bv16)
    requires t.Valid() && Supported(t.layout)
    ensures SchedsNeverMeet(t, s1, s2) <==> t.maxTag != 0 && KeptSched(t, s1) != KeptSched(t, s2)
  {
    if t.maxTag == 0 {
      NoTagsAllThrow(t, 0, 0, s1);
      NoTagsAllThrow(t, 0, 0, s2);
    } else if KeptSched(t, s1) == KeptSched(t, s2) {
      KeptSchedAliases(t, s1, s2);
    } else {
      forall r1, c1, o1, r2, c2, o2
        ensures t.Create(r1, c1, s1, o1) != t.Create(r2, c2, s2, o2)
      {
        KeptSchedOfTag(t, r1, c1, s1, o1);
        KeptSchedOfTag(t, r2, c2, s2, o2);
      }
    }
  }

  lemma WidenedInjective(a: bv16, b: bv16)
    requires Widened(a) == Widened(b)
    ensures a == b
  {
  }

  /** Two communicator fields agree exactly when the ids agree in the bits the layout has room for. */
  lemma CommFieldsEqualIff(l: Layout, c1: bv16, c2: bv16)
    requires CommReadsBack(l) && CommTrimmed(l)
    ensures l.CommIdField(c1) == l.CommIdField(c2) <==> c1 & l.commIdBits == c2 & l.commIdBits
  {
    assert l.CommIdField(c1 & l.commIdBits) == l.CommIdField(c1);
    assert l.CommIdOfField(l.CommIdField(c1)) == Widened(c1 & l.commIdBits);
    assert l.CommIdOfField(l.CommIdField(c2)) == Widened(c2 & l.commIdBits);
    if l.CommIdField(c1) == l.CommIdField(c2) {
      WidenedInjective(c1 & l.commIdBits, c2 & l.commIdBits);
    }
  }

  lemma SchedFieldsEqualIff(l: Layout, s1: bv16, s2: bv16)
    requires SchedReadsBack(l) && SchedTrimmed(l)
    ensures l.SchedIdField(s1) == l.SchedIdField(s2) <==> s1 & l.pt2ptSchedId == s2 & l.pt2ptSchedId
  {
    assert l.SchedIdField(s1 & l.pt2ptSchedId) == l.SchedIdField(s1);
    assert l.SchedIdOfField(l.SchedIdField(s1)) == Widened(s1 & l.pt2ptSchedId);
    assert l.SchedIdOfField(l.SchedIdField(s2)) == Widened(s2 & l.pt2ptSchedId);
    if l.SchedIdField(s1) == l.SchedIdField(s2) {
      WidenedInjective(s1 & l.pt2ptSchedId, s2 & l.pt2ptSchedId);
    }
  }

  lemma KeptCommIff(t: TagCreator, c1: bv16, c2: bv16)
    requires t.Valid() && CarriesComm(t)
    ensures KeptComm(t, c1) == KeptComm(t, c2) <==> c1 & t.layout.commIdBits == c2 & t.layout.commIdBits
  {
    FieldKept(t, t.layout.CommLimit(), t.layout.commIdMask);
    CommUncut(t, c1);
    CommUncut(t, c2);
    CommFieldsEqualIff(t.layout, c1, c2);
  }

  lemma KeptSchedIff(t: TagCreator, s1: bv16, s2: bv16)
    requires t.Valid() && CarriesSched(t)
    ensures KeptSched(t, s1) == KeptSched(t, s2) <==> s1 & t.layout.pt2ptSchedId == s2 & t.layout.pt2ptSchedId
  {
    FieldKept(t, t.layout.SchedLimit(), t.layout.schedIdMask);
    SchedUncut(t, s1);
    SchedUncut(t, s2);
    SchedFieldsEqualIff(t.layout, s1, s2);
  }

  /**
   Where tags reach past the communicator field, that is exactly when the ids differ in the bits the
   layout has room for. The MPI layout has room for eight of them.
   */
  lemma CommIdsSeparatedIff(t: TagCreator, c1: bv16, c2: bv16)
    requires t.Valid() && Supported(t.layout) && CarriesComm(t)
    ensures CommsNeverMeet(t, c1, c2) <==> c1 & t.layout.commIdBits != c2 & t.layout.commIdBits
  {
    CommsSeparatedIff(t, c1, c2);
    KeptCommIff(t, c1, c2);
  }

  /** And where they reach past the schedule field, exactly when the schedule ids differ in the layout's bits. */
  lemma SchedIdsSeparatedIff(t: TagCreator, s1: bv16, s2: bv16)
    requires t.Valid() && Supported(t.layout) && CarriesSched(t)
    ensures SchedsNeverMeet(t, s1, s2) <==> s1 & t.layout.pt2ptSchedId != s2 & t.layout.pt2ptSchedId
  {
    SchedsSeparatedIff(t, s1, s2);
    KeptSchedIff(t, s1, s2);
  }

  /** With the MPI layout communicators 0 and 256 use the same tags. */
  lemma MpiCommIdsAlias(t: TagCreator, r: bv32, s: bv16, o: bv8)
    requires t.Valid() && t.layout == MPI
    ensures t.Create(r, 0, s, o) == t.Create(r, 256, s, o)
  {
    assert MPI.CommIdField(0) == MPI.CommIdField(256);
  }

  /** A provider whose largest tag is 0xFFFF passes the MPI check and gives communicators 0 and 1 a common tag. */
  lemma MpiShortTagsAlias(t: TagCreator)
    requires t.Valid() && t.layout == MPI && t.maxTag == 0xFFFF
    ensures CarriesSched(t) && t.Create(0xFFFF_FFFF, 0, 0, 0) == t.Create(0xFFFF_FFFF, 1, 0, 0)
  {
    assert Within(Masked(t.maxTagMask, t.maxTagMask), 0xFFFF) && Keeps(t.maxTagMask, 0xFFFF);
    KeptCommAliases(t, 0, 1);
  }
}
