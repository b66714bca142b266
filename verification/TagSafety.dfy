/**
 Where the id protocol, the schedule counters and the bit layouts meet: tags of different
 live communicators, and tags of collectives and of point-to-point traffic.
 */
module TagSafety {
  import opened CommIdStorage
  import opened AtlTag
  import Protocol = CommIdProtocol
  import SchedId

  // ----- communicators

  lemma DoubledWord(w: bv16)
    requires w as nat < 32768
    ensures (w << 1) as nat == 2 * (w as nat) && ((w << 1) | 1) as nat == 2 * (w as nat) + 1
  {
  }

  /** The 16-bit word an id is cast to. */
  function Word(id: nat): (w: bv16)
    requires id < 65536
    ensures w as nat == id
  {
    if id == 0 then 0
    else
      var half := Word(id / 2);
      DoubledWord(half);
      if id % 2 == 0 then half << 1 else (half << 1) | 1
  }

  /** Nothing of the word is lost in the layout's communicator field. */
  predicate FitsField(l: Layout, c: bv16) { c & l.commIdBits == c }

  lemma SmallWord(c: bv16)
    requires c as nat < MAX_COMM_ID
    ensures c & 0xFFFF == c && c & 0xFFF == c
  {
  }

  lemma SmallWordFits(l: Layout, c: bv16)
    requires (l == COMMON || l == OFI_CXI) && c & 0xFFFF == c && c & 0xFFF == c
    ensures FitsField(l, c)
  {
  }

  lemma IdFits(l: Layout, id: nat)
    requires (l == COMMON || l == OFI_CXI) && id < MAX_COMM_ID
    ensures FitsField(l, Word(id))
  {
    SmallWord(Word(id));
    SmallWordFits(l, Word(id));
  }

  lemma FittingWordsNeverMeet(t: TagCreator, c1: bv16, c2: bv16)
    requires t.Valid() && Supported(t.layout) && CarriesComm(t)
    requires c1 != c2 && FitsField(t.layout, c1) && FitsField(t.layout, c2)
    ensures CommsNeverMeet(t, c1, c2)
  {
    CommIdsSeparatedIff(t, c1, c2);
  }

  /**
   End to end: in every run of the id protocol, two live communicator objects of one process never
   use a common tag, whatever the ranks, schedules and operations, with the common layout from
   maxTag 2^40 - 1 on and with the CXI layout from 2^28 - 1 on.
   */
  lemma LiveCommunicatorsNeverShareATag(
    ss: seq<Protocol.State>, ls: seq<Protocol.Label>, i: nat, p: nat, h1: nat, h2: nat, t: TagCreator)
    requires Protocol.DisciplinedRun(ss, ls) && i < |ss| && p < |ss[i].procs| && h1 != h2
    requires Protocol.Live(ss[i].procs[p], h1) && Protocol.Live(ss[i].procs[p], h2)
    requires t.Valid() && (t.layout == COMMON || t.layout == OFI_CXI) && CarriesComm(t)
    ensures var ids := ss[i].procs[p].handles;
            ValidId(ids[h1]) && ValidId(ids[h2]) && CommsNeverMeet(t, Word(ids[h1]), Word(ids[h2]))
  {
    Protocol.LiveIdsDiffer(ss, ls, i, p, h1, h2);
    DifferentIdsNeverMeet(t, ss[i].procs[p].handles[h1], ss[i].procs[p].handles[h2]);
  }

  /** And for every layout and every provider, however short its tags: exactly when some kept bit tells them apart. */
  lemma LiveCommunicatorsSeparatedIff(
    ss: seq<Protocol.State>, ls: seq<Protocol.Label>, i: nat, p: nat, h1: nat, h2: nat, t: TagCreator)
    requires Protocol.DisciplinedRun(ss, ls) && i < |ss| && p < |ss[i].procs| && h1 != h2
    requires Protocol.Live(ss[i].procs[p], h1) && Protocol.Live(ss[i].procs[p], h2)
    requires t.Valid() && Supported(t.layout)
    ensures var ids := ss[i].procs[p].handles;
            && 0 <= ids[h1] < MAX_COMM_ID && 0 <= ids[h2] < MAX_COMM_ID && ids[h1] != ids[h2]
            && (CommsNeverMeet(t, Word(ids[h1]), Word(ids[h2])) <==>
                t.maxTag != 0 && KeptComm(t, Word(ids[h1])) != KeptComm(t, Word(ids[h2])))
  {
    Protocol.LiveIdsDiffer(ss, ls, i, p, h1, h2);
    CommsSeparatedIff(t, Word(ss[i].procs[p].handles[h1]), Word(ss[i].procs[p].handles[h2]));
  }

  lemma DifferentIdsNeverMeet(t: TagCreator, id1: nat, id2: nat)
    requires id1 < MAX_COMM_ID && id2 < MAX_COMM_ID && id1 != id2
    requires t.Valid() && (t.layout == COMMON || t.layout == OFI_CXI) && CarriesComm(t)
    ensures CommsNeverMeet(t, Word(id1), Word(id2))
  {
    IdFits(t.layout, id1);
    IdFits(t.layout, id2);
    FittingWordsNeverMeet(t, Word(id1), Word(id2));
  }

  /** From which maximum tag on a provider carries the communicator id, and the schedule id. */
  lemma LimitValues()
    ensures COMMON.CommLimit() == 0xFF_FFFF_FFFF && OFI_CXI.CommLimit() == 0xFFF_FFFF && MPI.CommLimit() == 0xFF_FFFF
    ensures COMMON.SchedLimit() == 0xFF_FFFF && OFI_CXI.SchedLimit() == 0xFFFF && MPI.SchedLimit() == 0xFFFF
  {
  }

  /** The stand-in id 1024, used while a communicator has no id yet, never meets a real one. */
  lemma StandInIdNeverMeets(t: TagCreator, id: nat)
    requires id < MAX_COMM_ID
    requires t.Valid() && (t.layout == COMMON || t.layout == OFI_CXI) && CarriesComm(t)
    ensures CommsNeverMeet(t, 1024, Word(id))
  {
    IdFits(t.layout, id);
    SmallWordFits(t.layout, 1024);
    NotStandIn(Word(id));
    FittingWordsNeverMeet(t, 1024, Word(id));
  }

  lemma NotStandIn(c: bv16)
    requires c as nat < MAX_COMM_ID
    ensures c != 1024
  {
  }

  // ----- schedules

  /** max_sched_count as a number. */
  function MaxSchedCountOf(l: Layout): (max: nat)
    ensures Supported(l) ==> l.MaxSchedCount() as nat == max
  {
    if l == COMMON then 65531 else 4091
  }

  /** The ids set aside for point-to-point messages and their acknowledgements. */
  predicate Reserved(l: Layout, s: bv16) {
    s == l.pt2ptSchedId || s == l.Pt2ptAckTag() || s == l.Pt2ptAckFirst() || s == l.Pt2ptAckSecond()
  }

  /** The four reserved ids are the top four numbers of the schedule field, all different. */
  lemma ReservedNumbers(l: Layout)
    requires Supported(l)
    ensures var top: bv16 := if l == COMMON then 0xFFFF else 0xFFF;
            && l.pt2ptSchedId == top && l.Pt2ptAckTag() == top - 1
            && l.Pt2ptAckFirst() == top - 2 && l.Pt2ptAckSecond() == top - 3
    ensures |{l.pt2ptSchedId, l.Pt2ptAckTag(), l.Pt2ptAckFirst(), l.Pt2ptAckSecond()}| == 4
  {
  }

  lemma ReservedKept(l: Layout, s: bv16)
    requires Supported(l) && Reserved(l, s)
    ensures s & l.pt2ptSchedId == s
  {
  }

  ghost predicate NeverMeetsPt2pt(t: TagCreator, s: bv16) {
    forall reserved :: Reserved(t.layout, reserved) ==> SchedsNeverMeet(t, s, reserved)
  }

  /**
   A schedule's tags stay clear of point-to-point tags exactly when its id is not reserved in the bits the
   layout keeps.
   */
  lemma ClearOfPt2ptIff(t: TagCreator, s: bv16)
    requires t.Valid() && Supported(t.layout) && CarriesSched(t)
    ensures NeverMeetsPt2pt(t, s) <==> !Reserved(t.layout, s & t.layout.pt2ptSchedId)
  {
    var kept := s & t.layout.pt2ptSchedId;
    if Reserved(t.layout, kept) {
      ReservedKept(t.layout, kept);
      SchedIdsSeparatedIff(t, s, kept);
    } else {
      forall reserved | Reserved(t.layout, reserved) ensures SchedsNeverMeet(t, s, reserved) {
        ReservedKept(t.layout, reserved);
        SchedIdsSeparatedIff(t, s, reserved);
      }
    }
  }

  /** Messages and acknowledgements of different kinds never share a tag. */
  lemma ReservedNeverMeet(t: TagCreator, a: bv16, b: bv16)
    requires t.Valid() && Supported(t.layout) && CarriesSched(t)
    requires Reserved(t.layout, a) && Reserved(t.layout, b) && a != b
    ensures SchedsNeverMeet(t, a, b)
  {
    ReservedKept(t.layout, a);
    ReservedKept(t.layout, b);
    SchedIdsSeparatedIff(t, a, b);
  }

  lemma CommonBelowMax(s: bv16)
    requires s as nat < 65531
    ensures !Reserved(COMMON, s & COMMON.pt2ptSchedId)
  {
  }

  lemma CxiBelowMax(s: bv16)
    requires s as nat < 4091
    ensures !Reserved(OFI_CXI, s & OFI_CXI.pt2ptSchedId)
  {
  }

  lemma MpiBelowMax(s: bv16)
    requires s as nat < 4091
    ensures !Reserved(MPI, s & MPI.pt2ptSchedId)
  {
  }

  lemma BelowMaxNotReserved(l: Layout, s: bv16)
    requires Supported(l) && s as nat < MaxSchedCountOf(l)
    ensures !Reserved(l, s & l.pt2ptSchedId)
  {
    if l == COMMON { CommonBelowMax(s); }
    else if l == OFI_CXI { CxiBelowMax(s); }
    else { MpiBelowMax(s); }
  }

  lemma BelowMaxClear(t: TagCreator, s: bv16)
    requires t.Valid() && Supported(t.layout) && CarriesSched(t) && s as nat < MaxSchedCountOf(t.layout)
    ensures NeverMeetsPt2pt(t, s)
  {
    BelowMaxNotReserved(t.layout, s);
    ClearOfPt2ptIff(t, s);
  }

  /**
   In every run of a communicator's counters, no external schedule's tag is ever a point-to-point or
   acknowledgement tag of any rank, communicator or operation.
   */
  lemma ExternalSchedulesClearOfPt2pt(t: TagCreator, calls: seq<SchedId.Call>, i: nat, s: bv16)
    requires t.Valid() && Supported(t.layout) && CarriesSched(t)
    requires i < |calls| && !calls[i].useInternal && s as nat == SchedId.IdAt(MaxSchedCountOf(t.layout), calls, i)
    ensures NeverMeetsPt2pt(t, s)
  {
    SchedId.ExternalIdRange(MaxSchedCountOf(t.layout), calls, i);
    BelowMaxClear(t, s);
  }

  /** Internal schedules need not be: seeded in the middle, their counter climbs through the reserved ids. */
  lemma InternalSchedulesReachPt2pt(l: Layout, calls: seq<SchedId.Call>)
    requires Supported(l)
    requires |calls| == MaxSchedCountOf(l) - MaxSchedCountOf(l) / 2 + 5
    requires forall k :: 0 <= k < |calls| ==> calls[k] == SchedId.Call(true, false)
    ensures SchedId.IdAt(MaxSchedCountOf(l), calls, |calls| - 1) == l.pt2ptSchedId as nat
  {
    var max := MaxSchedCountOf(l);
    var before := calls[..|calls| - 1];
    AllStep(before);
    assert !SchedId.FirstInternalIsPt2pt(before);
    SchedId.InternalIdRange(max, calls, |calls| - 1);
  }

  /** The tags of schedule `id` stay clear of point-to-point tags. */
  ghost predicate ClearId(t: TagCreator, id: nat) { id < 65536 && NeverMeetsPt2pt(t, Word(id)) }

  /** In the bits the layout keeps, the id is one of the reserved ones. */
  predicate ReservedId(l: Layout, id: nat) { id < 65536 && Reserved(l, Word(id) & l.pt2ptSchedId) }

  lemma ClearIdIff(t: TagCreator, id: nat)
    requires t.Valid() && Supported(t.layout) && CarriesSched(t) && id < 65536
    ensures ClearId(t, id) <==> !ReservedId(t.layout, id)
  {
    var w := Word(id);
    ClearOfPt2ptIff(t, w);
    WordForId(t, id, w);
  }

  lemma WordForId(t: TagCreator, id: nat, w: bv16)
    requires id < 65536 && w == Word(id)
    requires NeverMeetsPt2pt(t, w) <==> !Reserved(t.layout, w & t.layout.pt2ptSchedId)
    ensures ClearId(t, id) <==> !ReservedId(t.layout, id)
  {
  }

  lemma ClearIdBelowMax(t: TagCreator, id: nat)
    requires t.Valid() && Supported(t.layout) && CarriesSched(t) && id < MaxSchedCountOf(t.layout)
    ensures ClearId(t, id)
  {
    BelowMaxClear(t, Word(id));
  }

  /** How far the internal counter has climbed from the middle after n steps without a reset. */
  function Climbed(l: Layout, n: nat): (id: nat)
    ensures id < 65536
  {
    (MaxSchedCountOf(l) / 2 + n) % 65536
  }

  /**
   Exactly when an internal schedule is clear: its counter was reset before, or the number it climbed to from
   the middle is not a reserved id in the bits the layout keeps.
   */
  lemma InternalSchedulesClearIff(t: TagCreator, calls: seq<SchedId.Call>, i: nat, id: nat)
    requires t.Valid() && Supported(t.layout) && CarriesSched(t) && i < |calls| && calls[i].useInternal
    requires id == SchedId.IdAt(MaxSchedCountOf(t.layout), calls, i)
    ensures ClearId(t, id) <==>
            || SchedId.FirstInternalIsPt2pt(calls[..i])
            || SchedId.Stepping(calls[..i], true) >= SchedId.U16
            || !ReservedId(t.layout, Climbed(t.layout, SchedId.Stepping(calls[..i], true)))
  {
    SchedId.InternalIdRange(MaxSchedCountOf(t.layout), calls, i);
    var n := SchedId.Stepping(calls[..i], true);
    if SchedId.FirstInternalIsPt2pt(calls[..i]) || n >= SchedId.U16 {
      ClearIdBelowMax(t, id);
    } else {
      assert id == Climbed(t.layout, n);
      ClearIdIff(t, id);
    }
  }

  lemma BelowMaxKept(l: Layout, s: bv16)
    requires Supported(l) && s as nat < MaxSchedCountOf(l)
    ensures s & l.pt2ptSchedId == s
  {
    if l == COMMON { CommonKept(s); } else { TwelveBitsKept(s); }
  }

  lemma CommonKept(s: bv16)
    ensures s & 0xFFFF == s
  {
  }

  lemma TwelveBitsKept(s: bv16)
    requires s as nat < 4091
    ensures s & 0xFFF == s
  {
  }

  /** Nothing of the word is lost in the layout's schedule field. */
  predicate FitsSched(l: Layout, s: bv16) { s & l.pt2ptSchedId == s }

  lemma SchedFits(l: Layout, id: nat)
    requires Supported(l) && id < MaxSchedCountOf(l)
    ensures FitsSched(l, Word(id))
  {
    BelowMaxKept(l, Word(id));
  }

  lemma FittingSchedulesNeverMeet(t: TagCreator, s1: bv16, s2: bv16)
    requires t.Valid() && Supported(t.layout) && CarriesSched(t)
    requires s1 != s2 && FitsSched(t.layout, s1) && FitsSched(t.layout, s2)
    ensures SchedsNeverMeet(t, s1, s2)
  {
    SchedIdsSeparatedIff(t, s1, s2);
  }

  /** Two different schedule ids below max_sched_count never share a tag. */
  lemma DifferentSchedulesNeverMeet(t: TagCreator, id1: nat, id2: nat)
    requires t.Valid() && Supported(t.layout) && CarriesSched(t)
    requires id1 != id2 && id1 < MaxSchedCountOf(t.layout) && id2 < MaxSchedCountOf(t.layout)
    ensures SchedsNeverMeet(t, Word(id1), Word(id2))
  {
    SchedFits(t.layout, id1);
    SchedFits(t.layout, id2);
    FittingSchedulesNeverMeet(t, Word(id1), Word(id2));
  }

  /** Once the counters are in their halves, no internal schedule shares a tag with an external one of the run. */
  lemma SpacesNeverMeet(t: TagCreator, calls: seq<SchedId.Call>, i: nat, j: nat, id1: nat, id2: nat)
    requires t.Valid() && Supported(t.layout) && CarriesSched(t) && i < |calls| && j < |calls|
    requires calls[i].useInternal && SchedId.InLowerHalf(MaxSchedCountOf(t.layout), calls[..i])
    requires !calls[j].useInternal && SchedId.Stepping(calls[..j], false) >= MaxSchedCountOf(t.layout) / 2
    requires id1 == SchedId.IdAt(MaxSchedCountOf(t.layout), calls, i)
    requires id2 == SchedId.IdAt(MaxSchedCountOf(t.layout), calls, j)
    ensures id1 < 65536 && id2 < 65536 && SchedsNeverMeet(t, Word(id1), Word(id2))
  {
    SchedId.SpacesApart(MaxSchedCountOf(t.layout), calls, i, j);
    DifferentSchedulesNeverMeet(t, id1, id2);
  }

  lemma {:induction false} AllStep(calls: seq<SchedId.Call>)
    requires forall k :: 0 <= k < |calls| ==> calls[k] == SchedId.Call(true, false)
    ensures SchedId.Stepping(calls, true) == |calls|
  {
    if calls != [] { AllStep(calls[..|calls| - 1]); }
  }
}
