/**
 Runtime patterns of the GPU kernels (`get_rt_pattern`, `update_rt_pattern` in src/comm/comm.hpp): 16 bits of
 communicator id, one bit for a collective, five bits of source rank and a ten-bit counter. The fields do not
 overlap, so the source's shifts and ors are written as sums; truncation to 16 and 32 bits is written out.
 */
module RtPattern {

  const ARC_MAX_NUM: nat := 32
  const MASK_RANGE: nat := 1024
  const SEED: nat := 0xa770

  datatype Kind = Collective | Send | Recv

  datatype Pattern = Ok(bits: nat) | InvalidRank

  /** The communicator's part of the state: its id, its rank and the 33 counters, the last for collectives. */
  datatype State = State(id: int, rank: nat, counters: seq<nat>) {
    predicate Valid() {
      |counters| == ARC_MAX_NUM + 1
    }
  }

  function Seeded(id: int, rank: nat): State { State(id, rank, seq(ARC_MAX_NUM + 1, _ => SEED)) }

  /** The counter a call uses, and whose slot it is. */
  function SlotOf(kind: Kind, peer: nat): nat { if kind == Collective then ARC_MAX_NUM else peer }

  function GetPattern(s: State, kind: Kind, peer: nat): Pattern
    requires s.Valid()
  {
    if kind == Collective then Ok(Word(s.id, s.counters[ARC_MAX_NUM] % MASK_RANGE + 0x8000))
    else if peer >= ARC_MAX_NUM then InvalidRank
    else
      var srcRank := if kind == Send then s.rank else peer;
      Ok(Word(s.id, (s.counters[peer] % MASK_RANGE + srcRank * MASK_RANGE) % 0x1_0000))
  }

  function Word(id: int, counter: nat): nat { id % 0x1_0000 * 0x1_0000 + counter }

  /** The state after an update; a peer that is out of range throws and changes nothing. */
  function Updated(s: State, kind: Kind, peer: nat, pattern: nat): State
    requires s.Valid()
  {
    if kind != Collective && peer >= ARC_MAX_NUM then s
    else s.(counters := s.counters[SlotOf(kind, peer) := pattern % MASK_RANGE])
  }

  class RtPatterns {
    const id: int
    const commRank: nat
    const patternCounter: array<nat>

    ghost predicate Valid() { patternCounter.Length == ARC_MAX_NUM + 1 }

    ghost function View(): (s: State)
      requires Valid()
      reads patternCounter
      ensures s.Valid()
    {
      State(id, commRank, patternCounter[..])
    }

    constructor (id: int, commRank: nat)
      ensures Valid() && fresh(patternCounter) && View() == Seeded(id, commRank)
    {
      this.id := id;
      this.commRank := commRank;
      var counters := new nat[ARC_MAX_NUM + 1];
      var i := 0;
      while i < ARC_MAX_NUM + 1
        invariant 0 <= i <= counters.Length
        invariant forall k :: 0 <= k < i ==> counters[k] == SEED
      {
        counters[i] := SEED;
        i := i + 1;
      }
      patternCounter := counters;
    }

    method GetRtPattern(kind: Kind, peerRank: nat) returns (r: Pattern)
      requires Valid()
      ensures r == GetPattern(View(), kind, peerRank)
    {
      var counter: nat;
      if kind == Collective {
        counter := patternCounter[ARC_MAX_NUM];
        counter := counter % MASK_RANGE + 0x8000;
      } else {
        if peerRank >= ARC_MAX_NUM {
          return InvalidRank;
        }
        counter := patternCounter[peerRank];
        var srcRank := if kind == Send then commRank else peerRank;
        counter := (counter % MASK_RANGE + srcRank * MASK_RANGE) % 0x1_0000;
      }
      return Ok(id % 0x1_0000 * 0x1_0000 + counter);
    }

    method UpdateRtPattern(kind: Kind, peerRank: nat, pattern: nat) returns (thrown: bool)
      requires Valid()
      modifies patternCounter
      ensures View() == Updated(old(View()), kind, peerRank, pattern)
      ensures thrown <==> kind != Collective && peerRank >= ARC_MAX_NUM
    {
      var counter := pattern % MASK_RANGE;
      if kind == Collective {
        patternCounter[ARC_MAX_NUM] := counter;
      } else {
        if peerRank >= ARC_MAX_NUM {
          return true;
        }
        patternCounter[peerRank] := counter;
      }
      return false;
    }
  }

  // ---------------------------------------------------------------- separation

  /** The six bits above the counter: the collective bit and the source rank, whose bits past the sixth are cut. */
  function Field(s: State, kind: Kind, peer: nat): nat {
    match kind
    case Collective => 32
    case Send => s.rank % 64
    case Recv => peer % 64
  }

  lemma CutRank(c: nat, rank: nat)
    requires c < MASK_RANGE
    ensures (c + rank * MASK_RANGE) % 0x1_0000 == c + rank % 64 * MASK_RANGE
  {
    var q := rank / 64;
    assert rank == q * 64 + rank % 64;
    assert c + rank * MASK_RANGE == q * 0x1_0000 + (c + rank % 64 * MASK_RANGE);
  }

  lemma PatternParts(s: State, kind: Kind, peer: nat)
    requires s.Valid() && (kind == Collective || peer < ARC_MAX_NUM)
    ensures GetPattern(s, kind, peer)
            == Ok(s.id % 0x1_0000 * 0x1_0000 + Field(s, kind, peer) * MASK_RANGE
                  + s.counters[SlotOf(kind, peer)] % MASK_RANGE)
  {
    if kind != Collective {
      CutRank(s.counters[peer] % MASK_RANGE, if kind == Send then s.rank else peer);
    }
  }

  lemma PartsEqualIff(i: nat, f: nat, c: nat, j: nat, g: nat, d: nat)
    requires f < 64 && c < MASK_RANGE && g < 64 && d < MASK_RANGE
    ensures i * 0x1_0000 + f * MASK_RANGE + c == j * 0x1_0000 + g * MASK_RANGE + d <==> i == j && f == g && c == d
  {
  }

  /**
   Two patterns are equal exactly when the low 16 bits of the ids, the six bits of collective flag and source,
   and the ten counter bits all agree.
   */
  lemma PatternsEqualIff(s: State, k1: Kind, p1: nat, t: State, k2: Kind, p2: nat)
    requires s.Valid() && (k1 == Collective || p1 < ARC_MAX_NUM)
    requires t.Valid() && (k2 == Collective || p2 < ARC_MAX_NUM)
    ensures GetPattern(s, k1, p1) == GetPattern(t, k2, p2) <==>
            && s.id % 0x1_0000 == t.id % 0x1_0000
            && Field(s, k1, p1) == Field(t, k2, p2)
            && s.counters[SlotOf(k1, p1)] % MASK_RANGE == t.counters[SlotOf(k2, p2)] % MASK_RANGE
  {
    PatternParts(s, k1, p1);
    PatternParts(t, k2, p2);
    PartsEqualIff(s.id % 0x1_0000, Field(s, k1, p1), s.counters[SlotOf(k1, p1)] % MASK_RANGE,
                  t.id % 0x1_0000, Field(t, k2, p2), t.counters[SlotOf(k2, p2)] % MASK_RANGE);
  }

  /** The source of a point-to-point message: the sender's own rank, or the peer a receiver names. */
  function Source(s: State, kind: Kind, peer: nat): nat { if kind == Send then s.rank else peer }

  /** Ranks in the range the layout is made for; the id is any number, the invalid id -1 included. */
  predicate InRange(s: State, kind: Kind, peer: nat) {
    s.Valid() && s.rank < ARC_MAX_NUM && (kind == Collective || peer < ARC_MAX_NUM)
  }

  /** The ids as far as a pattern can tell them apart. */
  predicate SameIdBits(id1: int, id2: int) { id1 % 0x1_0000 == id2 % 0x1_0000 }

  /** Two calls that are both collective, or both point-to-point with the same source. */
  predicate SameUse(s: State, k1: Kind, p1: nat, t: State, k2: Kind, p2: nat) {
    if k1 == Collective then k2 == Collective else k2 != Collective && Source(s, k1, p1) == Source(t, k2, p2)
  }

  lemma UseFromFields(s: State, k1: Kind, p1: nat, t: State, k2: Kind, p2: nat)
    requires InRange(s, k1, p1) && InRange(t, k2, p2)
    ensures SameUse(s, k1, p1, t, k2, p2) <==> Field(s, k1, p1) == Field(t, k2, p2)
  {
  }

  /**
   With at most 32 ranks, two patterns are equal exactly when the ids agree in 16 bits, the use is the same
   and the counters agree in ten bits. So a collective never meets a point-to-point call, nor two sources
   each other, whatever the ids and counters hold.
   */
  lemma PatternsSeparate(s: State, k1: Kind, p1: nat, t: State, k2: Kind, p2: nat)
    requires InRange(s, k1, p1) && InRange(t, k2, p2)
    ensures GetPattern(s, k1, p1) == GetPattern(t, k2, p2) <==>
            && SameIdBits(s.id, t.id)
            && SameUse(s, k1, p1, t, k2, p2)
            && s.counters[SlotOf(k1, p1)] % MASK_RANGE == t.counters[SlotOf(k2, p2)] % MASK_RANGE
  {
    PatternsEqualIff(s, k1, p1, t, k2, p2);
    UseFromFields(s, k1, p1, t, k2, p2);
  }

  /** No pattern of a communicator with the one id is ever one of a communicator with the other. */
  ghost predicate CommunicatorsApart(id1: int, id2: int) {
    forall s: State, k1, p1, t: State, k2, p2 ::
      s.id == id1 && t.id == id2 && InRange(s, k1, p1) && InRange(t, k2, p2) ==>
        GetPattern(s, k1, p1) != GetPattern(t, k2, p2)
  }

  /** Two communicators are kept apart exactly when their ids differ in the low 16 bits. */
  lemma CommunicatorsApartIff(id1: int, id2: int)
    ensures CommunicatorsApart(id1, id2) <==> !SameIdBits(id1, id2)
  {
    if SameIdBits(id1, id2) {
      FirstPatternsMeet(id1, id2, 0, 0);
    } else {
      forall s: State, k1, p1, t: State, k2, p2 | s.id == id1 && t.id == id2 && InRange(s, k1, p1) && InRange(t, k2, p2)
        ensures GetPattern(s, k1, p1) != GetPattern(t, k2, p2)
      {
        PatternsSeparate(s, k1, p1, t, k2, p2);
      }
    }
  }

  /** Two communicators with the same id bits start with the same collective pattern. */
  lemma FirstPatternsMeet(id1: int, id2: int, rank1: nat, rank2: nat)
    requires SameIdBits(id1, id2) && rank1 < ARC_MAX_NUM && rank2 < ARC_MAX_NUM
    ensures GetPattern(Seeded(id1, rank1), Collective, 0) == GetPattern(Seeded(id2, rank2), Collective, 0)
    ensures InRange(Seeded(id1, rank1), Collective, 0) && InRange(Seeded(id2, rank2), Collective, 0)
  {
    PatternsEqualIff(Seeded(id1, rank1), Collective, 0, Seeded(id2, rank2), Collective, 0);
  }

  const INVALID_ID := -1

  /**
   `init` seeds the counters and leaves the id invalid, so any two communicators it makes start with the same
   collective pattern.
   */
  lemma UnsetIdsMeet(rank1: nat, rank2: nat)
    requires rank1 < ARC_MAX_NUM && rank2 < ARC_MAX_NUM
    ensures GetPattern(Seeded(INVALID_ID, rank1), Collective, 0) == GetPattern(Seeded(INVALID_ID, rank2), Collective, 0)
  {
    FirstPatternsMeet(INVALID_ID, INVALID_ID, rank1, rank2);
  }

  /** What stands where in a pattern, with at most 32 ranks: id, collective flag, source rank, counter. */
  lemma PatternReads(s: State, kind: Kind, peer: nat)
    requires InRange(s, kind, peer)
    ensures var r := GetPattern(s, kind, peer);
            && r.Ok? && r.bits / 0x1_0000 == s.id % 0x1_0000
            && (r.bits / 0x8000 % 2 == 1 <==> kind == Collective)
            && (r.bits / 0x400 % 32 == if kind == Collective then 0 else Source(s, kind, peer))
            && r.bits % 0x400 == s.counters[SlotOf(kind, peer)] % 0x400
  {
    PatternParts(s, kind, peer);
    PartsRead(s.id % 0x1_0000, Field(s, kind, peer), s.counters[SlotOf(kind, peer)] % MASK_RANGE);
  }

  lemma PartsRead(i: nat, f: nat, c: nat)
    requires f <= 32 && c < MASK_RANGE
    ensures var bits := i * 0x1_0000 + f * MASK_RANGE + c;
            && bits / 0x1_0000 == i && bits / 0x8000 % 2 == f / 32 && bits / 0x400 % 32 == f % 32 && bits % 0x400 == c
  {
    var bits := i * 0x1_0000 + f * MASK_RANGE + c;
    assert bits / 0x8000 == 2 * i + f / 32;
    assert bits / 0x400 == 64 * i + f;
  }

  /** The two calls use one counter: both collective, or both point-to-point with one peer. */
  predicate SameCounter(k1: Kind, p1: nat, k2: Kind, p2: nat) {
    if k1 == Collective then k2 == Collective else k2 != Collective && p1 == p2
  }

  /**
   After an update, the next pattern that uses the counter has the ten low bits of what was stored and is
   otherwise as before; patterns that use another counter are the same; an update that throws changes nothing.
   */
  lemma UpdateTakesEffect(s: State, k1: Kind, p1: nat, stored: nat, k2: Kind, p2: nat)
    requires s.Valid() && (k2 == Collective || p2 < ARC_MAX_NUM)
    ensures Updated(s, k1, p1, stored).Valid()
    ensures k1 != Collective && p1 >= ARC_MAX_NUM ==> Updated(s, k1, p1, stored) == s
    ensures var before, after := GetPattern(s, k2, p2), GetPattern(Updated(s, k1, p1, stored), k2, p2);
            && before.Ok? && after.Ok?
            && (k1 == Collective || p1 < ARC_MAX_NUM ==>
                  if SameCounter(k1, p1, k2, p2)
                  then after.bits % 0x400 == stored % 0x400 && after.bits / 0x400 == before.bits / 0x400
                  else after == before)
  {
    var t := Updated(s, k1, p1, stored);
    PatternParts(s, k2, p2);
    PatternParts(t, k2, p2);
    TenBits(s.id % 0x1_0000, Field(s, k2, p2), s.counters[SlotOf(k2, p2)] % MASK_RANGE);
    TenBits(t.id % 0x1_0000, Field(t, k2, p2), t.counters[SlotOf(k2, p2)] % MASK_RANGE);
  }

  lemma TenBits(i: nat, f: nat, c: nat)
    requires c < MASK_RANGE
    ensures var bits := i * 0x1_0000 + f * MASK_RANGE + c; bits % 0x400 == c && bits / 0x400 == 64 * i + f
  {
  }

  /** Past 32 ranks: a send carries the collective bit exactly when bit five of the sender's rank is set. */
  lemma SendLooksCollectiveIff(s: State, peer: nat, t: State)
    requires s.Valid() && t.Valid() && peer < ARC_MAX_NUM && s.id == t.id
    requires s.counters[peer] % MASK_RANGE == t.counters[ARC_MAX_NUM] % MASK_RANGE
    ensures GetPattern(s, Send, peer) == GetPattern(t, Collective, 0) <==> s.rank % 64 == 32
  {
    PatternsEqualIff(s, Send, peer, t, Collective, 0);
  }

  // ---------------------------------------------------------------- mirrored runs

  /** A call on one communicator handle: it asks for a pattern or stores one. */
  datatype Event = Get(kind: Kind, peer: nat) | Update(kind: Kind, peer: nat, pattern: nat)

  function After(s: State, e: Event): (t: State)
    requires s.Valid()
    ensures t.Valid() && t.id == s.id && t.rank == s.rank
  {
    match e
    case Get(_, _) => s
    case Update(kind, peer, pattern) => Updated(s, kind, peer, pattern)
  }

  predicate Between(e: Event, peer: nat) { e.kind != Collective && e.peer == peer }

  /** The calls of a run that are point-to-point with one peer. */
  function Pairwise(es: seq<Event>, peer: nat): seq<Event> {
    if es == [] then [] else (if Between(es[0], peer) then [es[0]] else []) + Pairwise(es[1..], peer)
  }

  /** The patterns a run hands out for one peer, in order. */
  function Patterns(s: State, es: seq<Event>, peer: nat): seq<Pattern>
    requires s.Valid()
    decreases |es|
  {
    if es == [] then []
    else
      (if Between(es[0], peer) && es[0].Get? then [GetPattern(s, es[0].kind, peer)] else [])
      + Patterns(After(s, es[0]), es[1..], peer)
  }

  /** The peer's counterpart of a call: a send for a receive, and the same counter bits for an update. */
  predicate Mirrors(e: Event, f: Event) {
    match (e, f)
    case (Get(k, _), Get(l, _)) => (k == Send && l == Recv) || (k == Recv && l == Send)
    case (Update(_, _, p), Update(_, _, q)) => p % MASK_RANGE == q % MASK_RANGE
    case _ => false
  }

  predicate Mirrored(es: seq<Event>, fs: seq<Event>) {
    |es| == |fs| && forall i :: 0 <= i < |es| ==> Mirrors(es[i], fs[i])
  }

  /** Calls with others leave the pair's counter alone, so the patterns depend on the pairwise calls only. */
  lemma {:induction false} OthersDoNotMatter(s: State, t: State, es: seq<Event>, peer: nat)
    requires s.Valid() && t.Valid() && peer < ARC_MAX_NUM
    requires s.id == t.id && s.rank == t.rank && s.counters[peer] == t.counters[peer]
    ensures Patterns(s, es, peer) == Patterns(t, Pairwise(es, peer), peer)
    decreases |es|
  {
    if es != [] {
      var e, rest := es[0], es[1..];
      if Between(e, peer) {
        assert ([e] + Pairwise(rest, peer))[1..] == Pairwise(rest, peer);
        OthersDoNotMatter(After(s, e), After(t, e), rest, peer);
      } else {
        assert [] + Pairwise(rest, peer) == Pairwise(rest, peer);
        OthersDoNotMatter(After(s, e), t, rest, peer);
      }
    }
  }

  predicate OnlyBetween(es: seq<Event>, peer: nat) { forall i :: 0 <= i < |es| ==> Between(es[i], peer) }

  lemma {:induction false} PairwiseIsBetween(es: seq<Event>, peer: nat)
    ensures OnlyBetween(Pairwise(es, peer), peer)
  {
    if es != [] { PairwiseIsBetween(es[1..], peer); }
  }

  /** The two ends of a pair: same communicator, both ranks in range, counters that agree on the low ten bits. */
  predicate Ends(s: State, t: State) {
    && s.Valid() && t.Valid() && s.id == t.id
    && s.rank < ARC_MAX_NUM && t.rank < ARC_MAX_NUM
    && s.counters[t.rank] % MASK_RANGE == t.counters[s.rank] % MASK_RANGE
  }

  lemma MirroredGet(s: State, t: State, e: Event, f: Event)
    requires Ends(s, t) && e.Get? && Mirrors(e, f)
    ensures GetPattern(s, e.kind, t.rank) == GetPattern(t, f.kind, s.rank)
  {
    PatternsEqualIff(s, e.kind, t.rank, t, f.kind, s.rank);
  }

  lemma {:induction false} MirroredPairwise(s: State, t: State, es: seq<Event>, fs: seq<Event>)
    requires Ends(s, t) && OnlyBetween(es, t.rank) && OnlyBetween(fs, s.rank) && Mirrored(es, fs)
    ensures Patterns(s, es, t.rank) == Patterns(t, fs, s.rank)
    decreases |es|
  {
    if es != [] {
      var e, f := es[0], fs[0];
      assert Mirrors(e, f) && Between(e, t.rank) && Between(f, s.rank);
      if e.Get? { MirroredGet(s, t, e, f); }
      MirroredPairwise(After(s, e), After(t, f), es[1..], fs[1..]);
    }
  }

  /**
   Two ranks of one communicator whose counters for each other agree, each running any calls, where their
   calls with each other mirror: the i-th pattern one asks for towards the other equals the i-th pattern the
   other asks for, so a send and its receive always carry the same pattern.
   */
  lemma SendMatchesReceive(s: State, t: State, es: seq<Event>, fs: seq<Event>)
    requires Ends(s, t) && Mirrored(Pairwise(es, t.rank), Pairwise(fs, s.rank))
    ensures Patterns(s, es, t.rank) == Patterns(t, fs, s.rank)
  {
    OthersDoNotMatter(s, s, es, t.rank);
    OthersDoNotMatter(t, t, fs, s.rank);
    PairwiseIsBetween(es, t.rank);
    PairwiseIsBetween(fs, s.rank);
    MirroredPairwise(s, t, Pairwise(es, t.rank), Pairwise(fs, s.rank));
  }

  /** From freshly seeded counters the mirrored calls are all it takes. */
  lemma SeededSendMatchesReceive(id: int, a: nat, b: nat, es: seq<Event>, fs: seq<Event>)
    requires a < ARC_MAX_NUM && b < ARC_MAX_NUM
    requires Mirrored(Pairwise(es, b), Pairwise(fs, a))
    ensures Patterns(Seeded(id, a), es, b) == Patterns(Seeded(id, b), fs, a)
  {
    SendMatchesReceive(Seeded(id, a), Seeded(id, b), es, fs);
  }

  /** Counters that do not agree at the start, as where nothing seeds them, part the very first patterns. */
  lemma FirstPairEqualIff(s: State, t: State)
    requires s.Valid() && t.Valid() && s.id == t.id && s.rank < ARC_MAX_NUM && t.rank < ARC_MAX_NUM
    ensures GetPattern(s, Send, t.rank) == GetPattern(t, Recv, s.rank) <==> Ends(s, t)
  {
    PatternsEqualIff(s, Send, t.rank, t, Recv, s.rank);
  }
}
