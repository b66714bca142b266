/**
 The two schedule id counters of a communicator: seeds, 16-bit wrap-around and resets
 (src/comm/comm.cpp).
 */
module SchedId {
  import opened Basics

  const U16: nat := 65536

  datatype Counters = Counters(internalNext: nat, externalNext: nat)
  datatype Call = Call(useInternal: bool, isPt2pt: bool)

  /** A counter after one call: step unless point-to-point, then wrap the numbers to the start of the region. */
  function Stepped(next: nat, first: nat, max: nat, isPt2pt: bool): nat {
    var n := if isPt2pt then next else (next + 1) % U16;
    if n == max then first else n
  }

  function Issued(c: Counters, call: Call): nat {
    if call.useInternal then c.internalNext else c.externalNext
  }

  function After(c: Counters, max: nat, call: Call): Counters {
    if call.useInternal then c.(internalNext := Stepped(c.internalNext, 0, max / 2, call.isPt2pt))
    else c.(externalNext := Stepped(c.externalNext, max / 2, max, call.isPt2pt))
  }

  /** The counter fields of a communicator; `max` is the layout's max_sched_count. */
  class SchedIdSource {
    const max: nat
    var internalNext: nat
    var externalNext: nat

    function Value(): Counters
      reads this
    {
      Counters(internalNext, externalNext)
    }

    constructor (max: nat)
      ensures this.max == max && Value() == Seeds(max)
    {
      this.max := max;
      internalNext := max / 2;
      externalNext := 0;
    }

    method GetSchedId(useInternalSpace: bool, isPt2pt: bool) returns (id: nat)
      modifies this
      ensures id == Issued(old(Value()), Call(useInternalSpace, isPt2pt))
      ensures Value() == After(old(Value()), max, Call(useInternalSpace, isPt2pt))
    {
      var next := if useInternalSpace then internalNext else externalNext;
      var firstSchedId := if useInternalSpace then 0 else max / 2;
      var maxSchedId := if useInternalSpace then max / 2 else max;
      id := next;
      if !isPt2pt {
        next := (next + 1) % U16;
      }
      if next == maxSchedId {
        next := firstSchedId;
      }
      if useInternalSpace {
        internalNext := next;
      } else {
        externalNext := next;
      }
    }
  }

  // ----- runs

  function Seeds(max: nat): Counters { Counters(max / 2, 0) }

  function Counts(max: nat, calls: seq<Call>): Counters {
    if calls == [] then Seeds(max) else After(Counts(max, calls[..|calls| - 1]), max, calls[|calls| - 1])
  }

  /** The id the i-th call of a run returns. */
  function IdAt(max: nat, calls: seq<Call>, i: nat): nat
    requires i < |calls|
  {
    Issued(Counts(max, calls[..i]), calls[i])
  }

  predicate Steps(call: Call, useInternal: bool) { call.useInternal == useInternal && !call.isPt2pt }

  /** How many calls of one space stepped its counter. */
  function Stepping(calls: seq<Call>, useInternal: bool): nat {
    if calls == [] then 0
    else Stepping(calls[..|calls| - 1], useInternal) + if Steps(calls[|calls| - 1], useInternal) then 1 else 0
  }

  /** The first internal call of the run is a point-to-point one. */
  predicate FirstInternalIsPt2pt(calls: seq<Call>) {
    if calls == [] then false
    else if calls[0].useInternal then calls[0].isPt2pt
    else FirstInternalIsPt2pt(calls[1..])
  }

  predicate NoInternal(calls: seq<Call>) {
    forall k :: 0 <= k < |calls| ==> !calls[k].useInternal
  }

  // ----- closed forms

  function ExternalAt(max: nat, n: nat): nat
    requires 2 <= max
  {
    if n < max then n else max / 2 + Lap(n - max, max - max / 2)
  }

  function InternalAt(max: nat, early: bool, n: nat): nat
    requires 2 <= max
  {
    if early then Lap(n, max / 2)
    else if n < U16 then (max / 2 + n) % U16
    else Lap(n - U16, max / 2)
  }

  /** The position after k steps around a lap of length m: k % m, as LapIsMod says. */
  function Lap(k: nat, m: nat): (p: nat)
    requires 0 < m
    ensures p < m
  {
    if k < m then k else Lap(k - m, m)
  }

  lemma {:induction false} LapIsMod(k: nat, m: nat)
    requires 0 < m
    ensures Lap(k, m) == k % m
  {
    if k >= m {
      LapIsMod(k - m, m);
      var q, r := (k - m) / m, (k - m) % m;
      assert k == m * (q + 1) + r;
      ModUnique(k, m, q + 1, r);
    }
  }

  lemma ModUnique(k: nat, m: nat, q: nat, r: nat)
    requires 0 < m && k == m * q + r && r < m
    ensures k % m == r
  {
    var d := k / m - q;
    assert m * d == r - k % m;
    MultipleWithin(m, d);
  }

  lemma {:induction false} LapStep(k: nat, m: nat)
    requires 0 < m
    ensures Lap(k + 1, m) == if Lap(k, m) + 1 == m then 0 else Lap(k, m) + 1
  {
    if k >= m { LapStep(k - m, m); }
  }

  /** Two positions coincide exactly when whole laps lie between them. */
  lemma {:induction false} LapEqual(a: nat, b: nat, m: nat)
    requires a <= b && 0 < m
    ensures Lap(a, m) == Lap(b, m) <==> Lap(b - a, m) == 0
    decreases a + b
  {
    if a >= m {
      LapEqual(a - m, b - m, m);
    } else if b >= m && b - m >= a {
      LapEqual(a, b - m, m);
    } else if b >= m {
      assert Lap(b, m) == b - m;
    }
  }

  lemma ExternalStep(max: nat, n: nat)
    requires 2 <= max < U16
    ensures ExternalAt(max, n) < max
    ensures ExternalAt(max, n + 1) == Stepped(ExternalAt(max, n), max / 2, max, false)
  {
    if n >= max { LapStep(n - max, max - max / 2); }
  }

  /** In every run the external counter depends only on how often it was stepped. */
  lemma {:induction false} ExternalClosedForm(max: nat, calls: seq<Call>)
    requires 2 <= max < U16
    ensures Counts(max, calls).externalNext == ExternalAt(max, Stepping(calls, false))
  {
    if calls != [] {
      ExternalClosedForm(max, calls[..|calls| - 1]);
      ExternalStep(max, Stepping(calls[..|calls| - 1], false));
    }
  }

  lemma {:induction false} FirstInternalAppended(calls: seq<Call>, call: Call)
    ensures FirstInternalIsPt2pt(calls + [call])
            <==> FirstInternalIsPt2pt(calls) || (NoInternal(calls) && call.useInternal && call.isPt2pt)
    ensures NoInternal(calls) ==> !FirstInternalIsPt2pt(calls)
  {
    if calls != [] {
      assert (calls + [call])[1..] == calls[1..] + [call];
      if !calls[0].useInternal {
        FirstInternalAppended(calls[1..], call);
        assert NoInternal(calls) <==> NoInternal(calls[1..]);
      }
    }
  }

  lemma {:induction false} NothingStepped(calls: seq<Call>)
    requires NoInternal(calls)
    ensures Stepping(calls, true) == 0
  {
    if calls != [] { NothingStepped(calls[..|calls| - 1]); }
  }

  lemma {:induction false} SomethingStepped(calls: seq<Call>)
    requires !NoInternal(calls) && !FirstInternalIsPt2pt(calls)
    ensures Stepping(calls, true) > 0
  {
    var before, last := calls[..|calls| - 1], calls[|calls| - 1];
    assert calls == before + [last];
    FirstInternalAppended(before, last);
    if !NoInternal(before) { SomethingStepped(before); }
  }

  /** In every run the internal counter depends on how often it was stepped and on whether it was reset at once. */
  lemma {:induction false} InternalClosedForm(max: nat, calls: seq<Call>)
    requires 2 <= max < U16
    ensures Counts(max, calls).internalNext == InternalAt(max, FirstInternalIsPt2pt(calls), Stepping(calls, true))
  {
    if calls != [] {
      var before, last := calls[..|calls| - 1], calls[|calls| - 1];
      InternalClosedForm(max, before);
      assert calls == before + [last];
      FirstInternalAppended(before, last);
      if NoInternal(before) {
        NothingStepped(before);
      } else if !FirstInternalIsPt2pt(before) {
        SomethingStepped(before);
      }
      InternalStep(max, FirstInternalIsPt2pt(before), Stepping(before, true));
    }
  }

  lemma InternalStep(max: nat, early: bool, n: nat)
    requires 2 <= max < U16
    ensures InternalAt(max, early, n + 1) == Stepped(InternalAt(max, early, n), 0, max / 2, false)
    ensures early || n > 0 ==> InternalAt(max, early, n) == Stepped(InternalAt(max, early, n), 0, max / 2, true)
    ensures early ==> InternalAt(max, early, n) < max / 2
  {
    if early { LapStep(n, max / 2); }
    if n >= U16 { LapStep(n - U16, max / 2); }
  }

  // ----- what callers get

  /** Every external id of every run is below max_sched_count; from the reset on it is in the upper half. */
  lemma ExternalIdRange(max: nat, calls: seq<Call>, i: nat)
    requires 2 <= max < U16 && i < |calls| && !calls[i].useInternal
    ensures IdAt(max, calls, i) < max
    ensures Stepping(calls[..i], false) < max ==> IdAt(max, calls, i) == Stepping(calls[..i], false)
    ensures Stepping(calls[..i], false) >= max ==> max / 2 <= IdAt(max, calls, i)
  {
    ExternalClosedForm(max, calls[..i]);
  }

  /**
   Every internal id from the reset on is in the lower half. The reset comes at once if the first
   internal call is point-to-point, else after exactly 65536 stepping calls; until then the ids run
   from the middle through the 16-bit wrap.
   */
  lemma InternalIdRange(max: nat, calls: seq<Call>, i: nat)
    requires 2 <= max < U16 && i < |calls| && calls[i].useInternal
    ensures var n := Stepping(calls[..i], true);
            if FirstInternalIsPt2pt(calls[..i]) || n >= U16 then IdAt(max, calls, i) < max / 2
            else IdAt(max, calls, i) == (max / 2 + n) % U16
  {
    InternalClosedForm(max, calls[..i]);
  }

  lemma {:induction false} SteppingGrows(calls: seq<Call>, useInternal: bool, i: nat, j: nat)
    requires i < j <= |calls| && Steps(calls[i], useInternal)
    ensures Stepping(calls[..i], useInternal) < Stepping(calls[..j], useInternal)
    decreases j
  {
    assert calls[..j][..j - 1] == calls[..j - 1];
    if i < j - 1 { SteppingGrows(calls, useInternal, i, j - 1); }
  }

  /** From the middle on the external counter goes round the upper half, the reset being one such turn. */
  lemma ExternalPlace(max: nat, n: nat)
    requires 2 <= max < U16
    ensures ExternalAt(max, n) == if n < max / 2 then n else max / 2 + Lap(n - max / 2, max - max / 2)
  {
  }

  /**
   Two stepping external calls of a run get the same id exactly when the first comes at or after the middle
   and a whole number of laps of the upper half lies between them.
   */
  lemma ExternalIdsRepeatIff(max: nat, calls: seq<Call>, i: nat, j: nat)
    requires 2 <= max < U16 && i < j < |calls| && Steps(calls[i], false) && Steps(calls[j], false)
    ensures Stepping(calls[..i], false) < Stepping(calls[..j], false)
    ensures IdAt(max, calls, i) == IdAt(max, calls, j) <==>
            && Stepping(calls[..i], false) >= max / 2
            && Lap(Stepping(calls[..j], false) - Stepping(calls[..i], false), max - max / 2) == 0
  {
    ExternalClosedForm(max, calls[..i]);
    ExternalClosedForm(max, calls[..j]);
    SteppingGrows(calls, false, i, j);
    ExternalPlacesEqualIff(max, Stepping(calls[..i], false), Stepping(calls[..j], false));
  }

  lemma ExternalPlacesEqualIff(max: nat, a: nat, b: nat)
    requires 2 <= max < U16 && a < b
    ensures ExternalAt(max, a) == ExternalAt(max, b) <==> a >= max / 2 && Lap(b - a, max - max / 2) == 0
  {
    ExternalPlace(max, a);
    ExternalPlace(max, b);
    if a >= max / 2 { LapEqual(a - max / 2, b - max / 2, max - max / 2); }
  }

  /** From the 16-bit wrap on the internal counter goes round the lower half; after an early reset it always does. */
  lemma InternalPlace(max: nat, early: bool, n: nat)
    requires 2 <= max < U16
    ensures InternalAt(max, early, n)
            == if early then Lap(n, max / 2)
               else if n < U16 - max / 2 then max / 2 + n
               else Lap(n - (U16 - max / 2), max / 2)
  {
  }

  /** The internal counter has come to the lower half. */
  predicate InLowerHalf(max: nat, calls: seq<Call>) {
    FirstInternalIsPt2pt(calls) || Stepping(calls, true) >= U16 - max / 2
  }

  /** A stepping internal call settles how the internal counter started. */
  lemma StartSettled(calls: seq<Call>, i: nat, j: nat)
    requires i < j <= |calls| && Steps(calls[i], true)
    ensures FirstInternalIsPt2pt(calls[..j]) == FirstInternalIsPt2pt(calls[..i])
  {
    assert calls[..i + 1] == calls[..i] + [calls[i]];
    FirstInternalAppended(calls[..i], calls[i]);
    assert calls[..i + 1][i].useInternal;
    FirstInternalStable(calls, i + 1, j);
  }

  /**
   Two stepping internal calls of a run get the same id exactly when the first comes in the lower half and a
   whole number of its laps lies between them.
   */
  lemma InternalIdsRepeatIff(max: nat, calls: seq<Call>, i: nat, j: nat)
    requires 2 <= max < U16 && i < j < |calls| && Steps(calls[i], true) && Steps(calls[j], true)
    ensures Stepping(calls[..i], true) < Stepping(calls[..j], true)
    ensures IdAt(max, calls, i) == IdAt(max, calls, j) <==>
            && InLowerHalf(max, calls[..i])
            && Lap(Stepping(calls[..j], true) - Stepping(calls[..i], true), max / 2) == 0
  {
    InternalClosedForm(max, calls[..i]);
    InternalClosedForm(max, calls[..j]);
    SteppingGrows(calls, true, i, j);
    StartSettled(calls, i, j);
    var early := FirstInternalIsPt2pt(calls[..i]);
    InternalPlacesEqualIff(max, early, Stepping(calls[..i], true), Stepping(calls[..j], true));
  }

  lemma InternalPlacesEqualIff(max: nat, early: bool, a: nat, b: nat)
    requires 2 <= max < U16 && a < b
    ensures InternalAt(max, early, a) == InternalAt(max, early, b) <==>
            (early || a >= U16 - max / 2) && Lap(b - a, max / 2) == 0
  {
    InternalPlace(max, early, a);
    InternalPlace(max, early, b);
    var from := if early then 0 else U16 - max / 2;
    if a >= from { LapEqual(a - from, b - from, max / 2); }
  }

  /**
   Exactly when an internal and an external call of one run get the same id. While the internal counter climbs
   from the middle the external one must be in the upper half at the same place, and once it is in the lower
   half the external one must still be there on its first way up.
   */
  lemma SpacesMeetIff(max: nat, calls: seq<Call>, i: nat, j: nat)
    requires 2 <= max < U16 && i < |calls| && j < |calls| && calls[i].useInternal && !calls[j].useInternal
    ensures var m, n := Stepping(calls[..i], true), Stepping(calls[..j], false);
            IdAt(max, calls, i) == IdAt(max, calls, j) <==>
            if InLowerHalf(max, calls[..i])
            then n < max / 2 && IdAt(max, calls, i) == n
            else n >= max / 2 && Lap(n - max / 2, max - max / 2) == m
  {
    InternalClosedForm(max, calls[..i]);
    ExternalClosedForm(max, calls[..j]);
    InternalPlace(max, FirstInternalIsPt2pt(calls[..i]), Stepping(calls[..i], true));
    ExternalPlace(max, Stepping(calls[..j], false));
  }

  /** So the spaces are apart once the internal counter is in the lower half and the external one past the middle. */
  lemma SpacesApart(max: nat, calls: seq<Call>, i: nat, j: nat)
    requires 2 <= max < U16 && i < |calls| && j < |calls| && calls[i].useInternal && !calls[j].useInternal
    requires InLowerHalf(max, calls[..i]) && Stepping(calls[..j], false) >= max / 2
    ensures IdAt(max, calls, i) < max / 2 <= IdAt(max, calls, j) < max
  {
    InternalClosedForm(max, calls[..i]);
    ExternalClosedForm(max, calls[..j]);
    InternalPlace(max, FirstInternalIsPt2pt(calls[..i]), Stepping(calls[..i], true));
    ExternalPlace(max, Stepping(calls[..j], false));
  }

  /** Before that they are not: one internal call and max / 2 + 1 external ones give both spaces the id max / 2. */
  lemma SpacesMeetEarly(max: nat, calls: seq<Call>)
    requires 2 <= max < U16 && |calls| == max / 2 + 2 && calls[0] == Call(true, false)
    requires forall k :: 0 < k < |calls| ==> calls[k] == Call(false, false)
    ensures IdAt(max, calls, 0) == IdAt(max, calls, max / 2 + 1) == max / 2
  {
    var j := max / 2 + 1;
    OnlyExternal(calls[..j]);
    assert calls[..0] == [];
    ExternalIdRange(max, calls, j);
  }

  lemma {:induction false} OnlyExternal(calls: seq<Call>)
    requires calls != [] && calls[0] == Call(true, false)
    requires forall k :: 0 < k < |calls| ==> calls[k] == Call(false, false)
    ensures Stepping(calls, false) == |calls| - 1
  {
    if |calls| > 1 { OnlyExternal(calls[..|calls| - 1]); }
  }

  lemma {:induction false} FirstInternalStable(calls: seq<Call>, i: nat, j: nat)
    requires i <= j <= |calls|
    ensures FirstInternalIsPt2pt(calls[..i]) ==> FirstInternalIsPt2pt(calls[..j])
    ensures !NoInternal(calls[..i]) && !FirstInternalIsPt2pt(calls[..i]) ==> !FirstInternalIsPt2pt(calls[..j])
    decreases j
  {
    if i < j {
      FirstInternalStable(calls, i, j - 1);
      assert calls[..j] == calls[..j - 1] + [calls[j - 1]];
      FirstInternalAppended(calls[..j - 1], calls[j - 1]);
      if !NoInternal(calls[..i]) {
        var k :| 0 <= k < i && calls[..i][k].useInternal;
        assert calls[..j - 1][k].useInternal;
      }
    }
  }
}
