/**
 Printing and parsing a device index (src/ccl_cpp_utils.cpp): `[driver:device:subdevice]`.
 */
module DeviceIndex {

  const LIMIT: nat := 0x1_0000_0000
  const UNUSED: nat := LIMIT - 1
  const LLONG_MAX: nat := 0x7FFF_FFFF_FFFF_FFFF

  /** `device_index_type`: three 32-bit numbers. */
  datatype Index = Index(driver: nat, device: nat, sub: nat) {
    predicate Valid() {
      driver < LIMIT && device < LIMIT && sub < LIMIT
    }
  }

  datatype Result = Ok(index: Index) | NoBracket | TooShort | DriverInvalid | DeviceInvalid | Unsupported

  // ---------------------------------------------------------------- numbers

  function Digit(d: nat): char
    requires d < 10
  {
    '0' + d as char
  }

  predicate IsDigit(c: char) { '0' <= c <= '9' }

  predicate IsSpace(c: char) { c == ' ' || '\t' <= c <= '\r' }

  /** A number as a stream prints it. */
  function Dec(n: nat): string {
    if n < 10 then [Digit(n)] else Dec(n / 10) + [Digit(n % 10)]
  }

  /** The digits at the front of the string, read onto an accumulator. */
  function Value(s: string, acc: nat): nat {
    if s == [] || !IsDigit(s[0]) then acc else Value(s[1..], acc * 10 + (s[0] - '0') as nat)
  }

  function SkipSpaces(s: string): string {
    if s != [] && IsSpace(s[0]) then SkipSpaces(s[1..]) else s
  }

  /** `atoll`: leading space, a sign, digits; anything else stops it. Too large a number saturates. */
  function Atoll(s: string): int {
    var t := SkipSpaces(s);
    var signed := t != [] && (t[0] == '-' || t[0] == '+');
    var v := Value(if signed then t[1..] else t, 0);
    if signed && t[0] == '-' then (if v <= LLONG_MAX + 1 then 0 - v else 0 - LLONG_MAX - 1)
    else if v <= LLONG_MAX then v else LLONG_MAX
  }

  /** The assignment of a 64-bit number to a 32-bit field. */
  function Narrowed(v: int): nat { v % LIMIT }

  // ---------------------------------------------------------------- print

  function ToString(d: Index): string {
    "[" + Dec(d.driver) + ":" + Dec(d.device) + ":" + (if d.sub == UNUSED then "*" else Dec(d.sub)) + "]"
  }

  // ---------------------------------------------------------------- parse

  datatype Position = At(pos: nat) | Npos

  /** `std::string::find` of one character. */
  function Find(s: string, c: char, from: nat): (p: Position)
    requires from <= |s|
    ensures p.At? ==> from <= p.pos < |s|
    decreases |s| - from
  {
    if from == |s| then Npos else if s[from] == c then At(from) else Find(s, c, from + 1)
  }

  /** The character does not occur from one position up to another. */
  predicate Clear(s: string, c: char, from: nat, to: nat)
    requires to <= |s|
  {
    forall k :: from <= k < to ==> s[k] != c
  }

  /** The position found is the first one that holds the character. */
  lemma {:induction false} FindIsFirst(s: string, c: char, from: nat)
    requires from <= |s|
    ensures match Find(s, c, from)
            case At(p) => s[p] == c && Clear(s, c, from, p)
            case Npos => Clear(s, c, from, |s|)
    decreases |s| - from
  {
    if from < |s| && s[from] != c {
      FindIsFirst(s, c, from + 1);
    }
  }

  /** The fields between colons; a last field is dropped when it is empty and follows a colon. */
  function Fields(s: string, from: nat): (f: seq<string>)
    requires from <= |s|
    ensures f != []
    decreases |s| - from
  {
    match Find(s, ':', from)
    case Npos => [s[from..]]
    case At(p) => [s[from..p]] + (if p + 1 == |s| then [] else Fields(s, p + 1))
  }

  lemma FieldsUnfold(s: string, from: nat)
    requires from <= |s|
    ensures match Find(s, ':', from)
            case Npos => Fields(s, from) == [s[from..]]
            case At(p) => Fields(s, from) == if p + 1 == |s| then [s[from..p]] else [s[from..p]] + Fields(s, p + 1)
  {
  }

  function Joined(f: seq<string>): string
    requires f != []
  {
    if |f| == 1 then f[0] else f[0] + ":" + Joined(f[1..])
  }

  ghost predicate NoColons(f: seq<string>) { forall k :: 0 <= k < |f| ==> Clear(f[k], ':', 0, |f[k]|) }

  /** The fields give the text back, but for one trailing colon. */
  ghost predicate Splits(f: seq<string>, text: string)
    requires f != []
  {
    NoColons(f) && (Joined(f) == text || Joined(f) + ":" == text)
  }

  lemma SplitsCons(a: string, f: seq<string>, text: string)
    requires f != [] && Splits(f, text) && Clear(a, ':', 0, |a|)
    ensures Splits([a] + f, a + ":" + text)
  {
    assert ([a] + f)[1..] == f;
    assert Joined([a] + f) == a + ":" + Joined(f);
    assert a + ":" + (Joined(f) + ":") == Joined([a] + f) + ":";
  }

  lemma SplitsLast(s: string, from: nat, f: seq<string>)
    requires from <= |s| && Clear(s, ':', from, |s|) && f == [s[from..]]
    ensures Splits(f, s[from..])
  {
  }

  lemma SplitsTrailing(s: string, from: nat, f: seq<string>)
    requires from < |s| && s[|s| - 1] == ':' && Clear(s, ':', from, |s| - 1) && f == [s[from..|s| - 1]]
    ensures Splits(f, s[from..])
  {
    assert s[from..] == s[from..|s| - 1] + ":";
  }

  /** Cutting the text at a colon cuts off one field. */
  lemma SplitsAt(s: string, from: nat, p: nat, f: seq<string>, g: seq<string>)
    requires from <= p < |s| && s[p] == ':' && Clear(s, ':', from, p) && f != [] && Splits(f, s[p + 1..])
    requires g == [s[from..p]] + f
    ensures Splits(g, s[from..])
  {
    SplitsCons(s[from..p], f, s[p + 1..]);
    assert s[from..] == s[from..p] + ":" + s[p + 1..];
  }

  /** The split that the search for colons makes. */
  lemma {:induction false} SplitOf(s: string, from: nat) returns (f: seq<string>)
    requires from <= |s|
    ensures f == Fields(s, from) && f != [] && Splits(f, s[from..])
    decreases |s| - from
  {
    FindIsFirst(s, ':', from);
    FieldsUnfold(s, from);
    var colon := Find(s, ':', from);
    if colon.Npos? {
      f := [s[from..]];
      SplitsLast(s, from, f);
    } else if colon.pos + 1 == |s| {
      f := [s[from..colon.pos]];
      SplitsTrailing(s, from, f);
    } else {
      var rest := SplitOf(s, colon.pos + 1);
      f := [s[from..colon.pos]] + rest;
      SplitsAt(s, from, colon.pos, rest, f);
    }
  }

  /** The fields hold no colon, and joined by colons they give the text back, but for one trailing colon. */
  lemma FieldsAreTheSplit(s: string, from: nat)
    requires from <= |s|
    ensures Splits(Fields(s, from), s[from..])
  {
    var f := SplitOf(s, from);
  }

  /** The number each field starts with. */
  function Numbers(f: seq<string>): seq<int> { seq(|f|, i requires 0 <= i < |f| => Atoll(f[i])) }

  /** What the fields mean: missing ones are unused, a negative sub-device is unused, the first bad field decides. */
  function Meaning(v: seq<int>): Result
    requires v != []
  {
    if v[0] < 0 then DriverInvalid
    else if 2 <= |v| && v[1] < 0 then DeviceInvalid
    else if 4 <= |v| then Unsupported
    else Ok(Index(
              Narrowed(v[0]),
              if 2 <= |v| then Narrowed(v[1]) else UNUSED,
              if |v| == 3 && 0 <= v[2] then Narrowed(v[2]) else UNUSED))
  }

  function Parsed(s: string): Result {
    match Find(s, '[', 0)
    case Npos => NoBracket
    case At(p) => if |s| == 1 then TooShort else Meaning(Numbers(Fields(s, p + 1)))
  }

  /** The path after the first n fields: those are good and stored, the rest is unused. */
  ghost predicate Filled(v: seq<int>, n: nat, path: Index)
    requires n <= |v|
  {
    && n <= 3
    && (if 1 <= n then 0 <= v[0] && path.driver == Narrowed(v[0]) else path.driver == UNUSED)
    && (if 2 <= n then 0 <= v[1] && path.device == Narrowed(v[1]) else path.device == UNUSED)
    && path.sub == if 3 <= n && 0 <= v[2] then Narrowed(v[2]) else UNUSED
  }

  lemma FilledIsMeaning(v: seq<int>, path: Index)
    requires v != [] && Filled(v, |v|, path)
    ensures Meaning(v) == Ok(path)
  {
  }

  /** The cursor stands at the start of field n. */
  ghost predicate AtField(s: string, from: nat, all: seq<string>, n: nat) {
    from <= |s| && n < |all| && all[n..] == Fields(s, from)
  }

  lemma HeadAndRest(all: seq<string>, n: nat, x: string, rest: seq<string>)
    requires n < |all| && all[n..] == [x] + rest
    ensures all[n] == x && all[n + 1..] == rest && |all| == n + 1 + |rest|
  {
    assert all[n] == all[n..][0];
    assert all[n + 1..] == all[n..][1..];
  }

  /** The field at the cursor, and where the next one starts. */
  lemma NextField(s: string, from: nat, all: seq<string>, n: nat)
    requires AtField(s, from, all, n)
    ensures var p := Find(s, ':', from);
            && all[n] == (if p.At? then s[from..p.pos] else s[from..])
            && if p.At? && p.pos + 1 < |s| then AtField(s, p.pos + 1, all, n + 1) else n + 1 == |all|
  {
    FieldsUnfold(s, from);
    match Find(s, ':', from)
    case Npos => HeadAndRest(all, n, s[from..], []);
    case At(p) => HeadAndRest(all, n, s[from..p], if p + 1 == |s| then [] else Fields(s, p + 1));
  }

  /** One field: its number, whether another follows, and the cursor, which only then moves on. */
  method ReadField(s: string, fromPos: nat, ghost all: seq<string>, ghost n: nat)
    returns (index: int, more: bool, next: nat)
    requires AtField(s, fromPos, all, n)
    ensures index == Numbers(all)[n]
    ensures if more then fromPos < next && AtField(s, next, all, n + 1) else next == fromPos && n + 1 == |all|
  {
    NextField(s, fromPos, all, n);
    var toPos := Find(s, ':', fromPos);
    var indexString := if toPos.At? then s[fromPos..toPos.pos] else s[fromPos..];
    index := Atoll(indexString);
    more := toPos.At? && toPos.pos + 1 < |s|;
    next := if more then toPos.pos + 1 else fromPos;
  }

  /** The switch of the loop body: one more field of the path, or the exception the whole string ends in. */
  method Store(ghost v: seq<int>, curIndex: nat, index: int, path: Index) returns (r: Result)
    requires curIndex < |v| && index == v[curIndex] && Filled(v, curIndex, path)
    ensures if r.Ok? then Filled(v, curIndex + 1, r.index) else r == Meaning(v)
  {
    if curIndex == 0 {
      if index < 0 {
        return DriverInvalid;
      }
      return Ok(path.(driver := Narrowed(index)));
    }
    if curIndex == 1 {
      if index < 0 {
        return DeviceInvalid;
      }
      return Ok(path.(device := Narrowed(index)));
    }
    if curIndex == 2 {
      return Ok(path.(sub := if index < 0 then UNUSED else Narrowed(index)));
    }
    return Unsupported;
  }

  /** The loop of `from_string`, from the character after the bracket. */
  method ParseFields(s: string, from: nat) returns (r: Result)
    requires from <= |s|
    ensures r == Meaning(Numbers(Fields(s, from)))
  {
    var fromPos := from;
    var path := Index(UNUSED, UNUSED, UNUSED);
    var curIndex := 0;
    ghost var all := Fields(s, from);
    ghost var v := Numbers(all);
    var more := true;
    while more
      invariant fromPos <= |s|
      invariant if more then AtField(s, fromPos, all, curIndex) else curIndex == |all|
      invariant Filled(v, curIndex, path)
      decreases more, |s| - fromPos
    {
      var index, another, next := ReadField(s, fromPos, all, curIndex);
      var stored := Store(v, curIndex, index, path);
      if !stored.Ok? {
        return stored;
      }
      path := stored.index;
      curIndex := curIndex + 1;
      fromPos, more := next, another;
    }
    FilledIsMeaning(v, path);
    return Ok(path);
  }

  /** `from_string`, which ends on every string. */
  method FromString(s: string) returns (r: Result)
    ensures r == Parsed(s)
  {
    var start := Find(s, '[', 0);
    if start.Npos? {
      return NoBracket;
    }
    if |s| == 1 {
      return TooShort;
    }
    r := ParseFields(s, start.pos + 1);
  }

  // ---------------------------------------------------------------- round trip

  /** A printed number reads back as itself, up to the first character that is no digit. */
  lemma {:induction false} ValueOfDec(n: nat, tail: string)
    ensures Value(Dec(n) + tail, 0) == Value(tail, n)
    decreases n
  {
    var d := [Digit(n % 10)];
    assert (d + tail)[1..] == tail;
    if 10 <= n {
      ValueOfDec(n / 10, d + tail);
      assert Dec(n) + tail == Dec(n / 10) + (d + tail);
    } else {
      assert Dec(n) == d;
    }
  }

  lemma {:induction false} DecDigits(n: nat)
    ensures Dec(n) != [] && forall c :: c in Dec(n) ==> IsDigit(c)
    decreases n
  {
    if 10 <= n { DecDigits(n / 10); }
  }

  lemma AtollOfDec(n: nat, tail: string)
    requires n < LIMIT && (tail == [] || !IsDigit(tail[0]))
    ensures Atoll(Dec(n) + tail) == n
  {
    DecDigits(n);
    var s := Dec(n) + tail;
    assert s[0] == Dec(n)[0] && s[0] in Dec(n);
    assert SkipSpaces(s) == s;
    ValueOfDec(n, tail);
  }

  /** The first occurrence of a character after a stretch that has none. */
  lemma {:induction false} FindAfter(s: string, c: char, from: nat, p: nat)
    requires from <= p < |s| && s[p] == c && Clear(s, c, from, p)
    ensures Find(s, c, from) == At(p)
    decreases p - from
  {
    if from < p {
      FindAfter(s, c, from + 1, p);
    }
  }

  function SubText(d: Index): string { if d.sub == UNUSED then "*" else Dec(d.sub) }

  lemma FieldsStep(s: string, from: nat, p: nat)
    requires from <= p < |s| - 1 && s[p] == ':' && Clear(s, ':', from, p)
    ensures Fields(s, from) == [s[from..p]] + Fields(s, p + 1)
  {
    FindAfter(s, ':', from, p);
  }

  lemma FieldsLast(s: string, from: nat)
    requires from <= |s| && Clear(s, ':', from, |s|)
    ensures Fields(s, from) == [s[from..]]
  {
    FindIsFirst(s, ':', from);
  }

  lemma TwoFields(s: string, from: nat, q: nat)
    requires from <= q < |s| - 1 && s[q] == ':' && Clear(s, ':', from, q) && Clear(s, ':', q + 1, |s|)
    ensures Fields(s, from) == [s[from..q], s[q + 1..]]
  {
    FieldsStep(s, from, q);
    FieldsLast(s, q + 1);
  }

  /** Three fields without colons, the last not empty, are found again. */
  lemma ThreeFields(s: string, from: nat, p: nat, q: nat)
    requires from <= p < q < |s| - 1 && s[p] == ':' && s[q] == ':'
    requires Clear(s, ':', from, p) && Clear(s, ':', p + 1, q) && Clear(s, ':', q + 1, |s|)
    ensures Fields(s, from) == [s[from..p], s[p + 1..q], s[q + 1..]]
  {
    FieldsStep(s, from, p);
    TwoFields(s, p + 1, q);
  }

  /** Where the colons of a printed index stand. */
  lemma ThreeParts(s: string, a: string, b: string, c: string)
    requires s == "[" + a + ":" + b + ":" + c
    requires Clear(a, ':', 0, |a|) && Clear(b, ':', 0, |b|) && Clear(c, ':', 0, |c|)
    ensures var p, q := 1 + |a|, 2 + |a| + |b|;
            && q < |s| && s[p] == ':' && s[q] == ':'
            && Clear(s, ':', 1, p) && Clear(s, ':', p + 1, q) && Clear(s, ':', q + 1, |s|)
            && s[1..p] == a && s[p + 1..q] == b && s[q + 1..] == c
  {
  }

  lemma PartsAreFields(s: string, a: string, b: string, c: string)
    requires s == "[" + a + ":" + b + ":" + c && c != []
    requires Clear(a, ':', 0, |a|) && Clear(b, ':', 0, |b|) && Clear(c, ':', 0, |c|)
    ensures Fields(s, 1) == [a, b, c]
  {
    ThreeParts(s, a, b, c);
    ThreeFields(s, 1, 1 + |a|, 2 + |a| + |b|);
  }

  lemma DecClear(n: nat)
    ensures Dec(n) != [] && Clear(Dec(n), ':', 0, |Dec(n)|)
  {
    DecDigits(n);
    assert forall k :: 0 <= k < |Dec(n)| ==> Dec(n)[k] in Dec(n);
  }

  lemma FieldsOfPrinted(d: Index)
    ensures Fields(ToString(d), 1) == [Dec(d.driver), Dec(d.device), SubText(d) + "]"]
  {
    DecClear(d.driver);
    DecClear(d.device);
    DecClear(d.sub);
    PartsAreFields(ToString(d), Dec(d.driver), Dec(d.device), SubText(d) + "]");
  }

  lemma AtollOfSubText(d: Index)
    requires d.Valid()
    ensures Atoll(SubText(d) + "]") == if d.sub == UNUSED then 0 else d.sub
  {
    if d.sub == UNUSED {
      assert SkipSpaces("*]") == "*]";
    } else {
      AtollOfDec(d.sub, "]");
    }
  }

  lemma NumbersOfPrinted(d: Index)
    requires d.Valid()
    ensures Numbers(Fields(ToString(d), 1)) == [d.driver, d.device, if d.sub == UNUSED then 0 else d.sub]
  {
    FieldsOfPrinted(d);
    AtollOfDec(d.driver, "");
    AtollOfDec(d.device, "");
    assert Dec(d.driver) + "" == Dec(d.driver) && Dec(d.device) + "" == Dec(d.device);
    AtollOfSubText(d);
  }

  lemma MeaningOfThree(a: nat, b: nat, c: nat)
    requires a < LIMIT && b < LIMIT && c < LIMIT
    ensures Meaning([a, b, c]) == Ok(Index(a, b, c))
  {
  }

  lemma BracketFirst(d: Index)
    ensures Parsed(ToString(d)) == Meaning(Numbers(Fields(ToString(d), 1)))
  {
    assert Find(ToString(d), '[', 0) == At(0);
  }

  /** What a printed index parses to: itself, but for an unused sub-device, which reads as 0. */
  lemma ParsedPrinted(d: Index)
    requires d.Valid()
    ensures Parsed(ToString(d)) == Ok(if d.sub == UNUSED then d.(sub := 0) else d)
  {
    BracketFirst(d);
    NumbersOfPrinted(d);
    MeaningOfThree(d.driver, d.device, if d.sub == UNUSED then 0 else d.sub);
  }

  /** Parsing inverts printing exactly on the indices whose sub-device is in use. */
  lemma RoundTripIff(d: Index)
    requires d.Valid()
    ensures Parsed(ToString(d)) == Ok(d) <==> d.sub != UNUSED
  {
    ParsedPrinted(d);
  }

  /** No two indices print alike, unused sub-devices included. */
  lemma PrintedDiffer(d: Index, e: Index)
    requires d.Valid() && e.Valid() && ToString(d) == ToString(e)
    ensures d == e
  {
    ParsedPrinted(d);
    ParsedPrinted(e);
    FieldsOfPrinted(d);
    FieldsOfPrinted(e);
    assert SubText(d) == (SubText(d) + "]")[..|SubText(d)|];
    assert SubText(e) == (SubText(e) + "]")[..|SubText(e)|];
    DecDigits(d.sub); DecDigits(e.sub);
    assert SubText(d)[0] == SubText(e)[0];
    assert d.sub != UNUSED ==> SubText(d)[0] in Dec(d.sub);
    assert e.sub != UNUSED ==> SubText(e)[0] in Dec(e.sub);
  }
}
