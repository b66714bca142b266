/**
 What strings parse to, given by their text: any number of fields, negative and oversized numbers, and text
 before the bracket (src/ccl_cpp_utils.cpp).
 */
module DeviceText {
  import opened DeviceIndex

  // ----- joining is undone by the field loop

  /** Colon-free fields of which the last is not empty, or a single one. */
  ghost predicate WellJoined(f: seq<string>) {
    f != [] && NoColons(f) && (|f| == 1 || f[|f| - 1] != [])
  }

  lemma {:induction false} JoinedNonEmpty(f: seq<string>)
    requires f != [] && f[|f| - 1] != []
    ensures Joined(f) != []
  {
    if |f| > 1 { JoinedNonEmpty(f[1..]); }
  }

  lemma Cut(s: string, from: nat, a: string, rest: string)
    requires from <= |s| && s[from..] == a + ":" + rest && Clear(a, ':', 0, |a|)
    ensures var p := from + |a|;
            p < |s| && s[from..p] == a && s[p] == ':' && s[p + 1..] == rest && Clear(s, ':', from, p)
  {
    var p := from + |a|;
    assert |s[from..]| == |a| + 1 + |rest|;
    assert s[from..p] == s[from..][..|a|] == a;
    assert s[p] == s[from..][|a|];
    assert s[p + 1..] == s[from..][|a| + 1..];
    forall k | from <= k < p ensures s[k] != ':' { assert s[k] == s[from..][k - from] == a[k - from]; }
  }

  lemma LastClear(s: string, from: nat, a: string)
    requires from <= |s| && s[from..] == a && Clear(a, ':', 0, |a|)
    ensures Clear(s, ':', from, |s|)
  {
    forall k | from <= k < |s| ensures s[k] != ':' { assert s[k] == s[from..][k - from]; }
  }

  /** Reading the fields of a joined text gives the fields. */
  lemma {:induction false} FieldsOfJoined(s: string, from: nat, f: seq<string>)
    requires WellJoined(f) && from <= |s| && s[from..] == Joined(f)
    ensures Fields(s, from) == f
    decreases |f|
  {
    if |f| == 1 {
      SingleField(s, from, f);
    } else {
      JoinedCut(s, from, f);
      FieldsOfJoined(s, from + |f[0]| + 1, f[1..]);
      FirstField(s, from, f);
    }
  }

  lemma SingleField(s: string, from: nat, f: seq<string>)
    requires WellJoined(f) && |f| == 1 && from <= |s| && s[from..] == f[0]
    ensures Fields(s, from) == f
  {
    LastClear(s, from, f[0]);
    FieldsLast(s, from);
  }

  lemma FirstField(s: string, from: nat, f: seq<string>)
    requires f != [] && from + |f[0]| + 1 < |s|
    requires var p := from + |f[0]|;
             s[from..p] == f[0] && s[p] == ':' && Clear(s, ':', from, p) && Fields(s, p + 1) == f[1..]
    ensures Fields(s, from) == f
  {
    var p := from + |f[0]|;
    FindAfter(s, ':', from, p);
    FieldsUnfold(s, from);
    Assembled(Fields(s, from), s[from..p], Fields(s, p + 1), f);
  }

  lemma Assembled(whole: seq<string>, head: string, rest: seq<string>, f: seq<string>)
    requires whole == [head] + rest && f != [] && head == f[0] && rest == f[1..]
    ensures whole == f
  {
    HeadAndTail(f);
  }

  lemma HeadAndTail(f: seq<string>)
    requires f != []
    ensures [f[0]] + f[1..] == f
  {
  }

  lemma JoinedCut(s: string, from: nat, f: seq<string>)
    requires WellJoined(f) && 1 < |f| && from <= |s| && s[from..] == Joined(f)
    ensures var p := from + |f[0]|;
            && p + 1 < |s| && s[from..p] == f[0] && s[p] == ':' && Clear(s, ':', from, p)
            && s[p + 1..] == Joined(f[1..]) && WellJoined(f[1..])
  {
    JoinedNonEmpty(f[1..]);
    Cut(s, from, f[0], Joined(f[1..]));
  }

  /** Whatever stands before the first bracket is ignored; the fields behind it decide. */
  lemma ParsedJoined(before: string, f: seq<string>)
    requires Clear(before, '[', 0, |before|) && WellJoined(f) && before + Joined(f) != []
    ensures Parsed(before + "[" + Joined(f)) == Meaning(Numbers(f))
  {
    var s := before + "[" + Joined(f);
    FindAfter(s, '[', 0, |before|);
    assert s[|before| + 1..] == Joined(f);
    FieldsOfJoined(s, |before| + 1, f);
  }

  /** Without a bracket, or with nothing but one, there is an exception. */
  lemma NoFields(s: string)
    ensures Clear(s, '[', 0, |s|) ==> Parsed(s) == NoBracket
    ensures s == "[" ==> Parsed(s) == TooShort
  {
    FindIsFirst(s, '[', 0);
    if s == "[" { FindAfter(s, '[', 0, 0); }
  }

  // ----- numbers

  /** A number as text, with a minus in front of a negative one. */
  function NumberText(n: int): string { if n < 0 then "-" + Dec(0 - n) else Dec(n) }

  /** What `long long` makes of a number: itself, or the end of the range it lies beyond. */
  function Saturated(n: int): int {
    if n > 0x7FFF_FFFF_FFFF_FFFF then 0x7FFF_FFFF_FFFF_FFFF
    else if n < -0x8000_0000_0000_0000 then -0x8000_0000_0000_0000
    else n
  }

  lemma DigitsRead(n: nat, tail: string)
    requires tail == [] || !IsDigit(tail[0])
    ensures Value(Dec(n) + tail, 0) == n
  {
    ValueOfDec(n, tail);
  }

  lemma NoSpace(s: string)
    requires s == [] || !IsSpace(s[0])
    ensures SkipSpaces(s) == s
  {
  }

  lemma AtollOfNegative(n: nat, tail: string)
    requires tail == [] || !IsDigit(tail[0])
    ensures Atoll("-" + Dec(n) + tail) == Saturated(0 - n)
  {
    var s := "-" + Dec(n) + tail;
    NoSpace(s);
    assert s[1..] == Dec(n) + tail;
    DigitsRead(n, tail);
  }

  lemma AtollOfPositive(n: nat, tail: string)
    requires tail == [] || !IsDigit(tail[0])
    ensures Atoll(Dec(n) + tail) == Saturated(n)
  {
    var s := Dec(n) + tail;
    DecDigits(n);
    assert s[0] == Dec(n)[0] && s[0] in Dec(n);
    NoSpace(s);
    DigitsRead(n, tail);
  }

  /** Numbers of any size and sign are read up to the first character that is no digit, and saturate. */
  lemma AtollOfNumber(n: int, tail: string)
    requires tail == [] || !IsDigit(tail[0])
    ensures Atoll(NumberText(n) + tail) == Saturated(n)
  {
    if n < 0 {
      AtollOfNegative(0 - n, tail);
    } else {
      AtollOfPositive(n, tail);
    }
  }

  lemma NumberClear(n: int, tail: string)
    requires Clear(tail, ':', 0, |tail|)
    ensures Clear(NumberText(n) + tail, ':', 0, |NumberText(n) + tail|) && NumberText(n) != []
  {
    DecClear(if n < 0 then 0 - n else n);
  }

  // ----- strings of one to four fields

  /** The text is a bracket and the fields, and the fields read as the numbers. */
  ghost predicate Reads(text: string, f: seq<string>, v: seq<int>) {
    && WellJoined(f) && f[|f| - 1] != [] && text == "[" + Joined(f)
    && |v| == |f| && forall k :: 0 <= k < |f| ==> Atoll(f[k]) == v[k]
  }

  lemma ParsedAs(text: string, f: seq<string>, v: seq<int>)
    requires Reads(text, f, v)
    ensures v != [] && Parsed(text) == Meaning(v)
  {
    JoinedNonEmpty(f);
    ParsedJoined("", f);
    assert "" + "[" + Joined(f) == text;
    assert Numbers(f) == v;
  }

  /** A field in the middle, and the last one with its bracket. */
  predicate Field(x: string, n: int) { Clear(x, ':', 0, |x|) && x != [] && Atoll(x) == n }

  lemma InnerField(n: int)
    ensures Field(NumberText(n), Saturated(n))
  {
    NumberClear(n, "");
    AtollOfNumber(n, "");
    assert NumberText(n) + "" == NumberText(n);
  }

  lemma LastField(n: int)
    ensures Field(NumberText(n) + "]", Saturated(n))
  {
    NumberClear(n, "]");
    AtollOfNumber(n, "]");
  }

  lemma OneReads(x: string, a: int)
    requires Field(x, a)
    ensures Reads("[" + x, [x], [a])
  {
  }

  lemma TwoReads(x: string, y: string, a: int, b: int)
    requires Field(x, a) && Field(y, b)
    ensures Reads("[" + x + ":" + y, [x, y], [a, b])
  {
    assert [x, y][1..] == [y];
    assert Joined([x, y]) == x + ":" + y;
    assert "[" + (x + ":" + y) == "[" + x + ":" + y;
  }

  lemma ThreeReads(x: string, y: string, z: string, a: int, b: int, c: int)
    requires Field(x, a) && Field(y, b) && Field(z, c)
    ensures Reads("[" + x + ":" + y + ":" + z, [x, y, z], [a, b, c])
  {
    TwoReads(y, z, b, c);
    assert [x, y, z][1..] == [y, z] && [y, z][1..] == [z];
    assert Joined([y, z]) == y + ":" + z;
    assert Joined([x, y, z]) == x + ":" + (y + ":" + z);
    assert "[" + (x + ":" + (y + ":" + z)) == "[" + x + ":" + y + ":" + z;
  }

  /** `[a]`: the device and the sub-device are unused. */
  lemma OneNumber(a: int)
    ensures Parsed("[" + NumberText(a) + "]")
            == if a < 0 then DriverInvalid else Ok(Index(Saturated(a) % LIMIT, UNUSED, UNUSED))
  {
    LastField(a);
    OneReads(NumberText(a) + "]", Saturated(a));
    assert "[" + (NumberText(a) + "]") == "[" + NumberText(a) + "]";
    ParsedAs("[" + NumberText(a) + "]", [NumberText(a) + "]"], [Saturated(a)]);
  }

  lemma TwoMean(a: int, b: int)
    ensures Meaning([a, b])
            == if a < 0 then DriverInvalid else if b < 0 then DeviceInvalid else Ok(Index(a % LIMIT, b % LIMIT, UNUSED))
  {
  }

  /** `[a:b]`: the sub-device is unused; a negative driver is reported before a negative device. */
  lemma TwoNumbers(a: int, b: int)
    ensures Parsed("[" + NumberText(a) + ":" + NumberText(b) + "]")
            == if a < 0 then DriverInvalid
               else if b < 0 then DeviceInvalid
               else Ok(Index(Saturated(a) % LIMIT, Saturated(b) % LIMIT, UNUSED))
  {
    var x, y := NumberText(a), NumberText(b) + "]";
    InnerField(a);
    LastField(b);
    TwoReads(x, y, Saturated(a), Saturated(b));
    assert "[" + x + ":" + y == "[" + NumberText(a) + ":" + NumberText(b) + "]";
    ParsedAs("[" + x + ":" + y, [x, y], [Saturated(a), Saturated(b)]);
    TwoMean(Saturated(a), Saturated(b));
  }

  lemma ThreeMean(a: int, b: int, c: int)
    ensures Meaning([a, b, c])
            == if a < 0 then DriverInvalid
               else if b < 0 then DeviceInvalid
               else Ok(Index(a % LIMIT, b % LIMIT, if c < 0 then UNUSED else c % LIMIT))
  {
  }

  /** `[a:b:c]`: a negative sub-device is unused. */
  lemma ThreeNumbers(a: int, b: int, c: int)
    ensures Parsed("[" + NumberText(a) + ":" + NumberText(b) + ":" + NumberText(c) + "]")
            == if a < 0 then DriverInvalid
               else if b < 0 then DeviceInvalid
               else Ok(Index(Saturated(a) % LIMIT, Saturated(b) % LIMIT,
                             if c < 0 then UNUSED else Saturated(c) % LIMIT))
  {
    var x, y, z := NumberText(a), NumberText(b), NumberText(c) + "]";
    InnerField(a);
    InnerField(b);
    LastField(c);
    ThreeReads(x, y, z, Saturated(a), Saturated(b), Saturated(c));
    assert "[" + x + ":" + y + ":" + z == "[" + NumberText(a) + ":" + NumberText(b) + ":" + NumberText(c) + "]";
    ParsedAs("[" + x + ":" + y + ":" + z, [x, y, z], [Saturated(a), Saturated(b), Saturated(c)]);
    ThreeMean(Saturated(a), Saturated(b), Saturated(c));
  }

  lemma FourMean(v: seq<int>)
    requires 4 <= |v|
    ensures Meaning(v) == if v[0] < 0 then DriverInvalid else if v[1] < 0 then DeviceInvalid else Unsupported
  {
  }

  lemma OneMoreJoined(x: string, rest: seq<string>)
    requires Clear(x, ':', 0, |x|) && rest != [] && NoColons(rest) && rest[|rest| - 1] != []
    ensures var f := [x] + rest; NoColons(f) && f[|f| - 1] != []
  {
    var f := [x] + rest;
    forall k | 0 <= k < |f| ensures Clear(f[k], ':', 0, |f[k]|) {
      if k > 0 { assert f[k] == rest[k - 1]; }
    }
  }

  lemma MoreJoined(x: string, y: string, rest: seq<string>)
    requires Clear(x, ':', 0, |x|) && Clear(y, ':', 0, |y|) && 2 <= |rest| && WellJoined(rest)
    ensures var f := [x, y] + rest; WellJoined(f) && f[|f| - 1] != []
  {
    OneMoreJoined(y, rest);
    OneMoreJoined(x, [y] + rest);
    assert [x] + ([y] + rest) == [x, y] + rest;
  }

  lemma FourReads(x: string, y: string, a: int, b: int, rest: seq<string>)
    requires Field(x, a) && Field(y, b) && 2 <= |rest| && WellJoined(rest)
    ensures Parsed("[" + Joined([x, y] + rest))
            == if a < 0 then DriverInvalid else if b < 0 then DeviceInvalid else Unsupported
  {
    var f := [x, y] + rest;
    MoreJoined(x, y, rest);
    ParsedAs("[" + Joined(f), f, Numbers(f));
    assert Numbers(f)[0] == a && Numbers(f)[1] == b;
    FourMean(Numbers(f));
  }

  /** Four fields or more are refused, unless the driver or the device is negative and refused before that. */
  lemma FourFields(a: int, b: int, rest: seq<string>)
    requires 2 <= |rest| && WellJoined(rest)
    ensures Parsed("[" + Joined([NumberText(a), NumberText(b)] + rest))
            == if a < 0 then DriverInvalid else if b < 0 then DeviceInvalid else Unsupported
  {
    InnerField(a);
    InnerField(b);
    FourReads(NumberText(a), NumberText(b), Saturated(a), Saturated(b), rest);
  }
}
