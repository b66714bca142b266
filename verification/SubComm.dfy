/**
 Local computation of sub-communicators: every rank groups all ranks by colour, sorts its group and
 looks itself up (src/comm/mt_comm.cpp).
 */
module SubComm {

  // ----- what a split means

  /** The ranks of one colour, in rank order. */
  function Members(colors: seq<int>, c: int): seq<nat> {
    if colors == [] then []
    else
      var n := |colors| - 1;
      Members(colors[..n], c) + if colors[n] == c then [n] else []
  }

  /** A rank's number in its colour class: how many ranks before it share its colour. */
  function ClassRank(colors: seq<int>, rank: nat): nat
    requires rank < |colors|
  {
    |Members(colors[..rank], colors[rank])|
  }

  lemma {:induction false} MembersExact(colors: seq<int>, c: int)
    ensures forall r: nat :: r in Members(colors, c) <==> r < |colors| && colors[r] == c
    ensures forall i, j :: 0 <= i < j < |Members(colors, c)| ==> Members(colors, c)[i] < Members(colors, c)[j]
  {
    if colors != [] {
      var n := |colors| - 1;
      MembersExact(colors[..n], c);
      assert Members(colors, c) == Members(colors[..n], c) + if colors[n] == c then [n] else [];
      assert forall i :: 0 <= i < |Members(colors[..n], c)| ==> Members(colors[..n], c)[i] in Members(colors[..n], c);
    }
  }

  lemma {:induction false} MembersPrefix(colors: seq<int>, c: int, n: nat)
    requires n <= |colors|
    ensures Members(colors[..n], c) <= Members(colors, c)
  {
    if n < |colors| {
      MembersPrefix(colors[..|colors| - 1], c, n);
      assert colors[..|colors| - 1][..n] == colors[..n];
    } else {
      assert colors[..n] == colors;
    }
  }

  /** The k-th rank of a colour class is numbered k, and every rank of the class is found at its number. */
  lemma ClassRankIsPosition(colors: seq<int>, rank: nat)
    requires rank < |colors|
    ensures var m := Members(colors, colors[rank]);
            ClassRank(colors, rank) < |m| && m[ClassRank(colors, rank)] == rank
  {
    var c := colors[rank];
    assert colors[..rank + 1][..rank] == colors[..rank];
    MembersPrefix(colors, c, rank + 1);
    assert Members(colors[..rank + 1], c)[ClassRank(colors, rank)] == rank;
  }

  /** Each colour class of size k is numbered 0 .. k-1 one to one and in rank order. */
  lemma ClassNumberedInRankOrder(colors: seq<int>, r1: nat, r2: nat, c: int, k: nat)
    ensures r1 < r2 < |colors| && colors[r1] == colors[r2] ==> ClassRank(colors, r1) < ClassRank(colors, r2)
    ensures k < |Members(colors, c)| ==>
              var r := Members(colors, c)[k]; r < |colors| && colors[r] == c && ClassRank(colors, r) == k
  {
    MembersExact(colors, c);
    if k < |Members(colors, c)| {
      assert Members(colors, c)[k] in Members(colors, c);
      ClassRankIsPosition(colors, Members(colors, c)[k]);
    }
    if r1 < r2 < |colors| && colors[r1] == colors[r2] {
      MembersExact(colors, colors[r1]);
      ClassRankIsPosition(colors, r1);
      ClassRankIsPosition(colors, r2);
    }
  }

  // ----- the sort

  type Keyed = (nat, int)

  /** Puts x behind everything whose key is not larger. */
  function Insert(s: seq<Keyed>, x: Keyed): seq<Keyed> {
    if s == [] || s[|s| - 1].1 <= x.1 then s + [x]
    else Insert(s[..|s| - 1], x) + [s[|s| - 1]]
  }

  function SortByKey(s: seq<Keyed>): seq<Keyed> {
    if s == [] then [] else Insert(SortByKey(s[..|s| - 1]), s[|s| - 1])
  }

  predicate Sorted(s: seq<Keyed>) {
    forall i, j :: 0 <= i < j < |s| ==> s[i].1 <= s[j].1
  }

  function WithKey(s: seq<Keyed>, k: int): seq<Keyed> {
    if s == [] then []
    else WithKey(s[..|s| - 1], k) + if s[|s| - 1].1 == k then [s[|s| - 1]] else []
  }

  lemma WithKeyAppended(s: seq<Keyed>, x: Keyed, k: int)
    ensures WithKey(s + [x], k) == WithKey(s, k) + if x.1 == k then [x] else []
  {
    assert (s + [x])[..|s|] == s;
  }

  lemma {:induction false} InsertSorted(s: seq<Keyed>, x: Keyed)
    requires Sorted(s)
    ensures Sorted(Insert(s, x))
    ensures forall y :: y in Insert(s, x) ==> y in s || y == x
  {
    if s != [] && s[|s| - 1].1 > x.1 {
      InsertSorted(s[..|s| - 1], x);
      var t := Insert(s[..|s| - 1], x);
      forall i | 0 <= i < |t| ensures t[i].1 <= s[|s| - 1].1 {
        assert t[i] in t;
      }
    }
  }

  lemma {:induction false} InsertStable(s: seq<Keyed>, x: Keyed, k: int)
    ensures WithKey(Insert(s, x), k) == WithKey(s, k) + if x.1 == k then [x] else []
  {
    if s == [] || s[|s| - 1].1 <= x.1 {
      WithKeyAppended(s, x, k);
    } else {
      var front, last := s[..|s| - 1], s[|s| - 1];
      InsertStable(front, x, k);
      WithKeyAppended(Insert(front, x), last, k);
      assert s == front + [last];
      WithKeyAppended(front, last, k);
    }
  }

  lemma {:induction false} SortIsSorted(s: seq<Keyed>)
    ensures Sorted(SortByKey(s))
  {
    if s != [] {
      SortIsSorted(s[..|s| - 1]);
      InsertSorted(SortByKey(s[..|s| - 1]), s[|s| - 1]);
    }
  }

  /** The sort leaves the elements of each key exactly as they were, in their order. */
  lemma {:induction false} SortIsStable(s: seq<Keyed>, k: int)
    ensures WithKey(SortByKey(s), k) == WithKey(s, k)
  {
    if s != [] {
      SortIsStable(s[..|s| - 1], k);
      InsertStable(SortByKey(s[..|s| - 1]), s[|s| - 1], k);
    }
  }

  lemma {:induction false} EqualKeysStay(s: seq<Keyed>, key: int)
    requires forall i :: 0 <= i < |s| ==> s[i].1 == key
    ensures SortByKey(s) == s
  {
    if s != [] { EqualKeysStay(s[..|s| - 1], key); }
  }

  // ----- the code

  /** The caller's key stands beside every rank of the group, as in the source. */
  function WithCallersKey(ranks: seq<nat>, key: int): seq<Keyed> {
    seq(|ranks|, i requires 0 <= i < |ranks| => (ranks[i], key))
  }

  datatype Split = Split(size: nat, rank: nat) | RankNotFound

  function Groups(colors: seq<int>, key: int): map<int, seq<Keyed>> {
    map c | c in colors :: WithCallersKey(Members(colors, c), key)
  }

  lemma GroupsStep(colors: seq<int>, i: nat, key: int)
    requires i < |colors|
    ensures var g := Groups(colors[..i], key);
            var mine := if colors[i] in g then g[colors[i]] else [];
            Groups(colors[..i + 1], key) == g[colors[i] := mine + [(i, key)]]
  {
    assert colors[..i + 1][..i] == colors[..i];
    assert colors[..i + 1] == colors[..i] + [colors[i]];
    if colors[i] !in colors[..i] { NoMembers(colors[..i], colors[i]); }
    var m := Members(colors[..i], colors[i]);
    assert WithCallersKey(m + [i], key) == WithCallersKey(m, key) + [(i, key)];
    assert forall c :: c != colors[i] ==> Members(colors[..i + 1], c) == Members(colors[..i], c);
    var g := Groups(colors[..i], key);
    var mine := if colors[i] in g then g[colors[i]] else [];
    assert mine == WithCallersKey(m, key);
    var after := Groups(colors[..i + 1], key);
    assert after.Keys == g.Keys + {colors[i]};
    assert forall c :: c in after ==> after[c] == g[colors[i] := mine + [(i, key)]][c];
  }

  method CreateSubcommExt(colors: seq<int>, rank: nat, key: int) returns (r: Split)
    requires rank < |colors|
    ensures r == Split(|Members(colors, colors[rank])|, ClassRank(colors, rank))
  {
    var colorToRanks: map<int, seq<Keyed>> := map[];
    for i := 0 to |colors|
      invariant colorToRanks == Groups(colors[..i], key)
    {
      var c := colors[i];
      GroupsStep(colors, i, key);
      colorToRanks := colorToRanks[c := (if c in colorToRanks then colorToRanks[c] else []) + [(i, key)]];
    }
    assert colors[..|colors|] == colors;
    colorToRanks := map c | c in colorToRanks :: SortByKey(colorToRanks[c]);
    r := FindRank(colors, rank, key, colorToRanks[colors[rank]]);
  }

  /** The sorted group is the colour class in rank order, and the caller stands in it once, at its number. */
  lemma CallerInGroup(colors: seq<int>, rank: nat, key: int, group: seq<Keyed>)
    requires rank < |colors|
    requires group == SortByKey(WithCallersKey(Members(colors, colors[rank]), key))
    ensures |group| == |Members(colors, colors[rank])| && ClassRank(colors, rank) < |group|
    ensures forall j :: 0 <= j < |group| ==> (group[j].0 == rank <==> j == ClassRank(colors, rank))
  {
    var m := Members(colors, colors[rank]);
    EqualKeysStay(WithCallersKey(m, key), key);
    assert |group| == |m| && forall j :: 0 <= j < |m| ==> group[j].0 == m[j];
    ClassRankIsPosition(colors, rank);
    MembersExact(colors, colors[rank]);
  }

  /** The linear search for the caller in its sorted group. */
  method FindRank(ghost colors: seq<int>, rank: nat, key: int, group: seq<Keyed>) returns (r: Split)
    requires rank < |colors|
    requires group == SortByKey(WithCallersKey(Members(colors, colors[rank]), key))
    ensures r == Split(|Members(colors, colors[rank])|, ClassRank(colors, rank))
  {
    CallerInGroup(colors, rank, key, group);
    var i := 0;
    while i < |group|
      invariant 0 <= i <= ClassRank(colors, rank)
    {
      if group[i].0 == rank {
        return Split(|group|, i);
      }
      i := i + 1;
    }
    return RankNotFound;
  }

  lemma {:induction false} NoMembers(colors: seq<int>, c: int)
    requires c !in colors
    ensures Members(colors, c) == []
  {
    if colors != [] { NoMembers(colors[..|colors| - 1], c); }
  }
}
