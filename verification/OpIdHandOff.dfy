/**
 The hand-off of operation ids from senders to receivers through one entry per group. Every
 locked section is one step; the sender reads its return value after it has dropped the lock
 (src/MT/shared_resource.hpp).
 */
module OpIdHandOff {

  const TWO31: int := 0x8000_0000
  const TWO32: int := 0x1_0000_0000

  /** The value of a 32-bit atomic counter after n increments. */
  function Wrapped(n: nat): int { (n + TWO31) % TWO32 - TWO31 }

  /**
   `id` and `ready` are the entry. The rest is history: the counter values published here, the
   ids receivers got and the publication each came from, and whether a publication ever replaced
   one that nobody had received.
   */
  datatype Entry = Entry(
    id: int, ready: bool, published: seq<nat>, received: seq<int>, taken: seq<nat>, overwrote: bool)

  const FRESH := Entry(-1, false, [], [], [], false)

  /** `returning` holds the senders that have published and not yet read their return value. */
  datatype State = State(next: nat, entries: map<nat, Entry>, returning: map<nat, (nat, nat)>)

  datatype Label =
    | Publish(sender: nat, group: nat)
    | Return(sender: nat)
    | Receive(group: nat)

  function EntryOf(s: State, g: nat): Entry {
    if g in s.entries then s.entries[g] else FRESH
  }

  predicate Enabled(s: State, l: Label) {
    match l
    case Publish(sender, _) => sender !in s.returning
    case Return(sender) => sender in s.returning
    case Receive(g) => EntryOf(s, g).ready
  }

  function Apply(s: State, l: Label): State
    requires Enabled(s, l)
  {
    match l
    case Publish(sender, g) =>
      var e := EntryOf(s, g);
      State(s.next + 1,
            s.entries[g := e.(id := Wrapped(s.next), ready := true, published := e.published + [s.next],
                              overwrote := e.overwrote || e.ready)],
            s.returning[sender := (g, s.next)])
    case Return(sender) => s.(returning := s.returning - {sender})
    case Receive(g) =>
      var e := EntryOf(s, g);
      var ticket := if e.published == [] then 0 else e.published[|e.published| - 1];
      s.(entries := s.entries[g := e.(ready := false, received := e.received + [e.id], taken := e.taken + [ticket])])
  }

  /** What a sender returns: the entry's id at the time it gets round to reading it. */
  function ReturnValue(s: State, sender: nat): int
    requires sender in s.returning
  {
    EntryOf(s, s.returning[sender].0).id
  }

  ghost predicate Run(ss: seq<State>, ls: seq<Label>) {
    && |ss| == |ls| + 1
    && ss[0] == State(0, map[], map[])
    && forall i :: 0 <= i < |ls| ==> Enabled(ss[i], ls[i]) && ss[i + 1] == Apply(ss[i], ls[i])
  }

  // ----- the invariant of one entry

  predicate Increasing(s: seq<nat>) {
    forall i, j :: 0 <= i < j < |s| ==> s[i] < s[j]
  }

  function Last(s: seq<nat>): nat
    requires s != []
  {
    s[|s| - 1]
  }

  ghost predicate EntryInv(e: Entry, next: nat) {
    && Increasing(e.published) && (forall n :: n in e.published ==> n < next)
    && Increasing(e.taken) && (forall n :: n in e.taken ==> n in e.published)
    && |e.received| == |e.taken|
    && (forall k :: 0 <= k < |e.taken| ==> e.received[k] == Wrapped(e.taken[k]))
    && (if e.published == [] then !e.ready && e.taken == [] && e.id == -1
        else
          && e.id == Wrapped(Last(e.published))
          && (e.taken != [] ==> Last(e.taken) <= Last(e.published))
          && (e.ready <==> e.taken == [] || Last(e.taken) < Last(e.published)))
    && (if e.overwrote then |e.taken| + (if e.ready then 1 else 0) < |e.published|
        else |e.taken| + (if e.ready then 1 else 0) == |e.published| && e.taken <= e.published)
  }

  ghost predicate Inv(s: State) {
    && (forall g :: EntryInv(EntryOf(s, g), s.next))
    && (forall k :: k in s.returning ==> s.returning[k].1 in EntryOf(s, s.returning[k].0).published)
  }

  lemma PublishInv(e: Entry, next: nat)
    requires EntryInv(e, next)
    ensures EntryInv(e.(id := Wrapped(next), ready := true, published := e.published + [next],
                        overwrote := e.overwrote || e.ready), next + 1)
  {
    var q := e.(id := Wrapped(next), ready := true, published := e.published + [next],
                overwrote := e.overwrote || e.ready);
    forall k | 0 <= k < |e.published| ensures e.published[k] < next {
      assert e.published[k] in e.published;
    }
    assert forall n :: n in q.taken ==> n in e.published;
    assert forall n :: n in q.published ==> n < next + 1;
    assert Last(q.published) == next;
    if q.taken != [] {
      assert Last(q.taken) in q.taken;
    }
    assert forall n :: n in q.taken ==> n in q.published;
    assert q.taken <= e.published ==> q.taken <= q.published;
  }

  lemma ReceiveInv(e: Entry, next: nat)
    requires EntryInv(e, next) && e.ready
    ensures EntryInv(e.(ready := false, received := e.received + [e.id], taken := e.taken + [Last(e.published)]), next)
  {
    var last := Last(e.published);
    assert last in e.published;
    assert forall k :: 0 <= k < |e.taken| ==> e.taken[k] <= Last(e.taken);
    if !e.overwrote {
      assert e.published[|e.taken|] == last;
    }
  }

  lemma StepInv(s: State, l: Label)
    requires Inv(s) && Enabled(s, l)
    ensures Inv(Apply(s, l))
  {
    var t := Apply(s, l);
    forall g ensures EntryInv(EntryOf(t, g), t.next) {
      var e := EntryOf(s, g);
      assert EntryInv(e, s.next);
      if l.Publish? && l.group == g {
        PublishInv(e, s.next);
      } else if l.Receive? && l.group == g {
        ReceiveInv(e, s.next);
      }
    }
  }

  lemma {:induction false} RunInv(ss: seq<State>, ls: seq<Label>, i: nat)
    requires Run(ss, ls) && i < |ss|
    ensures Inv(ss[i])
  {
    if i > 0 {
      RunInv(ss, ls, i - 1);
      StepInv(ss[i - 1], ls[i - 1]);
    }
  }

  // ----- what receivers and senders get

  lemma WrappedDistinct(a: nat, b: nat)
    requires a < b
    ensures b < TWO31 ==> Wrapped(a) == a && Wrapped(b) == b
    ensures b - a < TWO32 ==> Wrapped(a) != Wrapped(b)
  {
  }

  /**
   In every interleaving, every received id was published here, each publication is received at most
   once and in publication order. The ids themselves increase as long as the 32-bit counter has not
   wrapped, and never repeat within 2^32 publications.
   */
  lemma ReceivedInOrder(ss: seq<State>, ls: seq<Label>, i: nat, g: nat, j: nat, k: nat)
    requires Run(ss, ls) && i < |ss| && j < k < |EntryOf(ss[i], g).received|
    ensures var e := EntryOf(ss[i], g);
            && |e.taken| == |e.received| && e.taken[j] in e.published && e.taken[k] in e.published
            && e.received[j] == Wrapped(e.taken[j]) && e.received[k] == Wrapped(e.taken[k])
            && e.taken[j] < e.taken[k]
            && (ss[i].next <= TWO31 ==> e.received[j] < e.received[k])
            && (ss[i].next <= TWO32 ==> e.received[j] != e.received[k])
  {
    RunInv(ss, ls, i);
    var e := EntryOf(ss[i], g);
    assert EntryInv(e, ss[i].next);
    assert e.taken[j] in e.taken && e.taken[k] in e.taken;
    WrappedDistinct(e.taken[j], e.taken[k]);
  }

  predicate PublishesOn(l: Label, g: nat) { l.Publish? && l.group == g }

  predicate NoReceive(ls: seq<Label>, from: nat, to: nat, g: nat)
    requires to <= |ls|
  {
    forall k :: from <= k < to ==> ls[k] != Receive(g)
  }

  /** After the first n steps some publication on the group has not been followed by a receive. */
  ghost predicate Pending(ls: seq<Label>, n: nat, g: nat)
    requires n <= |ls|
  {
    exists a :: 0 <= a < n && PublishesOn(ls[a], g) && NoReceive(ls, a + 1, n, g)
  }

  /** Among the first n steps two publications on the group have no receive between them. */
  ghost predicate Overrun(ls: seq<Label>, n: nat, g: nat)
    requires n <= |ls|
  {
    exists b :: 0 <= b < n && PublishesOn(ls[b], g) && Pending(ls, b, g)
  }

  lemma PendingStep(ls: seq<Label>, n: nat, g: nat)
    requires n < |ls|
    ensures Pending(ls, n + 1, g) <==> PublishesOn(ls[n], g) || (ls[n] != Receive(g) && Pending(ls, n, g))
    ensures Overrun(ls, n + 1, g) <==> Overrun(ls, n, g) || (PublishesOn(ls[n], g) && Pending(ls, n, g))
  {
    if ls[n] != Receive(g) && Pending(ls, n, g) {
      var a :| 0 <= a < n && PublishesOn(ls[a], g) && NoReceive(ls, a + 1, n, g);
      assert PublishesOn(ls[a], g) && NoReceive(ls, a + 1, n + 1, g);
    }
    if PublishesOn(ls[n], g) { assert NoReceive(ls, n + 1, n + 1, g); }
    if Pending(ls, n + 1, g) && !PublishesOn(ls[n], g) {
      var a :| 0 <= a < n + 1 && PublishesOn(ls[a], g) && NoReceive(ls, a + 1, n + 1, g);
      assert PublishesOn(ls[a], g) && NoReceive(ls, a + 1, n, g);
    }
  }

  lemma FlagsStep(s: State, l: Label, g: nat)
    requires Enabled(s, l)
    ensures var e, f := EntryOf(s, g), EntryOf(Apply(s, l), g);
            && (f.ready <==> PublishesOn(l, g) || (l != Receive(g) && e.ready))
            && (f.overwrote <==> e.overwrote || (PublishesOn(l, g) && e.ready))
  {
  }

  /** The entry is ready exactly while a publication is pending, and was overwritten exactly when one was overrun. */
  lemma {:induction false} FlagsFromSchedule(ss: seq<State>, ls: seq<Label>, i: nat, g: nat)
    requires Run(ss, ls) && i < |ss|
    ensures EntryOf(ss[i], g).ready <==> Pending(ls, i, g)
    ensures EntryOf(ss[i], g).overwrote <==> Overrun(ls, i, g)
  {
    if i > 0 {
      FlagsFromSchedule(ss, ls, i - 1, g);
      FlagsKept(ss, ls, i - 1, g);
    }
  }

  lemma FlagsKept(ss: seq<State>, ls: seq<Label>, i: nat, g: nat)
    requires Run(ss, ls) && i < |ls|
    requires EntryOf(ss[i], g).ready <==> Pending(ls, i, g)
    requires EntryOf(ss[i], g).overwrote <==> Overrun(ls, i, g)
    ensures EntryOf(ss[i + 1], g).ready <==> Pending(ls, i + 1, g)
    ensures EntryOf(ss[i + 1], g).overwrote <==> Overrun(ls, i + 1, g)
  {
    PendingStep(ls, i, g);
    FlagsStep(ss[i], ls[i], g);
  }

  /**
   In every interleaving, as long as a receive lies between any two publications on a group, the k-th receive
   gets the k-th publication; and from the first two publications without one on, receives fall behind for good.
   */
  lemma InStepIffAlternating(ss: seq<State>, ls: seq<Label>, i: nat, g: nat)
    requires Run(ss, ls) && i < |ss|
    ensures var e := EntryOf(ss[i], g);
            && (!Overrun(ls, i, g) <==> |e.published| == |e.received| + if e.ready then 1 else 0)
            && (!Overrun(ls, i, g) ==>
                  && |e.received| <= |e.published|
                  && forall k :: 0 <= k < |e.received| ==> e.received[k] == Wrapped(e.published[k]))
  {
    RunInv(ss, ls, i);
    FlagsFromSchedule(ss, ls, i, g);
    assert EntryInv(EntryOf(ss[i], g), ss[i].next);
  }

  /**
   In every interleaving, a sender returns the id of the latest publication on its entry; within 2^32
   publications that is its own id exactly when none followed.
   */
  lemma SenderReturnsLatest(ss: seq<State>, ls: seq<Label>, i: nat, sender: nat)
    requires Run(ss, ls) && i < |ss| && sender in ss[i].returning
    ensures var e := EntryOf(ss[i], ss[i].returning[sender].0);
            e.published != [] && ReturnValue(ss[i], sender) == Wrapped(Last(e.published))
            && (ss[i].next <= TWO32 ==>
                  (ReturnValue(ss[i], sender) == Wrapped(ss[i].returning[sender].1)
                   <==> Last(e.published) == ss[i].returning[sender].1))
  {
    RunInv(ss, ls, i);
    var e := EntryOf(ss[i], ss[i].returning[sender].0);
    assert EntryInv(e, ss[i].next);
    var own := ss[i].returning[sender].1;
    assert own in e.published && Last(e.published) in e.published;
    if own != Last(e.published) {
      WrappedDistinct(own, Last(e.published));
    }
  }

  /** Two senders on one group: the first, overtaken before it reads, returns the second one's id. */
  lemma OvertakenSender(ss: seq<State>, ls: seq<Label>, g: nat)
    requires Run(ss, ls) && ls == [Publish(0, g), Publish(1, g)]
    ensures 0 in ss[2].returning && ss[2].returning[0] == (g, 0) && ReturnValue(ss[2], 0) == 1
  {
    assert ss[1] == Apply(ss[0], ls[0]) && ss[2] == Apply(ss[1], ls[1]);
    assert Enabled(ss[0], ls[0]) && Enabled(ss[1], ls[1]);
  }
}
