/**
 The pthread barrier as a primitive: the last of `count` arrivals opens it, and a thread that
 arrived can leave once the barrier has opened for its arrival.
 */
module ThreadBarrier {
  import opened FiniteSets

  datatype Barrier = Barrier(count: nat, waiting: set<nat>, openings: nat) {
    /** Thread `t` arrives; the last arrival empties the waiting set and opens the barrier once more. */
    function Arrive(t: nat): Barrier {
      if |waiting + {t}| == count then Barrier(count, {}, openings + 1)
      else Barrier(count, waiting + {t}, openings)
    }
  }

  /** How often each thread has arrived, read off where it stands. */
  function ArrivalsOf<T>(places: seq<T>, arrivals: T -> nat): seq<nat> {
    seq(|places|, t requires 0 <= t < |places| => arrivals(places[t]))
  }

  lemma ArrivalsMoved<T>(places: seq<T>, arrivals: T -> nat, t: nat, place: T)
    requires t < |places|
    ensures ArrivalsOf(places[t := place], arrivals) == ArrivalsOf(places, arrivals)[t := arrivals(place)]
    ensures arrivals(place) == arrivals(places[t]) ==>
              ArrivalsOf(places[t := place], arrivals) == ArrivalsOf(places, arrivals)
  {
    assert arrivals(place) == arrivals(places[t]) ==>
        ArrivalsOf(places, arrivals)[t := arrivals(place)] == ArrivalsOf(places, arrivals);
  }

  /**
   `arrivals[t]` is how often thread t has arrived so far. The waiting threads are exactly those
   one arrival ahead of the openings, and nobody is further ahead or behind.
   */
  ghost predicate InStep(b: Barrier, arrivals: seq<nat>) {
    && b.count == |arrivals|
    && (forall t: nat :: t in b.waiting <==> t < |arrivals| && arrivals[t] == b.openings + 1)
    && (forall t :: 0 <= t < |arrivals| ==> arrivals[t] == b.openings || arrivals[t] == b.openings + 1)
    && |b.waiting| < b.count
  }

  predicate Started(b: Barrier) { b.waiting == {} && b.openings == 0 }

  lemma StartInStep(b: Barrier, arrivals: seq<nat>)
    requires Started(b) && b.count == |arrivals| > 0
    requires forall t :: 0 <= t < |arrivals| ==> arrivals[t] == 0
    ensures InStep(b, arrivals)
  {
  }

  /** An arrival by a thread that is not waiting keeps everybody in step. */
  lemma ArriveInStep(b: Barrier, arrivals: seq<nat>, t: nat)
    requires InStep(b, arrivals) && t < |arrivals| && arrivals[t] == b.openings
    ensures InStep(b.Arrive(t), arrivals[t := arrivals[t] + 1])
    ensures b.openings <= b.Arrive(t).openings
  {
    var after := arrivals[t := arrivals[t] + 1];
    var all := Below(|arrivals|);
    assert b.waiting + {t} <= all;
    SubsetSize(b.waiting + {t}, all);
    if |b.waiting + {t}| == b.count {
      assert forall k :: 0 <= k < |arrivals| ==> k in all && after[k] == b.openings + 1;
    }
  }

  /** Once the barrier has opened n times, every thread has arrived n times. */
  lemma AllArrived(b: Barrier, arrivals: seq<nat>, n: nat)
    requires InStep(b, arrivals) && n <= b.openings
    ensures forall t :: 0 <= t < |arrivals| ==> n <= arrivals[t]
  {
  }
}
