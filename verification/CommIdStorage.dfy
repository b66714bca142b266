/**
 The per-process table of free communicator ids and the scan that picks an id
 which is free on every member of a new communicator
 (src/atl/atl_base_transport.hpp, src/atl/atl_base_comm.cpp).
 */
module CommIdStorage {
  import opened FiniteSets

  const MAX_COMM_ID: nat := 1024
  const INVALID_COMM_ID: int := -1

  /** A flag per id: 1 is free, 0 is taken. */
  type IdMap = seq<int>

  predicate ValidMap(m: IdMap) {
    |m| == MAX_COMM_ID && forall i :: 0 <= i < |m| ==> m[i] == 0 || m[i] == 1
  }

  predicate ValidId(id: int) { 0 <= id < MAX_COMM_ID }

  /** The map after writing `flag` at `id`; the invalid id writes nothing. */
  function Marked(m: IdMap, id: int, flag: int): IdMap {
    if 0 <= id < |m| then m[id := flag] else m
  }

  class AtlCommIdStorage {
    var freeCommIdMap: IdMap

    ghost predicate Valid()
      reads this
    {
      ValidMap(freeCommIdMap)
    }

    constructor ()
      ensures Valid()
      ensures forall i :: 0 <= i < MAX_COMM_ID ==> freeCommIdMap[i] == 1
    {
      freeCommIdMap := seq(MAX_COMM_ID, _ => 1);
    }

    method GetMap() returns (m: IdMap)
      ensures m == freeCommIdMap
    {
      m := freeCommIdMap;
    }

    /** `thrown` is the "unexpected comm_id" exception; the table is then unchanged. */
    method Acquire(value: int) returns (thrown: bool)
      requires Valid()
      modifies this
      ensures Valid()
      ensures thrown <==> value != INVALID_COMM_ID && !ValidId(value)
      ensures freeCommIdMap == Marked(old(freeCommIdMap), value, 0)
    {
      if value == INVALID_COMM_ID {
        return false;
      }
      if !(value >= 0 && value < MAX_COMM_ID) {
        return true;
      }
      freeCommIdMap := freeCommIdMap[value := 0];
      return false;
    }

    method Release(value: int) returns (thrown: bool)
      requires Valid()
      modifies this
      ensures Valid()
      ensures thrown <==> value != INVALID_COMM_ID && !ValidId(value)
      ensures freeCommIdMap == Marked(old(freeCommIdMap), value, 1)
    {
      if value == INVALID_COMM_ID {
        return false;
      }
      if !(value >= 0 && value < MAX_COMM_ID) {
        return true;
      }
      freeCommIdMap := freeCommIdMap[value := 1];
      return false;
    }
  }

  // ----- what the members agree on

  predicate FullMaps(maps: seq<IdMap>) {
    forall r :: 0 <= r < |maps| ==> |maps[r]| == MAX_COMM_ID
  }

  predicate HoldsInvalid(maps: seq<IdMap>) {
    exists r :: 0 <= r < |maps| && INVALID_COMM_ID in maps[r]
  }

  predicate FreeOnAll(maps: seq<IdMap>, id: nat) {
    forall r :: 0 <= r < |maps| ==> id < |maps[r]| && maps[r][id] == 1
  }

  /** The least id not below `from` that is free on every member, or the invalid id. */
  function LeastFrom(maps: seq<IdMap>, from: nat): int
    decreases MAX_COMM_ID - from
  {
    if from >= MAX_COMM_ID then INVALID_COMM_ID
    else if FreeOnAll(maps, from) then from
    else LeastFrom(maps, from + 1)
  }

  function CommonId(maps: seq<IdMap>): int
  {
    LeastFrom(maps, 0)
  }

  lemma {:induction false} LeastFromSpec(maps: seq<IdMap>, from: nat)
    requires from <= MAX_COMM_ID
    ensures var id := LeastFrom(maps, from);
            if id == INVALID_COMM_ID then forall j :: from <= j < MAX_COMM_ID ==> !FreeOnAll(maps, j)
            else from <= id < MAX_COMM_ID && FreeOnAll(maps, id) && forall j :: from <= j < id ==> !FreeOnAll(maps, j)
    decreases MAX_COMM_ID - from
  {
    if from < MAX_COMM_ID && !FreeOnAll(maps, from) {
      LeastFromSpec(maps, from + 1);
    }
  }

  /** The chosen id is the least one free on every member, and there is one exactly when some id is. */
  lemma CommonIdIsLeast(maps: seq<IdMap>)
    ensures CommonId(maps) == INVALID_COMM_ID || ValidId(CommonId(maps))
    ensures CommonId(maps) != INVALID_COMM_ID <==> exists id: nat :: id < MAX_COMM_ID && FreeOnAll(maps, id)
    ensures CommonId(maps) != INVALID_COMM_ID ==>
              FreeOnAll(maps, CommonId(maps)) && forall j :: 0 <= j < CommonId(maps) ==> !FreeOnAll(maps, j)
  {
    LeastFromSpec(maps, 0);
  }

  // ----- pigeonhole: few enough taken ids leave a common free one

  function Taken(m: IdMap): set<nat> {
    set i: nat | i < |m| && m[i] != 1
  }

  function TotalTaken(maps: seq<IdMap>): nat {
    if maps == [] then 0 else |Taken(maps[0])| + TotalTaken(maps[1..])
  }

  function AnyTaken(maps: seq<IdMap>): set<nat> {
    if maps == [] then {} else Taken(maps[0]) + AnyTaken(maps[1..])
  }

  lemma {:induction false} AnyTakenBound(maps: seq<IdMap>)
    ensures |AnyTaken(maps)| <= TotalTaken(maps)
  {
    if maps != [] {
      AnyTakenBound(maps[1..]);
      var a, b := Taken(maps[0]), AnyTaken(maps[1..]);
      assert |a + b| == |a| + |b| - |a * b|;
    }
  }

  lemma {:induction false} NotTakenIsFree(maps: seq<IdMap>, id: nat)
    requires FullMaps(maps)
    requires id < MAX_COMM_ID && id !in AnyTaken(maps)
    ensures FreeOnAll(maps, id)
  {
    if maps != [] {
      NotTakenIsFree(maps[1..], id);
      forall r | 0 <= r < |maps|
        ensures maps[r][id] == 1
      {
        if r > 0 { assert maps[r] == maps[1..][r - 1]; } else { assert id !in Taken(maps[0]); }
      }
    }
  }

  /** A creation cannot fail while the members' taken ids add up to fewer than 1024. */
  lemma EnoughFreeIds(maps: seq<IdMap>)
    requires FullMaps(maps)
    requires TotalTaken(maps) < MAX_COMM_ID
    ensures CommonId(maps) != INVALID_COMM_ID
  {
    AnyTakenBound(maps);
    if Below(MAX_COMM_ID) <= AnyTaken(maps) {
      SubsetSize(Below(MAX_COMM_ID), AnyTaken(maps));
    }
    var id :| id in Below(MAX_COMM_ID) && id !in AnyTaken(maps);
    NotTakenIsFree(maps, id);
    CommonIdIsLeast(maps);
  }

  // ----- the code

  /** What the allgatherv delivers to every member: map r at offset r * 1024. */
  function Gathered(maps: seq<IdMap>): (all: seq<int>)
    requires FullMaps(maps)
    ensures |all| == |maps| * MAX_COMM_ID
  {
    seq(|maps| * MAX_COMM_ID, k requires 0 <= k < |maps| * MAX_COMM_ID => maps[k / MAX_COMM_ID][k % MAX_COMM_ID])
  }

  lemma GatheredAt(maps: seq<IdMap>, r: nat, id: nat)
    requires FullMaps(maps) && r < |maps| && id < MAX_COMM_ID
    ensures r * MAX_COMM_ID + id < |Gathered(maps)| && Gathered(maps)[r * MAX_COMM_ID + id] == maps[r][id]
  {
    var k := r * MAX_COMM_ID + id;
    assert k / MAX_COMM_ID == r && k % MAX_COMM_ID == id;
  }

  /** The gathered block holds the invalid value exactly when some member's map does. */
  lemma GatheredInvalidIff(maps: seq<IdMap>)
    requires FullMaps(maps)
    ensures INVALID_COMM_ID in Gathered(maps) <==> HoldsInvalid(maps)
  {
    var all := Gathered(maps);
    if k :| 0 <= k < |all| && all[k] == INVALID_COMM_ID {
      assert maps[k / MAX_COMM_ID][k % MAX_COMM_ID] in maps[k / MAX_COMM_ID];
    }
    if r, id :| 0 <= r < |maps| && 0 <= id < |maps[r]| && maps[r][id] == INVALID_COMM_ID {
      GatheredAt(maps, r, id);
      assert all[r * MAX_COMM_ID + id] == INVALID_COMM_ID;
    }
  }

  /** The nested scan over the gathered maps. */
  method FindCommonFreeId(ghost maps: seq<IdMap>, allMaps: seq<int>, size: nat) returns (newCommId: int)
    requires |maps| == size && FullMaps(maps)
    requires allMaps == Gathered(maps)
    ensures newCommId == CommonId(maps)
  {
    newCommId := INVALID_COMM_ID;
    var freeCommId := 0;
    while freeCommId < MAX_COMM_ID
      invariant 0 <= freeCommId <= MAX_COMM_ID
      invariant newCommId == INVALID_COMM_ID
      invariant CommonId(maps) == LeastFrom(maps, freeCommId)
    {
      newCommId := freeCommId;
      var rankIdx := 0;
      while rankIdx < size
        invariant 0 <= rankIdx <= size
        invariant newCommId == freeCommId
        invariant forall r :: 0 <= r < rankIdx ==> maps[r][freeCommId] == 1
      {
        GatheredAt(maps, rankIdx, freeCommId);
        if allMaps[rankIdx * MAX_COMM_ID + freeCommId] != 1 {
          newCommId := INVALID_COMM_ID;
          break;
        }
        rankIdx := rankIdx + 1;
      }
      if newCommId != INVALID_COMM_ID {
        break;
      }
      freeCommId := freeCommId + 1;
    }
  }

  datatype CreateError = InvalidOwnMap | TransportFailed | InvalidGatheredMap | NoCommonId
  datatype CreateResult = Created(id: int) | Thrown(error: CreateError)

  /**
   One member's `create_comm_id`, run with the process lock held. `maps` is what the allgatherv leaves in
   this member's buffer, whatever that is; `transportOk` is the status it reports. The check of the own map
   never fires, because the table only ever holds 0 and 1.
   */
  method CreateCommId(storage: AtlCommIdStorage, maps: seq<IdMap>, transportOk: bool) returns (r: CreateResult)
    requires storage.Valid() && FullMaps(maps)
    modifies storage
    ensures storage.Valid()
    ensures r == if !transportOk then Thrown(TransportFailed)
                 else if HoldsInvalid(maps) then Thrown(InvalidGatheredMap)
                 else if CommonId(maps) == INVALID_COMM_ID then Thrown(NoCommonId)
                 else Created(CommonId(maps))
    ensures r.Created? ==> ValidId(r.id)
    ensures r.Created? && old(storage.freeCommIdMap) in maps ==> old(storage.freeCommIdMap)[r.id] == 1
    ensures storage.freeCommIdMap
            == if r.Created? then Marked(old(storage.freeCommIdMap), r.id, 0) else old(storage.freeCommIdMap)
  {
    var commIdMap := storage.GetMap();
    if INVALID_COMM_ID in commIdMap {
      return Thrown(InvalidOwnMap);
    }
    var allMaps := Gathered(maps);
    GatheredInvalidIff(maps);
    if !transportOk {
      return Thrown(TransportFailed);
    }
    if INVALID_COMM_ID in allMaps {
      return Thrown(InvalidGatheredMap);
    }
    var id := FindCommonFreeId(maps, allMaps, |maps|);
    CommonIdIsLeast(maps);
    if id == INVALID_COMM_ID {
      return Thrown(NoCommonId);
    }
    var thrown := storage.Acquire(id);
    return Created(id);
  }
}
