/**
 Communicator creation, copying and destruction over any number of processes,
 as the interleaving of per-process steps. `create_comm_id` is two steps of each
 member, the snapshot that takes the process lock and the acquire that drops it;
 between them the transport gathers the snapshots of all members
 (src/atl/atl_base_comm.cpp, src/comm/comm.cpp).
 */
module CommIdProtocol {
  import opened CommIdStorage

  datatype Lock = Unlocked | HeldBy(creation: nat, rank: nat)

  /**
   One collective `create_comm_id`: `members[r]` is the process rank r runs in,
   `snaps` what the ranks contributed so far, `results` what the call gave each
   rank that has left it.
   */
  datatype Creation = Creation(members: seq<nat>, snaps: map<nat, IdMap>, results: map<nat, int>) {
    predicate AllContributed() {
      forall r :: 0 <= r < |members| ==> r in snaps
    }

    function Maps(): seq<IdMap>
      requires AllContributed()
    {
      seq(|members|, r requires 0 <= r < |members| => snaps[r])
    }
  }

  /**
   `returned` holds ids handed out by `create_comm_id` that no object stores yet,
   `handles` the comm_id of every live ATL communicator object, and `copies` the
   constructors that have made their copy (the key) of a base (the value) and have
   not yet reached the comparison that resets the base.
   */
  datatype Process = Process(
    idMap: IdMap,
    lock: Lock,
    returned: map<(nat, nat), int>,
    handles: map<nat, int>,
    copies: map<nat, nat>)

  datatype State = State(procs: seq<Process>, creations: map<nat, Creation>)

  /**
   The id a constructor is called with: one that `create_comm_id` returned and the caller gives up with
   this call, or any other number, read from wherever and whenever.
   */
  datatype Argument = Returned(key: (nat, nat)) | Explicit(id: int)

  datatype Label =
    | Begin(creation: nat, members: seq<nat>)
    | Snapshot(creation: nat, rank: nat)
    | Acquire(creation: nat, rank: nat)
    | Adopt(proc: nat, key: (nat, nat), handle: nat)
    | Copy(proc: nat, base: nat, arg: Argument, handle: nat)
    | CopyDone(proc: nat, handle: nat)
    | Destroy(proc: nat, handle: nat)

  predicate Member(s: State, g: nat, r: nat) {
    g in s.creations && r < |s.creations[g].members| && s.creations[g].members[r] < |s.procs|
  }

  function ProcOf(s: State, g: nat, r: nat): (p: nat)
    requires Member(s, g, r)
    ensures p < |s.procs|
  {
    s.creations[g].members[r]
  }

  predicate CanCopy(p: Process, base: nat, arg: Argument, handle: nat) {
    && base in p.handles && base !in p.copies && handle !in p.handles
    && (arg.Returned? ==> arg.key in p.returned)
  }

  /** When a step can be taken. Constructors do not take the process lock; the destructor does. */
  predicate Enabled(s: State, l: Label) {
    match l
    case Begin(g, members) =>
      g !in s.creations && forall r :: 0 <= r < |members| ==> members[r] < |s.procs|
    case Snapshot(g, r) =>
      Member(s, g, r) && r !in s.creations[g].snaps && s.procs[ProcOf(s, g, r)].lock == Unlocked
    case Acquire(g, r) =>
      Member(s, g, r) && s.creations[g].AllContributed() && s.procs[ProcOf(s, g, r)].lock == HeldBy(g, r)
    case Adopt(p, key, h) =>
      p < |s.procs| && key in s.procs[p].returned && h !in s.procs[p].handles
    case Copy(p, base, arg, h) =>
      p < |s.procs| && CanCopy(s.procs[p], base, arg, h)
    case CopyDone(p, h) =>
      p < |s.procs| && h in s.procs[p].copies && h in s.procs[p].handles && s.procs[p].copies[h] in s.procs[p].handles
    case Destroy(p, h) =>
      p < |s.procs| && h in s.procs[p].handles && s.procs[p].lock == Unlocked
      && h !in s.procs[p].copies && h !in s.procs[p].copies.Values
  }

  /** The acquire end of `create_comm_id` in process `p`: the lock is dropped on the throwing path too. */
  function AcquireIn(p: Process, key: (nat, nat), id: int): Process {
    if id == INVALID_COMM_ID then p.(lock := Unlocked)
    else p.(lock := Unlocked, idMap := Marked(p.idMap, id, 0), returned := p.returned[key := id])
  }

  /** `create_with_id`: a copy of the base object that carries the id of the argument. */
  function CopyIn(p: Process, base: nat, arg: Argument, h: nat): Process
    requires CanCopy(p, base, arg, h)
  {
    match arg
    case Returned(key) =>
      p.(handles := p.handles[h := p.returned[key]], returned := p.returned - {key}, copies := p.copies[h := base])
    case Explicit(id) =>
      p.(handles := p.handles[h := id], copies := p.copies[h := base])
  }

  function CopyDoneIn(p: Process, h: nat): Process
    requires h in p.copies && h in p.handles && p.copies[h] in p.handles
  {
    var base := p.copies[h];
    var handles := if p.handles[h] == p.handles[base] then p.handles[base := INVALID_COMM_ID] else p.handles;
    p.(handles := handles, copies := p.copies - {h})
  }

  function DestroyIn(p: Process, h: nat): Process
    requires h in p.handles
  {
    p.(idMap := Marked(p.idMap, p.handles[h], 1), handles := p.handles - {h})
  }

  function Apply(s: State, l: Label): State
    requires Enabled(s, l)
  {
    match l
    case Begin(g, members) =>
      s.(creations := s.creations[g := Creation(members, map[], map[])])
    case Snapshot(g, r) =>
      var p := ProcOf(s, g, r);
      var c := s.creations[g];
      State(s.procs[p := s.procs[p].(lock := HeldBy(g, r))],
            s.creations[g := c.(snaps := c.snaps[r := s.procs[p].idMap])])
    case Acquire(g, r) =>
      var p := ProcOf(s, g, r);
      var c := s.creations[g];
      var id := CommonId(c.Maps());
      State(s.procs[p := AcquireIn(s.procs[p], (g, r), id)],
            s.creations[g := c.(results := c.results[r := id])])
    case Adopt(p, key, h) =>
      var q := s.procs[p];
      s.(procs := s.procs[p := q.(handles := q.handles[h := q.returned[key]], returned := q.returned - {key})])
    case Copy(p, base, arg, h) =>
      s.(procs := s.procs[p := CopyIn(s.procs[p], base, arg, h)])
    case CopyDone(p, h) =>
      s.(procs := s.procs[p := CopyDoneIn(s.procs[p], h)])
    case Destroy(p, h) =>
      s.(procs := s.procs[p := DestroyIn(s.procs[p], h)])
  }

  // ----- ownership

  /** Some constructor in flight has copied the base's own id and will reset the base. */
  ghost predicate Doomed(p: Process, base: nat) {
    exists h :: h in p.copies && p.copies[h] == base && CopiedOwnId(p, h, base)
  }

  predicate CopiedOwnId(p: Process, h: nat, base: nat) {
    h in p.handles && base in p.handles && p.handles[h] == p.handles[base]
  }

  datatype Owner = Object(handle: nat) | Caller(key: (nat, nat))

  ghost predicate Owns(p: Process, o: Owner, id: nat) {
    match o
    case Object(h) => h in p.handles && p.handles[h] == id && !Doomed(p, h)
    case Caller(key) => key in p.returned && p.returned[key] == id
  }

  ghost predicate UniqueOwners(p: Process) {
    forall o1, o2, id :: Owns(p, o1, id) && Owns(p, o2, id) ==> o1 == o2
  }

  /** An id is marked taken exactly when somebody owns it: nothing leaks, nothing is lent out twice. */
  ghost predicate TakenIffOwned(p: Process) {
    forall id: nat :: id < MAX_COMM_ID && id < |p.idMap| ==> (p.idMap[id] == 0 <==> exists o :: Owns(p, o, id))
  }

  ghost predicate WellFormed(p: Process) {
    && ValidMap(p.idMap)
    && (forall h :: h in p.handles ==> p.handles[h] == INVALID_COMM_ID || ValidId(p.handles[h]))
    && (forall k :: k in p.returned ==> ValidId(p.returned[k]))
    && (forall h :: h in p.copies ==> h in p.handles && p.copies[h] in p.handles && p.copies[h] !in p.copies)
  }

  ghost predicate ProcInv(p: Process) {
    WellFormed(p) && UniqueOwners(p) && TakenIffOwned(p)
  }

  // ----- the lock and the creations

  ghost predicate CreationInv(s: State, g: nat)
    requires g in s.creations
  {
    var c := s.creations[g];
    && (forall r :: 0 <= r < |c.members| ==> c.members[r] < |s.procs|)
    && (forall r :: r in c.snaps ==> r < |c.members| && ValidMap(c.snaps[r]))
    && (forall r :: r in c.results ==> r in c.snaps && c.AllContributed() && c.results[r] == CommonId(c.Maps()))
    && (forall r :: r in c.snaps && r !in c.results ==> s.procs[c.members[r]].lock == HeldBy(g, r))
    && (forall r1, r2 :: r1 in c.snaps && r2 in c.snaps && r1 != r2 ==> c.members[r1] != c.members[r2])
  }

  /** Whoever holds a process's lock took its snapshot from the table as it still is. */
  ghost predicate LockInv(s: State, p: nat)
    requires p < |s.procs|
  {
    var q := s.procs[p];
    q.lock.HeldBy? ==>
      && Member(s, q.lock.creation, q.lock.rank)
      && ProcOf(s, q.lock.creation, q.lock.rank) == p
      && var c := s.creations[q.lock.creation];
         q.lock.rank in c.snaps && q.lock.rank !in c.results && c.snaps[q.lock.rank] == q.idMap
  }

  ghost predicate KeysInv(s: State, p: nat)
    requires p < |s.procs|
  {
    forall key :: key in s.procs[p].returned ==>
      && key.0 in s.creations && key.1 in s.creations[key.0].results
      && s.procs[p].returned[key] == s.creations[key.0].results[key.1]
  }

  ghost predicate Links(s: State) {
    && (forall p: nat :: p < |s.procs| ==> LockInv(s, p) && KeysInv(s, p))
    && (forall g :: g in s.creations ==> CreationInv(s, g))
  }

  ghost predicate Inv(s: State) {
    Links(s) && forall p: nat :: p < |s.procs| ==> ProcInv(s.procs[p])
  }

  ghost predicate Init(s: State) {
    && s.creations == map[]
    && forall p :: 0 <= p < |s.procs| ==>
         s.procs[p] == Process(seq(MAX_COMM_ID, _ => 1), Unlocked, map[], map[], map[])
  }

  /**
   What the argument has to be: the invalid id, a returned id the caller gives up, or the base's own id as it
   is now, with no other copy of it in flight.
   */
  ghost predicate HandedOver(p: Process, base: nat, arg: Argument)
    requires base in p.handles
  {
    arg.Explicit? ==> arg.id == INVALID_COMM_ID || (arg.id == p.handles[base] && !Doomed(p, base))
  }

  ghost predicate Disciplined(s: State, l: Label)
    requires Enabled(s, l)
  {
    l.Copy? ==> HandedOver(s.procs[l.proc], l.base, l.arg)
  }

  ghost predicate Run(ss: seq<State>, ls: seq<Label>) {
    && |ss| == |ls| + 1
    && Init(ss[0])
    && forall i :: 0 <= i < |ls| ==> Enabled(ss[i], ls[i]) && ss[i + 1] == Apply(ss[i], ls[i])
  }

  ghost predicate DisciplinedRun(ss: seq<State>, ls: seq<Label>) {
    Run(ss, ls) && forall i :: 0 <= i < |ls| ==> Disciplined(ss[i], ls[i])
  }

  // ----- every step keeps the invariant

  lemma InitInv(s: State)
    requires Init(s)
    ensures Inv(s)
  {
  }

  /** Ownership only moves: if owners of every id correspond one to one, the invariant carries over. */
  lemma OwnersMoved(p: Process, q: Process, from: Owner, to: Owner)
    requires ProcInv(p) && WellFormed(q) && q.idMap == p.idMap
    requires forall o, id :: Owns(q, o, id) ==> (if o == to then Owns(p, from, id) else o != from && Owns(p, o, id))
    requires forall o, id :: Owns(p, o, id) ==> Owns(q, if o == from then to else o, id)
    ensures ProcInv(q)
  {
    assert UniqueOwners(q);
    forall id: nat | id < MAX_COMM_ID
      ensures q.idMap[id] == 0 <==> exists o :: Owns(q, o, id)
    {
      if o :| Owns(p, o, id) {
        assert Owns(q, if o == from then to else o, id);
      }
    }
  }

  lemma AcquireInInv(p: Process, key: (nat, nat), id: int)
    requires ProcInv(p) && (id == INVALID_COMM_ID || (ValidId(id) && p.idMap[id] == 1)) && key !in p.returned
    ensures ProcInv(AcquireIn(p, key, id))
  {
    var q := AcquireIn(p, key, id);
    assert forall h :: Doomed(q, h) <==> Doomed(p, h);
    assert forall o, i :: o != Caller(key) ==> (Owns(q, o, i) <==> Owns(p, o, i));
    if id != INVALID_COMM_ID {
      assert !exists o :: Owns(p, o, id);
      assert Owns(q, Caller(key), id);
    }
  }

  lemma AdoptInv(p: Process, key: (nat, nat), h: nat)
    requires ProcInv(p) && key in p.returned && h !in p.handles
    ensures ProcInv(p.(handles := p.handles[h := p.returned[key]], returned := p.returned - {key}))
  {
    var q := p.(handles := p.handles[h := p.returned[key]], returned := p.returned - {key});
    assert forall x :: Doomed(q, x) <==> Doomed(p, x);
    assert forall id: nat :: id == p.returned[key] ==> Owns(p, Caller(key), id);
    OwnersMoved(p, q, Caller(key), Object(h));
  }

  /** An id stored in a live object always has an object that owns it. */
  lemma StoredIdIsOwned(p: Process, h: nat) returns (o: Owner)
    requires WellFormed(p) && h in p.handles && p.handles[h] != INVALID_COMM_ID
    ensures o.Object? && Owns(p, o, p.handles[h])
  {
    if Doomed(p, h) {
      var c :| c in p.copies && p.copies[c] == h && CopiedOwnId(p, c, h);
      assert !Doomed(p, c);
      o := Object(c);
    } else {
      o := Object(h);
    }
  }

  lemma CopyReturnedInv(p: Process, base: nat, key: (nat, nat), h: nat)
    requires ProcInv(p) && CanCopy(p, base, Returned(key), h)
    ensures ProcInv(CopyIn(p, base, Returned(key), h))
  {
    var q := CopyIn(p, base, Returned(key), h);
    var id := p.returned[key];
    assert Owns(p, Caller(key), id);
    if p.handles[base] == id {
      var o := StoredIdIsOwned(p, base);
    }
    assert forall x :: Doomed(p, x) ==> Doomed(q, x) by {
      forall x | Doomed(p, x) ensures Doomed(q, x) {
        var c :| c in p.copies && p.copies[c] == x && CopiedOwnId(p, c, x);
        assert c in q.copies && q.copies[c] == x && CopiedOwnId(q, c, x);
      }
    }
    assert forall x :: Doomed(q, x) ==> Doomed(p, x);
    OwnersMoved(p, q, Caller(key), Object(h));
  }

  /** After a copy with an explicit id only the base can newly be about to lose its id, if that is the id copied. */
  lemma CopyDoomed(p: Process, base: nat, id: int, h: nat)
    requires WellFormed(p) && CanCopy(p, base, Explicit(id), h)
    ensures var q := CopyIn(p, base, Explicit(id), h);
            && !Doomed(q, h) && (Doomed(q, base) <==> Doomed(p, base) || id == p.handles[base])
            && forall x :: x in p.handles && x != base ==> (Doomed(q, x) <==> Doomed(p, x))
  {
    var q := CopyIn(p, base, Explicit(id), h);
    assert h in q.copies && q.copies[h] == base;
    assert id == p.handles[base] ==> CopiedOwnId(q, h, base);
    forall x | x in p.handles && Doomed(p, x) ensures Doomed(q, x) {
      var c :| c in p.copies && p.copies[c] == x && CopiedOwnId(p, c, x);
      assert c in q.copies && q.copies[c] == x && CopiedOwnId(q, c, x);
    }
  }

  lemma CopyExplicitInv(p: Process, base: nat, id: int, h: nat)
    requires ProcInv(p) && CanCopy(p, base, Explicit(id), h) && HandedOver(p, base, Explicit(id))
    ensures ProcInv(CopyIn(p, base, Explicit(id), h))
  {
    if id == INVALID_COMM_ID {
      CopyInvalidInv(p, base, h);
    } else {
      CopyDoomed(p, base, id, h);
      OwnersMoved(p, CopyIn(p, base, Explicit(id), h), Object(base), Object(h));
    }
  }

  lemma CopyInvalidInv(p: Process, base: nat, h: nat)
    requires ProcInv(p) && CanCopy(p, base, Explicit(INVALID_COMM_ID), h)
    ensures ProcInv(CopyIn(p, base, Explicit(INVALID_COMM_ID), h))
  {
    CopyDoomed(p, base, INVALID_COMM_ID, h);
    OwnersMoved(p, CopyIn(p, base, Explicit(INVALID_COMM_ID), h), Object(h), Object(h));
  }

  /** Any other explicit id ends with two owners, with an owned id that is marked free, or outside the table. */
  lemma CopyExplicitBreaks(p: Process, base: nat, id: int, h: nat)
    requires ProcInv(p) && CanCopy(p, base, Explicit(id), h) && !HandedOver(p, base, Explicit(id))
    ensures !ProcInv(CopyIn(p, base, Explicit(id), h))
  {
    var q := CopyIn(p, base, Explicit(id), h);
    if WellFormed(q) {
      CopyDoomed(p, base, id, h);
      assert ValidId(q.handles[h]);
      assert Owns(q, Object(h), id);
      if id == p.handles[base] {
        var c :| c in p.copies && p.copies[c] == base && CopiedOwnId(p, c, base);
        assert Owns(q, Object(c), id);
      } else if o :| Owns(p, o, id) {
        assert Owns(q, o, id);
      } else {
        assert p.idMap[id] == 1;
      }
    }
  }

  /** A constructor keeps the ownership invariant if and only if its argument is handed over. */
  lemma CopyKeepsOwnershipIff(p: Process, base: nat, arg: Argument, h: nat)
    requires ProcInv(p) && CanCopy(p, base, arg, h)
    ensures ProcInv(CopyIn(p, base, arg, h)) <==> HandedOver(p, base, arg)
  {
    match arg
    case Returned(key) => CopyReturnedInv(p, base, key, h);
    case Explicit(id) =>
      if HandedOver(p, base, arg) { CopyExplicitInv(p, base, id, h); } else { CopyExplicitBreaks(p, base, id, h); }
  }

  lemma CopyDoneInv(p: Process, h: nat)
    requires ProcInv(p) && h in p.copies
    ensures ProcInv(CopyDoneIn(p, h))
  {
    var q := CopyDoneIn(p, h);
    var base := p.copies[h];
    forall x | x in p.handles && (x != base || p.handles[h] != p.handles[base])
      ensures Doomed(q, x) <==> Doomed(p, x)
    {
      if c :| c in p.copies && p.copies[c] == x && CopiedOwnId(p, c, x) {
        assert c in q.copies && q.copies[c] == x && CopiedOwnId(q, c, x);
      }
    }
    if p.handles[h] == p.handles[base] {
      assert Doomed(p, base);
    }
    OwnersMoved(p, q, Object(h), Object(h));
  }

  lemma DestroyInv(p: Process, h: nat)
    requires ProcInv(p) && h in p.handles && h !in p.copies && h !in p.copies.Values
    ensures ProcInv(DestroyIn(p, h))
  {
    var q := DestroyIn(p, h);
    assert forall x :: x != h ==> (Doomed(q, x) <==> Doomed(p, x));
    assert forall o, id :: o != Object(h) ==> (Owns(q, o, id) <==> Owns(p, o, id));
    assert !Doomed(p, h);
    if p.handles[h] != INVALID_COMM_ID {
      assert Owns(p, Object(h), p.handles[h]);
    }
  }

  /** The id a member is about to acquire is still free in its own process, and nobody owns it. */
  lemma AcquiredIdIsFree(s: State, g: nat, r: nat)
    requires Links(s) && Enabled(s, Acquire(g, r))
    requires CommonId(s.creations[g].Maps()) != INVALID_COMM_ID
    ensures var id, p := CommonId(s.creations[g].Maps()), s.procs[ProcOf(s, g, r)];
            && 0 <= id < |p.idMap| && ValidId(id) && p.idMap[id] == 1
            && (ProcInv(p) ==> forall o :: !Owns(p, o, id))
  {
    var maps := s.creations[g].Maps();
    CommonIdIsLeast(maps);
    assert maps[r] == s.creations[g].snaps[r];
    assert LockInv(s, ProcOf(s, g, r));
    var p := s.procs[ProcOf(s, g, r)];
    if ProcInv(p) { assert TakenIffOwned(p); }
  }

  /** A step that rewrites one process and leaves its lock, its locked table and the creations alone. */
  lemma LocalStepLinks(s: State, p: nat, q: Process)
    requires Links(s) && p < |s.procs|
    requires q.lock == s.procs[p].lock && (q.lock.HeldBy? ==> q.idMap == s.procs[p].idMap)
    requires forall key :: key in q.returned ==>
               key in s.procs[p].returned && q.returned[key] == s.procs[p].returned[key]
    ensures Links(s.(procs := s.procs[p := q]))
  {
    var t := s.(procs := s.procs[p := q]);
    forall g | g in t.creations ensures CreationInv(t, g) {
      assert CreationInv(s, g);
    }
    forall k: nat | k < |t.procs| ensures LockInv(t, k) && KeysInv(t, k) {
      assert LockInv(s, k) && KeysInv(s, k);
    }
  }

  lemma BeginLinks(s: State, g: nat, members: seq<nat>)
    requires Links(s) && Enabled(s, Begin(g, members))
    ensures Links(Apply(s, Begin(g, members)))
  {
    var t := Apply(s, Begin(g, members));
    forall x | x in t.creations ensures CreationInv(t, x) {
      if x != g { assert CreationInv(s, x); }
    }
    forall k: nat | k < |t.procs| ensures LockInv(t, k) && KeysInv(t, k) {
      assert LockInv(s, k) && KeysInv(s, k);
    }
  }

  /** A creation that a step does not touch keeps its part of the invariant. */
  lemma CreationFrame(s: State, t: State, g: nat, p: nat)
    requires g in s.creations && CreationInv(s, g)
    requires g in t.creations && t.creations[g] == s.creations[g]
    requires |t.procs| == |s.procs| && p < |s.procs|
    requires forall k :: 0 <= k < |s.procs| && k != p ==> t.procs[k] == s.procs[k]
    requires s.procs[p].lock.HeldBy? ==> s.procs[p].lock.creation != g
    ensures CreationInv(t, g)
  {
  }

  lemma SnapshotCreation(s: State, g: nat, r: nat)
    requires Links(s) && Enabled(s, Snapshot(g, r)) && ValidMap(s.procs[ProcOf(s, g, r)].idMap)
    ensures CreationInv(Apply(s, Snapshot(g, r)), g)
  {
    assert CreationInv(s, g);
    assert s.creations[g].results == map[] by {
      assert forall k :: k !in s.creations[g].results;
    }
  }

  lemma SnapshotProc(s: State, g: nat, r: nat, k: nat)
    requires Links(s) && Enabled(s, Snapshot(g, r)) && k < |s.procs|
    ensures LockInv(Apply(s, Snapshot(g, r)), k) && KeysInv(Apply(s, Snapshot(g, r)), k)
  {
    assert LockInv(s, k) && KeysInv(s, k);
    assert CreationInv(s, g);
  }

  lemma SnapshotLinks(s: State, g: nat, r: nat)
    requires Links(s) && Enabled(s, Snapshot(g, r)) && ValidMap(s.procs[ProcOf(s, g, r)].idMap)
    ensures Links(Apply(s, Snapshot(g, r)))
  {
    var t := Apply(s, Snapshot(g, r));
    SnapshotCreation(s, g, r);
    forall x | x in t.creations && x != g ensures CreationInv(t, x) {
      CreationFrame(s, t, x, ProcOf(s, g, r));
    }
    forall k: nat | k < |t.procs| ensures LockInv(t, k) && KeysInv(t, k) {
      SnapshotProc(s, g, r, k);
    }
  }

  lemma SameOwners(p: Process, q: Process)
    requires ProcInv(p) && q == p.(lock := q.lock)
    ensures ProcInv(q)
  {
    assert forall x :: Doomed(q, x) <==> Doomed(p, x);
    assert forall o, id :: Owns(q, o, id) <==> Owns(p, o, id);
  }

  lemma AcquireCreation(s: State, g: nat, r: nat)
    requires Links(s) && Enabled(s, Acquire(g, r))
    ensures CreationInv(Apply(s, Acquire(g, r)), g)
  {
    var t := Apply(s, Acquire(g, r));
    assert CreationInv(s, g);
    assert t.creations[g].Maps() == s.creations[g].Maps();
  }

  lemma AcquireLock(s: State, g: nat, r: nat, k: nat)
    requires Links(s) && Enabled(s, Acquire(g, r)) && k < |s.procs|
    ensures LockInv(Apply(s, Acquire(g, r)), k)
  {
    assert LockInv(s, k);
    assert LockInv(s, ProcOf(s, g, r));
  }

  lemma AcquireKeys(s: State, g: nat, r: nat, k: nat)
    requires Links(s) && Enabled(s, Acquire(g, r)) && k < |s.procs|
    ensures KeysInv(Apply(s, Acquire(g, r)), k)
  {
    var t := Apply(s, Acquire(g, r));
    assert LockInv(s, ProcOf(s, g, r)) && KeysInv(s, k);
    forall key | key in t.procs[k].returned
      ensures && key.0 in t.creations && key.1 in t.creations[key.0].results
              && t.procs[k].returned[key] == t.creations[key.0].results[key.1]
    {
      if key != (g, r) { assert key in s.procs[k].returned; }
    }
  }

  lemma AcquireLinks(s: State, g: nat, r: nat)
    requires Links(s) && Enabled(s, Acquire(g, r))
    ensures Links(Apply(s, Acquire(g, r)))
  {
    var t := Apply(s, Acquire(g, r));
    AcquireCreation(s, g, r);
    forall x | x in t.creations && x != g ensures CreationInv(t, x) {
      CreationFrame(s, t, x, ProcOf(s, g, r));
    }
    forall k: nat | k < |t.procs| ensures LockInv(t, k) && KeysInv(t, k) {
      AcquireLock(s, g, r, k);
      AcquireKeys(s, g, r, k);
    }
  }

  lemma AcquireInv(s: State, g: nat, r: nat)
    requires Inv(s) && Enabled(s, Acquire(g, r))
    ensures ProcInv(AcquireIn(s.procs[ProcOf(s, g, r)], (g, r), CommonId(s.creations[g].Maps())))
  {
    var p := ProcOf(s, g, r);
    var id := CommonId(s.creations[g].Maps());
    assert LockInv(s, p) && KeysInv(s, p);
    if id != INVALID_COMM_ID { AcquiredIdIsFree(s, g, r); }
    AcquireInInv(s.procs[p], (g, r), id);
  }

  lemma StepInv(s: State, l: Label)
    requires Inv(s) && Enabled(s, l) && Disciplined(s, l)
    ensures Inv(Apply(s, l))
  {
    match l
    case Begin(g, members) => BeginLinks(s, g, members);
    case Snapshot(g, r) =>
      SnapshotLinks(s, g, r);
      SameOwners(s.procs[ProcOf(s, g, r)], Apply(s, l).procs[ProcOf(s, g, r)]);
    case Acquire(g, r) =>
      AcquireLinks(s, g, r);
      AcquireInv(s, g, r);
    case Adopt(p, key, h) =>
      AdoptInv(s.procs[p], key, h);
      LocalStepLinks(s, p, Apply(s, l).procs[p]);
    case Copy(p, base, arg, h) =>
      CopyKeepsOwnershipIff(s.procs[p], base, arg, h);
      LocalStepLinks(s, p, Apply(s, l).procs[p]);
    case CopyDone(p, h) =>
      CopyDoneInv(s.procs[p], h);
      LocalStepLinks(s, p, Apply(s, l).procs[p]);
    case Destroy(p, h) =>
      DestroyInv(s.procs[p], h);
      LocalStepLinks(s, p, Apply(s, l).procs[p]);
  }

  /** A step keeps the invariant if and only if it is disciplined: no weaker condition on single steps will do. */
  lemma StepInvIff(s: State, l: Label)
    requires Inv(s) && Enabled(s, l)
    ensures Inv(Apply(s, l)) <==> Disciplined(s, l)
  {
    if Disciplined(s, l) {
      StepInv(s, l);
    } else {
      CopyKeepsOwnershipIff(s.procs[l.proc], l.base, l.arg, l.handle);
      assert !ProcInv(Apply(s, l).procs[l.proc]);
    }
  }

  /** Every state of every disciplined run satisfies the invariant. */
  lemma {:induction false} RunInv(ss: seq<State>, ls: seq<Label>, i: nat)
    requires DisciplinedRun(ss, ls) && i < |ss|
    ensures Inv(ss[i])
  {
    if i == 0 {
      InitInv(ss[0]);
    } else {
      RunInv(ss, ls, i - 1);
      StepInv(ss[i - 1], ls[i - 1]);
    }
  }

  // ----- what holds in every run, disciplined or not

  /** The lock, the snapshots and the results are consistent, and the tables hold flags. */
  ghost predicate Linked(s: State) {
    Links(s) && forall p :: 0 <= p < |s.procs| ==> ValidMap(s.procs[p].idMap)
  }

  lemma StepLinked(s: State, l: Label)
    requires Linked(s) && Enabled(s, l)
    ensures Linked(Apply(s, l))
  {
    match l
    case Begin(g, members) => BeginLinks(s, g, members);
    case Snapshot(g, r) => SnapshotLinks(s, g, r);
    case Acquire(g, r) => AcquireLinks(s, g, r);
    case Adopt(p, _, _) => LocalStepLinks(s, p, Apply(s, l).procs[p]);
    case Copy(p, _, _, _) => LocalStepLinks(s, p, Apply(s, l).procs[p]);
    case CopyDone(p, _) => LocalStepLinks(s, p, Apply(s, l).procs[p]);
    case Destroy(p, _) => LocalStepLinks(s, p, Apply(s, l).procs[p]);
  }

  lemma {:induction false} RunLinked(ss: seq<State>, ls: seq<Label>, i: nat)
    requires Run(ss, ls) && i < |ss|
    ensures Linked(ss[i])
  {
    if i > 0 {
      RunLinked(ss, ls, i - 1);
      StepLinked(ss[i - 1], ls[i - 1]);
    }
  }

  /** In every run, the id a member acquires is free in its own table at that moment. */
  lemma EveryAcquiredIdIsFree(ss: seq<State>, ls: seq<Label>, i: nat, g: nat, r: nat)
    requires Run(ss, ls) && i < |ls| && ls[i] == Acquire(g, r)
    ensures Enabled(ss[i], Acquire(g, r))
    ensures var id, p := CommonId(ss[i].creations[g].Maps()), ss[i].procs[ProcOf(ss[i], g, r)];
            id != INVALID_COMM_ID ==> 0 <= id < |p.idMap| && p.idMap[id] == 1
  {
    RunLinked(ss, ls, i);
    if CommonId(ss[i].creations[g].Maps()) != INVALID_COMM_ID { AcquiredIdIsFree(ss[i], g, r); }
  }

  // ----- where the ids go, in every run

  /** What one `create_comm_id` hands out: the common id, marked and returned; or, without one, nothing but the lock. */
  lemma AcquireHandsOut(ss: seq<State>, ls: seq<Label>, i: nat, g: nat, r: nat)
    requires Run(ss, ls) && i < |ls| && ls[i] == Acquire(g, r)
    ensures Member(ss[i], g, r) && g in ss[i + 1].creations && |ss[i + 1].procs| == |ss[i].procs|
    ensures var c, p, q := ss[i].creations[g], ss[i].procs[ProcOf(ss[i], g, r)], ss[i + 1].procs[ProcOf(ss[i], g, r)];
            && c.AllContributed() && ss[i + 1].creations[g].results == c.results[r := CommonId(c.Maps())]
            && q.lock == Unlocked && q.handles == p.handles && q.copies == p.copies && |q.idMap| == |p.idMap|
            && var id := CommonId(c.Maps());
               if id == INVALID_COMM_ID then q.returned == p.returned && q.idMap == p.idMap
               else
                 && q.returned == p.returned[(g, r) := id] && 0 <= id < |q.idMap| && q.idMap[id] == 0
                 && forall x :: 0 <= x < |q.idMap| && x != id ==> q.idMap[x] == p.idMap[x]
  {
    RunLinked(ss, ls, i);
    if CommonId(ss[i].creations[g].Maps()) != INVALID_COMM_ID { AcquiredIdIsFree(ss[i], g, r); }
  }

  /** The step makes handle h of process p from the id that rank key.1 of creation key.0 was given. */
  predicate MakesFrom(l: Label, p: nat, key: (nat, nat), h: nat) {
    || l == Adopt(p, key, h)
    || (l.Copy? && l.proc == p && l.arg == Returned(key) && l.handle == h)
  }

  /** No handle other than h differs between the two. */
  ghost predicate OthersKept(before: map<nat, int>, after: map<nat, int>, h: nat) {
    forall x :: x != h ==> (x in after <==> x in before) && (x in before ==> after[x] == before[x])
  }

  /** A handle made from a returned id carries exactly the id of its creation, and the caller has given it up. */
  lemma HandleCarriesTheResult(ss: seq<State>, ls: seq<Label>, i: nat, p: nat, key: (nat, nat), h: nat)
    requires Run(ss, ls) && i < |ls| && MakesFrom(ls[i], p, key, h)
    ensures p < |ss[i].procs| == |ss[i + 1].procs|
    ensures key.0 in ss[i].creations && key.1 in ss[i].creations[key.0].results
    ensures var q, after := ss[i].procs[p], ss[i + 1].procs[p];
            && h in after.handles && after.handles[h] == ss[i].creations[key.0].results[key.1]
            && OthersKept(q.handles, after.handles, h)
            && key in q.returned && after.returned == q.returned - {key}
            && after.idMap == q.idMap
  {
    RunLinked(ss, ls, i);
    assert KeysInv(ss[i], p);
  }

  /** A copy made with an explicit id carries that id, and nothing else changes hands. */
  lemma CopyCarriesTheArgument(ss: seq<State>, ls: seq<Label>, i: nat, p: nat, base: nat, id: int, h: nat)
    requires Run(ss, ls) && i < |ls| && ls[i] == Copy(p, base, Explicit(id), h)
    ensures p < |ss[i].procs| == |ss[i + 1].procs|
    ensures var q, after := ss[i].procs[p], ss[i + 1].procs[p];
            && h in after.handles && after.handles[h] == id && OthersKept(q.handles, after.handles, h)
            && after.returned == q.returned && after.idMap == q.idMap
  {
  }

  /**
   What can happen to the id of a handle: it stays, or the handle is destroyed and its id free again, or the
   handle is the base of a finished copy that carries the same id, and has lost it to that copy.
   */
  lemma HandleKeepsItsId(ss: seq<State>, ls: seq<Label>, i: nat, p: nat, h: nat)
    requires Run(ss, ls) && i < |ls| && p < |ss[i].procs| && h in ss[i].procs[p].handles
    ensures |ss[i + 1].procs| == |ss[i].procs|
    ensures var q, after := ss[i].procs[p], ss[i + 1].procs[p];
            || (h in after.handles && after.handles[h] == q.handles[h])
            || (&& ls[i] == Destroy(p, h) && h !in after.handles && |after.idMap| == MAX_COMM_ID
                && (ValidId(q.handles[h]) ==> after.idMap[q.handles[h]] == 1))
            || exists c :: && ls[i] == CopyDone(p, c) && c in q.copies && q.copies[c] == h && c in q.handles
                           && q.handles[c] == q.handles[h] && h in after.handles
                           && after.handles[h] == INVALID_COMM_ID
                           && (c != h ==> c in after.handles && after.handles[c] == q.handles[h])
  {
    RunLinked(ss, ls, i);
  }

  /** A destroyed handle is gone, its id is free again, and no other handle or flag changes. */
  lemma DestroyReleases(ss: seq<State>, ls: seq<Label>, i: nat, p: nat, h: nat)
    requires Run(ss, ls) && i < |ls| && ls[i] == Destroy(p, h)
    ensures p < |ss[i].procs| == |ss[i + 1].procs| && h in ss[i].procs[p].handles
    ensures var q, after := ss[i].procs[p], ss[i + 1].procs[p];
            && h !in after.handles && OthersKept(q.handles, after.handles, h) && after.returned == q.returned
            && |after.idMap| == |q.idMap| == MAX_COMM_ID
            && forall id :: 0 <= id < MAX_COMM_ID ==> after.idMap[id] == if id == q.handles[h] then 1 else q.idMap[id]
  {
    RunLinked(ss, ls, i);
  }

  /** A constructor ends by taking the id from the base exactly when the base still holds the same one. */
  lemma CopyDoneSettles(ss: seq<State>, ls: seq<Label>, i: nat, p: nat, c: nat)
    requires Run(ss, ls) && i < |ls| && ls[i] == CopyDone(p, c)
    ensures p < |ss[i].procs| == |ss[i + 1].procs| && c in ss[i].procs[p].copies && c in ss[i].procs[p].handles
    ensures var q, after := ss[i].procs[p], ss[i + 1].procs[p];
            var base := q.copies[c];
            && base in q.handles && base in after.handles && OthersKept(q.handles, after.handles, base)
            && after.handles[base] == (if q.handles[c] == q.handles[base] then INVALID_COMM_ID else q.handles[base])
            && after.copies == q.copies - {c} && after.idMap == q.idMap && after.returned == q.returned
  {
  }

  /** A snapshot contributes the table as it is and takes the lock. */
  lemma SnapshotContributes(ss: seq<State>, ls: seq<Label>, i: nat, g: nat, r: nat)
    requires Run(ss, ls) && i < |ls| && ls[i] == Snapshot(g, r)
    ensures Member(ss[i], g, r) && Member(ss[i + 1], g, r) && ProcOf(ss[i + 1], g, r) == ProcOf(ss[i], g, r)
    ensures var p := ProcOf(ss[i], g, r);
            && ss[i].procs[p].lock == Unlocked && ss[i + 1].procs[p].lock == HeldBy(g, r)
            && r in ss[i + 1].creations[g].snaps && ss[i + 1].creations[g].snaps[r] == ss[i].procs[p].idMap
            && ss[i + 1].procs[p].idMap == ss[i].procs[p].idMap
  {
  }

  lemma {:induction false} ResultsStay(ss: seq<State>, ls: seq<Label>, i: nat, j: nat, g: nat, r: nat)
    requires Run(ss, ls) && i <= j < |ss| && g in ss[i].creations && r in ss[i].creations[g].results
    ensures g in ss[j].creations && r in ss[j].creations[g].results
    ensures ss[j].creations[g].results[r] == ss[i].creations[g].results[r]
  {
    if i < j {
      ResultsStay(ss, ls, i, j - 1, g, r);
      RunLinked(ss, ls, j - 1);
      StepKeepsResults(ss[j - 1], ls[j - 1], g, r);
    }
  }

  lemma StepKeepsResults(s: State, l: Label, g: nat, r: nat)
    requires Linked(s) && Enabled(s, l) && g in s.creations && r in s.creations[g].results
    ensures var t := Apply(s, l);
            g in t.creations && r in t.creations[g].results && t.creations[g].results[r] == s.creations[g].results[r]
  {
    assert CreationInv(s, g);
  }

  /** In every run, the handles that members make from one creation, whenever and wherever, carry one id. */
  lemma MembersHandlesAgree(
    ss: seq<State>, ls: seq<Label>, i: nat, j: nat, g: nat, r1: nat, r2: nat, p1: nat, p2: nat, h1: nat, h2: nat)
    requires Run(ss, ls) && i <= j < |ls|
    requires MakesFrom(ls[i], p1, (g, r1), h1) && MakesFrom(ls[j], p2, (g, r2), h2)
    ensures p1 < |ss[i + 1].procs| && h1 in ss[i + 1].procs[p1].handles
    ensures p2 < |ss[j + 1].procs| && h2 in ss[j + 1].procs[p2].handles
    ensures ss[i + 1].procs[p1].handles[h1] == ss[j + 1].procs[p2].handles[h2]
    ensures g in ss[j].creations && ss[j].creations[g].AllContributed()
    ensures ss[j + 1].procs[p2].handles[h2] == CommonId(ss[j].creations[g].Maps())
  {
    HandleCarriesTheResult(ss, ls, i, p1, (g, r1), h1);
    HandleCarriesTheResult(ss, ls, j, p2, (g, r2), h2);
    ResultsStay(ss, ls, i, j, g, r1);
    RunLinked(ss, ls, j);
    assert CreationInv(ss[j], g);
  }

  // ----- what the invariant is for

  /** A finished object: no constructor on it is still running. */
  predicate Live(p: Process, h: nat) {
    h in p.handles && h !in p.copies && h !in p.copies.Values && p.handles[h] != INVALID_COMM_ID
  }

  /** In every run, two live communicator objects of one process carry different ids, all below 1024. */
  lemma LiveIdsDiffer(ss: seq<State>, ls: seq<Label>, i: nat, p: nat, h1: nat, h2: nat)
    requires DisciplinedRun(ss, ls) && i < |ss| && p < |ss[i].procs|
    requires Live(ss[i].procs[p], h1) && Live(ss[i].procs[p], h2) && h1 != h2
    ensures ValidId(ss[i].procs[p].handles[h1]) && ValidId(ss[i].procs[p].handles[h2])
    ensures ss[i].procs[p].handles[h1] != ss[i].procs[p].handles[h2]
  {
    RunInv(ss, ls, i);
    var q := ss[i].procs[p];
    assert !Doomed(q, h1) && !Doomed(q, h2);
    if q.handles[h1] == q.handles[h2] {
      assert Owns(q, Object(h1), q.handles[h1]) && Owns(q, Object(h2), q.handles[h1]);
    }
  }

  /**
   In every run, once no constructor or creation call is in flight in a process, the ids
   marked taken there are exactly the ids stored in its live objects, one object each.
   */
  lemma NoLeakNoDoubleRelease(ss: seq<State>, ls: seq<Label>, i: nat, p: nat, id: nat)
    requires DisciplinedRun(ss, ls) && i < |ss| && p < |ss[i].procs| && id < MAX_COMM_ID
    requires ss[i].procs[p].copies == map[] && ss[i].procs[p].returned == map[]
    ensures |ss[i].procs[p].idMap| == MAX_COMM_ID
    ensures var q := ss[i].procs[p];
            q.idMap[id] == 0 <==> exists h :: h in q.handles && q.handles[h] == id
    ensures var q := ss[i].procs[p];
            forall h1, h2 :: h1 in q.handles && h2 in q.handles && q.handles[h1] == q.handles[h2] == id ==> h1 == h2
  {
    RunInv(ss, ls, i);
    var q := ss[i].procs[p];
    assert ProcInv(q);
    assert forall h :: !Doomed(q, h);
    assert forall h :: h in q.handles && q.handles[h] == id ==> Owns(q, Object(h), id);
    if o :| Owns(q, o, id) {
      assert o.Object? && o.handle in q.handles;
    }
  }

  /** In every run, all ranks that left one creation got the same id: the least id free in every contributed map. */
  lemma MembersAgree(ss: seq<State>, ls: seq<Label>, i: nat, g: nat, r1: nat, r2: nat)
    requires Run(ss, ls) && i < |ss| && g in ss[i].creations
    requires r1 in ss[i].creations[g].results && r2 in ss[i].creations[g].results
    ensures var c := ss[i].creations[g];
            c.results[r1] == c.results[r2] && c.AllContributed() && c.results[r1] == CommonId(c.Maps())
  {
    RunLinked(ss, ls, i);
    assert CreationInv(ss[i], g);
  }

  /** A creation with two ranks in one process never completes: no rank of it ever gets a result. */
  lemma SharedProcessNeverCompletes(ss: seq<State>, ls: seq<Label>, i: nat, g: nat, r1: nat, r2: nat)
    requires Run(ss, ls) && i < |ss| && g in ss[i].creations
    requires r1 < |ss[i].creations[g].members| && r2 < |ss[i].creations[g].members| && r1 != r2
    requires ss[i].creations[g].members[r1] == ss[i].creations[g].members[r2]
    ensures !ss[i].creations[g].AllContributed() && ss[i].creations[g].results == map[]
  {
    RunLinked(ss, ls, i);
    assert CreationInv(ss[i], g);
    var c := ss[i].creations[g];
    assert c.AllContributed() ==> r1 in c.snaps && r2 in c.snaps;
    assert forall r :: r !in c.results;
  }

  // ----- undisciplined runs from the start

  /** A run with one more step. */
  lemma Extended(ss: seq<State>, ls: seq<Label>, l: Label, t: State) returns (tt: seq<State>)
    requires Run(ss, ls) && Enabled(ss[|ls|], l) && t == Apply(ss[|ls|], l)
    ensures Run(tt, ls + [l]) && tt[|ls| + 1] == t && tt[..|ss|] == ss
  {
    tt := ss + [t];
    var ms := ls + [l];
    forall i | 0 <= i < |ms| ensures Enabled(tt[i], ms[i]) && tt[i + 1] == Apply(tt[i], ms[i]) {
      if i < |ls| { assert ms[i] == ls[i] && tt[i] == ss[i] && tt[i + 1] == ss[i + 1]; }
    }
  }

  function AllFree(): IdMap { seq(MAX_COMM_ID, _ => 1) }

  function ZeroTaken(): IdMap { AllFree()[0 := 0] }

  /** Process 0 creates a communicator of its own and stores the id in object 0; nothing else happens. */
  const CREATE_BASE := [Begin(0, [0]), Snapshot(0, 0), Acquire(0, 0), Adopt(0, (0, 0), 0)]

  /** One process with id 0 taken, its objects and the constructors in flight. */
  function WithObjects(handles: map<nat, int>, copies: map<nat, nat>): State {
    State([Process(ZeroTaken(), Unlocked, map[], handles, copies)],
          map[0 := Creation([0], map[0 := AllFree()], map[0 := 0])])
  }

  lemma BaseSteps() returns (s1: State, s2: State, s3: State)
    ensures var s0 := State([Process(AllFree(), Unlocked, map[], map[], map[])], map[]);
            && Init(s0) && Enabled(s0, Begin(0, [0])) && s1 == Apply(s0, Begin(0, [0]))
            && Enabled(s1, Snapshot(0, 0)) && s2 == Apply(s1, Snapshot(0, 0))
            && Enabled(s2, Acquire(0, 0)) && s3 == Apply(s2, Acquire(0, 0))
            && s3 == State([Process(ZeroTaken(), Unlocked, map[(0, 0) := 0], map[], map[])],
                           map[0 := Creation([0], map[0 := AllFree()], map[0 := 0])])
  {
    var s0 := State([Process(AllFree(), Unlocked, map[], map[], map[])], map[]);
    s1 := Apply(s0, Begin(0, [0]));
    s2 := Apply(s1, Snapshot(0, 0));
    var c := s2.creations[0];
    assert c == Creation([0], map[0 := AllFree()], map[]);
    assert c.Maps() == [AllFree()] && FreeOnAll([AllFree()], 0);
    s3 := Apply(s2, Acquire(0, 0));
  }

  lemma BaseRun() returns (ss: seq<State>)
    ensures Run(ss, CREATE_BASE) && ss[4] == WithObjects(map[0 := 0], map[])
  {
    var s1, s2, s3 := BaseSteps();
    ss := [State([Process(AllFree(), Unlocked, map[], map[], map[])], map[])];
    ss := Extended(ss, [], Begin(0, [0]), s1);
    ss := Extended(ss, [] + [Begin(0, [0])], Snapshot(0, 0), s2);
    ss := Extended(ss, [] + [Begin(0, [0])] + [Snapshot(0, 0)], Acquire(0, 0), s3);
    AdoptStep(s3);
    ss := Extended(ss, [] + [Begin(0, [0])] + [Snapshot(0, 0)] + [Acquire(0, 0)], Adopt(0, (0, 0), 0),
                   WithObjects(map[0 := 0], map[]));
    assert [] + [Begin(0, [0])] + [Snapshot(0, 0)] + [Acquire(0, 0)] + [Adopt(0, (0, 0), 0)] == CREATE_BASE;
  }

  lemma AdoptStep(s3: State)
    requires s3 == State([Process(ZeroTaken(), Unlocked, map[(0, 0) := 0], map[], map[])],
                         map[0 := Creation([0], map[0 := AllFree()], map[0 := 0])])
    ensures Enabled(s3, Adopt(0, (0, 0), 0)) && Apply(s3, Adopt(0, (0, 0), 0)) == WithObjects(map[0 := 0], map[])
  {
    assert s3.procs[0].returned - {(0, 0)} == map[];
  }

  lemma CopyStep(handles: map<nat, int>, copies: map<nat, nat>, h: nat)
    requires 0 in handles && 0 !in copies && h !in handles
    ensures var s, l := WithObjects(handles, copies), Copy(0, 0, Explicit(0), h);
            Enabled(s, l) && Apply(s, l) == WithObjects(handles[h := 0], copies[h := 0])
  {
  }

  lemma CopyDoneStep(handles: map<nat, int>, copies: map<nat, nat>, h: nat)
    requires 0 in handles && h in handles && h in copies && copies[h] == 0
    ensures var s, l := WithObjects(handles, copies), CopyDone(0, h);
            && Enabled(s, l)
            && Apply(s, l) == WithObjects(if handles[h] == handles[0] then handles[0 := INVALID_COMM_ID] else handles,
                                          copies - {h})
  {
  }

  /** Two handles of one process that are live and hold one id. */
  predicate Shared(s: State) {
    && |s.procs| == 1 && Live(s.procs[0], 1) && Live(s.procs[0], 2)
    && s.procs[0].handles[1] == s.procs[0].handles[2] == 0
  }

  const OVERLAPPING := [Copy(0, 0, Explicit(0), 1), Copy(0, 0, Explicit(0), 2), CopyDone(0, 1), CopyDone(0, 2)]
  const STALE := [Copy(0, 0, Explicit(0), 1), CopyDone(0, 1), Copy(0, 0, Explicit(0), 2), CopyDone(0, 2)]

  lemma FirstCopy() returns (ss: seq<State>)
    ensures Run(ss, CREATE_BASE + [Copy(0, 0, Explicit(0), 1)])
    ensures ss[5] == WithObjects(map[0 := 0, 1 := 0], map[1 := 0])
  {
    ss := BaseRun();
    CopyStep(map[0 := 0], map[], 1);
    assert map[0 := 0][1 := 0] == map[0 := 0, 1 := 0];
    ss := Extended(ss, CREATE_BASE, Copy(0, 0, Explicit(0), 1), WithObjects(map[0 := 0, 1 := 0], map[1 := 0]));
  }

  /** The second constructor ends with a base that has lost its id. */
  lemma SecondCopyDone(ss: seq<State>, ls: seq<Label>) returns (tt: seq<State>)
    requires Run(ss, ls)
    requires ss[|ls|] == WithObjects(map[0 := INVALID_COMM_ID, 1 := 0, 2 := 0], map[2 := 0])
    ensures Run(tt, ls + [CopyDone(0, 2)]) && Shared(tt[|ls| + 1]) && tt[..|ss|] == ss
  {
    var handles := map[0 := INVALID_COMM_ID, 1 := 0, 2 := 0];
    CopyDoneStep(handles, map[2 := 0], 2);
    assert map[2 := 0] - {2} == map[];
    tt := Extended(ss, ls, CopyDone(0, 2), WithObjects(handles, map[]));
  }

  /** Two constructors that overlap, both with the base's own id: the second no longer sees it in the base. */
  lemma OverlappingCopiesShareAnId() returns (ss: seq<State>)
    ensures Run(ss, CREATE_BASE + OVERLAPPING) && Shared(ss[8])
  {
    ss := FirstCopy();
    var ls := CREATE_BASE + [Copy(0, 0, Explicit(0), 1)];
    var handles := map[0 := 0, 1 := 0, 2 := 0];
    CopyStep(map[0 := 0, 1 := 0], map[1 := 0], 2);
    assert map[0 := 0, 1 := 0][2 := 0] == handles && map[1 := 0][2 := 0] == map[1 := 0, 2 := 0];
    ss := Extended(ss, ls, Copy(0, 0, Explicit(0), 2), WithObjects(handles, map[1 := 0, 2 := 0]));
    ls := ls + [Copy(0, 0, Explicit(0), 2)];
    CopyDoneStep(handles, map[1 := 0, 2 := 0], 1);
    assert handles[0 := INVALID_COMM_ID] == map[0 := INVALID_COMM_ID, 1 := 0, 2 := 0];
    assert map[1 := 0, 2 := 0] - {1} == map[2 := 0];
    ss := Extended(ss, ls, CopyDone(0, 1), WithObjects(handles[0 := INVALID_COMM_ID], map[2 := 0]));
    ls := ls + [CopyDone(0, 1)];
    ss := SecondCopyDone(ss, ls);
    assert ls + [CopyDone(0, 2)] == CREATE_BASE + OVERLAPPING;
  }

  /** Two constructors one after the other, the second with the id the base had before the first. */
  lemma StaleIdSharesAnId() returns (ss: seq<State>)
    ensures Run(ss, CREATE_BASE + STALE) && Shared(ss[8])
    ensures ss[6] == WithObjects(map[0 := INVALID_COMM_ID, 1 := 0], map[])
  {
    ss := FirstCopy();
    var ls := CREATE_BASE + [Copy(0, 0, Explicit(0), 1)];
    var handles := map[0 := INVALID_COMM_ID, 1 := 0];
    CopyDoneStep(map[0 := 0, 1 := 0], map[1 := 0], 1);
    assert map[0 := 0, 1 := 0][0 := INVALID_COMM_ID] == handles && map[1 := 0] - {1} == map[];
    ss := Extended(ss, ls, CopyDone(0, 1), WithObjects(handles, map[]));
    ls := ls + [CopyDone(0, 1)];
    CopyStep(handles, map[], 2);
    assert handles[2 := 0] == map[0 := INVALID_COMM_ID, 1 := 0, 2 := 0];
    var before := ss;
    ss := Extended(ss, ls, Copy(0, 0, Explicit(0), 2), WithObjects(handles[2 := 0], map[2 := 0]));
    assert ss[6] == before[6];
    ls := ls + [Copy(0, 0, Explicit(0), 2)];
    before := ss;
    ss := SecondCopyDone(ss, ls);
    assert ss[6] == before[6];
    assert ls + [CopyDone(0, 2)] == CREATE_BASE + STALE;
  }
}
