/** Capsules, the services they provide, and the RAM they hold. */
module Capsules {
  import opened Base
  import opened PhysMem
  import opened VirtMem

  datatype Capsule = Capsule(restart: bool, vcores: set<nat>, memory: seq<Mapping>, allowed: set<nat>)

  /** The capsule and service tables, the last capsule ID given out, and the free RAM. */
  datatype State = State(capsules: map<nat, Capsule>, lastId: nat, services: map<nat, nat>, free: Regions)

  // ----- capsule IDs -----

  /** The ID `d` places after `c` in cyclic order among `n` IDs. */
  function IdAfter(n: nat, c: nat, d: nat): (id: nat)
    requires c < n && d <= n
    ensures id < n
  {
    if c + d < n then c + d else c + d - n
  }

  /** How far after `c`, starting at distance `d`, the first unused ID is; `n + 1` if there is none. */
  function Distance(used: set<nat>, n: nat, c: nat, d: nat): (r: nat)
    requires c < n && 1 <= d <= n + 1
    ensures d <= r <= n + 1 && (r <= n ==> IdAfter(n, c, r) !in used)
    ensures forall e :: d <= e < r ==> IdAfter(n, c, e) in used
    decreases n + 1 - d
  {
    if d == n + 1 || IdAfter(n, c, d) !in used then d else Distance(used, n, c, d + 1)
  }

  /** The search runs out exactly when every ID is in use. */
  lemma ExhaustedExactly(used: set<nat>, n: nat, c: nat)
    requires c < n
    ensures Distance(used, n, c, 1) == n + 1 <==> forall id :: 0 <= id < n ==> id in used
  {
    if Distance(used, n, c, 1) == n + 1 {
      forall id | 0 <= id < n ensures id in used {
        var d := if id > c then id - c else id + n - c;
        assert IdAfter(n, c, d) == id;
      }
    }
  }

  /** The new capsule's ID, or exhaustion; `n` is the number of IDs a machine word can hold. */
  function Create(s: State, n: nat, restart: bool): (Result<nat>, State)
    requires s.lastId < n
  {
    var d := Distance(s.capsules.Keys, n, s.lastId, 1);
    if d == n + 1 then (Err(CapsuleIDExhaustion), s.(lastId := 0))
    else
      var id := IdAfter(n, s.lastId, d);
      (Ok(id), s.(capsules := s.capsules[id := Capsule(restart, {}, [], {})], lastId := id))
  }

  /** A new capsule disturbs no existing one, and is refused exactly when every ID is in use. */
  lemma CreateOutcome(s: State, n: nat, restart: bool)
    requires s.lastId < n
    ensures var (r, s') := Create(s, n, restart);
      && (r.Err? <==> forall id :: 0 <= id < n ==> id in s.capsules)
      && (r.Err? ==> r.cause == CapsuleIDExhaustion && s' == s.(lastId := 0))
      && (r.Ok? ==>
            && r.value < n && r.value !in s.capsules
            && s' == s.(capsules := s.capsules[r.value := Capsule(restart, {}, [], {})], lastId := r.value)
            && exists d :: 1 <= d <= n && r.value == IdAfter(n, s.lastId, d)
                 && forall e :: 1 <= e < d ==> IdAfter(n, s.lastId, e) in s.capsules)
  {
    ExhaustedExactly(s.capsules.Keys, n, s.lastId);
  }

  // ----- memory and services -----

  function MapMemory(s: State, cid: nat, m: Mapping): (Result<()>, State) {
    if cid in s.capsules then
      var c := s.capsules[cid];
      (Ok(()), s.(capsules := s.capsules[cid := c.(memory := c.memory + [m])]))
    else (Err(CapsuleBadID), s)
  }

  function AllowService(s: State, cid: nat, sid: nat): (Result<()>, State) {
    if cid in s.capsules then
      var c := s.capsules[cid];
      (Ok(()), s.(capsules := s.capsules[cid := c.(allowed := c.allowed + {sid})]))
    else (Err(CapsuleBadID), s)
  }

  function AddVcore(s: State, cid: nat, vid: nat): (Result<()>, State) {
    if cid in s.capsules then
      var c := s.capsules[cid];
      (Ok(()), s.(capsules := s.capsules[cid := c.(vcores := c.vcores + {vid})]))
    else (Err(CapsuleBadID), s)
  }

  function IsServiceAllowed(s: State, cid: nat, sid: nat): Option<bool> {
    if cid in s.capsules then Some(sid in s.capsules[cid].allowed) else None
  }

  /** The second half of `register`, done after the permission check and under another lock. */
  function EnterService(s: State, sid: nat, cid: nat): (Result<()>, State) {
    if sid in s.services then (Err(ServiceAlreadyRegistered), s)
    else (Ok(()), s.(services := s.services[sid := cid]))
  }

  function Register(s: State, sid: nat, cid: nat): (Result<()>, State) {
    match IsServiceAllowed(s, cid, sid)
    case None => (Err(CapsuleBadID), s)
    case Some(flag) => if flag then EnterService(s, sid, cid) else (Err(ServiceNotAllowed), s)
  }

  function Deregister(s: State, sid: nat): (Result<()>, State) {
    if sid in s.services then (Ok(()), s.(services := s.services - {sid})) else (Err(ServiceNotFound), s)
  }

  /** Give every physical region among the mappings back, results discarded. */
  function Release(free: Regions, memory: seq<Mapping>): Regions
    decreases |memory|
  {
    if memory == [] then free
    else Release(if memory[0].physical.Some? then InsertOrKeep(free, memory[0].physical.value) else free, memory[1..])
  }

  /** None of the discarded results is an error. */
  predicate Releases(free: Regions, memory: seq<Mapping>)
    decreases |memory|
  {
    memory == [] ||
    (match memory[0].physical
     case None => Releases(free, memory[1..])
     case Some(r) => Insert(free, r).Ok? && Releases(InsertOrKeep(free, r), memory[1..]))
  }

  function Destroy(s: State, cid: nat): (Result<()>, State) {
    if cid in s.capsules then
      var c := s.capsules[cid];
      (Ok(()), s.(capsules := s.capsules - {cid}, services := s.services - c.allowed, free := Release(s.free, c.memory)))
    else (Err(CapsuleBadID), s)
  }

  // ----- hardware enforcement -----

  /** The physical regions among some mappings. */
  function Backed(memory: seq<Mapping>): seq<Region>
    decreases |memory|
  {
    if memory == [] then []
    else (if memory[0].physical.Some? then [memory[0].physical.value] else []) + Backed(memory[1..])
  }

  datatype Enforcement = NoCapsule | Granted(r: Region) | NothingGranted | Panicked

  /** What `enforce` does to the calling core's access window; it panics at a second physical region. */
  function Enforce(s: State, cid: nat): Enforcement {
    if cid !in s.capsules then NoCapsule
    else
      var rs := Backed(s.capsules[cid].memory);
      if |rs| == 0 then NothingGranted else if |rs| == 1 then Granted(rs[0]) else Panicked
  }

  // ----- what each operation on one capsule does, and to whom -----

  /** Everything but capsule `cid` is as it was. */
  ghost predicate SpareOthers(s: State, s': State, cid: nat) {
    && s'.lastId == s.lastId && s'.services == s.services && s'.free == s.free
    && s'.capsules.Keys == s.capsules.Keys
    && forall c :: c in s.capsules && c != cid ==> s'.capsules[c] == s.capsules[c]
  }

  /** Mapping memory into a capsule puts that mapping behind those it has, and does nothing else. */
  lemma MapMemoryExact(s: State, cid: nat, m: Mapping)
    ensures var (r, s') := MapMemory(s, cid, m);
      if cid in s.capsules then
        && r.Ok? && SpareOthers(s, s', cid)
        && s'.capsules[cid] == s.capsules[cid].(memory := s'.capsules[cid].memory)
        && |s'.capsules[cid].memory| == |s.capsules[cid].memory| + 1
        && s.capsules[cid].memory <= s'.capsules[cid].memory && s'.capsules[cid].memory[|s.capsules[cid].memory|] == m
      else r == Err(CapsuleBadID) && s' == s
  {
  }

  /** Adding a virtual core to a capsule records exactly its ID there. */
  lemma AddVcoreExact(s: State, cid: nat, vid: nat)
    ensures var (r, s') := AddVcore(s, cid, vid);
      if cid in s.capsules then
        && r.Ok? && SpareOthers(s, s', cid)
        && s'.capsules[cid] == s.capsules[cid].(vcores := s'.capsules[cid].vcores)
        && forall x :: x in s'.capsules[cid].vcores <==> x in s.capsules[cid].vcores || x == vid
      else r == Err(CapsuleBadID) && s' == s
  {
  }

  /** Destroying leaves every other capsule as it was; an ID that no capsule has changes nothing. */
  lemma DestroyExact(s: State, cid: nat)
    ensures var (r, s') := Destroy(s, cid);
      if cid in s.capsules then
        && r.Ok? && s'.lastId == s.lastId
        && (forall c :: c in s'.capsules <==> c in s.capsules && c != cid)
        && (forall c :: c in s'.capsules ==> s'.capsules[c] == s.capsules[c])
        && (forall sid :: sid in s'.services <==> sid in s.services && sid !in s.capsules[cid].allowed)
        && (forall sid :: sid in s'.services ==> s'.services[sid] == s.services[sid])
      else r == Err(CapsuleBadID) && s' == s
  {
  }

  // ----- services never outlive their capsules -----

  ghost predicate ServicesSound(s: State) {
    forall sid :: sid in s.services ==>
      s.services[sid] in s.capsules && sid in s.capsules[s.services[sid]].allowed
  }

  /** Allowing a service is what makes registering it permitted, for that capsule and that service only. */
  lemma AllowServiceExact(s: State, cid: nat, sid: nat, c: nat, x: nat)
    ensures var (r, s') := AllowService(s, cid, sid);
      && (r.Ok? <==> cid in s.capsules) && (r.Err? ==> r.cause == CapsuleBadID && s' == s)
      && (r.Ok? ==> SpareOthers(s, s', cid) && s'.capsules[cid] == s.capsules[cid].(allowed := s'.capsules[cid].allowed))
      && IsServiceAllowed(s', c, x) == if r.Ok? && c == cid && x == sid then Some(true) else IsServiceAllowed(s, c, x)
  {
  }

  /** Registering succeeds exactly for an allowed and vacant service, and deregistering undoes it. */
  lemma RegisterRoundTrip(s: State, sid: nat, cid: nat)
    ensures var (r, s') := Register(s, sid, cid);
      && (r.Ok? <==> IsServiceAllowed(s, cid, sid) == Some(true) && sid !in s.services)
      && (r.Err? ==> s' == s)
      && (r.Err? ==> r.cause == (if cid !in s.capsules then CapsuleBadID
                                 else if sid !in s.capsules[cid].allowed then ServiceNotAllowed
                                 else ServiceAlreadyRegistered))
      && (r.Ok? ==> sid in s'.services && s'.services[sid] == cid && Deregister(s', sid) == (Ok(()), s))
  {
    var (r, s') := Register(s, sid, cid);
    if r.Ok? { assert s'.services - {sid} == s.services; }
  }

  /** Deregistering removes that service and no other, and is an error if there is none. */
  lemma DeregisterExact(s: State, sid: nat)
    ensures var (r, s') := Deregister(s, sid);
      && (r.Err? <==> sid !in s.services) && (r.Err? ==> r.cause == ServiceNotFound)
      && s' == s.(services := s'.services)
      && (forall k :: k in s'.services <==> k in s.services && k != sid)
      && (forall k :: k in s'.services ==> s'.services[k] == s.services[k])
  {
  }

  /** Entering a service without checking again is sound exactly when the check would still pass. */
  lemma EnterServiceExact(s: State, sid: nat, cid: nat)
    requires ServicesSound(s)
    ensures ServicesSound(EnterService(s, sid, cid).1) <==>
      sid in s.services || IsServiceAllowed(s, cid, sid) == Some(true)
  {
    var s' := EnterService(s, sid, cid).1;
    if sid !in s.services {
      assert s'.services[sid] == cid;
      assert forall k :: k in s.services ==> k in s'.services && s'.services[k] == s.services[k];
    }
  }

  /** A destroy that falls between the check and the entry leaves a service without its capsule. */
  lemma RegisterRace()
    ensures var s := State(map[1 := Capsule(false, {}, [], {7})], 1, map[], []);
      && ServicesSound(s) && IsServiceAllowed(s, 1, 7) == Some(true)
      && !ServicesSound(EnterService(Destroy(s, 1).1, 7, 1).1)
  {
    var s := State(map[1 := Capsule(false, {}, [], {7})], 1, map[], []);
    var s' := EnterService(Destroy(s, 1).1, 7, 1).1;
    assert s'.services[7] == 1;
  }

  /**
   * Destroying a capsule withdraws every service it was allowed, whoever registered it: other
   * capsules keep their registrations exactly when none of those services is registered to another.
   */
  lemma DestroySparesOthers(s: State, cid: nat)
    requires cid in s.capsules
    ensures var s' := Destroy(s, cid).1;
      (forall sid :: sid in s.services && s.services[sid] != cid ==> sid in s'.services) <==>
      (forall sid :: sid in s.capsules[cid].allowed && sid in s.services ==> s.services[sid] == cid)
  {
    var s' := Destroy(s, cid).1;
    assert forall sid :: sid in s'.services <==> sid in s.services && sid !in s.capsules[cid].allowed;
  }

  lemma DestroyCanWithdrawOthers()
    ensures var s := State(map[1 := Capsule(false, {}, [], {7}), 2 := Capsule(false, {}, [], {7})], 2, map[7 := 2], []);
      ServicesSound(s) && 7 !in Destroy(s, 1).1.services && 2 in Destroy(s, 1).1.capsules
  {
  }

  // ----- ownership of RAM -----

  /** Where a region that has been handed out is held: by code that has just allocated it, or by a capsule. */
  datatype Slot = Pending(h: nat) | Mapped(cid: nat, j: nat)

  predicate Holds(s: State, pending: map<nat, Region>, x: Slot) {
    match x
    case Pending(h) => h in pending
    case Mapped(cid, j) =>
      cid in s.capsules && j < |s.capsules[cid].memory| && s.capsules[cid].memory[j].physical.Some?
  }

  function Held(s: State, pending: map<nat, Region>, x: Slot): Region
    requires Holds(s, pending, x)
  {
    match x
    case Pending(h) => pending[h]
    case Mapped(cid, j) => s.capsules[cid].memory[j].physical.value
  }

  ghost predicate Owned(s: State, pending: map<nat, Region>, a: int) {
    exists x :: Holds(s, pending, x) && Held(s, pending, x).Has(a)
  }

  /** Every address of RAM is free or held in one place, never both, and nothing else is. */
  ghost predicate Conserved(s: State, pending: map<nat, Region>, ram: Regions) {
    && FreeList(s.free)
    && (forall x :: Holds(s, pending, x) ==> Clear(s.free, Held(s, pending, x)))
    && (forall x, y :: Holds(s, pending, x) && Holds(s, pending, y) && x != y ==>
          Apart(Held(s, pending, x), Held(s, pending, y)))
    && (forall a :: Covered(ram, a) <==> Covered(s.free, a) || Owned(s, pending, a))
  }

  /** Changing only who holds what, one to one, conserves RAM. */
  lemma Rehold(s: State, pending: map<nat, Region>, s': State, pending': map<nat, Region>, from: Slot, to: Slot, ram: Regions)
    requires Conserved(s, pending, ram) && s'.free == s.free
    requires Holds(s, pending, from) && Holds(s', pending', to) && Held(s', pending', to) == Held(s, pending, from)
    requires from == to || (!Holds(s, pending, to) && !Holds(s', pending', from))
    requires forall x :: x != from && x != to ==> (Holds(s', pending', x) <==> Holds(s, pending, x))
    requires forall x :: x != from && x != to && Holds(s, pending, x) ==> Held(s', pending', x) == Held(s, pending, x)
    ensures Conserved(s', pending', ram)
  {
    forall a ensures Owned(s', pending', a) <==> Owned(s, pending, a) {
      if x :| Holds(s, pending, x) && Held(s, pending, x).Has(a) {
        var x' := if x == from then to else x;
        assert Holds(s', pending', x') && Held(s', pending', x').Has(a);
      }
      if x :| Holds(s', pending', x) && Held(s', pending', x).Has(a) {
        var x' := if x == to then from else x;
        assert Holds(s, pending, x') && Held(s, pending, x').Has(a);
      }
    }
    forall x, y | Holds(s', pending', x) && Holds(s', pending', y) && x != y
      ensures Apart(Held(s', pending', x), Held(s', pending', y))
    {
      var x', y' := if x == to then from else x, if y == to then from else y;
      assert Holds(s, pending, x') && Holds(s, pending, y') && x' != y';
    }
    forall x | Holds(s', pending', x) ensures Clear(s'.free, Held(s', pending', x)) {
      assert Holds(s, pending, if x == to then from else x);
    }
  }

  function MemoryOf(s: State, cid: nat): seq<Mapping> { if cid in s.capsules then s.capsules[cid].memory else [] }

  ghost predicate SameMemory(s: State, s': State) { forall cid :: MemoryOf(s', cid) == MemoryOf(s, cid) }

  /** Nothing about ownership depends on the rest of a capsule or on its neighbours in the tables. */
  lemma SameHoldings(s: State, s': State, pending: map<nat, Region>, ram: Regions)
    requires Conserved(s, pending, ram) && s'.free == s.free && SameMemory(s, s')
    ensures Conserved(s', pending, ram)
  {
    forall x
      ensures Holds(s', pending, x) <==> Holds(s, pending, x)
      ensures Holds(s, pending, x) ==> Held(s', pending, x) == Held(s, pending, x)
    {
      if x.Mapped? { assert MemoryOf(s', x.cid) == MemoryOf(s, x.cid); }
    }
    forall a ensures Owned(s', pending, a) <==> Owned(s, pending, a) {
      if x :| Holds(s, pending, x) && Held(s, pending, x).Has(a) { assert Holds(s', pending, x); }
      if x :| Holds(s', pending, x) && Held(s', pending, x).Has(a) { assert Holds(s, pending, x); }
    }
  }

  lemma AllocConserves(s: State, pending: map<nat, Region>, size: nat, h: nat, ram: Regions)
    requires Conserved(s, pending, ram) && h !in pending && Alloc(s.free, size).result.Ok?
    ensures var m := Alloc(s.free, size); Conserved(s.(free := m.free), pending[h := m.result.value], ram)
  {
    AllocOutcome(s.free, size);
    var m := Alloc(s.free, size);
    TakeConserves(s, pending, m.free, m.result.value, h, ram);
  }

  /** Moving memory from the free list to a new holder conserves RAM. */
  lemma TakeConserves(s: State, pending: map<nat, Region>, free: Regions, r: Region, h: nat, ram: Regions)
    requires Conserved(s, pending, ram) && h !in pending && FreeList(free) && Clear(free, r)
    requires forall a :: Covered(s.free, a) <==> Covered(free, a) || r.Has(a)
    ensures Conserved(s.(free := free), pending[h := r], ram)
  {
    var s', pending' := s.(free := free), pending[h := r];
    forall x ensures Holds(s', pending', x) <==> Holds(s, pending, x) || x == Pending(h) {}
    forall x | Holds(s, pending, x)
      ensures Held(s', pending', x) == Held(s, pending, x) && Clear(free, Held(s, pending, x)) && Apart(Held(s, pending, x), r)
    {
      ClearShrinks(s.free, free, Held(s, pending, x));
      ClearOfPart(s.free, Held(s, pending, x), r);
    }
    assert Held(s', pending', Pending(h)) == r;
    forall a ensures Owned(s', pending', a) <==> Owned(s, pending, a) || r.Has(a) {
      if r.Has(a) { assert Held(s', pending', Pending(h)).Has(a); }
      if x :| Holds(s, pending, x) && Held(s, pending, x).Has(a) { assert Holds(s', pending', x); }
    }
    forall x, y | Holds(s', pending', x) && Holds(s', pending', y) && x != y
      ensures Apart(Held(s', pending', x), Held(s', pending', y))
    {
    }
  }

  lemma FreePendingConserves(s: State, pending: map<nat, Region>, h: nat, ram: Regions)
    requires Conserved(s, pending, ram) && h in pending
    ensures Insert(s.free, pending[h]).Ok?
    ensures Conserved(s.(free := InsertOrKeep(s.free, pending[h])), pending - {h}, ram)
  {
    assert Holds(s, pending, Pending(h)) && Held(s, pending, Pending(h)) == pending[h];
    var r := pending[h];
    InsertClear(s.free, r);
    var s', pending' := s.(free := InsertOrKeep(s.free, r)), pending - {h};
    forall x | Holds(s', pending', x)
      ensures Holds(s, pending, x) && x != Pending(h) && Held(s', pending', x) == Held(s, pending, x)
      ensures Clear(s'.free, Held(s', pending', x))
    {
      ClearAfterInsert(s.free, r, Held(s, pending, x));
    }
    forall a ensures Owned(s, pending, a) <==> Owned(s', pending', a) || r.Has(a) {
      if r.Has(a) { assert Held(s, pending, Pending(h)).Has(a); }
      if x :| Holds(s', pending', x) && Held(s', pending', x).Has(a) { assert Holds(s, pending, x); }
      if x :| Holds(s, pending, x) && Held(s, pending, x).Has(a) {
        assert x != Pending(h) ==> Holds(s', pending', x) && Held(s', pending', x).Has(a);
      }
    }
  }

  /** Mapping a region just allocated into a capsule hands it over. */
  lemma MapConserves(s: State, pending: map<nat, Region>, h: nat, cid: nat, m: Mapping, ram: Regions)
    requires Conserved(s, pending, ram) && h in pending && cid in s.capsules && m.physical == Some(pending[h])
    ensures Conserved(MapMemory(s, cid, m).1, pending - {h}, ram)
  {
    var s' := MapMemory(s, cid, m).1;
    var j := |s.capsules[cid].memory|;
    assert s'.capsules[cid].memory[j] == m;
    Rehold(s, pending, s', pending - {h}, Pending(h), Mapped(cid, j), ram);
  }

  lemma CoalesceConserves(s: State, pending: map<nat, Region>, ram: Regions)
    requires Conserved(s, pending, ram)
    ensures Conserved(s.(free := Merge(s.free)), pending, ram)
  {
    MergeOutcome(s.free);
    var s' := s.(free := Merge(s.free));
    forall x | Holds(s', pending, x)
      ensures Holds(s, pending, x) && Held(s', pending, x) == Held(s, pending, x) && Clear(s'.free, Held(s', pending, x))
    {
      ClearShrinks(s.free, s'.free, Held(s, pending, x));
    }
    forall a ensures Owned(s', pending, a) <==> Owned(s, pending, a) {
      if x :| Holds(s, pending, x) && Held(s, pending, x).Has(a) { assert Holds(s', pending, x); }
      if x :| Holds(s', pending, x) && Held(s', pending, x).Has(a) { assert Holds(s, pending, x); }
    }
  }

  // ----- teardown -----

  ghost predicate HasRegion(memory: seq<Mapping>, j: int) { 0 <= j < |memory| && memory[j].physical.Some? }

  ghost predicate BackedHas(memory: seq<Mapping>, a: int) {
    exists j :: HasRegion(memory, j) && memory[j].physical.value.Has(a)
  }

  lemma BackedHasHead(memory: seq<Mapping>, a: int)
    requires memory != []
    ensures BackedHas(memory, a) <==>
      (memory[0].physical.Some? && memory[0].physical.value.Has(a)) || BackedHas(memory[1..], a)
  {
    if j :| HasRegion(memory, j) && memory[j].physical.value.Has(a) {
      assert j > 0 ==> HasRegion(memory[1..], j - 1) && memory[1..][j - 1].physical.value.Has(a);
    }
    if j :| HasRegion(memory[1..], j) && memory[1..][j].physical.value.Has(a) {
      assert HasRegion(memory, j + 1) && memory[j + 1].physical.value.Has(a);
    }
    if memory[0].physical.Some? && memory[0].physical.value.Has(a) { assert HasRegion(memory, 0); }
  }

  /** Regions apart from each other and from the free list can all be given back. */
  lemma {:induction false} ReleaseOutcome(free: Regions, memory: seq<Mapping>)
    requires FreeList(free)
    requires forall j :: HasRegion(memory, j) ==> Clear(free, memory[j].physical.value)
    requires forall i, j :: HasRegion(memory, i) && HasRegion(memory, j) && i != j ==>
      Apart(memory[i].physical.value, memory[j].physical.value)
    ensures Releases(free, memory) && FreeList(Release(free, memory))
    ensures forall a :: Covered(Release(free, memory), a) <==> Covered(free, a) || BackedHas(memory, a)
    decreases |memory|
  {
    if memory != [] {
      var rest := memory[1..];
      var free' := if memory[0].physical.Some? then InsertOrKeep(free, memory[0].physical.value) else free;
      if memory[0].physical.Some? {
        assert HasRegion(memory, 0);
        InsertClear(free, memory[0].physical.value);
      }
      forall j | HasRegion(rest, j) ensures Clear(free', rest[j].physical.value) {
        assert HasRegion(memory, j + 1);
        if memory[0].physical.Some? {
          ClearAfterInsert(free, memory[0].physical.value, rest[j].physical.value);
        }
      }
      forall i, j | HasRegion(rest, i) && HasRegion(rest, j) && i != j
        ensures Apart(rest[i].physical.value, rest[j].physical.value)
      {
        assert HasRegion(memory, i + 1) && HasRegion(memory, j + 1);
      }
      ReleaseOutcome(free', rest);
      forall a ensures Covered(Release(free, memory), a) <==> Covered(free, a) || BackedHas(memory, a) {
        BackedHasHead(memory, a);
      }
    }
  }

  /** What a teardown has done once it has dealt with the first of the capsule's mappings. */
  function GiveBack(s: State, cid: nat): State
    requires cid in s.capsules && s.capsules[cid].memory != []
  {
    var c := s.capsules[cid];
    s.(capsules := s.capsules[cid := c.(memory := c.memory[1..])],
       free := if c.memory[0].physical.Some? then InsertOrKeep(s.free, c.memory[0].physical.value) else s.free)
  }

  /** Where a slot is found once that has been done; the slot of the first mapping is gone. */
  function Shifted(cid: nat, x: Slot): Slot {
    if x.Mapped? && x.cid == cid then Mapped(cid, x.j + 1) else x
  }

  lemma SlotsAfterGiveBack(s: State, pending: map<nat, Region>, cid: nat, x: Slot)
    requires cid in s.capsules && s.capsules[cid].memory != []
    ensures var s' := GiveBack(s, cid);
      && (Holds(s', pending, x) <==> Holds(s, pending, Shifted(cid, x)))
      && (Holds(s', pending, x) ==> Held(s', pending, x) == Held(s, pending, Shifted(cid, x)))
  {
  }

  lemma OwnedAfterGiveBack(s: State, pending: map<nat, Region>, cid: nat, a: int)
    requires cid in s.capsules && s.capsules[cid].memory != []
    ensures var m := s.capsules[cid].memory[0].physical;
      Owned(s, pending, a) <==> Owned(GiveBack(s, cid), pending, a) || (m.Some? && m.value.Has(a))
  {
    var s', m := GiveBack(s, cid), s.capsules[cid].memory[0].physical;
    if x :| Holds(s', pending, x) && Held(s', pending, x).Has(a) {
      SlotsAfterGiveBack(s, pending, cid, x);
    }
    if m.Some? && m.value.Has(a) { assert Holds(s, pending, Mapped(cid, 0)) && Held(s, pending, Mapped(cid, 0)).Has(a); }
    if x :| Holds(s, pending, x) && Held(s, pending, x).Has(a) {
      var y := if x.Mapped? && x.cid == cid && x.j > 0 then Mapped(cid, x.j - 1) else x;
      SlotsAfterGiveBack(s, pending, cid, y);
      assert x != Mapped(cid, 0) ==> Shifted(cid, y) == x && Holds(s', pending, y) && Held(s', pending, y).Has(a);
    }
  }

  /** Giving back a dying capsule's regions one at a time conserves RAM at every point in between. */
  lemma GiveBackConserves(s: State, pending: map<nat, Region>, cid: nat, ram: Regions)
    requires Conserved(s, pending, ram) && cid in s.capsules && s.capsules[cid].memory != []
    ensures var m := s.capsules[cid].memory[0].physical; m.Some? ==> Insert(s.free, m.value).Ok?
    ensures Conserved(GiveBack(s, cid), pending, ram)
  {
    var s', m := GiveBack(s, cid), s.capsules[cid].memory[0].physical;
    if m.Some? {
      assert Holds(s, pending, Mapped(cid, 0)) && Held(s, pending, Mapped(cid, 0)) == m.value;
      InsertClear(s.free, m.value);
    }
    forall x | Holds(s', pending, x)
      ensures Holds(s, pending, Shifted(cid, x)) && Held(s', pending, x) == Held(s, pending, Shifted(cid, x))
      ensures Clear(s'.free, Held(s', pending, x))
    {
      SlotsAfterGiveBack(s, pending, cid, x);
      if m.Some? { ClearAfterInsert(s.free, m.value, Held(s, pending, Shifted(cid, x))); }
    }
    forall a ensures Covered(ram, a) <==> Covered(s'.free, a) || Owned(s', pending, a) {
      OwnedAfterGiveBack(s, pending, cid, a);
    }
  }

  /** Destroying a capsule returns its RAM to the free list, and none of the ignored results is an error. */
  lemma {:induction false} DestroyConserves(s: State, pending: map<nat, Region>, cid: nat, ram: Regions)
    requires Conserved(s, pending, ram) && cid in s.capsules
    ensures Releases(s.free, s.capsules[cid].memory)
    ensures Conserved(Destroy(s, cid).1, pending, ram)
    decreases |s.capsules[cid].memory|
  {
    if s.capsules[cid].memory == [] {
      SameHoldings(s, Destroy(s, cid).1, pending, ram);
    } else {
      var t := GiveBack(s, cid);
      GiveBackConserves(s, pending, cid, ram);
      DestroyConserves(t, pending, cid, ram);
      assert t.capsules - {cid} == s.capsules - {cid};
    }
  }
}
