/** The capsule and service tables as the code keeps them, with the free RAM that teardown returns. */
module CapsuleTables {
  import opened Base
  import opened RegionStore
  import opened VirtMem
  import Caps = Capsules

  class CapsuleTable {
    var capsules: map<nat, Caps.Capsule>
    var lastId: nat
    var services: map<nat, nat>
    const regions: SortedRegions
    const ids: nat                    // how many IDs a machine word can hold

    ghost predicate Valid()
      reads this
    {
      lastId < ids
    }

    ghost function Value(): Caps.State
      reads this, regions
    {
      Caps.State(capsules, lastId, services, regions.regions)
    }

    constructor (ids: nat)
      requires 0 < ids
      ensures Valid() && fresh(regions) && this.ids == ids
      ensures Value() == Caps.State(map[], 0, map[], [])
    {
      this.ids := ids;
      capsules, lastId, services := map[], 0, map[];
      regions := new SortedRegions();
    }

    /** Find an unused ID after the last one given out, going round at most once past every ID. */
    method Create(restart: bool) returns (r: Result<nat>)
      requires Valid()
      modifies this`capsules, this`lastId
      ensures Valid() && (r, Value()) == Caps.Create(old(Value()), ids, restart)
    {
      var overflowed := false;
      ghost var c, k := lastId, 0;
      while true
        invariant c + k < 2 * ids && lastId == (if c + k < ids then c + k else c + k - ids)
        invariant overflowed <==> c + k >= ids
        invariant capsules == old(capsules)
        invariant forall e :: 1 <= e <= k && e <= ids ==> Caps.IdAfter(ids, c, e) in capsules
        decreases 2 * ids - c - k
      {
        var newId := if lastId + 1 == ids then 0 else lastId + 1;
        var overflow := lastId + 1 == ids;
        lastId := newId;
        k := k + 1;
        assert k > ids ==> newId in capsules by {
          if k > ids { assert newId == Caps.IdAfter(ids, c, k - ids); }
        }
        if newId !in capsules {
          assert newId == Caps.IdAfter(ids, c, k);
          assert Caps.Distance(capsules.Keys, ids, c, 1) == k;
          capsules := capsules[newId := Caps.Capsule(restart, {}, [], {})];
          return Ok(newId);
        }
        assert k <= ids ==> newId == Caps.IdAfter(ids, c, k);
        if overflow {
          if overflowed {
            assert Caps.Distance(capsules.Keys, ids, c, 1) == ids + 1;
            return Err(CapsuleIDExhaustion);
          }
          overflowed := true;
        }
      }
    }

    method MapMemory(cid: nat, m: Mapping) returns (r: Result<()>)
      modifies this`capsules
      ensures (r, Value()) == Caps.MapMemory(old(Value()), cid, m)
    {
      if cid in capsules {
        capsules := capsules[cid := capsules[cid].(memory := capsules[cid].memory + [m])];
        return Ok(());
      }
      return Err(CapsuleBadID);
    }

    method AddVcore(cid: nat, vid: nat) returns (r: Result<()>)
      modifies this`capsules
      ensures (r, Value()) == Caps.AddVcore(old(Value()), cid, vid)
    {
      if cid in capsules {
        capsules := capsules[cid := capsules[cid].(vcores := capsules[cid].vcores + {vid})];
        return Ok(());
      }
      return Err(CapsuleBadID);
    }

    method AllowService(cid: nat, sid: nat) returns (r: Result<()>)
      modifies this`capsules
      ensures (r, Value()) == Caps.AllowService(old(Value()), cid, sid)
    {
      if cid in capsules {
        capsules := capsules[cid := capsules[cid].(allowed := capsules[cid].allowed + {sid})];
        return Ok(());
      }
      return Err(CapsuleBadID);
    }

    method Register(sid: nat, cid: nat) returns (r: Result<()>)
      modifies this`services
      ensures (r, Value()) == Caps.Register(old(Value()), sid, cid)
    {
      if cid !in capsules { return Err(CapsuleBadID); }
      if sid !in capsules[cid].allowed { return Err(ServiceNotAllowed); }
      if sid in services { return Err(ServiceAlreadyRegistered); }
      services := services[sid := cid];
      return Ok(());
    }

    method Deregister(sid: nat) returns (r: Result<()>)
      modifies this`services
      ensures (r, Value()) == Caps.Deregister(old(Value()), sid)
    {
      if sid !in services { return Err(ServiceNotFound); }
      services := services - {sid};
      return Ok(());
    }

    /** Remove a capsule and tear it down: its RAM goes back to the free list, its services are withdrawn. */
    method Destroy(cid: nat) returns (r: Result<()>)
      modifies this`capsules, this`services, regions
      ensures (r, Value()) == Caps.Destroy(old(Value()), cid)
    {
      if cid !in capsules { return Err(CapsuleBadID); }
      var victim := capsules[cid];
      capsules := capsules - {cid};
      Drop(victim);
      return Ok(());
    }

    /** Teardown; the results of giving regions back and of withdrawing services are ignored. */
    method Drop(victim: Caps.Capsule)
      modifies this`services, regions
      ensures regions.regions == Caps.Release(old(regions.regions), victim.memory)
      ensures services == old(services) - victim.allowed
    {
      for i := 0 to |victim.memory|
        invariant services == old(services)
        invariant Caps.Release(regions.regions, victim.memory[i..]) == Caps.Release(old(regions.regions), victim.memory)
      {
        assert victim.memory[i..][1..] == victim.memory[i + 1..];
        if victim.memory[i].physical.Some? {
          var _ := regions.DeallocRegion(victim.memory[i].physical.value);
        }
      }
      var left := victim.allowed;
      while left != {}
        invariant left <= victim.allowed && services == old(services) - (victim.allowed - left)
        invariant regions.regions == Caps.Release(old(regions.regions), victim.memory)
        decreases left
      {
        var sid :| sid in left;
        var _ := Deregister(sid);
        left := left - {sid};
      }
    }

    /** Grant the calling core access to the capsule's RAM; a second physical region is a panic. */
    method Enforce(cid: nat) returns (e: Caps.Enforcement)
      ensures e == Caps.Enforce(Value(), cid)
    {
      if cid !in capsules { return Caps.NoCapsule; }
      var memory := capsules[cid].memory;
      var index := 0;
      e := Caps.NothingGranted;
      for i := 0 to |memory|
        invariant index <= 1
        invariant index == 0 ==> e == Caps.NothingGranted && Caps.Backed(memory) == Caps.Backed(memory[i..])
        invariant index == 1 ==> e.Granted? && Caps.Backed(memory) == [e.r] + Caps.Backed(memory[i..])
      {
        assert memory[i..][0] == memory[i] && memory[i..][1..] == memory[i + 1..];
        if memory[i].physical.Some? {
          if index > 0 { return Caps.Panicked; }
          e := Caps.Granted(memory[i].physical.value);
          index := index + 1;
        }
      }
    }
  }
}
