/**
 * What `create_boot_capsule` does, as steps of the system: it follows the discipline that keeps
 * capsules isolated.
 */
module BootCapsule {
  import opened PhysMem
  import opened Queues
  import Sch = Scheduling
  import Caps = Capsules
  import opened Hypervisor
  import opened Isolation

  const BOOT_CAPSULE_RAM: nat := 128 * 1024 * 1024

  /** The steps taken when neither IDs nor RAM run out, apart from loading the binary. */
  function BootCapsuleSteps(id: nat, h: nat): seq<Step> {
    [CreateCapsule(true), AllocRegion(BOOT_CAPSULE_RAM, h), MapRegion(h, id, true), QueueVcore(id, 0, High), RecordVcore(id, 0)]
  }

  lemma RunCons(sys: System, s: Step, rest: seq<Step>, n: nat)
    requires sys.caps.lastId < n && Allowed(sys, s) && Disciplined(sys, s)
    requires Runs(Next(sys, s, n), rest, n) && DisciplinedRun(Next(sys, s, n), rest, n)
    ensures Runs(sys, [s] + rest, n) && DisciplinedRun(sys, [s] + rest, n)
    ensures Run(sys, [s] + rest, n) == Run(Next(sys, s, n), rest, n)
  {
    assert ([s] + rest)[1..] == rest;
  }

  /** The state after a virtual core has been queued and recorded. */
  function AfterVcore(sys: System, n: nat, id: nat): System
    requires sys.caps.lastId < n && sys.dying.None?
  {
    Next(Next(sys, QueueVcore(id, 0, High), n), RecordVcore(id, 0), n)
  }

  function AfterMap(sys: System, n: nat, h: nat, id: nat): System
    requires sys.caps.lastId < n && sys.dying.None? && h in sys.pending
  {
    AfterVcore(Next(sys, MapRegion(h, id, true), n), n, id)
  }

  function AfterRam(sys: System, n: nat, h: nat, id: nat): System
    requires sys.caps.lastId < n && sys.dying.None? && h !in sys.pending
    requires Alloc(sys.caps.free, BOOT_CAPSULE_RAM).result.Ok?
  {
    AfterMap(Next(sys, AllocRegion(BOOT_CAPSULE_RAM, h), n), n, h, id)
  }

  lemma StartVcore(sys: System, n: nat, id: nat)
    requires sys.caps.lastId < n && sys.dying.None? && Ready(sys.caps, id)
    ensures var steps, after := [QueueVcore(id, 0, High), RecordVcore(id, 0)], AfterVcore(sys, n, id);
      && Runs(sys, steps, n) && DisciplinedRun(sys, steps, n) && Run(sys, steps, n) == after
      && Ready(after.caps, id) && RegionFor(after.caps, id) == RegionFor(sys.caps, id)
      && after == sys.(caps := after.caps, sched := Sch.Create(sys.sched, VirtualCore(CanonicalId(id, 0), High)))
      && after.caps == sys.caps.(capsules := after.caps.capsules) && after.caps.capsules.Keys == sys.caps.capsules.Keys
  {
    var s1 := Next(sys, QueueVcore(id, 0, High), n);
    RunCons(s1, RecordVcore(id, 0), [], n);
    RunCons(sys, QueueVcore(id, 0, High), [RecordVcore(id, 0)], n);
    assert [QueueVcore(id, 0, High), RecordVcore(id, 0)] == [QueueVcore(id, 0, High)] + [RecordVcore(id, 0)];
    assert [RecordVcore(id, 0)] == [RecordVcore(id, 0)] + [];
  }

  lemma MapAndStart(sys: System, n: nat, h: nat, id: nat)
    requires sys.caps.lastId < n && sys.dying.None? && h in sys.pending
    requires id in sys.caps.capsules && sys.caps.capsules[id].memory == []
    ensures var steps := [MapRegion(h, id, true), QueueVcore(id, 0, High), RecordVcore(id, 0)];
      var after := AfterMap(sys, n, h, id);
      && Runs(sys, steps, n) && DisciplinedRun(sys, steps, n) && Run(sys, steps, n) == after
      && Ready(after.caps, id) && RegionFor(after.caps, id) == sys.pending[h]
      && after == sys.(caps := after.caps, sched := Sch.Create(sys.sched, VirtualCore(CanonicalId(id, 0), High)),
                       pending := sys.pending - {h})
      && after.caps == sys.caps.(capsules := after.caps.capsules) && after.caps.capsules.Keys == sys.caps.capsules.Keys
  {
    var s1 := Next(sys, MapRegion(h, id, true), n);
    BackedAppend([], MappingOf(sys.pending[h], true));
    StartVcore(s1, n, id);
    var rest := [QueueVcore(id, 0, High), RecordVcore(id, 0)];
    RunCons(sys, MapRegion(h, id, true), rest, n);
    assert [MapRegion(h, id, true), QueueVcore(id, 0, High), RecordVcore(id, 0)] == [MapRegion(h, id, true)] + rest;
  }

  /** 128 MB is a multiple of 64 MB, so it is handed out as it is. */
  lemma BootRam(free: Regions)
    requires FreeList(free) && Alloc(free, BOOT_CAPSULE_RAM).result.Ok?
    ensures var m := Alloc(free, BOOT_CAPSULE_RAM); m.result.value.size == BOOT_CAPSULE_RAM && FreeList(m.free)
  {
    AllocOutcome(free, BOOT_CAPSULE_RAM);
    WholeUnits();
  }

  lemma WholeUnits()
    ensures RoundUp(BOOT_CAPSULE_RAM) == BOOT_CAPSULE_RAM
  {
  }

  /** Allocating RAM for a new capsule, mapping it and adding the first virtual core. */
  lemma GiveRam(sys: System, n: nat, h: nat, id: nat)
    requires sys.caps.lastId < n && sys.dying.None? && h !in sys.pending && FreeList(sys.caps.free)
    requires id in sys.caps.capsules && sys.caps.capsules[id].memory == []
    requires Alloc(sys.caps.free, BOOT_CAPSULE_RAM).result.Ok?
    ensures var m := Alloc(sys.caps.free, BOOT_CAPSULE_RAM);
      var rest := [MapRegion(h, id, true), QueueVcore(id, 0, High), RecordVcore(id, 0)];
      var steps := [AllocRegion(BOOT_CAPSULE_RAM, h)] + rest;
      var after := AfterRam(sys, n, h, id);
      && Runs(sys, steps, n) && DisciplinedRun(sys, steps, n) && Run(sys, steps, n) == after
      && Ready(after.caps, id) && RegionFor(after.caps, id) == m.result.value
      && after == sys.(caps := after.caps, sched := Sch.Create(sys.sched, VirtualCore(CanonicalId(id, 0), High)))
      && after.caps == sys.caps.(capsules := after.caps.capsules, free := m.free)
      && after.caps.capsules.Keys == sys.caps.capsules.Keys
  {
    var s1 := Next(sys, AllocRegion(BOOT_CAPSULE_RAM, h), n);
    MapAndStart(s1, n, h, id);
    RunCons(sys, AllocRegion(BOOT_CAPSULE_RAM, h), [MapRegion(h, id, true), QueueVcore(id, 0, High), RecordVcore(id, 0)], n);
    assert s1.pending - {h} == sys.pending;
  }

  /** Creating the boot capsule follows the discipline and leaves it ready to run in 128 MB of its own. */
  lemma BootCapsuleDisciplined(sys: System, n: nat, h: nat)
    requires sys.caps.lastId < n && sys.dying.None? && h !in sys.pending && FreeList(sys.caps.free)
    requires Caps.Create(sys.caps, n, true).0.Ok? && Alloc(sys.caps.free, BOOT_CAPSULE_RAM).result.Ok?
    ensures var id, m := Caps.Create(sys.caps, n, true).0.value, Alloc(sys.caps.free, BOOT_CAPSULE_RAM);
      var steps := BootCapsuleSteps(id, h);
      && Runs(sys, steps, n) && DisciplinedRun(sys, steps, n)
      && var after := Run(sys, steps, n);
         && Ready(after.caps, id) && RegionFor(after.caps, id) == m.result.value
         && m.result.value.size == BOOT_CAPSULE_RAM
         && after == sys.(caps := after.caps, sched := Sch.Create(sys.sched, VirtualCore(CanonicalId(id, 0), High)))
         && after.caps.free == m.free && FreeList(m.free) && after.caps.lastId == id
         && after.caps.capsules.Keys == sys.caps.capsules.Keys + {id}
         && after == AfterRam(Next(sys, CreateCapsule(true), n), n, h, id)
  {
    var id := Caps.Create(sys.caps, n, true).0.value;
    var rest := [AllocRegion(BOOT_CAPSULE_RAM, h)] + [MapRegion(h, id, true), QueueVcore(id, 0, High), RecordVcore(id, 0)];
    BootRam(sys.caps.free);
    GiveRam(Next(sys, CreateCapsule(true), n), n, h, id);
    RunCons(sys, CreateCapsule(true), rest, n);
    assert BootCapsuleSteps(id, h) == [CreateCapsule(true)] + rest;
  }
}
