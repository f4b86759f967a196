/** Runs from boot, possible in the code, in which a capsule's RAM is not its own. */
module Intrusions {
  import opened Base
  import opened PhysMem
  import opened Queues
  import Sch = Scheduling
  import Caps = Capsules
  import opened Hypervisor
  import opened Isolation
  import opened BootCapsule

  // ----- a capsule without memory -----

  /** Two capsules, each with a virtual core, of which only the first is given RAM. */
  function MemorylessSetUp(size: nat, priority: Priority): seq<Step> {
    [CreateCapsule(false)] + [AllocRegion(size, 0)] + [MapRegion(0, 1, true)]
    + [QueueVcore(1, 0, priority)] + [RecordVcore(1, 0)]
    + [CreateCapsule(false)] + [QueueVcore(2, 0, priority)] + [RecordVcore(2, 0)]
  }

  /** The state those steps reach from boot on one core. */
  function MemorylessReady(r: Region, free: Regions, priority: Priority): System {
    var v1, v2 := VirtualCore(CanonicalId(1, 0), priority), VirtualCore(CanonicalId(2, 0), priority);
    System(Caps.State(map[1 := Caps.Capsule(false, {0}, [MappingOf(r, true)], {}), 2 := Caps.Capsule(false, {0}, [], {})],
                      2, map[], free),
           map[], Sch.Create(Sch.Create(Sch.Boot([true]), v1), v2), map[], multiset{}, None)
  }

  /** The states before the second capsule: with RAM allocated, mapped, and with a virtual core. */
  function Allocated(sections: Regions, m: Allocation): System
    requires m.result.Ok?
  {
    var caps := Caps.State(map[1 := Caps.Capsule(false, {}, [], {})], 1, map[], m.free);
    Boot(sections, [true]).(caps := caps, pending := map[0 := m.result.value])
  }

  function Backing(sections: Regions, m: Allocation): System
    requires m.result.Ok?
  {
    var caps := Caps.State(map[1 := Caps.Capsule(false, {}, [MappingOf(m.result.value, true)], {})], 1, map[], m.free);
    Boot(sections, [true]).(caps := caps)
  }

  function Started(sections: Regions, m: Allocation, priority: Priority): System
    requires m.result.Ok?
  {
    var caps := Caps.State(map[1 := Caps.Capsule(false, {0}, [MappingOf(m.result.value, true)], {})], 1, map[], m.free);
    Boot(sections, [true]).(caps := caps,
                            sched := Sch.Create(Sch.Boot([true]), VirtualCore(CanonicalId(1, 0), priority)))
  }

  lemma FirstIsMapped(sections: Regions, m: Allocation, n: nat)
    requires m.result.Ok? && 1 < n
    ensures Next(Allocated(sections, m), MapRegion(0, 1, true), n) == Backing(sections, m)
  {
    var sys, r := Allocated(sections, m), m.result.value;
    assert sys.pending - {0} == map[];
    var memory := [MappingOf(r, true)];
    assert [] + memory == memory;
    assert sys.caps.capsules[1 := Caps.Capsule(false, {}, memory, {})] == map[1 := Caps.Capsule(false, {}, memory, {})];
  }

  lemma FirstIsStarted(sections: Regions, m: Allocation, priority: Priority, n: nat)
    requires m.result.Ok? && 1 < n
    ensures Next(Next(Backing(sections, m), QueueVcore(1, 0, priority), n), RecordVcore(1, 0), n) == Started(sections, m, priority)
  {
    var sys := Backing(sections, m);
    var full := sys.caps.capsules[1].(vcores := {0});
    assert {} + {0} == {0};
    assert sys.caps.capsules[1 := full] == map[1 := full];
  }

  lemma MemorylessReached(sections: Regions, size: nat, priority: Priority, n: nat)
    requires 2 < n && Alloc(RegisterSections([], sections), size).result.Ok?
    ensures var m := Alloc(RegisterSections([], sections), size);
      var sys, steps := Boot(sections, [true]), MemorylessSetUp(size, priority);
      Runs(sys, steps, n) && Run(sys, steps, n) == MemorylessReady(m.result.value, m.free, priority)
  {
    var m := Alloc(RegisterSections([], sections), size);
    var s0, s4 := Boot(sections, [true]), Started(sections, m, priority);
    FirstIds(s0.caps, s4.caps, n, false);
    var s1, s5 := Next(s0, CreateCapsule(false), n), Next(s4, CreateCapsule(false), n);
    var t := [CreateCapsule(false)];
    ThenStep(s0, [], s0, CreateCapsule(false), n);
    assert [] + t == t;
    ThenStep(s0, t, s1, AllocRegion(size, 0), n);
    t := t + [AllocRegion(size, 0)];
    FirstIsMapped(sections, m, n);
    ThenStep(s0, t, Allocated(sections, m), MapRegion(0, 1, true), n);
    t := t + [MapRegion(0, 1, true)];
    FirstIsStarted(sections, m, priority, n);
    var s3 := Next(Backing(sections, m), QueueVcore(1, 0, priority), n);
    ThenStep(s0, t, Backing(sections, m), QueueVcore(1, 0, priority), n);
    t := t + [QueueVcore(1, 0, priority)];
    ThenStep(s0, t, s3, RecordVcore(1, 0), n);
    t := t + [RecordVcore(1, 0)];
    ThenStep(s0, t, s4, CreateCapsule(false), n);
    t := t + [CreateCapsule(false)];
    ThenStep(s0, t, s5, QueueVcore(2, 0, priority), n);
    t := t + [QueueVcore(2, 0, priority)];
    ThenStep(s0, t, Next(s5, QueueVcore(2, 0, priority), n), RecordVcore(2, 0), n);
    SecondIsStarted(sections, m, priority, n);
  }

  lemma SecondIsStarted(sections: Regions, m: Allocation, priority: Priority, n: nat)
    requires m.result.Ok? && 2 < n
    ensures var sys := Next(Started(sections, m, priority), CreateCapsule(false), n);
      Next(Next(sys, QueueVcore(2, 0, priority), n), RecordVcore(2, 0), n) == MemorylessReady(m.result.value, m.free, priority)
  {
    var sys := Started(sections, m, priority);
    FirstIds(Boot(sections, [true]).caps, sys.caps, n, false);
    var caps := Next(sys, CreateCapsule(false), n).caps;
    var full := caps.capsules[2].(vcores := {0});
    assert {} + {0} == {0};
    assert caps.capsules[2 := full] == map[1 := caps.capsules[1], 2 := full];
  }

  /** The first two capsules get IDs 1 and 2. */
  lemma FirstIds(a: Caps.State, b: Caps.State, n: nat, restart: bool)
    requires 2 < n && a.capsules == map[] && a.lastId == 0 && b.capsules.Keys == {1} && b.lastId == 1
    ensures var none := Caps.Capsule(restart, {}, [], {});
      && Caps.Create(a, n, restart) == (Ok(1), a.(capsules := map[1 := none], lastId := 1))
      && Caps.Create(b, n, restart) == (Ok(2), b.(capsules := b.capsules[2 := none], lastId := 2))
  {
    assert Caps.Distance(a.capsules.Keys, n, 0, 1) == 1;
    assert Caps.Distance(b.capsules.Keys, n, 1, 1) == 1;
  }

  /**
   * A capsule with no physical region really does run in another's RAM: after this run from boot,
   * core 0 is running capsule 2, which has no memory, while its window is the region of capsule 1.
   */
  lemma MemorylessCapsuleIntrudes(sections: Regions, size: nat, priority: Priority, n: nat)
    requires 2 < n && Alloc(RegisterSections([], sections), size).result.Ok?
    ensures var sys, steps := Boot(sections, [true]), MemorylessSetUp(size, priority) + [RunNext(0)] + [RunNext(0)];
      && Runs(sys, steps, n)
      && var after := Run(sys, steps, n);
         && Hosts(after, 0, 2) && 2 in after.caps.capsules && Caps.Backed(after.caps.capsules[2].memory) == []
         && Ready(after.caps, 1) && 0 in after.windows && after.windows[0] == RegionFor(after.caps, 1)
  {
    var m := Alloc(RegisterSections([], sections), size);
    var sys, steps := Boot(sections, [true]), MemorylessSetUp(size, priority);
    var s0 := MemorylessReady(m.result.value, m.free, priority);
    MemorylessReached(sections, size, priority, n);
    ThenStep(sys, steps, s0, RunNext(0), n);
    var s1 := RunOn(s0, 0);
    ThenStep(sys, steps + [RunNext(0)], s1, RunNext(0), n);
    MemorylessPasses(m.result.value, m.free, priority);
  }

  lemma MemorylessPasses(r: Region, free: Regions, priority: Priority)
    ensures var after := RunOn(RunOn(MemorylessReady(r, free, priority), 0), 0);
      && Hosts(after, 0, 2) && 2 in after.caps.capsules && Caps.Backed(after.caps.capsules[2].memory) == []
      && Ready(after.caps, 1) && 0 in after.windows && after.windows[0] == RegionFor(after.caps, 1)
  {
    var s0 := MemorylessReady(r, free, priority);
    var v1, v2 := VirtualCore(CanonicalId(1, 0), priority), VirtualCore(CanonicalId(2, 0), priority);
    InTurn(v1, v2);
    var m := MappingOf(r, true);
    assert Caps.Backed([m]) == [r] by { assert [m][1..] == []; }
    assert Sch.Chosen(s0.sched, 0) == Some(v1);
    var s1 := RunOn(s0, 0);
    assert s1.windows == map[0 := r] && s1.caps == s0.caps;
    PassRunning(s0.sched, 0, 0);
    assert s1.sched.global == Dequeue(s0.sched.global).rest && s1.sched.cores[0].smode;
    assert Sch.Chosen(s1.sched, 0) == Some(v2);
    PassRunning(s1.sched, 0, 0);
  }

  lemma InTurn(v: VirtualCore, w: VirtualCore)
    requires v.priority == w.priority
    ensures var d := Dequeue(Enqueue(Enqueue(EMPTY, v), w)); d.next == Some(v) && Dequeue(d.rest).next == Some(w)
  {
    assert ([] + [v] + [w])[1..] == [w];
  }

  /** There is such a run: 64 MB of RAM is enough. */
  lemma IntrusionIsReachable()
    ensures Alloc(RegisterSections([], [Region(0, PHYS_RAM_REGION_MIN_SIZE)]), 1).result.Ok?
  {
    OnlySection(Region(0, PHYS_RAM_REGION_MIN_SIZE));
    assert RoundUp(1) == PHYS_RAM_REGION_MIN_SIZE;
  }

  // ----- a capsule that does not exist -----

  /** A virtual core is queued before its capsule is looked up, and runs although there is none. */
  lemma UnknownCapsuleRuns(sections: Regions, cid: nat, priority: Priority, n: nat)
    requires 0 < n
    ensures var sys, steps := Boot(sections, [true]), [QueueVcore(cid, 0, priority)] + [RecordVcore(cid, 0)] + [RunNext(0)];
      && Runs(sys, steps, n)
      && var after := Run(sys, steps, n); Hosts(after, 0, cid) && cid !in after.caps.capsules && 0 !in after.windows
  {
    var s0, v := Boot(sections, [true]), VirtualCore(CanonicalId(cid, 0), priority);
    var s1 := Next(s0, QueueVcore(cid, 0, priority), n);
    ThenStep(s0, [], s0, QueueVcore(cid, 0, priority), n);
    assert [] + [QueueVcore(cid, 0, priority)] == [QueueVcore(cid, 0, priority)];
    ThenStep(s0, [QueueVcore(cid, 0, priority)], s1, RecordVcore(cid, 0), n);
    ThenStep(s0, [QueueVcore(cid, 0, priority)] + [RecordVcore(cid, 0)], s1, RunNext(0), n);
    InTurn(v, v);
    assert Sch.Chosen(s1.sched, 0) == Some(v) by { assert ([] + [v])[1..] == []; }
    PassRunning(s1.sched, 0, 0);
  }

  // ----- a destroyed capsule -----

  /** There is RAM for two boot capsules. */
  predicate RoomForTwo(sections: Regions) {
    var m := Alloc(RegisterSections([], sections), BOOT_CAPSULE_RAM);
    m.result.Ok? && Alloc(m.free, BOOT_CAPSULE_RAM).result.Ok?
  }

  /** Two capsules made as the boot capsule is, and a pass that runs the first. */
  function TwoCapsules(): seq<Step> { BootCapsuleSteps(1, 0) + BootCapsuleSteps(2, 0) + [RunNext(0)] }

  lemma FreeAtBoot(sections: Regions)
    requires AllApart(sections)
    ensures FreeList(RegisterSections([], sections))
  {
    RegisterOutcome([], sections);
  }

  lemma FirstMade(sections: Regions, n: nat)
    requires AllApart(sections) && 2 < n && RoomForTwo(sections)
    ensures var sys, steps := Boot(sections, [true]), BootCapsuleSteps(1, 0);
      && Runs(sys, steps, n)
      && var after := Run(sys, steps, n);
         && Isolated(after) && after.caps.capsules.Keys == {1} && after.caps.lastId == 1 && after.pending == map[] && after.dying.None?
         && FreeList(after.caps.free) && Alloc(after.caps.free, BOOT_CAPSULE_RAM).result.Ok?
         && after.sched == Sch.Create(Sch.Boot([true]), VirtualCore(CanonicalId(1, 0), High))
  {
    var sys := Boot(sections, [true]);
    FreeAtBoot(sections);
    FirstIds(sys.caps, sys.caps.(capsules := map[1 := Caps.Capsule(true, {}, [], {})], lastId := 1), n, true);
    BootCapsuleDisciplined(sys, n, 0);
    BootReady(sections, [true]);
    RunKeepsIsolated(sys, BootCapsuleSteps(1, 0), n);
  }

  lemma BothMade(sections: Regions, n: nat)
    requires AllApart(sections) && 2 < n && RoomForTwo(sections)
    ensures var sys, steps := Boot(sections, [true]), BootCapsuleSteps(1, 0) + BootCapsuleSteps(2, 0);
      && Runs(sys, steps, n)
      && var after := Run(sys, steps, n);
         && Isolated(after) && after.caps.capsules.Keys == {1, 2} && after.dying.None?
         && after.sched == Sch.Create(Sch.Create(Sch.Boot([true]), VirtualCore(CanonicalId(1, 0), High)),
                                      VirtualCore(CanonicalId(2, 0), High))
  {
    var sys := Boot(sections, [true]);
    var first, second := BootCapsuleSteps(1, 0), BootCapsuleSteps(2, 0);
    FirstMade(sections, n);
    var mid := Run(sys, first, n);
    FirstIds(sys.caps, mid.caps, n, true);
    BootCapsuleDisciplined(mid, n, 0);
    RunKeepsIsolated(mid, second, n);
    RunJoin(sys, first, second, n);
  }

  lemma FirstRuns(sys: System, n: nat)
    requires Isolated(sys) && sys.dying.None? && sys.caps.lastId < n
    requires sys.sched == Sch.Create(Sch.Create(Sch.Boot([true]), VirtualCore(CanonicalId(1, 0), High)),
                                     VirtualCore(CanonicalId(2, 0), High))
    ensures Allowed(sys, RunNext(0))
    ensures var after := Next(sys, RunNext(0), n);
      && Isolated(after) && after.dying.None? && after.caps == sys.caps
      && Hosts(after, 0, 1) && Sch.Chosen(after.sched, 0) == Some(VirtualCore(CanonicalId(2, 0), High))
  {
    NoPanic(sys, 0);
    StepKeepsIsolated(sys, RunNext(0), n);
    FirstThenSecond(sys.sched);
  }

  /** Core 0 then runs capsule 1 in its own RAM, with capsule 2 next. */
  lemma TwoCapsulesReached(sections: Regions, n: nat)
    requires AllApart(sections) && 2 < n && RoomForTwo(sections)
    ensures Runs(Boot(sections, [true]), TwoCapsules(), n)
    ensures var sys := Run(Boot(sections, [true]), TwoCapsules(), n);
      && Isolated(sys) && Sound(sys, sections, n) && sys.dying.None? && sys.caps.capsules.Keys == {1, 2}
      && Hosts(sys, 0, 1) && Sch.Chosen(sys.sched, 0) == Some(VirtualCore(CanonicalId(2, 0), High))
  {
    var b, made := Boot(sections, [true]), BootCapsuleSteps(1, 0) + BootCapsuleSteps(2, 0);
    BothMade(sections, n);
    FirstRuns(Run(b, made, n), n);
    ThenStep(b, made, Run(b, made, n), RunNext(0), n);
    ExclusiveOwnership(sections, [true], TwoCapsules(), n);
  }

  lemma FirstThenSecond(s: Sch.Sched)
    requires s == Sch.Create(Sch.Create(Sch.Boot([true]), VirtualCore(CanonicalId(1, 0), High)),
                             VirtualCore(CanonicalId(2, 0), High))
    ensures var t := Sch.RunPass(s, 0);
      && t.cores[0].running == Some(VirtualCore(CanonicalId(1, 0), High))
      && Sch.Chosen(t, 0) == Some(VirtualCore(CanonicalId(2, 0), High))
  {
    InTurn(VirtualCore(CanonicalId(1, 0), High), VirtualCore(CanonicalId(2, 0), High));
  }

  /** A destroyed capsule runs in another's RAM. */
  lemma DeadCapsuleIntrudes(sections: Regions, n: nat) returns (steps: seq<Step>)
    requires AllApart(sections) && 2 < n && RoomForTwo(sections)
    ensures Runs(Boot(sections, [true]), steps, n)
    ensures var sys := Run(Boot(sections, [true]), steps, n);
      && Hosts(sys, 0, 2) && 2 !in sys.caps.capsules
      && Ready(sys.caps, 1) && 0 in sys.windows && sys.windows[0] == RegionFor(sys.caps, 1)
  {
    TwoCapsulesReached(sections, n);
    var b := Boot(sections, [true]);
    var sys := Run(b, TwoCapsules(), n);
    var teardown := TeardownAlone(sys, 2, n);
    RunJoin(b, TwoCapsules(), teardown, n);
    DeadCapsuleRunsInAnothers(sys, 0, 2, 1, n);
    ThenStep(b, TwoCapsules() + teardown, Destroyed(sys, 2), RunNext(0), n);
    steps := TwoCapsules() + teardown + [RunNext(0)];
  }

  /** A core that still runs a destroyed capsule can reach free RAM and nothing else. */
  lemma DeadCapsuleReachesFreeRam(sections: Regions, n: nat) returns (steps: seq<Step>)
    requires AllApart(sections) && 2 < n && RoomForTwo(sections)
    ensures Runs(Boot(sections, [true]), steps, n)
    ensures var sys := Run(Boot(sections, [true]), steps, n);
      && Hosts(sys, 0, 1) && 1 !in sys.caps.capsules
      && 0 in sys.windows && forall a :: sys.windows[0].Has(a) ==> Covered(sys.caps.free, a)
  {
    TwoCapsulesReached(sections, n);
    var b := Boot(sections, [true]);
    var sys := Run(b, TwoCapsules(), n);
    var teardown := TeardownAlone(sys, 1, n);
    RunJoin(b, TwoCapsules(), teardown, n);
    DestroyLeavesOpenWindow(sys, 1, 0, sections, n);
    steps := TwoCapsules() + teardown;
  }

  /** 256 MB of RAM is room enough for both. */
  lemma RoomExists()
    ensures AllApart([Region(0, 2 * BOOT_CAPSULE_RAM)]) && RoomForTwo([Region(0, 2 * BOOT_CAPSULE_RAM)])
  {
    var whole, half := Region(0, 2 * BOOT_CAPSULE_RAM), Region(BOOT_CAPSULE_RAM, BOOT_CAPSULE_RAM);
    OnlySection(whole);
    WholeUnits();
    InsertIntoNone(half);
    assert Without([whole], 0) == [];
  }

  lemma InsertIntoNone(r: Region)
    requires r.size > 0
    ensures Insert([], r) == Ok([r])
  {
    assert Slot([], r, 0) == Some(0);
    assert With([], 0, r) == [r];
  }

  lemma OnlySection(r: Region)
    requires r.size > 0
    ensures RegisterSections([], [r]) == [r]
  {
    InsertIntoNone(r);
    assert [r][1..] == [];
    assert RegisterSections([], [r]) == RegisterSections([r], []);
  }
}
