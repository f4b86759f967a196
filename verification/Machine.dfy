/**
 * Scheduling and context switching as the code does them: shared tables and per-core queues,
 * updated in place. Each operation is proved to be a step of the system in `Hypervisor`.
 */
module Machines {
  import opened Base
  import opened PhysMem
  import opened VirtMem
  import opened Queues
  import Sch = Scheduling
  import Caps = Capsules
  import opened CapsuleTables
  import H = Hypervisor
  import Iso = Isolation
  import Boot = BootCapsule

  /** The request to return a queued virtual core to the global queues. */
  datatype Message = DisownQueuedVirtualCore(sender: nat)

  /** Which core to ask: one with the most virtual cores, if that is more than one and something waits globally. */
  ghost predicate RightToAsk(waiting: WaitQueues, workload: map<nat, nat>, asked: Option<nat>) {
    match asked
    case Some(p) =>
      && TotalQueued(waiting) > 0 && p in workload && workload[p] > 1
      && forall q :: q in workload ==> workload[q] <= workload[p]
    case None => TotalQueued(waiting) == 0 || forall q :: q in workload ==> workload[q] <= 1
  }

  /** The mailboxes once the request, if there is one, has been put behind the messages of the core asked. */
  function Posted(boxes: map<nat, seq<Message>>, asked: Option<nat>, sender: nat): map<nat, seq<Message>> {
    if asked.Some? && asked.value in boxes
    then boxes[asked.value := boxes[asked.value] + [DisownQueuedVirtualCore(sender)]] else boxes
  }

  class Machine {
    const capsules: CapsuleTable
    const global: ScheduleQueues
    const queues: seq<ScheduleQueues>          // one pair of wait queues per physical core
    const smode: seq<bool>                     // which cores can run guests
    var vcores: map<nat, VirtualCore>          // VCORES: what each core is running
    var pcores: map<CanonicalId, nat>          // PCORES
    var workload: map<nat, nat>                // WORKLOAD
    var windows: map<nat, Region>              // the window last granted on each core
    var mailboxes: map<nat, seq<Message>>
    ghost var cores: seq<Sch.Core>             // each core's state as a value

    function Running(p: nat): Option<VirtualCore>
      reads this
    {
      if p in vcores then Some(vcores[p]) else None
    }

    ghost predicate Valid()
      reads this, capsules, global, queues
    {
      && capsules.Valid()
      && global !in queues
      && (forall i, j :: 0 <= i < j < |queues| ==> queues[i] != queues[j])
      && |cores| == |queues| == |smode|
      && (forall p :: 0 <= p < |cores| ==> cores[p] == Sch.Core(smode[p], queues[p].Value(), Running(p)))
    }

    ghost function Schedule(): Sch.Sched
      reads this, global
    {
      Sch.Sched(global.Value(), cores, pcores, workload)
    }

    ghost function Value(): H.System
      reads this, capsules, capsules.regions, global
    {
      H.System(capsules.Value(), map[], Schedule(), windows, multiset{}, None)
    }

    /** Every core starts with empty queues, nothing running and an empty mailbox. */
    constructor (table: CapsuleTable, smode: seq<bool>)
      requires table.Valid()
      ensures Valid() && capsules == table && this.smode == smode
      ensures Schedule() == Sch.Boot(smode) && windows == map[]
      ensures forall p :: p in mailboxes <==> 0 <= p < |smode|
      ensures forall p :: p in mailboxes ==> mailboxes[p] == []
    {
      var qs: seq<ScheduleQueues>, boxes: map<nat, seq<Message>> := [], map[];
      for i := 0 to |smode|
        invariant |qs| == i && fresh(qs)
        invariant forall k :: 0 <= k < i ==> qs[k].Value() == EMPTY
        invariant forall k, l :: 0 <= k < l < i ==> qs[k] != qs[l]
        invariant forall p :: p in boxes <==> 0 <= p < i
        invariant forall p :: p in boxes ==> boxes[p] == []
      {
        var q := new ScheduleQueues();
        qs := qs + [q];
        boxes := boxes[i := []];
      }
      capsules, queues, this.smode := table, qs, smode;
      vcores, pcores, workload, windows := map[], map[], map[], map[];
      mailboxes := boxes;
      cores := Sch.Boot(smode).cores;
      global := new ScheduleQueues();
    }

    /** Save what core `p` is running on its own queues and run `next`, with access to its capsule's RAM only. */
    method ContextSwitch(p: nat, next: VirtualCore) returns (panicked: bool)
      requires Valid() && p < |queues|
      modifies this`vcores, this`pcores, this`windows, this`cores, queues[p]
      ensures var current := old(Running(p));
        var enforces := current.None? || current.value.id.capsule != next.id.capsule;
        var verdict := Caps.Enforce(capsules.Value(), next.id.capsule);
        && (panicked <==> enforces && verdict.Panicked?)
        && (!panicked ==>
              && Valid()
              && Schedule() == Sch.ContextSwitch(old(Schedule()), p, next)
              && windows == if enforces && verdict.Granted? then old(windows)[p := verdict.r] else old(windows))
    {
      ghost var queue := queues[p].Value();
      if p in vcores {
        var current := vcores[p];
        vcores := vcores - {p};
        if current.id.capsule != next.id.capsule {
          panicked := EnforceOn(p, next.id.capsule);
          if panicked { return; }
        }
        queues[p].Queue(current);
        queue := Enqueue(queue, current);
      } else {
        panicked := EnforceOn(p, next.id.capsule);
        if panicked { return; }
      }
      pcores := pcores[next.id := p];
      vcores := vcores[p := next];
      cores := cores[p := Sch.Core(smode[p], queue, Some(next))];
      panicked := false;
    }

    /** `enforce` on core `p`: replace the core's window if the capsule has a region. */
    method EnforceOn(p: nat, cid: nat) returns (panicked: bool)
      modifies this`windows
      ensures var verdict := Caps.Enforce(capsules.Value(), cid);
        && (panicked <==> verdict.Panicked?)
        && (!panicked ==> windows == if verdict.Granted? then old(windows)[p := verdict.r] else old(windows))
    {
      var verdict := capsules.Enforce(cid);
      match verdict {
        case Panicked => panicked := true;
        case Granted(r) => windows := windows[p := r]; panicked := false;
        case _ => panicked := false;
      }
    }

    /** One pass of `run_next` on core `p`. */
    method RunPass(p: nat) returns (found: bool, panicked: bool)
      requires Valid() && p < |queues| && smode[p]
      modifies this`vcores, this`pcores, this`windows, this`cores, this`workload, queues[p], global
      ensures panicked <==> H.Panics(old(Value()), p)
      ensures found <==> Sch.Chosen(old(Schedule()), p).Some?
      ensures !panicked ==> Valid() && Value() == H.RunOn(old(Value()), p)
    {
      ghost var before := Value();
      var orphan := global.Take();
      match orphan {
        case Some(v) =>
          workload := workload[p := (if p in workload then workload[p] else 0) + 1];
          found := true;
          panicked := ContextSwitch(p, v);
          assert !panicked ==> Schedule() == Sch.Adopt(before.sched, p);
        case None =>
          found, panicked := ResumeOwn(p);
      }
    }

    /** The part of a pass that takes from the core's own queues. */
    method ResumeOwn(p: nat) returns (found: bool, panicked: bool)
      requires Valid() && p < |queues| && smode[p] && Dequeue(global.Value()).next.None?
      modifies this`vcores, this`pcores, this`windows, this`cores, queues[p]
      ensures panicked <==> H.Panics(old(Value()), p)
      ensures found <==> Sch.Chosen(old(Schedule()), p).Some?
      ensures !panicked ==> Valid() && Value() == H.RunOn(old(Value()), p)
    {
      ghost var before := Value();
      found, panicked := true, false;
      var own := queues[p].Take();
      match own {
        case Some(v) =>
          cores := cores[p := cores[p].(queues := queues[p].Value())];
          panicked := ContextSwitch(p, v);
          assert !panicked ==> Schedule() == Sch.Resume(before.sched, p);
        case None => found := false;
      }
    }

    /** Coalesce free RAM, then ask the busiest core, if it has virtual cores to spare, to give one up. */
    method Housekeeping(p: nat, order: seq<nat>) returns (ghost asked: Option<nat>)
      requires forall q :: q in order <==> q in workload
      modifies this`mailboxes, capsules.regions
      ensures capsules.regions.regions == Merge(old(capsules.regions.regions))
      ensures RightToAsk(global.Value(), workload, asked) && mailboxes == Posted(old(mailboxes), asked, p)
    {
      asked := None;
      capsules.regions.Merge();
      var waiting := global.Total();
      if waiting > 0 {
        var highest, busiest := Sch.FindBusiest(workload, order);
        if highest > 1 {
          if busiest.Some? {
            asked := busiest;
            if busiest.value in mailboxes {
              mailboxes := mailboxes[busiest.value := mailboxes[busiest.value] + [DisownQueuedVirtualCore(p)]];
            }
          }
        }
      }
    }

    /**
     * `run_next`: one pass on a core that can run guests, and housekeeping when it may not return
     * empty-handed or cannot run guests at all. `finished` is false when the pass must be repeated.
     */
    method RunNext(p: nat, mustSwitch: bool, order: seq<nat>)
      returns (finished: bool, panicked: bool, ghost asked: Option<nat>)
      requires Valid() && p < |queues| && forall q :: q in order <==> q in workload
      modifies this, queues[p], global, capsules.regions
      ensures panicked <==> H.Panics(old(Value()), p)
      ensures !smode[p] ==> !panicked && Schedule() == old(Schedule()) && windows == old(windows)
      ensures !panicked ==>
        var chosen := Sch.Chosen(old(Schedule()), p);
        var tidied := H.RunOn(old(Value()), p);
        && Valid()
        && (finished <==> !smode[p] || !mustSwitch || chosen.Some?)
        && Value() == (if smode[p] && finished then tidied
                       else tidied.(caps := tidied.caps.(free := Merge(tidied.caps.free))))
        && mailboxes == Posted(old(mailboxes), asked, p)
        && (if smode[p] && finished then asked == None else RightToAsk(global.Value(), workload, asked))
    {
      finished, panicked, asked := true, false, None;
      if smode[p] {
        var found;
        found, panicked := RunPass(p);
        if panicked { return; }
        if mustSwitch && !found {
          finished := false;
          asked := Housekeeping(p, order);
        }
      } else {
        asked := Housekeeping(p, order);
      }
    }

    /** Create a virtual core, queue it, and only then look for its capsule. */
    method CreateAndAddVcore(cid: nat, vid: nat, priority: Priority) returns (r: Result<()>)
      requires Valid()
      modifies global, capsules`capsules
      ensures Valid() && r == Caps.AddVcore(old(capsules.Value()), cid, vid).0
      ensures Value() ==
        H.Next(H.Next(old(Value()), H.QueueVcore(cid, vid, priority), capsules.ids), H.RecordVcore(cid, vid), capsules.ids)
    {
      global.Queue(VirtualCore(CanonicalId(cid, vid), priority));
      r := capsules.AddVcore(cid, vid);
    }

    /**
     * Create the boot capsule; `load` is what loading its binary gives. On success the system has
     * taken exactly the disciplined steps of `BootCapsule.BootCapsuleSteps`.
     */
    method CreateBootCapsule(load: Result<()>) returns (r: Result<()>)
      requires Valid() && FreeList(capsules.regions.regions)
      modifies global, capsules, capsules.regions
      ensures Valid()
      ensures r.Ok? <==>
        && Caps.Create(old(capsules.Value()), capsules.ids, true).0.Ok?
        && Alloc(old(capsules.regions.regions), Boot.BOOT_CAPSULE_RAM).result.Ok?
        && load.Ok?
      ensures r.Err? ==> Schedule() == old(Schedule()) && windows == old(windows)
      ensures r.Err? ==> BootFailed(old(capsules.Value()), capsules.Value(), capsules.ids, load, r.cause)
      ensures r.Ok? ==> BootDone(old(Value()), Value(), capsules.ids)
    {
      ghost var before, n := Value(), capsules.ids;
      var capid := capsules.Create(true);
      Caps.CreateOutcome(before.caps, n, true);
      if capid.Err? { return Err(capid.cause); }
      ghost var s1 := Value();
      assert s1 == H.Next(before, H.CreateCapsule(true), n);
      var ram := capsules.regions.AllocRegion(128 * 1024 * 1024);
      if ram.Err? { return Err(ram.cause); }
      var mapping := NO_MAPPING.SetPhysical(ram.value).Identity();
      assert mapping == Ok(H.MappingOf(ram.value, true));
      r := capsules.MapMemory(capid.value, mapping.value);
      if r.Err? { return; }
      if load.Err? {
        LeftBehind(before.caps, n, capid.value, ram.value);
        return Err(load.cause);
      }
      r := CreateAndAddVcore(capid.value, 0, High);
      BootRun(before, s1, Value(), n, capid.value, ram.value);
    }
  }

  /**
   * Why `create_boot_capsule` failed, and what it leaves behind: the ID counter wrapped to zero, a
   * capsule without memory, or one with its region mapped and no virtual core.
   */
  ghost predicate BootFailed(before: Caps.State, after: Caps.State, n: nat, load: Result<()>, cause: Cause)
    requires before.lastId < n
  {
    var (id, created) := Caps.Create(before, n, true);
    var m := Alloc(before.free, Boot.BOOT_CAPSULE_RAM);
    if id.Err? then cause == CapsuleIDExhaustion && after == before.(lastId := 0)
    else if m.result.Err? then cause == PhysNotEnoughFreeRAM && after == WithCapsule(before, id.value, [], {})
    else
      && load == Err(cause)
      && after == WithCapsule(before, id.value, [H.MappingOf(m.result.value, true)], {}).(free := m.free)
  }

  /** The state with a new auto-restarting capsule in it. */
  function WithCapsule(s: Caps.State, id: nat, memory: seq<Mapping>, vcores: set<nat>): Caps.State {
    s.(capsules := s.capsules[id := Caps.Capsule(true, vcores, memory, {})], lastId := id)
  }

  /** When it succeeds there is such a capsule, in 128 MB of its own, with virtual core 0 queued behind all others. */
  ghost predicate BootDone(before: H.System, after: H.System, n: nat)
    requires before.caps.lastId < n
  {
    var (id, _) := Caps.Create(before.caps, n, true);
    var m := Alloc(before.caps.free, Boot.BOOT_CAPSULE_RAM);
    && id.Ok? && m.result.Ok?
    && after.caps == WithCapsule(before.caps, id.value, [H.MappingOf(m.result.value, true)], {0}).(free := m.free)
    && after.sched == Sch.Create(before.sched, VirtualCore(CanonicalId(id.value, 0), High))
    && var steps := Boot.BootCapsuleSteps(id.value, 0);
       H.Runs(before, steps, n) && Iso.DisciplinedRun(before, steps, n) && after == H.Run(before, steps, n)
  }

  lemma OneMapping(m: Mapping)
    ensures [] + [m] == [m] && {} + {0} == {0}
  {
  }

  /** The states that `create_boot_capsule` goes through are those of the disciplined steps. */
  lemma BootRun(before: H.System, s1: H.System, after: H.System, n: nat, id: nat, r: Region)
    requires before.caps.lastId < n && before.dying.None? && before.pending == map[] && FreeList(before.caps.free)
    requires Caps.Create(before.caps, n, true).0 == Ok(id) && Alloc(before.caps.free, Boot.BOOT_CAPSULE_RAM).result == Ok(r)
    requires s1 == H.Next(before, H.CreateCapsule(true), n)
    requires after ==
      Boot.AfterVcore(
        s1.(caps := Caps.MapMemory(s1.caps.(free := Alloc(s1.caps.free, Boot.BOOT_CAPSULE_RAM).free), id, H.MappingOf(r, true)).1),
        n, id)
    ensures BootDone(before, after, n)
  {
    Boot.BootCapsuleDisciplined(before, n, 0);
    MappedDirectly(s1, n, id, r);
    LeftBehind(before.caps, n, id, r);
  }

  lemma LeftBehind(s: Caps.State, n: nat, id: nat, r: Region)
    requires s.lastId < n && Caps.Create(s, n, true).0 == Ok(id) && Alloc(s.free, Boot.BOOT_CAPSULE_RAM).result == Ok(r)
    ensures var m, free := H.MappingOf(r, true), Alloc(s.free, Boot.BOOT_CAPSULE_RAM).free;
      var created := Caps.Create(s, n, true).1.(free := free);
      && Caps.MapMemory(created, id, m).1 == WithCapsule(s, id, [m], {}).(free := free)
      && Caps.AddVcore(Caps.MapMemory(created, id, m).1, id, 0).1 == WithCapsule(s, id, [m], {0}).(free := free)
  {
    OneMapping(H.MappingOf(r, true));
  }

  /** Allocating and mapping in one go, with nothing left pending in between. */
  lemma MappedDirectly(s1: H.System, n: nat, id: nat, r: Region)
    requires s1.caps.lastId < n && s1.dying.None? && s1.pending == map[] && id in s1.caps.capsules
    requires Alloc(s1.caps.free, Boot.BOOT_CAPSULE_RAM).result == Ok(r)
    ensures Boot.AfterRam(s1, n, 0, id) ==
      Boot.AfterVcore(
        s1.(caps := Caps.MapMemory(s1.caps.(free := Alloc(s1.caps.free, Boot.BOOT_CAPSULE_RAM).free), id, H.MappingOf(r, true)).1),
        n, id)
  {
    var s2 := H.Next(s1, H.AllocRegion(Boot.BOOT_CAPSULE_RAM, 0), n);
    assert s2.pending - {0} == map[];
  }
}
