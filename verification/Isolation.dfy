/**
 * Isolation of capsules: exactly which runs keep every core's access window equal to the RAM of the
 * capsule it is running, and that the runs following the discipline of `create_boot_capsule` do.
 */
module Isolation {
  import opened Base
  import opened PhysMem
  import opened VirtMem
  import opened Queues
  import Sch = Scheduling
  import Caps = Capsules
  import opened Hypervisor

  /** The capsule exists and has exactly one physical region. */
  predicate Ready(caps: Caps.State, cid: nat) {
    cid in caps.capsules && |Caps.Backed(caps.capsules[cid].memory)| == 1
  }

  function RegionFor(caps: Caps.State, cid: nat): Region
    requires Ready(caps, cid)
  {
    Caps.Backed(caps.capsules[cid].memory)[0]
  }

  /** Core `p` is running a virtual core of capsule `cid`. */
  predicate Hosts(sys: System, p: int, cid: nat) {
    0 <= p < |sys.sched.cores| && sys.sched.cores[p].running.Some? && sys.sched.cores[p].running.value.id.capsule == cid
  }

  ghost predicate Hosted(sys: System, cid: nat) { exists p :: Hosts(sys, p, cid) }

  /** Core `p` can reach exactly the region of the capsule it is running. */
  ghost predicate Confined(sys: System, p: nat) {
    p < |sys.sched.cores| && sys.sched.cores[p].running.Some? ==>
      var cid := sys.sched.cores[p].running.value.id.capsule;
      Ready(sys.caps, cid) && p in sys.windows && sys.windows[p] == RegionFor(sys.caps, cid)
  }

  ghost predicate AllConfined(sys: System) { forall p: nat :: Confined(sys, p) }

  // ----- exactly which steps keep every core confined -----

  /** A switch is to a capsule with one region; no capsule being run is destroyed or given a region. */
  ghost predicate Careful(sys: System, s: Step)
    requires Allowed(sys, s)
  {
    match s
    case RunNext(p) =>
      Enforces(sys, p) && !Panics(sys, p) ==> Ready(sys.caps, Sch.Chosen(sys.sched, p).value.id.capsule)
    case Destroy(cid) => !Hosted(sys, cid)
    case MapRegion(_, cid, _) => !Hosted(sys, cid)
    case _ => true
  }

  lemma PassRunning(s: Sch.Sched, p: nat, q: nat)
    requires p < |s.cores| && q < |s.cores|
    ensures Sch.RunPass(s, p).cores[q].running ==
      if q == p && Sch.Chosen(s, p).Some? then Sch.Chosen(s, p) else s.cores[q].running
  {
  }

  /** Switches within a capsule skip enforcement, and the window they leave in place is the right one. */
  lemma PassConfinedExactly(sys: System, p: nat, n: nat)
    requires AllConfined(sys) && Allowed(sys, RunNext(p)) && sys.caps.lastId < n
    ensures AllConfined(RunOn(sys, p)) <==> Careful(sys, RunNext(p))
  {
    var sys' := RunOn(sys, p);
    forall q: nat ensures Confined(sys', q) <==> (q == p ==> Careful(sys, RunNext(p))) {
      assert Confined(sys, q);
      if q < |sys'.sched.cores| { PassRunning(sys.sched, p, q); }
    }
    assert Confined(sys', p) <==> Careful(sys, RunNext(p));
  }

  lemma {:induction false} BackedAppend(memory: seq<Mapping>, m: Mapping)
    ensures Caps.Backed(memory + [m]) == Caps.Backed(memory) + (if m.physical.Some? then [m.physical.value] else [])
    decreases |memory|
  {
    var last: seq<Region> := if m.physical.Some? then [m.physical.value] else [];
    JoinEmpty(last);
    if memory == [] {
      JoinEmpty([m]);
      assert [m][1..] == [];
    } else {
      JoinTail(memory, [m]);
      BackedAppend(memory[1..], m);
      JoinThree(if memory[0].physical.Some? then [memory[0].physical.value] else [], Caps.Backed(memory[1..]), last);
    }
  }

  /** Apart from mapping into it or destroying it, nothing takes a capsule away or changes its memory. */
  lemma CapsuleKept(sys: System, s: Step, n: nat, cid: nat)
    requires Allowed(sys, s) && sys.caps.lastId < n && cid in sys.caps.capsules
    requires s != Destroy(cid) && !(s.MapRegion? && s.cid == cid)
    ensures var capsules := Next(sys, s, n).caps.capsules;
      cid in capsules && capsules[cid].memory == sys.caps.capsules[cid].memory
  {
    if s.CreateCapsule? {
      Caps.CreateOutcome(sys.caps, n, s.restart);
    } else if !TouchesCapsules(s) {
      OthersKeepCapsules(sys, s, n);
    }
  }

  /** A capsule with a region that is destroyed, or given another, is no longer one with one region. */
  lemma NoLongerReady(sys: System, s: Step, n: nat, cid: nat)
    requires Allowed(sys, s) && sys.caps.lastId < n && Ready(sys.caps, cid)
    requires s == Destroy(cid) || (s.MapRegion? && s.cid == cid)
    ensures !Ready(Next(sys, s, n).caps, cid)
    ensures s.MapRegion? ==> Caps.Enforce(Next(sys, s, n).caps, cid) == Caps.Panicked
  {
    if s.MapRegion? { BackedAppend(sys.caps.capsules[cid].memory, MappingOf(sys.pending[s.h], s.identity)); }
  }

  lemma QuietStep(sys: System, s: Step, n: nat)
    requires Allowed(sys, s) && sys.caps.lastId < n && !s.RunNext?
    ensures Next(sys, s, n).sched.cores == sys.sched.cores && Next(sys, s, n).windows == sys.windows
  {
  }

  /** A core stays confined through a step that is not a pass unless the step is aimed at its capsule. */
  lemma QuietConfinedExactly(sys: System, s: Step, n: nat, p: nat)
    requires Confined(sys, p) && Allowed(sys, s) && sys.caps.lastId < n && !s.RunNext?
    ensures Confined(Next(sys, s, n), p) <==> !((s.Destroy? || s.MapRegion?) && Hosts(sys, p, s.cid))
  {
    QuietStep(sys, s, n);
    if p < |sys.sched.cores| && sys.sched.cores[p].running.Some? {
      var cid := sys.sched.cores[p].running.value.id.capsule;
      if (s.Destroy? || s.MapRegion?) && s.cid == cid {
        NoLongerReady(sys, s, n, cid);
      } else {
        CapsuleKept(sys, s, n, cid);
      }
    }
  }

  lemma StepConfinedExactly(sys: System, s: Step, n: nat)
    requires AllConfined(sys) && Allowed(sys, s) && sys.caps.lastId < n
    ensures AllConfined(Next(sys, s, n)) <==> Careful(sys, s)
  {
    if s.RunNext? {
      PassConfinedExactly(sys, s.p, n);
    } else {
      forall p: nat
        ensures Confined(Next(sys, s, n), p) <==> !((s.Destroy? || s.MapRegion?) && Hosts(sys, p, s.cid))
      {
        QuietConfinedExactly(sys, s, n, p);
      }
      if !Careful(sys, s) {
        var p :| Hosts(sys, p, s.cid);
        assert !Confined(Next(sys, s, n), p);
      }
    }
  }

  // ----- exactly which runs do -----

  /** Every core is confined in every state of the run. */
  ghost predicate ConfinedThroughout(sys: System, steps: seq<Step>, n: nat)
    requires sys.caps.lastId < n && Runs(sys, steps, n)
    decreases |steps|
  {
    AllConfined(sys) && (steps == [] || ConfinedThroughout(Next(sys, steps[0], n), steps[1..], n))
  }

  ghost predicate CarefulRun(sys: System, steps: seq<Step>, n: nat)
    requires sys.caps.lastId < n && Runs(sys, steps, n)
    decreases |steps|
  {
    steps == [] || (Careful(sys, steps[0]) && CarefulRun(Next(sys, steps[0], n), steps[1..], n))
  }

  lemma {:induction false} RunConfinedExactly(sys: System, steps: seq<Step>, n: nat)
    requires sys.caps.lastId < n && Runs(sys, steps, n) && AllConfined(sys)
    ensures ConfinedThroughout(sys, steps, n) <==> CarefulRun(sys, steps, n)
    ensures CarefulRun(sys, steps, n) ==> AllConfined(Run(sys, steps, n))
    decreases |steps|
  {
    if steps != [] {
      var sys' := Next(sys, steps[0], n);
      StepConfinedExactly(sys, steps[0], n);
      if AllConfined(sys') { RunConfinedExactly(sys', steps[1..], n); }
      assert ConfinedThroughout(sys', steps[1..], n) ==> AllConfined(sys');
    }
  }

  /** A capsule's region shares no address with free RAM. */
  lemma RegionClear(sys: System, ram: Regions, n: nat, c: nat)
    requires Sound(sys, ram, n) && Ready(sys.caps, c)
    ensures Clear(sys.caps.free, RegionFor(sys.caps, c))
  {
    var i := BackedSlot(sys.caps.capsules[c].memory);
    assert Caps.Holds(Ledger(sys), sys.pending, Caps.Mapped(c, i));
    assert Caps.Held(Ledger(sys), sys.pending, Caps.Mapped(c, i)) == RegionFor(sys.caps, c);
  }

  /** Different capsules' regions share no address. */
  lemma RegionsApart(sys: System, ram: Regions, n: nat, c: nat, d: nat)
    requires Sound(sys, ram, n) && Ready(sys.caps, c) && Ready(sys.caps, d) && c != d
    ensures Apart(RegionFor(sys.caps, c), RegionFor(sys.caps, d))
  {
    var i := BackedSlot(sys.caps.capsules[c].memory);
    var j := BackedSlot(sys.caps.capsules[d].memory);
    var books := Ledger(sys);
    assert Caps.Holds(books, sys.pending, Caps.Mapped(c, i)) && Caps.Holds(books, sys.pending, Caps.Mapped(d, j));
    assert Caps.Held(books, sys.pending, Caps.Mapped(c, i)) == RegionFor(sys.caps, c);
    assert Caps.Held(books, sys.pending, Caps.Mapped(d, j)) == RegionFor(sys.caps, d);
  }

  lemma {:induction false} BackedSlot(memory: seq<Mapping>) returns (j: nat)
    requires Caps.Backed(memory) != []
    ensures j < |memory| && memory[j].physical == Some(Caps.Backed(memory)[0])
    decreases |memory|
  {
    if memory[0].physical.Some? {
      j := 0;
    } else {
      j := BackedSlot(memory[1..]);
      j := j + 1;
    }
  }

  /** Windows hold no free RAM and do not overlap. */
  ghost predicate WindowsApart(sys: System) {
    && (forall p, cid :: Hosts(sys, p, cid) ==> p in sys.windows && Clear(sys.caps.free, sys.windows[p]))
    && (forall p, c, q, d :: Hosts(sys, p, c) && Hosts(sys, q, d) && c != d ==>
          p in sys.windows && q in sys.windows && Apart(sys.windows[p], sys.windows[q]))
  }

  lemma ConfinedMeansApart(sys: System, ram: Regions, n: nat)
    requires Sound(sys, ram, n) && AllConfined(sys)
    ensures WindowsApart(sys)
  {
    forall p, cid | Hosts(sys, p, cid)
      ensures p in sys.windows && Ready(sys.caps, cid) && sys.windows[p] == RegionFor(sys.caps, cid)
      ensures Clear(sys.caps.free, sys.windows[p])
    {
      assert Confined(sys, p);
      RegionClear(sys, ram, n, cid);
    }
    forall p, c, q, d | Hosts(sys, p, c) && Hosts(sys, q, d) && c != d
      ensures Apart(sys.windows[p], sys.windows[q])
    {
      RegionsApart(sys, ram, n, c, d);
    }
  }

  /**
   * Isolation over whole runs, exactly: in a run from boot every core that runs a virtual core has as
   * its window, in every state, just its capsule's region if and only if each switch that enforces
   * without panicking is to a capsule with one region, and no capsule is destroyed or given a region
   * while a core is running it. Then no window holds free RAM, and cores running different capsules
   * have windows that share no address.
   */
  lemma IsolationExactly(sections: Regions, smode: seq<bool>, steps: seq<Step>, n: nat)
    requires 0 < n && Runs(Boot(sections, smode), steps, n)
    ensures ConfinedThroughout(Boot(sections, smode), steps, n) <==> CarefulRun(Boot(sections, smode), steps, n)
    ensures AllApart(sections) && CarefulRun(Boot(sections, smode), steps, n) ==>
      AllConfined(Run(Boot(sections, smode), steps, n)) && WindowsApart(Run(Boot(sections, smode), steps, n))
  {
    RunConfinedExactly(Boot(sections, smode), steps, n);
    if AllApart(sections) && CarefulRun(Boot(sections, smode), steps, n) {
      ExclusiveOwnership(sections, smode, steps, n);
      ConfinedMeansApart(Run(Boot(sections, smode), steps, n), sections, n);
    }
  }

  // ----- the discipline of create_boot_capsule -----

  /**
   * A capsule gets one region, virtual cores only once it has it, and is destroyed only if it has no
   * virtual core anywhere.
   */
  predicate Disciplined(sys: System, s: Step) {
    match s
    case QueueVcore(cid, _, _) => Ready(sys.caps, cid)
    case MapRegion(_, cid, _) => cid in sys.caps.capsules ==> Caps.Backed(sys.caps.capsules[cid].memory) == []
    case Destroy(cid) => Unused(sys, cid)
    case _ => true
  }

  /** No virtual core of this capsule is queued or running. */
  predicate Unused(sys: System, cid: nat) {
    forall v :: v in Sch.Placed(sys.sched) ==> v.id.capsule != cid
  }

  ghost predicate DisciplinedRun(sys: System, steps: seq<Step>, n: nat)
    requires sys.caps.lastId < n && Runs(sys, steps, n)
    decreases |steps|
  {
    steps == [] || (Disciplined(sys, steps[0]) && DisciplinedRun(Next(sys, steps[0], n), steps[1..], n))
  }

  /** Everything that is queued or running is of a capsule with one region. */
  ghost predicate AllReady(sys: System) {
    forall v :: v in Sch.Placed(sys.sched) ==> Ready(sys.caps, v.id.capsule)
  }

  ghost predicate Isolated(sys: System) { AllReady(sys) && AllConfined(sys) }

  lemma RunningIsPlaced(s: Sch.Sched, p: nat)
    requires p < |s.cores| && s.cores[p].running.Some?
    ensures s.cores[p].running.value in Sch.Placed(s)
  {
    Sch.BagsAt(s.cores, p);
    Sch.PartOfSum(Sch.Bags(s.cores), p, s.cores[p].running.value);
  }

  lemma ChosenIsPlaced(s: Sch.Sched, p: nat)
    requires p < |s.cores| && Sch.Chosen(s, p).Some?
    ensures Sch.Chosen(s, p).value in Sch.Placed(s)
  {
    if Dequeue(s.global).next.Some? {
      Sch.AdoptBags(s, p);
    } else {
      Sch.ResumeBags(s, p);
      Sch.PartOfSum(Sch.Bags(s.cores), p, Sch.Chosen(s, p).value);
    }
  }

  lemma NoPanic(sys: System, p: nat)
    requires AllReady(sys) && p < |sys.sched.cores|
    ensures !Panics(sys, p)
    ensures Enforces(sys, p) ==>
      var cid := Sch.Chosen(sys.sched, p).value.id.capsule;
      Ready(sys.caps, cid) && Verdict(sys, p) == Caps.Granted(RegionFor(sys.caps, cid))
  {
    if Sch.Chosen(sys.sched, p).Some? { ChosenIsPlaced(sys.sched, p); }
  }

  lemma DisciplinedIsCareful(sys: System, s: Step)
    requires AllReady(sys) && Allowed(sys, s) && Disciplined(sys, s)
    ensures Careful(sys, s)
  {
    if s.RunNext? {
      NoPanic(sys, s.p);
    } else if s.Destroy? || s.MapRegion? {
      forall p | Hosts(sys, p, s.cid) ensures false { RunningIsPlaced(sys.sched, p); }
    }
  }

  /** Which virtual cores there are after a step. */
  lemma PlacedAfter(sys: System, s: Step, v: VirtualCore)
    requires Allowed(sys, s) && v in Sch.Placed(ScheduleAfter(sys, s))
    ensures v in Sch.Placed(sys.sched) || (s.QueueVcore? && v.id == CanonicalId(s.cid, s.vid))
  {
    if s.QueueVcore? { EnqueueBag(sys.sched.global, VirtualCore(CanonicalId(s.cid, s.vid), s.priority)); }
    if s.RunNext? { Sch.PassKeepsPlaced(sys.sched, s.p); }
  }

  lemma StepKeepsReady(sys: System, s: Step, n: nat)
    requires AllReady(sys) && Allowed(sys, s) && sys.caps.lastId < n && Disciplined(sys, s)
    ensures AllReady(Next(sys, s, n))
  {
    SchedulesSo(sys, s, n);
    forall v | v in Sch.Placed(ScheduleAfter(sys, s)) ensures Ready(Next(sys, s, n).caps, v.id.capsule) {
      PlacedAfter(sys, s, v);
      CapsuleKept(sys, s, n, v.id.capsule);
    }
  }

  lemma StepKeepsIsolated(sys: System, s: Step, n: nat)
    requires Isolated(sys) && Allowed(sys, s) && sys.caps.lastId < n && Disciplined(sys, s)
    ensures Isolated(Next(sys, s, n))
  {
    DisciplinedIsCareful(sys, s);
    StepConfinedExactly(sys, s, n);
    StepKeepsReady(sys, s, n);
  }

  /** A disciplined run is careful, and leaves everything ready to run. */
  lemma {:induction false} DisciplineSuffices(sys: System, steps: seq<Step>, n: nat)
    requires AllReady(sys) && sys.caps.lastId < n && Runs(sys, steps, n) && DisciplinedRun(sys, steps, n)
    ensures CarefulRun(sys, steps, n) && AllReady(Run(sys, steps, n))
    decreases |steps|
  {
    if steps != [] {
      DisciplinedIsCareful(sys, steps[0]);
      StepKeepsReady(sys, steps[0], n);
      DisciplineSuffices(Next(sys, steps[0], n), steps[1..], n);
    }
  }

  lemma RunKeepsIsolated(sys: System, steps: seq<Step>, n: nat)
    requires Isolated(sys) && sys.caps.lastId < n && Runs(sys, steps, n) && DisciplinedRun(sys, steps, n)
    ensures Isolated(Run(sys, steps, n))
  {
    DisciplineSuffices(sys, steps, n);
    RunConfinedExactly(sys, steps, n);
  }

  lemma BootReady(sections: Regions, smode: seq<bool>)
    ensures AllReady(Boot(sections, smode))
  {
    Sch.BootConsistent(smode);
  }

  /**
   * Whatever disciplined steps are taken on any number of cores, no pass panics, each core that runs
   * a virtual core has as its window exactly its capsule's region, even though switches within a
   * capsule skip enforcement, that window holds no free RAM, and cores running different capsules have
   * windows that share no address.
   */
  lemma IsolationTheorem(sections: Regions, smode: seq<bool>, steps: seq<Step>, n: nat)
    requires AllApart(sections) && 0 < n && Runs(Boot(sections, smode), steps, n)
    requires DisciplinedRun(Boot(sections, smode), steps, n)
    ensures var sys := Run(Boot(sections, smode), steps, n);
      && (forall p :: 0 <= p < |sys.sched.cores| ==> !Panics(sys, p))
      && (forall p, cid :: Hosts(sys, p, cid) ==>
            p in sys.windows && cid in sys.caps.capsules
            && Caps.Backed(sys.caps.capsules[cid].memory) == [sys.windows[p]]
            && Clear(sys.caps.free, sys.windows[p]))
      && (forall p, c, q, d :: Hosts(sys, p, c) && Hosts(sys, q, d) && c != d ==>
            p in sys.windows && q in sys.windows && Apart(sys.windows[p], sys.windows[q]))
  {
    var sys := Run(Boot(sections, smode), steps, n);
    BootReady(sections, smode);
    DisciplineSuffices(Boot(sections, smode), steps, n);
    IsolationExactly(sections, smode, steps, n);
    forall p | 0 <= p < |sys.sched.cores| ensures !Panics(sys, p) { NoPanic(sys, p); }
    forall p, cid | Hosts(sys, p, cid)
      ensures p in sys.windows && Ready(sys.caps, cid) && sys.windows[p] == RegionFor(sys.caps, cid)
    {
      assert Confined(sys, p);
    }
  }

  // ----- what goes wrong otherwise -----

  /**
   * Switching to another capsule gives the core that capsule's own RAM exactly when the capsule has
   * one physical region. With none, the previous window stays in force.
   */
  lemma SwitchGrantsExactly(sys: System, p: nat)
    requires p < |sys.sched.cores| && Enforces(sys, p) && !Panics(sys, p)
    ensures var cid := Sch.Chosen(sys.sched, p).value.id.capsule;
      var sys' := RunOn(sys, p);
      && (Ready(sys.caps, cid) <==>
            p in sys'.windows && cid in sys.caps.capsules && sys'.windows[p] in Caps.Backed(sys.caps.capsules[cid].memory))
      && (!Ready(sys.caps, cid) ==> sys'.windows == sys.windows)
  {
  }

  /** Giving a capsule a second region makes every later switch to it from another capsule a panic. */
  lemma SecondRegionPanics(sys: System, h: nat, cid: nat, identity: bool, n: nat, p: nat)
    requires Allowed(sys, MapRegion(h, cid, identity)) && sys.caps.lastId < n && Ready(sys.caps, cid)
    ensures var sys' := Next(sys, MapRegion(h, cid, identity), n);
      && (Hosts(sys, p, cid) ==> !Confined(sys', p))
      && (p < |sys'.sched.cores| && Enforces(sys', p) && Sch.Chosen(sys'.sched, p).value.id.capsule == cid ==> Panics(sys', p))
  {
    NoLongerReady(sys, MapRegion(h, cid, identity), n, cid);
    QuietStep(sys, MapRegion(h, cid, identity), n);
  }

  /**
   * Destroying a capsule of an isolated system leaves every core's window exact if and only if no
   * core is running the capsule. What may run later is another matter: everything queued can still
   * be run safely if and only if none of it belongs to the capsule.
   */
  lemma DestroyIsolatedExactly(sys: System, cid: nat, n: nat)
    requires Isolated(sys) && sys.caps.lastId < n && sys.dying.None? && cid in sys.caps.capsules
    ensures (forall p: nat :: Confined(Next(sys, Destroy(cid), n), p)) <==> (forall p: nat :: !Hosts(sys, p, cid))
    ensures AllReady(Next(sys, Destroy(cid), n)) <==> Unused(sys, cid)
  {
    var sys' := Next(sys, Destroy(cid), n);
    StepConfinedExactly(sys, Destroy(cid), n);
    if Unused(sys, cid) { StepKeepsReady(sys, Destroy(cid), n); }
    if v :| v in Sch.Placed(sys.sched) && v.id.capsule == cid {
      assert v in Sch.Placed(sys'.sched) && !Ready(sys'.caps, v.id.capsule);
    }
  }

  /**
   * When a core next chooses a virtual core left behind by a destroyed capsule, enforcement finds no
   * capsule and the window stays: the dead capsule runs in the RAM of the live one it takes over from.
   */
  lemma DeadCapsuleRunsInAnothers(sys: System, p: nat, dead: nat, live: nat, n: nat)
    requires Isolated(sys) && sys.caps.lastId < n && sys.dying.None? && dead in sys.caps.capsules && dead != live
    requires Hosts(sys, p, live) && Sch.Chosen(sys.sched, p).Some? && Sch.Chosen(sys.sched, p).value.id.capsule == dead
    ensures var gone := Destroyed(sys, dead);
      && Allowed(gone, RunNext(p)) && Verdict(gone, p) == Caps.NoCapsule && !Panics(gone, p)
      && var after := Next(gone, RunNext(p), n);
         && Hosts(after, p, dead) && dead !in after.caps.capsules
         && Ready(after.caps, live) && p in after.windows && after.windows[p] == RegionFor(after.caps, live)
  {
    var gone := Destroyed(sys, dead);
    assert Confined(sys, p);
    PassRunning(gone.sched, p, p);
  }

  /**
   * If a core is running it the damage is done as soon as the teardown is: a core still running the
   * destroyed capsule keeps a window every address of which is now free RAM, ready to be handed to
   * someone else.
   */
  lemma DestroyLeavesOpenWindow(sys: System, cid: nat, p: nat, ram: Regions, n: nat)
    requires Sound(sys, ram, n) && Isolated(sys) && sys.dying.None? && Hosts(sys, p, cid)
    ensures var sys' := Destroyed(sys, cid);
      && Hosts(sys', p, cid) && cid !in sys'.caps.capsules
      && p in sys'.windows && forall a :: sys'.windows[p].Has(a) ==> Covered(sys'.caps.free, a)
  {
    assert Confined(sys, p);
    var caps, memory := sys.caps, sys.caps.capsules[cid].memory;
    var i := BackedSlot(memory);
    forall j | Caps.HasRegion(memory, j)
      ensures Caps.Holds(caps, sys.pending, Caps.Mapped(cid, j))
      ensures Caps.Held(caps, sys.pending, Caps.Mapped(cid, j)) == memory[j].physical.value
    {
    }
    Caps.ReleaseOutcome(caps.free, memory);
    forall a | sys.windows[p].Has(a) ensures Covered(Caps.Release(caps.free, memory), a) {
      assert Caps.HasRegion(memory, i);
      assert Caps.BackedHas(memory, a);
    }
  }
}
