/**
 * The whole hypervisor as one state machine: capsules and their RAM, services, the scheduler, and
 * the access window the hardware enforces on each physical core.
 */
module Hypervisor {
  import opened Base
  import opened PhysMem
  import opened VirtMem
  import opened Queues
  import Sch = Scheduling
  import Turns = CoreTurns
  import Caps = Capsules

  datatype System = System(
    caps: Caps.State,
    pending: map<nat, Region>,     // regions allocated and not yet mapped into a capsule
    sched: Sch.Sched,
    windows: map<nat, Region>,     // the window last granted on each core
    checks: multiset<Check>,       // permission checks passed by `register` calls not yet at their entry
    dying: Option<Dying>)          // the capsule that a `destroy` still under way is tearing down

  /** A service and the capsule that wants to register it. */
  datatype Check = Check(sid: nat, cid: nat)

  /** A capsule taken out of the table, with the memory and services not yet given back. */
  datatype Dying = Dying(cid: nat, left: Caps.Capsule)

  datatype Step =
    | CreateCapsule(restart: bool)
    | AllocRegion(size: nat, h: nat)
    | FreeRegion(h: nat)
    | MapRegion(h: nat, cid: nat, identity: bool)
    | QueueVcore(cid: nat, vid: nat, priority: Priority)   // the first half of `create_and_add_vcore`
    | RecordVcore(cid: nat, vid: nat)                      // its second half, under another lock
    | AllowService(cid: nat, sid: nat)
    | CheckService(sid: nat, cid: nat)     // the first half of `register`
    | EnterService(sid: nat, cid: nat)     // its second half, under another lock
    | Deregister(sid: nat)
    | Destroy(cid: nat)                    // `destroy` takes the capsule out of the table,
    | Reclaim                              // deals with its mappings one by one,
    | Withdraw(sid: nat)                   // and with its services one by one,
    | EndDestroy                           // and unlocks the table
    | Coalesce
    | RunNext(p: nat)

  function Boot(sections: Regions, smode: seq<bool>): System {
    System(Caps.State(map[], 0, map[], RegisterSections([], sections)), map[], Sch.Boot(smode), map[], multiset{},
           None)
  }

  function MappingOf(r: Region, identity: bool): Mapping {
    Mapping(if identity then Some(r.base) else None, Some(r))
  }

  /** A pass that stays within one capsule, or finds nothing to run, leaves the window alone. */
  predicate Enforces(sys: System, p: nat)
    requires p < |sys.sched.cores|
  {
    var next, current := Sch.Chosen(sys.sched, p), sys.sched.cores[p].running;
    next.Some? && (current.None? || current.value.id.capsule != next.value.id.capsule)
  }

  /** What `enforce` answers for the virtual core that core `p` is about to run. */
  function Verdict(sys: System, p: nat): Caps.Enforcement
    requires p < |sys.sched.cores| && Sch.Chosen(sys.sched, p).Some?
  {
    Caps.Enforce(sys.caps, Sch.Chosen(sys.sched, p).value.id.capsule)
  }

  predicate Panics(sys: System, p: nat)
    requires p < |sys.sched.cores|
  {
    Enforces(sys, p) && Verdict(sys, p).Panicked?
  }

  /** One pass of `run_next`; a system that panics stops where it is. */
  function RunOn(sys: System, p: nat): System
    requires p < |sys.sched.cores|
  {
    if Panics(sys, p) then sys
    else
      sys.(sched := Sch.RunPass(sys.sched, p),
           windows := if Enforces(sys, p) && Verdict(sys, p).Granted? then sys.windows[p := Verdict(sys, p).r] else sys.windows)
  }

  /** The step takes the lock on the capsule table, which `destroy` keeps until it is done. */
  predicate LocksTable(sys: System, s: Step) {
    match s
    case CreateCapsule(_) => true
    case MapRegion(_, _, _) => true
    case RecordVcore(_, _) => true
    case AllowService(_, _) => true
    case CheckService(_, _) => true
    case Destroy(_) => true
    case RunNext(p) => p < |sys.sched.cores| && Enforces(sys, p)
    case _ => false
  }

  /** The step names things that exist, and does not have to wait for the capsule table. */
  predicate Allowed(sys: System, s: Step) {
    && (LocksTable(sys, s) ==> sys.dying.None?)
    && match s
       case AllocRegion(_, h) => h !in sys.pending
       case FreeRegion(h) => h in sys.pending
       case MapRegion(h, _, _) => h in sys.pending
       case EnterService(sid, cid) => Check(sid, cid) in sys.checks
       case Reclaim => sys.dying.Some? && sys.dying.value.left.memory != []
       case Withdraw(sid) =>
         sys.dying.Some? && sys.dying.value.left.memory == [] && sid in sys.dying.value.left.allowed
       case EndDestroy =>
         sys.dying.Some? && sys.dying.value.left.memory == [] && sys.dying.value.left.allowed == {}
       case RunNext(p) => p < |sys.sched.cores|
       case _ => true
  }

  /** `n` is the number of capsule IDs a machine word can hold. */
  function Next(sys: System, s: Step, n: nat): (sys': System)
    requires Allowed(sys, s) && sys.caps.lastId < n
    ensures sys'.caps.lastId < n
  {
    match s
    case CreateCapsule(restart) => sys.(caps := Caps.Create(sys.caps, n, restart).1)
    case AllocRegion(size, h) =>
      var m := Alloc(sys.caps.free, size);
      if m.result.Ok? then sys.(caps := sys.caps.(free := m.free), pending := sys.pending[h := m.result.value]) else sys
    case FreeRegion(h) =>
      sys.(caps := sys.caps.(free := InsertOrKeep(sys.caps.free, sys.pending[h])), pending := sys.pending - {h})
    case MapRegion(h, cid, identity) =>
      var (r, caps) := Caps.MapMemory(sys.caps, cid, MappingOf(sys.pending[h], identity));
      if r.Ok? then sys.(caps := caps, pending := sys.pending - {h}) else sys
    case QueueVcore(cid, vid, priority) =>
      sys.(sched := Sch.Create(sys.sched, VirtualCore(CanonicalId(cid, vid), priority)))
    case RecordVcore(cid, vid) => sys.(caps := Caps.AddVcore(sys.caps, cid, vid).1)
    case AllowService(cid, sid) => sys.(caps := Caps.AllowService(sys.caps, cid, sid).1)
    case CheckService(sid, cid) =>
      if Caps.IsServiceAllowed(sys.caps, cid, sid) == Some(true)
      then sys.(checks := sys.checks + multiset{Check(sid, cid)}) else sys
    case EnterService(sid, cid) =>
      sys.(caps := Caps.EnterService(sys.caps, sid, cid).1, checks := sys.checks - multiset{Check(sid, cid)})
    case Deregister(sid) => sys.(caps := Caps.Deregister(sys.caps, sid).1)
    case Destroy(cid) =>
      if cid in sys.caps.capsules
      then sys.(caps := sys.caps.(capsules := sys.caps.capsules - {cid}), dying := Some(Dying(cid, sys.caps.capsules[cid])))
      else sys
    case Reclaim =>
      var Dying(cid, left) := sys.dying.value;
      var free := match left.memory[0].physical case Some(r) => InsertOrKeep(sys.caps.free, r) case None => sys.caps.free;
      sys.(caps := sys.caps.(free := free), dying := Some(Dying(cid, left.(memory := left.memory[1..]))))
    case Withdraw(sid) =>
      var Dying(cid, left) := sys.dying.value;
      sys.(caps := Caps.Deregister(sys.caps, sid).1, dying := Some(Dying(cid, left.(allowed := left.allowed - {sid}))))
    case EndDestroy => sys.(dying := None)
    case Coalesce => sys.(caps := sys.caps.(free := Merge(sys.caps.free)))
    case RunNext(p) => RunOn(sys, p)
  }

  ghost predicate Runs(sys: System, steps: seq<Step>, n: nat)
    requires sys.caps.lastId < n
    decreases |steps|
  {
    steps == [] || (Allowed(sys, steps[0]) && Runs(Next(sys, steps[0], n), steps[1..], n))
  }

  ghost function Run(sys: System, steps: seq<Step>, n: nat): (sys': System)
    requires sys.caps.lastId < n && Runs(sys, steps, n)
    ensures sys'.caps.lastId < n
    decreases |steps|
  {
    if steps == [] then sys else Run(Next(sys, steps[0], n), steps[1..], n)
  }

  /** One more step at the end of a run that has reached `mid`. */
  lemma {:induction false} ThenStep(sys: System, steps: seq<Step>, mid: System, s: Step, n: nat)
    requires sys.caps.lastId < n && Runs(sys, steps, n) && Run(sys, steps, n) == mid
    requires mid.caps.lastId < n && Allowed(mid, s)
    ensures Runs(sys, steps + [s], n) && Run(sys, steps + [s], n) == Next(mid, s, n)
    decreases |steps|
  {
    var more := steps + [s];
    if steps == [] {
      assert more == [s] && more[1..] == [];
    } else {
      assert more[0] == steps[0] && more[1..] == steps[1..] + [s];
      ThenStep(Next(sys, steps[0], n), steps[1..], mid, s, n);
    }
  }

  lemma ThenRun(sys: System, s: Step, rest: seq<Step>, n: nat)
    requires sys.caps.lastId < n && Allowed(sys, s) && Runs(Next(sys, s, n), rest, n)
    ensures Runs(sys, [s] + rest, n) && Run(sys, [s] + rest, n) == Run(Next(sys, s, n), rest, n)
  {
    assert ([s] + rest)[1..] == rest;
  }

  lemma {:induction false} RunJoin(sys: System, s: seq<Step>, t: seq<Step>, n: nat)
    requires sys.caps.lastId < n && Runs(sys, s, n) && Runs(Run(sys, s, n), t, n)
    ensures Runs(sys, s + t, n) && Run(sys, s + t, n) == Run(Run(sys, s, n), t, n)
    decreases |s|
  {
    if s == [] {
      JoinEmpty(t);
    } else {
      JoinTail(s, t);
      RunJoin(Next(sys, s[0], n), s[1..], t, n);
    }
  }

  // ----- teardown -----

  /** The capsule being torn down is no longer in the table. */
  predicate DyingIsGone(sys: System) { sys.dying.Some? ==> sys.dying.value.cid !in sys.caps.capsules }

  /** The capsules in the table, and the one being torn down with what it has not yet given back. */
  function Ledger(sys: System): Caps.State {
    if sys.dying.None? then sys.caps
    else sys.caps.(capsules := sys.caps.capsules[sys.dying.value.cid := sys.dying.value.left])
  }

  lemma StepKeepsGone(sys: System, s: Step, n: nat)
    requires Allowed(sys, s) && sys.caps.lastId < n && DyingIsGone(sys)
    ensures DyingIsGone(Next(sys, s, n))
  {
    if !TouchesCapsules(s) { OthersKeepCapsules(sys, s, n); }
  }

  /** Taking the capsule out of the table gives nothing back yet. */
  lemma DestroyKeepsLedger(sys: System, cid: nat, n: nat)
    requires Allowed(sys, Destroy(cid)) && sys.caps.lastId < n
    ensures Ledger(Next(sys, Destroy(cid), n)) == Ledger(sys)
  {
    var capsules: map<nat, Caps.Capsule> := sys.caps.capsules;
    assert cid in capsules ==> (capsules - {cid})[cid := capsules[cid]] == capsules;
  }

  /** Where a teardown gets to when nothing comes in between. */
  function TornDown(sys: System): System
    requires sys.dying.Some?
  {
    var left := sys.dying.value.left;
    sys.(caps := sys.caps.(free := Caps.Release(sys.caps.free, left.memory), services := sys.caps.services - left.allowed),
         dying := None)
  }

  lemma TeardownGoesOn(sys: System, s: Step, n: nat)
    requires Allowed(sys, s) && sys.caps.lastId < n && (s.Reclaim? || s.Withdraw?)
    ensures TornDown(Next(sys, s, n)) == TornDown(sys)
  {
    if s.Withdraw? {
      var allowed := sys.dying.value.left.allowed;
      assert Caps.Deregister(sys.caps, s.sid).1.services - (allowed - {s.sid}) == sys.caps.services - allowed;
    }
  }

  lemma TeardownEnds(sys: System, n: nat)
    requires Allowed(sys, EndDestroy) && sys.caps.lastId < n
    ensures Next(sys, EndDestroy, n) == TornDown(sys)
  {
    assert sys.caps.services - {} == sys.caps.services;
  }

  lemma {:induction false} TeardownRest(sys: System, n: nat) returns (steps: seq<Step>)
    requires sys.caps.lastId < n && sys.dying.Some?
    ensures Runs(sys, steps, n) && Run(sys, steps, n) == TornDown(sys)
    decreases |sys.dying.value.left.memory|, |sys.dying.value.left.allowed|
  {
    var left := sys.dying.value.left;
    if left.memory == [] && left.allowed == {} {
      steps := [EndDestroy] + [];
      ThenRun(sys, EndDestroy, [], n);
      TeardownEnds(sys, n);
    } else {
      var s := Reclaim;
      if left.memory == [] {
        var sid :| sid in left.allowed;
        s := Withdraw(sid);
      }
      var rest := TeardownRest(Next(sys, s, n), n);
      steps := [s] + rest;
      ThenRun(sys, s, rest, n);
      TeardownGoesOn(sys, s, n);
    }
  }

  /** The state once a capsule is gone with all that it had. */
  function Destroyed(sys: System, cid: nat): System { sys.(caps := Caps.Destroy(sys.caps, cid).1) }

  /** Undisturbed, the steps of `destroy` amount to removing the capsule and all that it has at once. */
  lemma TeardownAlone(sys: System, cid: nat, n: nat) returns (steps: seq<Step>)
    requires sys.caps.lastId < n && sys.dying.None? && cid in sys.caps.capsules
    ensures steps != [] && steps[0] == Destroy(cid) && Runs(sys, steps, n)
    ensures Run(sys, steps, n) == Destroyed(sys, cid)
  {
    var rest := TeardownRest(Next(sys, Destroy(cid), n), n);
    steps := [Destroy(cid)] + rest;
    ThenRun(sys, Destroy(cid), rest, n);
  }

  // ----- RAM, in every run -----

  /** RAM is free or held in one place, where what a dying capsule has not yet given back is its own. */
  ghost predicate Sound(sys: System, ram: Regions, n: nat) {
    sys.caps.lastId < n && DyingIsGone(sys) && Caps.Conserved(Ledger(sys), sys.pending, ram)
  }

  /** The steps that work on one capsule or on the table of capsules. */
  predicate TouchesCapsules(s: Step) {
    s.CreateCapsule? || s.MapRegion? || s.RecordVcore? || s.AllowService? || s.Destroy?
  }

  lemma OthersKeepCapsules(sys: System, s: Step, n: nat)
    requires Allowed(sys, s) && sys.caps.lastId < n && !TouchesCapsules(s)
    ensures Next(sys, s, n).caps.capsules == sys.caps.capsules
  {
  }

  /** Steps that move no RAM between the free list and its holders, nor between holders. */
  predicate Bookkeeping(s: Step) {
    !s.AllocRegion? && !s.FreeRegion? && !s.MapRegion? && !s.Reclaim? && !s.Coalesce?
  }

  lemma BookkeepingKeepsFree(sys: System, s: Step, n: nat)
    requires Allowed(sys, s) && sys.caps.lastId < n && Bookkeeping(s)
    ensures Next(sys, s, n).caps.free == sys.caps.free && Next(sys, s, n).pending == sys.pending
  {
    match s
    case CreateCapsule(restart) => assert Next(sys, s, n).caps == Caps.Create(sys.caps, n, restart).1;
    case RunNext(p) => assert Next(sys, s, n) == RunOn(sys, p);
    case _ =>
  }

  lemma BookkeepingKeepsMemory(sys: System, s: Step, n: nat)
    requires Allowed(sys, s) && sys.caps.lastId < n && Bookkeeping(s) && DyingIsGone(sys)
    ensures Caps.SameMemory(Ledger(sys), Ledger(Next(sys, s, n)))
  {
    if s.Destroy? {
      DestroyKeepsLedger(sys, s.cid, n);
    } else if s.Withdraw? || s.EndDestroy? {
      TeardownEndKeepsMemory(sys, s, n);
    } else if TouchesCapsules(s) {
      TableStepKeepsMemory(sys, s, n);
    } else {
      OthersKeepCapsules(sys, s, n);
      OthersKeepDying(sys, s, n);
    }
  }

  lemma OthersKeepDying(sys: System, s: Step, n: nat)
    requires Allowed(sys, s) && sys.caps.lastId < n && !s.Destroy? && !s.Reclaim? && !s.Withdraw? && !s.EndDestroy?
    ensures Next(sys, s, n).dying == sys.dying
  {
  }

  lemma TableStepKeepsMemory(sys: System, s: Step, n: nat)
    requires Allowed(sys, s) && sys.caps.lastId < n && TouchesCapsules(s) && !s.MapRegion? && !s.Destroy?
    ensures Caps.SameMemory(Ledger(sys), Ledger(Next(sys, s, n)))
  {
  }

  /** By the time services are withdrawn there is no memory left. */
  lemma TeardownEndKeepsMemory(sys: System, s: Step, n: nat)
    requires Allowed(sys, s) && sys.caps.lastId < n && DyingIsGone(sys) && (s.Withdraw? || s.EndDestroy?)
    ensures Caps.SameMemory(Ledger(sys), Ledger(Next(sys, s, n)))
  {
  }

  /** What `Reclaim` does to the ledger. */
  lemma ReclaimGivesBack(sys: System, n: nat)
    requires Allowed(sys, Reclaim) && sys.caps.lastId < n
    ensures Ledger(Next(sys, Reclaim, n)) == Caps.GiveBack(Ledger(sys), sys.dying.value.cid)
  {
    var cid, left := sys.dying.value.cid, sys.dying.value.left;
    var left' := left.(memory := left.memory[1..]);
    assert sys.caps.capsules[cid := left][cid := left'] == sys.caps.capsules[cid := left'];
  }

  lemma StepConserves(sys: System, s: Step, ram: Regions, n: nat)
    requires Allowed(sys, s) && Sound(sys, ram, n)
    ensures Caps.Conserved(Ledger(Next(sys, s, n)), Next(sys, s, n).pending, ram)
  {
    var books := Ledger(sys);
    match s
    case AllocRegion(size, h) =>
      if Alloc(books.free, size).result.Ok? { Caps.AllocConserves(books, sys.pending, size, h, ram); }
    case FreeRegion(h) => Caps.FreePendingConserves(books, sys.pending, h, ram);
    case MapRegion(h, cid, identity) =>
      if cid in books.capsules {
        Caps.MapConserves(books, sys.pending, h, cid, MappingOf(sys.pending[h], identity), ram);
      }
    case Reclaim =>
      ReclaimGivesBack(sys, n);
      Caps.GiveBackConserves(books, sys.pending, sys.dying.value.cid, ram);
    case Coalesce => Caps.CoalesceConserves(books, sys.pending, ram);
    case _ =>
      BookkeepingKeepsFree(sys, s, n);
      BookkeepingKeepsMemory(sys, s, n);
      Caps.SameHoldings(books, Ledger(Next(sys, s, n)), sys.pending, ram);
  }

  /** No `insert` done by this step is refused; the code looks at none of these results. */
  predicate InsertsAccepted(sys: System, s: Step)
    requires Allowed(sys, s)
  {
    match s
    case AllocRegion(size, _) =>
      var i := FirstFit(sys.caps.free, RoundUp(size), 0);
      i < |sys.caps.free| ==>
        Insert(Without(sys.caps.free, i), sys.caps.free[i].Split(RoundUp(size)).value.1).Ok?
    case FreeRegion(h) => Insert(sys.caps.free, sys.pending[h]).Ok?
    case Reclaim =>
      var m := sys.dying.value.left.memory[0].physical;
      m.Some? ==> Insert(sys.caps.free, m.value).Ok?
    case _ => true
  }

  lemma StepAccepts(sys: System, s: Step, ram: Regions)
    requires Allowed(sys, s) && Caps.Conserved(Ledger(sys), sys.pending, ram)
    ensures InsertsAccepted(sys, s)
  {
    match s
    case AllocRegion(size, _) => UpperPartAccepted(sys.caps.free, size);
    case FreeRegion(h) => Caps.FreePendingConserves(Ledger(sys), sys.pending, h, ram);
    case Reclaim => Caps.GiveBackConserves(Ledger(sys), sys.pending, sys.dying.value.cid, ram);
    case _ =>
  }

  ghost predicate EveryInsertAccepted(sys: System, steps: seq<Step>, n: nat)
    requires sys.caps.lastId < n && Runs(sys, steps, n)
    decreases |steps|
  {
    steps == [] || (InsertsAccepted(sys, steps[0]) && EveryInsertAccepted(Next(sys, steps[0], n), steps[1..], n))
  }

  lemma {:induction false} RunSound(sys: System, steps: seq<Step>, ram: Regions, n: nat)
    requires Sound(sys, ram, n) && Runs(sys, steps, n)
    ensures Sound(Run(sys, steps, n), ram, n) && EveryInsertAccepted(sys, steps, n)
    decreases |steps|
  {
    if steps != [] {
      StepConserves(sys, steps[0], ram, n);
      StepKeepsGone(sys, steps[0], n);
      StepAccepts(sys, steps[0], ram);
      RunSound(Next(sys, steps[0], n), steps[1..], ram, n);
    }
  }

  lemma BootSound(sections: Regions, smode: seq<bool>, n: nat)
    requires AllApart(sections) && 0 < n
    ensures SectionsAccepted([], sections) && Sound(Boot(sections, smode), sections, n)
  {
    RegisterOutcome([], sections);
    var s := Boot(sections, smode).caps;
    forall a ensures !Caps.Owned(s, map[], a) {
      forall x ensures !Caps.Holds(s, map[], x) {}
    }
  }

  /**
   * Exclusive ownership of RAM: whatever order disjoint sections are registered in, in every run from
   * boot, with other steps between the steps of a teardown, the free list stays sorted, disjoint and
   * without empty entries, each address of RAM is free or held in exactly one place, by a capsule, by
   * one being torn down or by code that has just allocated it, and no discarded `insert` result is an
   * error.
   */
  lemma ExclusiveOwnership(sections: Regions, smode: seq<bool>, steps: seq<Step>, n: nat)
    requires AllApart(sections) && 0 < n && Runs(Boot(sections, smode), steps, n)
    ensures SectionsAccepted([], sections)
    ensures Sound(Run(Boot(sections, smode), steps, n), sections, n)
    ensures EveryInsertAccepted(Boot(sections, smode), steps, n)
  {
    BootSound(sections, smode, n);
    RunSound(Boot(sections, smode), steps, sections, n);
  }

  /**
   * After housekeeping, in every run from boot, an allocation succeeds if and only if free RAM holds a
   * contiguous run of the rounded-up size.
   */
  lemma CoalescedAllocExactly(sections: Regions, smode: seq<bool>, steps: seq<Step>, size: nat, h: nat, n: nat)
    requires AllApart(sections) && 0 < n && Runs(Boot(sections, smode), steps, n) && 0 < size
    requires h !in Run(Boot(sections, smode), steps, n).pending
    ensures var sys := Run(Boot(sections, smode), steps, n);
      h in Next(Next(sys, Coalesce, n), AllocRegion(size, h), n).pending <==>
      exists base: nat :: FreeRun(sys.caps.free, base, RoundUp(size))
  {
    ExclusiveOwnership(sections, smode, steps, n);
    var sys := Run(Boot(sections, smode), steps, n);
    CoalesceThenAlloc(sys, size, h, n);
    MergedHasRoom(sys.caps.free, size);
  }

  lemma CoalesceThenAlloc(sys: System, size: nat, h: nat, n: nat)
    requires sys.caps.lastId < n && h !in sys.pending
    ensures h in Next(Next(sys, Coalesce, n), AllocRegion(size, h), n).pending <==>
      Alloc(Merge(sys.caps.free), size).result.Ok?
  {
  }

  /** At any time an allocation succeeds if and only if one free entry is large enough, and takes the lowest. */
  lemma AllocStepExactly(sys: System, size: nat, h: nat, n: nat)
    requires sys.caps.lastId < n && h !in sys.pending && FreeList(sys.caps.free)
    ensures var pending, need := Next(sys, AllocRegion(size, h), n).pending, RoundUp(size);
      && (h in pending <==> exists i :: 0 <= i < |sys.caps.free| && need <= sys.caps.free[i].size)
      && (h in pending ==> exists i: nat :: LowestFit(sys.caps.free, need, i) && pending[h] == Region(sys.caps.free[i].base, need))
      && (h !in pending ==> Next(sys, AllocRegion(size, h), n) == sys)
  {
    TakeExactly(sys.caps.free, RoundUp(size));
  }

  lemma MergedHasRoom(free: Regions, size: nat)
    requires FreeList(free) && 0 < size
    ensures Alloc(Merge(free), size).result.Ok? <==> exists base: nat :: FreeRun(free, base, RoundUp(size))
  {
    AllocComplete(free, size);
  }

  /** A step that names a capsule there is none of changes nothing. */
  lemma UnknownCapsule(sys: System, s: Step, n: nat)
    requires Allowed(sys, s) && sys.caps.lastId < n
    requires s.MapRegion? || s.RecordVcore? || s.AllowService? || s.CheckService? || s.Destroy?
    requires s.cid !in sys.caps.capsules
    ensures Next(sys, s, n) == sys
  {
  }

  /** A region mapped identically is translated to itself, one mapped otherwise not at all. */
  lemma MappingTranslates(r: Region, identity: bool, p: nat)
    ensures MappingOf(r, identity).physical == Some(r)
    ensures MappingOf(r, identity).PhysicalToVirtual(p) == if identity && r.Has(p) then Some(p) else None
  {
  }

  // ----- services -----

  /** The service `k` is registered to the same capsule, or not at all, in both. */
  predicate SameService(s: Caps.State, s': Caps.State, k: nat) {
    (k in s'.services <==> k in s.services) && (k in s.services ==> s'.services[k] == s.services[k])
  }

  /** What each step on services does, to which service and for which capsule, and to nothing else. */
  lemma ServiceStepsExact(sys: System, s: Step, n: nat)
    requires Allowed(sys, s) && sys.caps.lastId < n
    requires s.AllowService? || s.CheckService? || s.EnterService? || s.Deregister?
    ensures var t := Next(sys, s, n);
      && t == sys.(caps := t.caps, checks := t.checks)
      && match s
         case AllowService(cid, sid) =>
           && t.checks == sys.checks && t.caps.services == sys.caps.services
           && forall c: nat, x: nat :: Caps.IsServiceAllowed(t.caps, c, x) ==
                if c in sys.caps.capsules && c == cid && x == sid then Some(true) else Caps.IsServiceAllowed(sys.caps, c, x)
         case CheckService(sid, cid) =>
           && t.caps == sys.caps
           && (if Caps.IsServiceAllowed(sys.caps, cid, sid) == Some(true)
               then t.checks == sys.checks + multiset{Check(sid, cid)} else t.checks == sys.checks)
         case EnterService(sid, cid) =>
           && t.caps == sys.caps.(services := t.caps.services) && t.checks + multiset{Check(sid, cid)} == sys.checks
           && (forall k :: k != sid ==> SameService(sys.caps, t.caps, k))
           && sid in t.caps.services && t.caps.services[sid] == if sid in sys.caps.services then sys.caps.services[sid] else cid
         case Deregister(sid) =>
           && t.caps == sys.caps.(services := t.caps.services) && t.checks == sys.checks
           && (forall k :: k != sid ==> SameService(sys.caps, t.caps, k)) && sid !in t.caps.services
         case _ => true
  {
  }

  /** Undisturbed, the two halves of `register` amount to registering at once. */
  lemma RegisterAlone(sys: System, sid: nat, cid: nat, n: nat)
    requires sys.caps.lastId < n && sys.dying.None?
    ensures if Caps.IsServiceAllowed(sys.caps, cid, sid) == Some(true) then
        && var checked := Next(sys, CheckService(sid, cid), n);
        && Allowed(checked, EnterService(sid, cid))
        && Next(checked, EnterService(sid, cid), n) == sys.(caps := Caps.Register(sys.caps, sid, cid).1)
      else
        Next(sys, CheckService(sid, cid), n) == sys && Caps.Register(sys.caps, sid, cid).0.Err?
  {
    assert sys.checks + multiset{Check(sid, cid)} - multiset{Check(sid, cid)} == sys.checks;
  }

  /**
   * If the step enters a service, the check made for it would still pass, or the capsule is being torn
   * down and the service is among those it has yet to withdraw, or the service is taken.
   */
  predicate EntryStillAllowed(sys: System, s: Step) {
    s.EnterService? ==>
      s.sid in sys.caps.services || Caps.IsServiceAllowed(Ledger(sys), s.cid, s.sid) == Some(true)
  }

  ghost predicate EntriesStillAllowed(sys: System, steps: seq<Step>, n: nat)
    requires sys.caps.lastId < n && Runs(sys, steps, n)
    decreases |steps|
  {
    steps == [] || (EntryStillAllowed(sys, steps[0]) && EntriesStillAllowed(Next(sys, steps[0], n), steps[1..], n))
  }

  /**
   * In every state of the run, every registered service names a capsule that is allowed to provide it
   * and exists, or is being torn down and has yet to withdraw it.
   */
  ghost predicate ServicesSoundThroughout(sys: System, steps: seq<Step>, n: nat)
    requires sys.caps.lastId < n && Runs(sys, steps, n)
    decreases |steps|
  {
    Caps.ServicesSound(Ledger(sys)) && (steps == [] || ServicesSoundThroughout(Next(sys, steps[0], n), steps[1..], n))
  }

  /** Withdrawing what it may provide, and unlocking the table when that is done, keeps services sound. */
  lemma TeardownServices(sys: System, s: Step, n: nat)
    requires Allowed(sys, s) && sys.caps.lastId < n && Caps.ServicesSound(Ledger(sys))
    requires s.Reclaim? || s.Withdraw? || s.EndDestroy?
    ensures Caps.ServicesSound(Ledger(Next(sys, s, n)))
  {
  }

  lemma StepServices(sys: System, s: Step, n: nat)
    requires Allowed(sys, s) && sys.caps.lastId < n && DyingIsGone(sys) && Caps.ServicesSound(Ledger(sys))
    ensures Caps.ServicesSound(Ledger(Next(sys, s, n))) <==> EntryStillAllowed(sys, s)
  {
    if s.EnterService? {
      Caps.EnterServiceExact(Ledger(sys), s.sid, s.cid);
    } else if s.Reclaim? || s.Withdraw? || s.EndDestroy? {
      TeardownServices(sys, s, n);
    } else if s.Destroy? {
      DestroyKeepsLedger(sys, s.cid, n);
    } else {
      OtherServices(sys, s, n);
    }
  }

  lemma OtherServices(sys: System, s: Step, n: nat)
    requires Allowed(sys, s) && sys.caps.lastId < n && Caps.ServicesSound(Ledger(sys))
    requires !s.EnterService? && !s.Reclaim? && !s.Withdraw? && !s.EndDestroy? && !s.Destroy?
    ensures Caps.ServicesSound(Ledger(Next(sys, s, n)))
  {
    if s.CreateCapsule? {
      Caps.CreateOutcome(sys.caps, n, s.restart);
    } else if !TouchesCapsules(s) {
      OthersKeepCapsules(sys, s, n);
    }
  }

  lemma {:induction false} RunServices(sys: System, steps: seq<Step>, n: nat)
    requires sys.caps.lastId < n && Runs(sys, steps, n) && DyingIsGone(sys) && Caps.ServicesSound(Ledger(sys))
    ensures ServicesSoundThroughout(sys, steps, n) <==> EntriesStillAllowed(sys, steps, n)
    decreases |steps|
  {
    if steps != [] {
      StepServices(sys, steps[0], n);
      StepKeepsGone(sys, steps[0], n);
      if EntryStillAllowed(sys, steps[0]) {
        RunServices(Next(sys, steps[0], n), steps[1..], n);
      }
      assert ServicesSoundThroughout(Next(sys, steps[0], n), steps[1..], n) ==>
        Caps.ServicesSound(Ledger(Next(sys, steps[0], n)));
    }
  }

  /**
   * With the two halves of `register`, and the parts of `destroy`, as separate steps: in a run from
   * boot no service is ever without a capsule allowed to provide it if and only if each entry comes
   * while its check would still pass, or before the capsule being torn down has withdrawn it, or
   * finds the service taken.
   */
  lemma ServicesSoundExactly(sections: Regions, smode: seq<bool>, steps: seq<Step>, n: nat)
    requires 0 < n && Runs(Boot(sections, smode), steps, n)
    ensures ServicesSoundThroughout(Boot(sections, smode), steps, n)
       <==> EntriesStillAllowed(Boot(sections, smode), steps, n)
  {
    RunServices(Boot(sections, smode), steps, n);
  }

  /** No capsule is destroyed between a check made for it and the entry that follows. */
  ghost predicate NoneDestroyedMidway(sys: System, steps: seq<Step>, n: nat)
    requires sys.caps.lastId < n && Runs(sys, steps, n)
    decreases |steps|
  {
    steps == [] ||
    ((steps[0].Destroy? ==> forall c :: c in sys.checks ==> c.cid != steps[0].cid)
     && NoneDestroyedMidway(Next(sys, steps[0], n), steps[1..], n))
  }

  ghost predicate ChecksHold(sys: System) {
    forall c :: c in sys.checks ==> Caps.IsServiceAllowed(sys.caps, c.cid, c.sid) == Some(true)
  }

  /** Nothing but destroying the capsule takes a permission away. */
  lemma PermissionKept(sys: System, s: Step, n: nat, cid: nat, sid: nat)
    requires Allowed(sys, s) && sys.caps.lastId < n && s != Destroy(cid)
    requires Caps.IsServiceAllowed(sys.caps, cid, sid) == Some(true)
    ensures Caps.IsServiceAllowed(Next(sys, s, n).caps, cid, sid) == Some(true)
  {
    if s.CreateCapsule? {
      Caps.CreateOutcome(sys.caps, n, s.restart);
    } else if !TouchesCapsules(s) {
      OthersKeepCapsules(sys, s, n);
    }
  }

  lemma StepKeepsChecks(sys: System, s: Step, n: nat)
    requires Allowed(sys, s) && sys.caps.lastId < n && ChecksHold(sys) && DyingIsGone(sys)
    requires s.Destroy? ==> forall c :: c in sys.checks ==> c.cid != s.cid
    ensures ChecksHold(Next(sys, s, n)) && EntryStillAllowed(sys, s)
  {
    forall c | c in Next(sys, s, n).checks
      ensures Caps.IsServiceAllowed(Next(sys, s, n).caps, c.cid, c.sid) == Some(true)
    {
      PermissionKept(sys, s, n, c.cid, c.sid);
    }
  }

  lemma {:induction false} ChecksKept(sys: System, steps: seq<Step>, n: nat)
    requires sys.caps.lastId < n && Runs(sys, steps, n) && ChecksHold(sys) && DyingIsGone(sys)
    requires NoneDestroyedMidway(sys, steps, n)
    ensures EntriesStillAllowed(sys, steps, n)
    decreases |steps|
  {
    if steps != [] {
      StepKeepsChecks(sys, steps[0], n);
      StepKeepsGone(sys, steps[0], n);
      ChecksKept(Next(sys, steps[0], n), steps[1..], n);
    }
  }

  /** So it is enough that no capsule is destroyed while one of its registrations is half done. */
  lemma ServicesNeverOrphaned(sections: Regions, smode: seq<bool>, steps: seq<Step>, n: nat)
    requires 0 < n && Runs(Boot(sections, smode), steps, n) && NoneDestroyedMidway(Boot(sections, smode), steps, n)
    ensures ServicesSoundThroughout(Boot(sections, smode), steps, n)
  {
    ChecksKept(Boot(sections, smode), steps, n);
    RunServices(Boot(sections, smode), steps, n);
  }

  // ----- the scheduler, in every run -----

  /** The virtual core that a step adds to the system, if any. */
  function AddedBy(s: Step): seq<VirtualCore> {
    match s
    case QueueVcore(cid, vid, priority) => [VirtualCore(CanonicalId(cid, vid), priority)]
    case _ => []
  }

  /** The virtual cores that some steps add to the system, in order. */
  function Added(steps: seq<Step>): seq<VirtualCore>
    decreases |steps|
  {
    if steps == [] then [] else AddedBy(steps[0]) + Added(steps[1..])
  }

  /** Only two kinds of step touch the scheduler. */
  function ScheduleAfter(sys: System, s: Step): Sch.Sched
    requires Allowed(sys, s)
  {
    match s
    case QueueVcore(cid, vid, priority) => Sch.Create(sys.sched, VirtualCore(CanonicalId(cid, vid), priority))
    case RunNext(p) => if Panics(sys, p) then sys.sched else Sch.RunPass(sys.sched, p)
    case _ => sys.sched
  }

  lemma SchedulesSo(sys: System, s: Step, n: nat)
    requires Allowed(sys, s) && sys.caps.lastId < n
    ensures Next(sys, s, n).sched == ScheduleAfter(sys, s)
  {
  }

  lemma ScheduleConsistent(sys: System, s: Step, vs: seq<VirtualCore>)
    requires Allowed(sys, s) && Sch.Consistent(sys.sched, vs)
    ensures Sch.Consistent(ScheduleAfter(sys, s), vs + AddedBy(s))
  {
    var all := vs + AddedBy(s);
    if s.QueueVcore? {
      Sch.CreateConsistent(sys.sched, vs, VirtualCore(CanonicalId(s.cid, s.vid), s.priority));
    } else {
      assert all == vs;
      if s.RunNext? { Sch.PassConsistent(sys.sched, vs, s.p); }
    }
  }

  lemma {:induction false} RunConsistent(sys: System, steps: seq<Step>, n: nat, vs: seq<VirtualCore>)
    requires sys.caps.lastId < n && Runs(sys, steps, n) && Sch.Consistent(sys.sched, vs)
    ensures Sch.Consistent(Run(sys, steps, n).sched, vs + Added(steps))
    decreases |steps|
  {
    if steps == [] {
      assert vs + Added(steps) == vs;
    } else {
      ScheduleConsistent(sys, steps[0], vs);
      SchedulesSo(sys, steps[0], n);
      RunConsistent(Next(sys, steps[0], n), steps[1..], n, vs + AddedBy(steps[0]));
      AddedSplit(vs, steps);
    }
  }

  lemma AddedSplit(vs: seq<VirtualCore>, steps: seq<Step>)
    requires steps != []
    ensures vs + Added(steps) == vs + AddedBy(steps[0]) + Added(steps[1..])
  {
  }

  /**
   * In every run from boot, on any number of cores and in any interleaving, the virtual cores queued
   * or running are exactly those added, with WORKLOAD exact and PCORES naming a core that holds the ID.
   */
  lemma SchedulerConsistent(sections: Regions, smode: seq<bool>, steps: seq<Step>, n: nat)
    requires 0 < n && Runs(Boot(sections, smode), steps, n)
    ensures Sch.Consistent(Run(Boot(sections, smode), steps, n).sched, Added(steps))
  {
    var sys := Boot(sections, smode);
    assert Sch.Consistent(sys.sched, []) by { Sch.BootConsistent(smode); }
    RunConsistent(sys, steps, n, []);
    assert [] + Added(steps) == Added(steps);
  }

  /** And if canonical IDs are unique, each virtual core added is in exactly one place, the one PCORES says. */
  lemma EachInOnePlace(sections: Regions, smode: seq<bool>, steps: seq<Step>, n: nat, v: VirtualCore)
    requires 0 < n && Runs(Boot(sections, smode), steps, n)
    requires Sch.UniqueIds(Added(steps)) && v in Added(steps)
    ensures var s := Run(Boot(sections, smode), steps, n).sched;
      && Sch.Placed(s)[v] == 1
      && if v.id in s.pcores then s.pcores[v.id] < |s.cores| && v in Sch.CoreBag(s.cores[s.pcores[v.id]])
         else v in Bag(s.global)
  {
    SchedulerConsistent(sections, smode, steps, n);
    Sch.WhereItIs(Run(Boot(sections, smode), steps, n).sched, Added(steps), v);
  }

  /**
   * Housekeeping asks the core with the highest WORKLOAD count, if above one, to give a virtual core
   * up: in every run that core really has the most queued and running, and more than one.
   */
  lemma HousekeepingAsksTheBusiest(sections: Regions, smode: seq<bool>, steps: seq<Step>, n: nat, pid: nat)
    requires 0 < n && Runs(Boot(sections, smode), steps, n)
    requires var workload := Run(Boot(sections, smode), steps, n).sched.workload;
      pid in workload && workload[pid] > 1 && forall p :: p in workload ==> workload[p] <= workload[pid]
    ensures var cores := Run(Boot(sections, smode), steps, n).sched.cores;
      && pid < |cores| && |Sch.CoreBag(cores[pid])| > 1
      && forall p :: 0 <= p < |cores| ==> |Sch.CoreBag(cores[p])| <= |Sch.CoreBag(cores[pid])|
  {
    SchedulerConsistent(sections, smode, steps, n);
    Sch.BusiestIsBusiest(Run(Boot(sections, smode), steps, n).sched, Added(steps), pid);
  }

  lemma ScheduleUntouched(sys: System, s: Step)
    requires Allowed(sys, s) && Turns.AllUntouched(sys.sched)
    ensures Turns.AllUntouched(ScheduleAfter(sys, s))
  {
    if s.QueueVcore? { Turns.CreateUntouched(sys.sched, VirtualCore(CanonicalId(s.cid, s.vid), s.priority)); }
    if s.RunNext? { Turns.PassUntouched(sys.sched, s.p); }
  }

  lemma {:induction false} RunUntouched(sys: System, steps: seq<Step>, n: nat)
    requires sys.caps.lastId < n && Runs(sys, steps, n) && Turns.AllUntouched(sys.sched)
    ensures Turns.AllUntouched(Run(sys, steps, n).sched)
    decreases |steps|
  {
    if steps != [] {
      var s := steps[0];
      SchedulesSo(sys, s, n);
      ScheduleUntouched(sys, s);
      RunUntouched(Next(sys, s, n), steps[1..], n);
    }
  }

  /** Passes on these cores, one after another. */
  function PassSteps(ps: seq<nat>): seq<Step> {
    if ps == [] then [] else [RunNext(ps[0])] + PassSteps(ps[1..])
  }

  /** Nothing on core `p` belongs to a capsule with a second region, switching to which is a panic. */
  ghost predicate NothingPanics(sys: System, p: nat)
    requires p < |sys.sched.cores|
  {
    forall v :: v in Sch.CoreBag(sys.sched.cores[p]) ==> !Caps.Enforce(sys.caps, v.id.capsule).Panicked?
  }

  /** One pass, on core `p` or another, while nothing waits globally. */
  lemma QuietPass(sys: System, q: nat, p: nat)
    requires q < |sys.sched.cores| && p < |sys.sched.cores| && TotalQueued(sys.sched.global) == 0 && NothingPanics(sys, p)
    ensures var sys' := RunOn(sys, q);
      && |sys'.sched.cores| == |sys.sched.cores| && sys'.caps == sys.caps && sys'.dying == sys.dying
      && TotalQueued(sys'.sched.global) == 0 && NothingPanics(sys', p)
      && sys'.sched.cores[p] == if q == p then Turns.OwnPass(sys.sched.cores[p]) else sys.sched.cores[p]
  {
    Turns.QuietPass(sys.sched, q, p);
    Turns.OwnPassBag(sys.sched.cores[p]);
    NoPanicHere(sys, p);
  }

  lemma NoPanicHere(sys: System, p: nat)
    requires p < |sys.sched.cores| && TotalQueued(sys.sched.global) == 0 && NothingPanics(sys, p)
    ensures !Panics(sys, p)
  {
    var c := sys.sched.cores[p];
    if Dequeue(c.queues).next.Some? { Sch.TakeBag(c); }
  }

  /** So only a core's own passes count, and none of them panics. */
  lemma {:induction false} PassesOnCore(sys: System, ps: seq<nat>, n: nat, p: nat)
    requires sys.caps.lastId < n && Runs(sys, PassSteps(ps), n) && p < |sys.sched.cores|
    requires TotalQueued(sys.sched.global) == 0 && NothingPanics(sys, p)
    ensures var cores := Run(sys, PassSteps(ps), n).sched.cores;
      p < |cores| && cores[p] == Turns.OwnPasses(sys.sched.cores[p], Turns.Times(ps, p))
    decreases |ps|
  {
    if ps != [] {
      var steps := PassSteps(ps);
      assert steps[0] == RunNext(ps[0]) && steps[1..] == PassSteps(ps[1..]);
      QuietPass(sys, ps[0], p);
      PassesOnCore(RunOn(sys, ps[0]), ps[1..], n, p);
    }
  }

  lemma {:induction false} PassesCanBeTaken(sys: System, p: nat, k: nat, n: nat)
    requires sys.caps.lastId < n && sys.dying.None? && p < |sys.sched.cores|
    ensures Runs(sys, PassSteps(Turns.Repeat(p, k)), n)
    decreases k
  {
    if k > 0 {
      var rest := Turns.Repeat(p, k - 1);
      PassesCanBeTaken(RunOn(sys, p), p, k - 1, n);
      ThenRun(sys, RunNext(p), PassSteps(rest), n);
      assert Turns.Repeat(p, k)[1..] == rest;
    }
  }

  /** Some passes, on any cores but at least one on core `p`, end with core `p` running `v`. */
  ghost predicate CanComeToRun(sys: System, p: nat, v: VirtualCore, n: nat)
    requires sys.caps.lastId < n
  {
    exists ps :: p in ps && Runs(sys, PassSteps(ps), n) && RunsAfter(Run(sys, PassSteps(ps), n).sched, p, v)
  }

  predicate RunsAfter(s: Sch.Sched, p: nat, v: VirtualCore) { p < |s.cores| && s.cores[p].running == Some(v) }

  lemma ItsTurnComes(sys: System, p: nat, i: nat, n: nat)
    requires sys.caps.lastId < n && sys.dying.None? && Turns.AllUntouched(sys.sched) && TotalQueued(sys.sched.global) == 0
    requires p < |sys.sched.cores| && sys.sched.cores[p].smode && i < |sys.sched.cores[p].queues.low|
    requires NothingPanics(sys, p) && Turns.Highs(sys.sched.cores[p]) <= 1
    ensures CanComeToRun(sys, p, sys.sched.cores[p].queues.low[i], n)
  {
    var k := Turns.GetsItsTurn(sys.sched.cores[p], i);
    var ps := Turns.Repeat(p, k);
    Turns.TimesAll(p, k);
    PassesCanBeTaken(sys, p, k, n);
    PassesOnCore(sys, ps, n, p);
    assert ps[0] == p;
    assert RunsAfter(Run(sys, PassSteps(ps), n).sched, p, sys.sched.cores[p].queues.low[i]);
  }

  lemma ItsTurnNeverComes(sys: System, p: nat, v: VirtualCore, n: nat)
    requires sys.caps.lastId < n && Turns.AllUntouched(sys.sched) && TotalQueued(sys.sched.global) == 0
    requires p < |sys.sched.cores| && sys.sched.cores[p].smode && v.priority == Normal
    requires NothingPanics(sys, p) && Turns.Highs(sys.sched.cores[p]) >= 2
    ensures !CanComeToRun(sys, p, v, n)
  {
    forall ps | p in ps && Runs(sys, PassSteps(ps), n) ensures !RunsAfter(Run(sys, PassSteps(ps), n).sched, p, v) {
      Turns.TimesSome(ps, p);
      PassesOnCore(sys, ps, n, p);
      Turns.CrowdedOut(sys.sched.cores[p], Turns.Times(ps, p));
    }
  }

  /**
   * In every state reached from boot with nothing waiting globally, and with nothing on the core that
   * it would be a panic to switch to, a normal virtual core waiting on a core can come to run there if
   * and only if at most one high priority one is on that core.
   */
  lemma StarvedExactly(sections: Regions, smode: seq<bool>, steps: seq<Step>, n: nat, p: nat, i: nat)
    requires 0 < n && Runs(Boot(sections, smode), steps, n)
    requires var sys := Run(Boot(sections, smode), steps, n);
      && sys.dying.None? && TotalQueued(sys.sched.global) == 0 && p < |sys.sched.cores| && sys.sched.cores[p].smode
      && i < |sys.sched.cores[p].queues.low| && NothingPanics(sys, p)
    ensures var sys := Run(Boot(sections, smode), steps, n);
      CanComeToRun(sys, p, sys.sched.cores[p].queues.low[i], n) <==> Turns.Highs(sys.sched.cores[p]) <= 1
  {
    RunUntouched(Boot(sections, smode), steps, n);
    var sys := Run(Boot(sections, smode), steps, n);
    if Turns.Highs(sys.sched.cores[p]) <= 1 {
      ItsTurnComes(sys, p, i, n);
    } else {
      ItsTurnNeverComes(sys, p, sys.sched.cores[p].queues.low[i], n);
    }
  }

  /** A core whose next switch is a panic gets no further, whatever it was about to come to. */
  lemma {:induction false} PanicBlocks(sys: System, ps: seq<nat>, n: nat, p: nat)
    requires sys.caps.lastId < n && Runs(sys, PassSteps(ps), n) && p < |sys.sched.cores|
    requires TotalQueued(sys.sched.global) == 0 && Panics(sys, p)
    ensures var cores := Run(sys, PassSteps(ps), n).sched.cores; p < |cores| && cores[p] == sys.sched.cores[p]
    decreases |ps|
  {
    if ps != [] {
      var steps := PassSteps(ps);
      assert steps[0] == RunNext(ps[0]) && steps[1..] == PassSteps(ps[1..]);
      Turns.QuietPass(sys.sched, ps[0], p);
      PanicBlocks(RunOn(sys, ps[0]), ps[1..], n, p);
    }
  }

  /**
   * The starved half needs nothing else: once two high priority virtual cores are on a core, then
   * whatever is added, run or destroyed later, nothing ever leaves its normal queue.
   */
  lemma {:induction false} StarvedForGood(sys: System, steps: seq<Step>, n: nat, p: nat)
    requires sys.caps.lastId < n && Runs(sys, steps, n) && Turns.AllUntouched(sys.sched)
    requires p < |sys.sched.cores| && sys.sched.cores[p].smode && Turns.Highs(sys.sched.cores[p]) >= 2
    ensures var cores := Run(sys, steps, n).sched.cores;
      && p < |cores| && Turns.Highs(cores[p]) >= 2
      && sys.sched.cores[p].queues.low <= cores[p].queues.low
    decreases |steps|
  {
    if steps != [] {
      var s := steps[0];
      SchedulesSo(sys, s, n);
      ScheduleUntouched(sys, s);
      if s.RunNext? { Turns.CrowdedPass(sys.sched, s.p, p); }
      StarvedForGood(Next(sys, s, n), steps[1..], n, p);
    }
  }

  /** In every run from boot that comes to have two there. */
  lemma CrowdedCoreStarves(sections: Regions, smode: seq<bool>, steps: seq<Step>, more: seq<Step>, n: nat, p: nat)
    requires 0 < n && Runs(Boot(sections, smode), steps, n) && Runs(Run(Boot(sections, smode), steps, n), more, n)
    requires var cores := Run(Boot(sections, smode), steps, n).sched.cores;
      p < |cores| && cores[p].smode && Turns.Highs(cores[p]) >= 2
    ensures var before := Run(Boot(sections, smode), steps, n);
      var after := Run(before, more, n);
      p < |after.sched.cores| && before.sched.cores[p].queues.low <= after.sched.cores[p].queues.low
  {
    RunUntouched(Boot(sections, smode), steps, n);
    StarvedForGood(Run(Boot(sections, smode), steps, n), more, n, p);
  }
}
