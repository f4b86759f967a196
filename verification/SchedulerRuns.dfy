/**
 * What every run of the system does to the scheduler: cores that cannot run guests never get one, and
 * virtual cores of the same class never overtake each other, in the global queues or in a core's own.
 */
module SchedulerRuns {
  import opened Base
  import opened PhysMem
  import opened Queues
  import Sch = Scheduling
  import Turns = CoreTurns
  import opened Hypervisor

  // ----- cores that cannot run guests -----

  /** Nothing has ever been on core `p`: no virtual core, no count, no entry in PCORES, no window. */
  ghost predicate Idle(sys: System, p: nat)
    requires p < |sys.sched.cores|
  {
    && sys.sched.cores[p].queues == EMPTY && sys.sched.cores[p].running == None
    && p !in sys.sched.workload && p !in sys.windows
    && forall id :: id in sys.sched.pcores ==> sys.sched.pcores[id] != p
  }

  /** The cores are those of the machine, and the ones that cannot run guests are idle. */
  ghost predicate ManagementIdle(sys: System, smode: seq<bool>) {
    && |sys.sched.cores| == |smode|
    && (forall p :: 0 <= p < |smode| ==> sys.sched.cores[p].smode == smode[p])
    && (forall p: nat :: p < |smode| && !smode[p] ==> Idle(sys, p))
  }

  lemma PassKeepsIdle(sys: System, q: nat, smode: seq<bool>)
    requires ManagementIdle(sys, smode) && q < |smode|
    ensures ManagementIdle(RunOn(sys, q), smode)
  {
    if smode[q] {
      forall p: nat | p < |smode| && !smode[p] ensures Idle(RunOn(sys, q), p) { assert Idle(sys, p) && p != q; }
    }
  }

  /** Steps that are not passes touch no core, no window and neither side table. */
  lemma OthersKeepCores(sys: System, s: Step, n: nat)
    requires Allowed(sys, s) && sys.caps.lastId < n && !s.RunNext?
    ensures var t := Next(sys, s, n);
      && t.sched == sys.sched.(global := t.sched.global) && t.windows == sys.windows
  {
    SchedulesSo(sys, s, n);
  }

  lemma {:induction false} RunKeepsIdle(sys: System, steps: seq<Step>, n: nat, smode: seq<bool>)
    requires sys.caps.lastId < n && Runs(sys, steps, n) && ManagementIdle(sys, smode)
    ensures ManagementIdle(Run(sys, steps, n), smode)
    decreases |steps|
  {
    if steps != [] {
      var s := steps[0];
      if s.RunNext? {
        PassKeepsIdle(sys, s.p, smode);
      } else {
        OthersKeepCores(sys, s, n);
        assert forall p: nat :: p < |smode| && !smode[p] ==> Idle(sys, p);
      }
      RunKeepsIdle(Next(sys, s, n), steps[1..], n, smode);
    }
  }

  /**
   * In every run from boot, a core that cannot run guests never has a virtual core queued or running,
   * never counts as having one, is never named by PCORES, and is never granted access to a capsule's RAM.
   */
  lemma GuestsOnlyWhereTheyCanRun(sections: Regions, smode: seq<bool>, steps: seq<Step>, n: nat, p: nat)
    requires 0 < n && Runs(Boot(sections, smode), steps, n) && p < |smode| && !smode[p]
    ensures var sys := Run(Boot(sections, smode), steps, n);
      && p < |sys.sched.cores| && Sch.CoreBag(sys.sched.cores[p]) == multiset{}
      && p !in sys.sched.workload && p !in sys.windows
      && forall id :: id in sys.sched.pcores ==> sys.sched.pcores[id] != p
  {
    RunKeepsIdle(Boot(sections, smode), steps, n, smode);
    assert Idle(Run(Boot(sections, smode), steps, n), p);
  }

  // ----- order within a class -----

  function ClassOf(q: WaitQueues, k: Priority): seq<VirtualCore> { if k == High then q.high else q.low }

  /** Those of one class, in order. */
  function OfClass(vs: seq<VirtualCore>, k: Priority): seq<VirtualCore> {
    if vs == [] then [] else (if vs[0].priority == k then [vs[0]] else []) + OfClass(vs[1..], k)
  }

  lemma {:induction false} OfClassJoin(vs: seq<VirtualCore>, ws: seq<VirtualCore>, k: Priority)
    ensures OfClass(vs + ws, k) == OfClass(vs, k) + OfClass(ws, k)
    decreases |vs|
  {
    if vs == [] {
      JoinEmpty(ws);
      JoinEmpty(OfClass(ws, k));
    } else {
      JoinTail(vs, ws);
      OfClassJoin(vs[1..], ws, k);
      JoinThree(if vs[0].priority == k then [vs[0]] else [], OfClass(vs[1..], k), OfClass(ws, k));
    }
  }

  lemma OfClassOne(v: VirtualCore, k: Priority)
    ensures OfClass([v], k) == if v.priority == k then [v] else []
  {
    assert [v][1..] == [];
  }

  /** What core `p` takes from the global queues between these states: what it runs once they are shorter. */
  function AdoptedIn(s: Sch.Sched, t: Sch.Sched, p: nat): seq<VirtualCore> {
    if TotalQueued(t.global) < TotalQueued(s.global) && p < |t.cores| && t.cores[p].running.Some?
    then [t.cores[p].running.value] else []
  }

  function AdoptedBy(sys: System, s: Step, n: nat): seq<VirtualCore>
    requires Allowed(sys, s) && sys.caps.lastId < n
  {
    if s.RunNext? then AdoptedIn(sys.sched, Next(sys, s, n).sched, s.p) else []
  }

  ghost function Adopted(sys: System, steps: seq<Step>, n: nat): seq<VirtualCore>
    requires sys.caps.lastId < n && Runs(sys, steps, n)
    decreases |steps|
  {
    if steps == [] then [] else AdoptedBy(sys, steps[0], n) + Adopted(Next(sys, steps[0], n), steps[1..], n)
  }

  /** One arrival and one departure of a set of queues, class by class. */
  lemma EnqueueOrder(q: WaitQueues, v: VirtualCore, k: Priority)
    ensures ClassOf(Enqueue(q, v), k) == ClassOf(q, k) + OfClass([v], k)
  {
    OfClassOne(v, k);
  }

  lemma DequeueOrder(q: WaitQueues, k: Priority)
    requires Sorted(q) && Dequeue(q).next.Some?
    ensures OfClass([Dequeue(q).next.value], k) + ClassOf(Dequeue(q).rest, k) == ClassOf(q, k)
  {
    OfClassOne(Dequeue(q).next.value, k);
  }

  lemma PassOrder(s: Sch.Sched, p: nat, k: Priority)
    requires p < |s.cores| && Sorted(s.global)
    ensures var t := Sch.RunPass(s, p); OfClass(AdoptedIn(s, t, p), k) + ClassOf(t.global, k) == ClassOf(s.global, k)
  {
    if s.cores[p].smode && Dequeue(s.global).next.Some? {
      DequeueOrder(s.global, k);
      assert AdoptedIn(s, Sch.RunPass(s, p), p) == [Dequeue(s.global).next.value];
    } else {
      assert Sch.RunPass(s, p).global == s.global;
    }
  }

  lemma StepOrder(sys: System, s: Step, n: nat, k: Priority)
    requires Allowed(sys, s) && sys.caps.lastId < n && Sorted(sys.sched.global)
    ensures OfClass(AdoptedBy(sys, s, n), k) + ClassOf(Next(sys, s, n).sched.global, k) ==
      ClassOf(sys.sched.global, k) + OfClass(AddedBy(s), k)
  {
    SchedulesSo(sys, s, n);
    JoinEmpty(ClassOf(Next(sys, s, n).sched.global, k));
    if s.QueueVcore? {
      EnqueueOrder(sys.sched.global, VirtualCore(CanonicalId(s.cid, s.vid), s.priority), k);
    } else {
      JoinEmpty(ClassOf(sys.sched.global, k));
      if s.RunNext? && !Panics(sys, s.p) { PassOrder(sys.sched, s.p, k); }
    }
  }

  lemma {:induction false} RunOrder(sys: System, steps: seq<Step>, n: nat, k: Priority)
    requires sys.caps.lastId < n && Runs(sys, steps, n) && Turns.AllUntouched(sys.sched)
    ensures OfClass(Adopted(sys, steps, n), k) + ClassOf(Run(sys, steps, n).sched.global, k) ==
      ClassOf(sys.sched.global, k) + OfClass(Added(steps), k)
    decreases |steps|
  {
    if steps != [] {
      var s, rest := steps[0], steps[1..];
      var sys' := Next(sys, s, n);
      SchedulesSo(sys, s, n);
      ScheduleUntouched(sys, s);
      StepOrder(sys, s, n, k);
      RunOrder(sys', rest, n, k);
      OfClassJoin(AdoptedBy(sys, s, n), Adopted(sys', rest, n), k);
      OfClassJoin(AddedBy(s), Added(rest), k);
      Regroup(OfClass(AdoptedBy(sys, s, n), k), OfClass(Adopted(sys', rest, n), k), ClassOf(Run(sys', rest, n).sched.global, k),
              ClassOf(sys'.sched.global, k), ClassOf(sys.sched.global, k), OfClass(AddedBy(s), k), OfClass(Added(rest), k));
    }
  }

  /**
   * First come, first served: in every run from boot, on any number of cores, the virtual cores of a
   * class that have been adopted from the global queues, in order, followed by those that still wait
   * there, are those of that class that have been added, in order.
   */
  lemma AdoptedInOrder(sections: Regions, smode: seq<bool>, steps: seq<Step>, n: nat, k: Priority)
    requires 0 < n && Runs(Boot(sections, smode), steps, n)
    ensures var sys := Boot(sections, smode);
      OfClass(Adopted(sys, steps, n), k) + ClassOf(Run(sys, steps, n).sched.global, k) == OfClass(Added(steps), k)
  {
    RunOrder(Boot(sections, smode), steps, n, k);
    JoinEmpty(OfClass(Added(steps), k));
  }

  // ----- and in a core's own queues -----

  /** What a pass on core `p` that is not a panic pre-empts. */
  function PreemptedIn(s: Sch.Sched, p: nat): seq<VirtualCore>
    requires p < |s.cores|
  {
    if Sch.Chosen(s, p).Some? && s.cores[p].running.Some? then [s.cores[p].running.value] else []
  }

  /** What it takes from the core's own queues: what runs after it, if the global queues are no shorter. */
  function ResumedIn(s: Sch.Sched, t: Sch.Sched, p: nat): seq<VirtualCore>
    requires p < |s.cores|
  {
    if Sch.Chosen(s, p).Some? && TotalQueued(t.global) == TotalQueued(s.global) && p < |t.cores| && t.cores[p].running.Some?
    then [t.cores[p].running.value] else []
  }

  function Preempted(sys: System, s: Step, p: nat): seq<VirtualCore>
    requires Allowed(sys, s)
  {
    if s == RunNext(p) && !Panics(sys, p) then PreemptedIn(sys.sched, p) else []
  }

  function Resumed(sys: System, s: Step, n: nat, p: nat): seq<VirtualCore>
    requires Allowed(sys, s) && sys.caps.lastId < n
  {
    if s == RunNext(p) && !Panics(sys, p) then ResumedIn(sys.sched, Next(sys, s, n).sched, p) else []
  }

  ghost function AllPreempted(sys: System, steps: seq<Step>, n: nat, p: nat): seq<VirtualCore>
    requires sys.caps.lastId < n && Runs(sys, steps, n)
    decreases |steps|
  {
    if steps == [] then [] else Preempted(sys, steps[0], p) + AllPreempted(Next(sys, steps[0], n), steps[1..], n, p)
  }

  ghost function AllResumed(sys: System, steps: seq<Step>, n: nat, p: nat): seq<VirtualCore>
    requires sys.caps.lastId < n && Runs(sys, steps, n)
    decreases |steps|
  {
    if steps == [] then [] else Resumed(sys, steps[0], n, p) + AllResumed(Next(sys, steps[0], n), steps[1..], n, p)
  }

  /** A core's own queues through a switch: the next one out, if it comes from there, then the old one in. */
  lemma SwitchOrder(q: WaitQueues, own: bool, running: Option<VirtualCore>, k: Priority)
    requires Sorted(q) && (own ==> Dequeue(q).next.Some?)
    ensures var rest := if own then Dequeue(q).rest else q;
      var out := if own then [Dequeue(q).next.value] else [];
      var back := if running.Some? then [running.value] else [];
      OfClass(out, k) + ClassOf(if running.Some? then Enqueue(rest, running.value) else rest, k) == ClassOf(q, k) + OfClass(back, k)
  {
    var rest := if own then Dequeue(q).rest else q;
    if own { DequeueOrder(q, k); }
    if running.Some? { EnqueueOrder(rest, running.value, k); }
  }

  lemma CorePassOrder(s: Sch.Sched, p: nat, k: Priority)
    requires p < |s.cores| && Sorted(s.cores[p].queues)
    ensures var t := Sch.RunPass(s, p);
      OfClass(ResumedIn(s, t, p), k) + ClassOf(t.cores[p].queues, k) ==
        ClassOf(s.cores[p].queues, k) + OfClass(PreemptedIn(s, p), k)
  {
    JoinEmpty(ClassOf(s.cores[p].queues, k));
    if Sch.Chosen(s, p).Some? {
      SwitchOrder(s.cores[p].queues, Dequeue(s.global).next.None?, s.cores[p].running, k);
    }
  }

  lemma CoreStepOrder(sys: System, s: Step, n: nat, p: nat, k: Priority)
    requires Allowed(sys, s) && sys.caps.lastId < n && p < |sys.sched.cores| && Sorted(sys.sched.cores[p].queues)
    ensures p < |Next(sys, s, n).sched.cores|
    ensures OfClass(Resumed(sys, s, n, p), k) + ClassOf(Next(sys, s, n).sched.cores[p].queues, k) ==
      ClassOf(sys.sched.cores[p].queues, k) + OfClass(Preempted(sys, s, p), k)
  {
    SchedulesSo(sys, s, n);
    if s == RunNext(p) && !Panics(sys, p) {
      CorePassOrder(sys.sched, p, k);
    } else {
      assert Next(sys, s, n).sched.cores[p] == sys.sched.cores[p];
      JoinEmpty(ClassOf(sys.sched.cores[p].queues, k));
    }
  }

  lemma {:induction false} CoreRunOrder(sys: System, steps: seq<Step>, n: nat, p: nat, k: Priority)
    requires sys.caps.lastId < n && Runs(sys, steps, n) && Turns.AllUntouched(sys.sched) && p < |sys.sched.cores|
    ensures var t := Run(sys, steps, n).sched;
      && p < |t.cores|
      && OfClass(AllResumed(sys, steps, n, p), k) + ClassOf(t.cores[p].queues, k) ==
           ClassOf(sys.sched.cores[p].queues, k) + OfClass(AllPreempted(sys, steps, n, p), k)
    decreases |steps|
  {
    if steps != [] {
      var s, rest := steps[0], steps[1..];
      var sys' := Next(sys, s, n);
      SchedulesSo(sys, s, n);
      ScheduleUntouched(sys, s);
      CoreStepOrder(sys, s, n, p, k);
      CoreRunOrder(sys', rest, n, p, k);
      OfClassJoin(Resumed(sys, s, n, p), AllResumed(sys', rest, n, p), k);
      OfClassJoin(Preempted(sys, s, p), AllPreempted(sys', rest, n, p), k);
      Regroup(OfClass(Resumed(sys, s, n, p), k), OfClass(AllResumed(sys', rest, n, p), k),
              ClassOf(Run(sys', rest, n).sched.cores[p].queues, k), ClassOf(sys'.sched.cores[p].queues, k),
              ClassOf(sys.sched.cores[p].queues, k), OfClass(Preempted(sys, s, p), k), OfClass(AllPreempted(sys', rest, n, p), k));
    }
  }

  /**
   * Round robin: in every run from boot, what a core has taken back from its own queues, class by class
   * and in order, followed by what still waits there, is what its switches have pre-empted, in order.
   */
  lemma ResumedInOrder(sections: Regions, smode: seq<bool>, steps: seq<Step>, n: nat, p: nat, k: Priority)
    requires 0 < n && Runs(Boot(sections, smode), steps, n) && p < |smode|
    ensures var sys := Boot(sections, smode);
      var t := Run(sys, steps, n).sched;
      && p < |t.cores|
      && OfClass(AllResumed(sys, steps, n, p), k) + ClassOf(t.cores[p].queues, k) == OfClass(AllPreempted(sys, steps, n, p), k)
  {
    var sys := Boot(sections, smode);
    CoreRunOrder(sys, steps, n, p, k);
    JoinEmpty(OfClass(AllPreempted(sys, steps, n, p), k));
  }

  // ----- high priority first -----

  lemma PassTakesHighFirst(s: Sch.Sched, p: nat, v: VirtualCore)
    requires p < |s.cores| && Turns.AllUntouched(s) && v.priority == Normal
    ensures AdoptedIn(s, Sch.RunPass(s, p), p) == [v] ==> s.global.high == []
    ensures ResumedIn(s, Sch.RunPass(s, p), p) == [v] ==> s.cores[p].queues.high == [] && TotalQueued(s.global) == 0
  {
  }

  /**
   * In every run from boot, a pass takes a normal virtual core from the global queues only if no high
   * priority one waits there, and from the core's own only if none waits there and nothing waits globally.
   */
  lemma HighPriorityFirst(sections: Regions, smode: seq<bool>, steps: seq<Step>, n: nat, p: nat, v: VirtualCore)
    requires 0 < n && Runs(Boot(sections, smode), steps, n) && Allowed(Run(Boot(sections, smode), steps, n), RunNext(p))
    requires v.priority == Normal
    ensures var sys := Run(Boot(sections, smode), steps, n);
      && (AdoptedBy(sys, RunNext(p), n) == [v] ==> sys.sched.global.high == [])
      && (Resumed(sys, RunNext(p), n, p) == [v] ==> sys.sched.cores[p].queues.high == [] && TotalQueued(sys.sched.global) == 0)
  {
    RunUntouched(Boot(sections, smode), steps, n);
    var sys := Run(Boot(sections, smode), steps, n);
    SchedulesSo(sys, RunNext(p), n);
    if !Panics(sys, p) { PassTakesHighFirst(sys.sched, p, v); }
  }
}
