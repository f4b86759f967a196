/** Runs from boot in which a service is left without its capsule, or a capsule without its service. */
module ServiceRaces {
  import opened Base
  import opened PhysMem
  import Caps = Capsules
  import opened Hypervisor
  import opened Intrusions

  /** A capsule is created, allowed a service, and about to register it. */
  lemma CheckPassed(sections: Regions, smode: seq<bool>, sid: nat, n: nat)
    requires 2 < n
    ensures var sys, steps := Boot(sections, smode), [CreateCapsule(false)] + [AllowService(1, sid)] + [CheckService(sid, 1)];
      && Runs(sys, steps, n)
      && var after := Run(sys, steps, n);
         && 1 in after.caps.capsules && after.caps.services == map[] && after.dying.None? && Check(sid, 1) in after.checks
  {
    var s0, t := Boot(sections, smode), [CreateCapsule(false)];
    FirstIds(s0.caps, s0.caps.(capsules := map[1 := Caps.Capsule(false, {}, [], {})], lastId := 1), n, false);
    ThenStep(s0, [], s0, CreateCapsule(false), n);
    assert [] + t == t;
    var s1 := Next(s0, CreateCapsule(false), n);
    ThenStep(s0, t, s1, AllowService(1, sid), n);
    var s2 := Next(s1, AllowService(1, sid), n);
    assert Caps.IsServiceAllowed(s2.caps, 1, sid) == Some(true);
    ThenStep(s0, t + [AllowService(1, sid)], s2, CheckService(sid, 1), n);
  }

  /** The capsule is destroyed between the check and the entry: the service is entered for no capsule. */
  lemma OrphanedService(sections: Regions, smode: seq<bool>, sid: nat, n: nat) returns (steps: seq<Step>)
    requires 2 < n
    ensures Runs(Boot(sections, smode), steps, n)
    ensures var caps := Run(Boot(sections, smode), steps, n).caps;
      sid in caps.services && caps.services[sid] == 1 && 1 !in caps.capsules
  {
    var b := Boot(sections, smode);
    steps := [CreateCapsule(false)] + [AllowService(1, sid)] + [CheckService(sid, 1)];
    CheckPassed(sections, smode, sid, n);
    var sys := Run(b, steps, n);
    var teardown := TeardownAlone(sys, 1, n);
    RunJoin(b, steps, teardown, n);
    ThenStep(b, steps + teardown, Destroyed(sys, 1), EnterService(sid, 1), n);
    steps := steps + teardown + [EnterService(sid, 1)];
  }

  /** Two capsules, both allowed a service. */
  lemma BothAllowed(sections: Regions, smode: seq<bool>, sid: nat, n: nat)
    requires 2 < n
    ensures var sys := Boot(sections, smode);
      var steps := [CreateCapsule(false)] + [CreateCapsule(false)] + [AllowService(1, sid)] + [AllowService(2, sid)];
      && Runs(sys, steps, n)
      && var after := Run(sys, steps, n);
         && after.caps.services == map[] && after.dying.None?
         && Caps.IsServiceAllowed(after.caps, 1, sid) == Some(true) && Caps.IsServiceAllowed(after.caps, 2, sid) == Some(true)
  {
    var s0, t := Boot(sections, smode), [CreateCapsule(false)];
    var none := Caps.Capsule(false, {}, [], {});
    FirstIds(s0.caps, s0.caps.(capsules := map[1 := none], lastId := 1), n, false);
    ThenStep(s0, [], s0, CreateCapsule(false), n);
    assert [] + t == t;
    var s1 := Next(s0, CreateCapsule(false), n);
    ThenStep(s0, t, s1, CreateCapsule(false), n);
    t := t + [CreateCapsule(false)];
    var s2 := Next(s1, CreateCapsule(false), n);
    ThenStep(s0, t, s2, AllowService(1, sid), n);
    ThenStep(s0, t + [AllowService(1, sid)], Next(s2, AllowService(1, sid), n), AllowService(2, sid), n);
  }

  function SecondRegisters(sid: nat): seq<Step> {
    [CreateCapsule(false)] + [CreateCapsule(false)] + [AllowService(1, sid)] + [AllowService(2, sid)]
    + [CheckService(sid, 2)] + [EnterService(sid, 2)]
  }

  lemma Registered(sections: Regions, smode: seq<bool>, sid: nat, n: nat)
    requires 2 < n
    ensures var sys, steps := Boot(sections, smode), SecondRegisters(sid);
      && Runs(sys, steps, n)
      && var after := Run(sys, steps, n);
         && after.dying.None? && Caps.IsServiceAllowed(after.caps, 1, sid) == Some(true)
         && Caps.IsServiceAllowed(after.caps, 2, sid) == Some(true)
         && sid in after.caps.services && after.caps.services[sid] == 2
  {
    var b := Boot(sections, smode);
    var steps := [CreateCapsule(false)] + [CreateCapsule(false)] + [AllowService(1, sid)] + [AllowService(2, sid)];
    BothAllowed(sections, smode, sid, n);
    var s0 := Run(b, steps, n);
    ThenStep(b, steps, s0, CheckService(sid, 2), n);
    var s1 := Next(s0, CheckService(sid, 2), n);
    ThenStep(b, steps + [CheckService(sid, 2)], s1, EnterService(sid, 2), n);
  }

  /** Destroying a capsule that may provide a service withdraws it from the one that does. */
  lemma DestroyedWithAnothers(sys: System, sid: nat)
    requires Caps.IsServiceAllowed(sys.caps, 1, sid) == Some(true) && Caps.IsServiceAllowed(sys.caps, 2, sid) == Some(true)
    ensures sid !in Destroyed(sys, 1).caps.services && Caps.IsServiceAllowed(Destroyed(sys, 1).caps, 2, sid) == Some(true)
  {
  }

  /** The second capsule registers the service, and loses it when the first is destroyed. */
  lemma ServiceLost(sections: Regions, smode: seq<bool>, sid: nat, n: nat) returns (teardown: seq<Step>)
    requires 2 < n
    ensures Runs(Boot(sections, smode), SecondRegisters(sid), n)
    ensures Runs(Boot(sections, smode), SecondRegisters(sid) + teardown, n)
    ensures teardown != [] && teardown[0] == Destroy(1)
    ensures var caps := Run(Boot(sections, smode), SecondRegisters(sid), n).caps; sid in caps.services && caps.services[sid] == 2
    ensures var caps := Run(Boot(sections, smode), SecondRegisters(sid) + teardown, n).caps;
      sid !in caps.services && Caps.IsServiceAllowed(caps, 2, sid) == Some(true)
  {
    Registered(sections, smode, sid, n);
    var sys := Run(Boot(sections, smode), SecondRegisters(sid), n);
    teardown := TeardownAlone(sys, 1, n);
    RunJoin(Boot(sections, smode), SecondRegisters(sid), teardown, n);
    DestroyedWithAnothers(sys, sid);
  }
}
