/**
 * Which of its own virtual cores a physical core gets round to, as `run_next` schedules them: with
 * nothing waiting globally, a core only ever chooses among what is already on it.
 */
module CoreTurns {
  import opened Base
  import opened Queues
  import opened Scheduling

  /** Each queue holds its own class, and no timeslice has been counted because `run` is not called. */
  predicate Untouched(q: WaitQueues) { Sorted(q) && q.slices == 0 }

  /** The same of every queue in the system. */
  predicate AllUntouched(s: Sched) {
    Untouched(s.global) && forall p :: 0 <= p < |s.cores| ==> Untouched(s.cores[p].queues)
  }

  lemma CreateUntouched(s: Sched, v: VirtualCore)
    requires AllUntouched(s)
    ensures AllUntouched(Create(s, v))
  {
  }

  lemma PassUntouched(s: Sched, p: nat)
    requires AllUntouched(s) && p < |s.cores|
    ensures AllUntouched(RunPass(s, p))
  {
  }

  /** What a pass does to its core when nothing waits globally. */
  function OwnPass(c: Core): Core {
    var l := Dequeue(c.queues);
    if !c.smode || l.next.None? then c
    else Core(c.smode, if c.running.Some? then Enqueue(l.rest, c.running.value) else l.rest, l.next)
  }

  lemma OwnPassBag(c: Core)
    ensures CoreBag(OwnPass(c)) == CoreBag(c)
  {
    var l := Dequeue(c.queues);
    if c.smode && l.next.Some? {
      TakeBag(c);
      SwitchBag(c.(queues := l.rest), l.next.value);
    }
  }

  lemma QuietPass(s: Sched, q: nat, p: nat)
    requires q < |s.cores| && p < |s.cores| && TotalQueued(s.global) == 0
    ensures var t := RunPass(s, q);
      t.global == s.global && t.cores[p] == if q == p then OwnPass(s.cores[p]) else s.cores[p]
  {
  }

  function OwnPasses(c: Core, n: nat): Core
    decreases n
  {
    if n == 0 then c else OwnPasses(OwnPass(c), n - 1)
  }

  predicate OnCores(s: Sched, ps: seq<nat>) { forall i :: 0 <= i < |ps| ==> ps[i] < |s.cores| }

  function Times(ps: seq<nat>, p: nat): nat {
    if ps == [] then 0 else (if ps[0] == p then 1 else 0) + Times(ps[1..], p)
  }

  /** With nothing waiting globally, cores do not affect each other: only a core's own passes count. */
  lemma {:induction false} OwnPassesOnly(s: Sched, ps: seq<nat>, p: nat)
    requires OnCores(s, ps) && p < |s.cores| && TotalQueued(s.global) == 0
    ensures Passes(s, ps).cores[p] == OwnPasses(s.cores[p], Times(ps, p))
    decreases |ps|
  {
    if ps != [] {
      var t := RunPass(s, ps[0]);
      QuietPass(s, ps[0], p);
      OwnPassesOnly(t, ps[1..], p);
    }
  }

  /** The high priority virtual cores on a core, waiting or running. */
  function Highs(c: Core): nat {
    |c.queues.high| + if c.running.Some? && c.running.value.priority == High then 1 else 0
  }

  lemma OwnPassKeeps(c: Core)
    requires c.smode && Untouched(c.queues)
    ensures var d := OwnPass(c); d.smode && Untouched(d.queues) && Highs(d) == Highs(c)
    ensures c.queues.high != [] ==> OwnPass(c).running == Some(c.queues.high[0])
  {
  }

  /** With two or more high priority virtual cores on it, a core never again runs anything else. */
  lemma {:induction false} CrowdedOut(c: Core, n: nat)
    requires c.smode && Untouched(c.queues) && Highs(c) >= 2 && n > 0
    ensures var r := OwnPasses(c, n).running; r.Some? && r.value.priority == High
    decreases n
  {
    OwnPassKeeps(c);
    if n > 1 { CrowdedOut(OwnPass(c), n - 1); }
  }

  /** With at most one, the normal virtual core at position `i` is run within 2 * (i + 1) passes. */
  lemma {:induction false} GetsItsTurn(c: Core, i: nat) returns (n: nat)
    requires c.smode && Untouched(c.queues) && Highs(c) <= 1 && i < |c.queues.low|
    ensures 0 < n <= 2 * i + 1 + |c.queues.high| && OwnPasses(c, n).running == Some(c.queues.low[i])
    decreases i, |c.queues.high|
  {
    var d := OwnPass(c);
    OwnPassKeeps(c);
    if c.queues.high == [] && i == 0 {
      n := 1;
      assert OwnPasses(c, 1) == OwnPasses(d, 0) == d;
    } else if c.queues.high == [] {
      assert d.queues.low[i - 1] == c.queues.low[i];
      n := GetsItsTurn(d, i - 1);
      n := n + 1;
    } else {
      assert d.queues.low[i] == c.queues.low[i];
      n := GetsItsTurn(d, i);
      n := n + 1;
    }
  }

  /** A pass on any core leaves two high priority virtual cores, and everything in the normal queue, where they are. */
  lemma CrowdedPass(s: Sched, q: nat, p: nat)
    requires AllUntouched(s) && q < |s.cores| && p < |s.cores| && s.cores[p].smode && Highs(s.cores[p]) >= 2
    ensures var c := RunPass(s, q).cores[p];
      c.smode && Highs(c) >= 2 && s.cores[p].queues.low <= c.queues.low
  {
  }

  /** The core `p`, `n` times over. */
  function Repeat(p: nat, n: nat): (ps: seq<nat>)
    ensures |ps| == n && forall i :: 0 <= i < n ==> ps[i] == p
  {
    if n == 0 then [] else [p] + Repeat(p, n - 1)
  }

  lemma {:induction false} TimesAll(p: nat, n: nat)
    ensures Times(Repeat(p, n), p) == n
    decreases n
  {
    if n > 0 {
      assert Repeat(p, n)[1..] == Repeat(p, n - 1);
      TimesAll(p, n - 1);
    }
  }

  lemma {:induction false} TimesSome(ps: seq<nat>, p: nat)
    requires p in ps
    ensures Times(ps, p) > 0
    decreases |ps|
  {
    if ps[0] != p { TimesSome(ps[1..], p); }
  }

  /** Some passes, on any cores but at least one on core `p`, end with core `p` running `v`. */
  ghost predicate CanComeToRun(s: Sched, p: nat, v: VirtualCore)
    requires p < |s.cores|
  {
    exists ps :: OnCores(s, ps) && p in ps && Passes(s, ps).cores[p].running == Some(v)
  }

  /**
   * With nothing waiting globally, a normal virtual core waiting on a core is ever run there if and
   * only if at most one high priority virtual core is on that core. Two of them starve it with no
   * help from outside.
   */
  lemma NormalRunsExactly(s: Sched, p: nat, i: nat)
    requires AllUntouched(s) && TotalQueued(s.global) == 0
    requires p < |s.cores| && s.cores[p].smode && i < |s.cores[p].queues.low|
    ensures CanComeToRun(s, p, s.cores[p].queues.low[i]) <==> Highs(s.cores[p]) <= 1
  {
    var c := s.cores[p];
    var v := c.queues.low[i];
    if Highs(c) <= 1 {
      var n := GetsItsTurn(c, i);
      var ps := Repeat(p, n);
      TimesAll(p, n);
      OwnPassesOnly(s, ps, p);
      assert ps[0] == p;
    } else {
      forall ps | OnCores(s, ps) && p in ps ensures Passes(s, ps).cores[p].running != Some(v) {
        TimesSome(ps, p);
        OwnPassesOnly(s, ps, p);
        CrowdedOut(c, Times(ps, p));
      }
    }
  }
}
