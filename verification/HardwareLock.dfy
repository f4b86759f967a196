/**
 * The lock on the hardware, with its record of the owner and its forced release, as a protocol of
 * small steps. A core may be interrupted anywhere and acquire again, so each core has a stack of
 * acquisitions of which only the innermost can move.
 */
module HardwareLock {
  import opened Base

  /** How far an acquisition has come; all but Wants and Holds happen with the OWNER lock held. */
  datatype Phase =
    | Wants(once: bool)     // about to lock OWNER
    | Decides(once: bool)   // about to compare OWNER with itself and try HARDWARE
    | Claims                // got HARDWARE as a new owner, about to write OWNER
    | Forces(once: bool)    // is OWNER already but HARDWARE was locked: about to force it open
    | Leaves                // got HARDWARE, about to release OWNER and return the guard
    | Retries(once: bool)   // about to release OWNER and start over
    | Fails                 // about to release OWNER and return nothing
    | Holds                 // returned with the guard

  datatype Lock = Lock(
    owner: nat,                 // the value protected by the OWNER lock
    guard: Option<nat>,         // the core holding the OWNER lock
    locked: bool,               // whether HARDWARE is locked
    last: Option<nat>,          // the core that most recently acquired HARDWARE
    stacks: seq<seq<Phase>>)    // each core's acquisitions, innermost last

  datatype Step = Start(c: nat, once: bool) | Act(c: nat) | DropGuard(c: nat)

  /** After boot: nobody is acquiring, and OWNER holds the ID of whichever core touched it first. */
  function Boot(cores: nat, first: nat): Lock {
    Lock(first, None, false, None, seq(cores, _ => []))
  }

  predicate Busy(l: Lock, c: nat) { c < |l.stacks| && l.stacks[c] != [] }

  function Top(l: Lock, c: nat): Phase
    requires Busy(l, c)
  {
    l.stacks[c][|l.stacks[c]| - 1]
  }

  function Enter(l: Lock, c: nat, p: Phase): Lock
    requires Busy(l, c)
  {
    l.(stacks := l.stacks[c := l.stacks[c][|l.stacks[c]| - 1 := p]])
  }

  function Pop(l: Lock, c: nat): Lock
    requires Busy(l, c)
  {
    l.(stacks := l.stacks[c := l.stacks[c][..|l.stacks[c]| - 1]])
  }

  predicate Enabled(l: Lock, s: Step) {
    match s
    case Start(c, _) => c < |l.stacks|
    case Act(c) => Busy(l, c) && Top(l, c) != Holds && (Top(l, c).Wants? ==> l.guard.None?)
    case DropGuard(c) => Busy(l, c) && Top(l, c) == Holds
  }

  function Advance(l: Lock, c: nat): Lock
    requires Enabled(l, Act(c))
  {
    match Top(l, c)
    case Wants(once) => Enter(l.(guard := Some(c)), c, Decides(once))
    case Decides(once) =>
      if l.owner == c then
        if !l.locked then Enter(l.(locked := true, last := Some(c)), c, Leaves) else Enter(l, c, Forces(once))
      else
        if !l.locked then Enter(l.(locked := true, last := Some(c)), c, Claims)
        else if once then Enter(l, c, Fails) else Enter(l, c, Retries(false))
    case Claims => Enter(l.(owner := c), c, Leaves)
    case Forces(once) => Enter(l.(locked := false), c, Retries(once))
    case Leaves => Enter(l.(guard := None), c, Holds)
    case Retries(once) => Enter(l.(guard := None), c, Wants(once))
    case Fails => Pop(l.(guard := None), c)
    case Holds => l
  }

  function Next(l: Lock, s: Step): Lock
    requires Enabled(l, s)
  {
    match s
    case Start(c, once) => l.(stacks := l.stacks[c := l.stacks[c] + [Wants(once)]])
    case Act(c) => Advance(l, c)
    case DropGuard(c) => Pop(l.(locked := false), c)
  }

  ghost predicate Runs(l: Lock, steps: seq<Step>)
    decreases |steps|
  {
    steps == [] || (Enabled(l, steps[0]) && Runs(Next(l, steps[0]), steps[1..]))
  }

  ghost function Run(l: Lock, steps: seq<Step>): Lock
    requires Runs(l, steps)
    decreases |steps|
  {
    if steps == [] then l else Run(Next(l, steps[0]), steps[1..])
  }

  // ----- in every run -----

  /** The acquisition at position `i` of core `c`'s stack is in phase `p`. */
  predicate At(l: Lock, c: int, i: int) { 0 <= c < |l.stacks| && 0 <= i < |l.stacks[c]| }

  function PhaseAt(l: Lock, c: int, i: int): Phase
    requires At(l, c, i)
  {
    l.stacks[c][i]
  }

  predicate Guarded(p: Phase) { !p.Wants? && !p.Holds? }

  /** The OWNER lock excludes: it is held just while one acquisition is between locking and releasing it. */
  ghost predicate GuardExcludes(l: Lock) {
    && (forall c, i :: At(l, c, i) && Guarded(PhaseAt(l, c, i)) ==> l.guard == Some(c))
    && (forall c, i, j :: At(l, c, i) && At(l, c, j) && Guarded(PhaseAt(l, c, i)) && Guarded(PhaseAt(l, c, j)) ==> i == j)
    && (l.guard.Some? ==> exists i :: At(l, l.guard.value, i) && Guarded(PhaseAt(l, l.guard.value, i)))
  }

  /** OWNER names the core that last acquired HARDWARE, except while a new owner is about to write it. */
  ghost predicate OwnerTracks(l: Lock) {
    && (l.locked ==> l.last.Some?)
    && (l.last.Some? && l.owner != l.last.value ==>
          exists i :: At(l, l.last.value, i) && PhaseAt(l, l.last.value, i) == Claims)
    && (forall c, i :: At(l, c, i) && PhaseAt(l, c, i) == Claims ==> l.last == Some(c))
    && (forall c, i :: At(l, c, i) && PhaseAt(l, c, i).Forces? ==> l.owner == c && l.last == Some(c))
  }

  /** Where the acquisition that a step starts or moves is found, in the stack of its core. */
  function Spot(l: Lock, s: Step): int
    requires Enabled(l, s)
  {
    if s.Start? then |l.stacks[s.c]| else |l.stacks[s.c]| - 1
  }

  /** A step leaves every other acquisition where it is, in its phase. */
  lemma OthersStay(l: Lock, s: Step)
    requires Enabled(l, s)
    ensures var l' := Next(l, s);
      && (forall d, i :: (d != s.c || i != Spot(l, s)) ==> (At(l', d, i) <==> At(l, d, i)))
      && (forall d, i :: (d != s.c || i != Spot(l, s)) && At(l, d, i) ==> PhaseAt(l', d, i) == PhaseAt(l, d, i))
      && (s.Start? ==> At(l', s.c, Spot(l, s)) && PhaseAt(l', s.c, Spot(l, s)) == Wants(s.once))
      && (!s.Start? ==> At(l, s.c, Spot(l, s)) && PhaseAt(l, s.c, Spot(l, s)) == Top(l, s.c))
  {
  }

  lemma StepKeepsGuard(l: Lock, s: Step)
    requires Enabled(l, s) && GuardExcludes(l)
    ensures GuardExcludes(Next(l, s))
  {
    var l' := Next(l, s);
    OthersStay(l, s);
    if l'.guard.Some? {
      if s.Act? {
        assert At(l', s.c, Spot(l, s)) && Guarded(PhaseAt(l', s.c, Spot(l, s)));
      } else {
        var i :| At(l, l.guard.value, i) && Guarded(PhaseAt(l, l.guard.value, i));
        assert At(l', l.guard.value, i) && Guarded(PhaseAt(l', l.guard.value, i));
      }
    }
  }

  lemma StepKeepsOwner(l: Lock, s: Step)
    requires Enabled(l, s) && GuardExcludes(l) && OwnerTracks(l)
    ensures OwnerTracks(Next(l, s))
  {
    var l' := Next(l, s);
    var c := s.c;
    var top := Spot(l, s);
    OthersStay(l, s);
    if l'.last.Some? && l'.owner != l'.last.value {
      if s.Act? && Top(l, c).Decides? && !l.locked {
        assert At(l', c, top) && PhaseAt(l', c, top) == Claims;
      } else {
        var i :| At(l, l.last.value, i) && PhaseAt(l, l.last.value, i) == Claims;
        assert At(l', l.last.value, i) && PhaseAt(l', l.last.value, i) == Claims;
      }
    }
  }

  lemma {:induction false} RunTracksOwner(l: Lock, steps: seq<Step>)
    requires Runs(l, steps) && GuardExcludes(l) && OwnerTracks(l)
    ensures GuardExcludes(Run(l, steps)) && OwnerTracks(Run(l, steps))
    decreases |steps|
  {
    if steps != [] {
      StepKeepsGuard(l, steps[0]);
      StepKeepsOwner(l, steps[0]);
      RunTracksOwner(Next(l, steps[0]), steps[1..]);
    }
  }

  /**
   * In all runs, re-entrant ones included, a core about to force the lock open is the one that most
   * recently acquired it.
   */
  lemma OnlyTheLastAcquirerForces(cores: nat, first: nat, steps: seq<Step>, c: nat)
    requires Runs(Boot(cores, first), steps)
    requires Busy(Run(Boot(cores, first), steps), c) && Top(Run(Boot(cores, first), steps), c).Forces?
    ensures Run(Boot(cores, first), steps).last == Some(c)
  {
    RunTracksOwner(Boot(cores, first), steps);
    var l := Run(Boot(cores, first), steps);
    assert At(l, c, |l.stacks[c]| - 1) && PhaseAt(l, c, |l.stacks[c]| - 1).Forces?;
  }

  // ----- exclusion, and exactly when the forced release is reached -----

  /** Core `c` has been given the hardware and has not dropped it. */
  predicate HoldsAlready(l: Lock, c: nat) { c < |l.stacks| && Holds in l.stacks[c] }

  predicate HasHardware(p: Phase) { p == Claims || p == Leaves || p == Holds }

  /** The step is a core's decision on an acquisition while an outer one of its own holds the hardware. */
  predicate DecidesHolding(l: Lock, s: Step)
    requires Enabled(l, s)
  {
    s.Act? && Top(l, s.c).Decides? && HoldsAlready(l, s.c)
  }

  /** Some step of the run is such a decision. */
  ghost predicate EverDecidesHolding(l: Lock, steps: seq<Step>)
    requires Runs(l, steps)
    decreases |steps|
  {
    steps != [] && (DecidesHolding(l, steps[0]) || EverDecidesHolding(Next(l, steps[0]), steps[1..]))
  }

  ghost predicate AnyForces(l: Lock) { exists c, i :: At(l, c, i) && PhaseAt(l, c, i).Forces? }

  /** In some state of the run a core is about to force the lock open. */
  ghost predicate EverForces(l: Lock, steps: seq<Step>)
    requires Runs(l, steps)
    decreases |steps|
  {
    AnyForces(l) || (steps != [] && EverForces(Next(l, steps[0]), steps[1..]))
  }

  ghost predicate Exclusive(l: Lock) {
    && (forall c, i :: At(l, c, i) && HasHardware(PhaseAt(l, c, i)) ==> l.locked)
    && (forall c, i, d, j :: At(l, c, i) && At(l, d, j) && HasHardware(PhaseAt(l, c, i)) && HasHardware(PhaseAt(l, d, j)) ==>
          c == d && i == j)
    && (l.locked ==> exists c, i :: At(l, c, i) && HasHardware(PhaseAt(l, c, i)))
    && (forall c, i :: At(l, c, i) && (PhaseAt(l, c, i) == Leaves || PhaseAt(l, c, i) == Holds) ==> l.owner == c)
    && (forall c, i :: At(l, c, i) ==> !PhaseAt(l, c, i).Forces?)
  }

  lemma HoldsAt(l: Lock, c: nat)
    requires c < |l.stacks|
    ensures HoldsAlready(l, c) <==> exists i :: At(l, c, i) && PhaseAt(l, c, i) == Holds
  {
    if HoldsAlready(l, c) {
      var i :| 0 <= i < |l.stacks[c]| && l.stacks[c][i] == Holds;
      assert At(l, c, i) && PhaseAt(l, c, i) == Holds;
    }
    if i :| At(l, c, i) && PhaseAt(l, c, i) == Holds { assert l.stacks[c][i] in l.stacks[c]; }
  }

  /** A decision taken without holding the hardware finds it open if the core is its owner. */
  lemma NeverForces(l: Lock, c: nat)
    requires GuardExcludes(l) && Exclusive(l) && Busy(l, c) && Top(l, c).Decides? && l.owner == c
    requires !HoldsAlready(l, c)
    ensures !l.locked
  {
    var top := |l.stacks[c]| - 1;
    assert At(l, c, top) && PhaseAt(l, c, top) == Top(l, c);
    HoldsAt(l, c);
    forall d, i | At(l, d, i) ensures !HasHardware(PhaseAt(l, d, i)) {
    }
  }

  /** A decision taken while holding the hardware always leads to the forced release. */
  lemma DecidingForces(l: Lock, c: nat)
    requires Exclusive(l) && Enabled(l, Act(c)) && DecidesHolding(l, Act(c))
    ensures AnyForces(Next(l, Act(c)))
  {
    HoldsAt(l, c);
    var i :| At(l, c, i) && PhaseAt(l, c, i) == Holds;
    assert l.locked && l.owner == c;
    var l', top := Next(l, Act(c)), Spot(l, Act(c));
    assert At(l', c, top) && PhaseAt(l', c, top).Forces?;
  }

  lemma StartKeepsExclusive(l: Lock, c: nat, once: bool)
    requires c < |l.stacks| && Exclusive(l)
    ensures Exclusive(Next(l, Start(c, once)))
  {
    var l' := Next(l, Start(c, once));
    OthersStay(l, Start(c, once));
    if l.locked {
      var d, i :| At(l, d, i) && HasHardware(PhaseAt(l, d, i));
      assert At(l', d, i) && HasHardware(PhaseAt(l', d, i));
    }
  }

  lemma DropKeepsExclusive(l: Lock, c: nat)
    requires Enabled(l, DropGuard(c)) && Exclusive(l)
    ensures Exclusive(Next(l, DropGuard(c)))
  {
    OthersStay(l, DropGuard(c));
  }

  /** The acquisition at the top of core `c`'s stack, if it has the hardware, is the only one that has. */
  lemma ActKeepsExclusive(l: Lock, c: nat)
    requires Enabled(l, Act(c)) && GuardExcludes(l) && Exclusive(l) && !DecidesHolding(l, Act(c))
    ensures Exclusive(Next(l, Act(c)))
  {
    var l' := Next(l, Act(c));
    var top := Spot(l, Act(c));
    OthersStay(l, Act(c));
    if Top(l, c).Decides? && l.owner == c { NeverForces(l, c); }
    assert !Top(l, c).Forces?;
    var gains := Top(l, c).Decides? && !l.locked;
    assert gains || HasHardware(Top(l, c)) ==> At(l', c, top) && HasHardware(PhaseAt(l', c, top));
    assert !gains && !HasHardware(Top(l, c)) ==> !At(l', c, top) || !HasHardware(PhaseAt(l', c, top));
    if l.locked && !HasHardware(Top(l, c)) {
      var d, i :| At(l, d, i) && HasHardware(PhaseAt(l, d, i));
      assert At(l', d, i) && HasHardware(PhaseAt(l', d, i));
    }
  }

  lemma StepKeepsExclusive(l: Lock, s: Step)
    requires Enabled(l, s) && GuardExcludes(l) && Exclusive(l) && !DecidesHolding(l, s)
    ensures Exclusive(Next(l, s))
  {
    match s
    case Start(c, once) => StartKeepsExclusive(l, c, once);
    case Act(c) => ActKeepsExclusive(l, c);
    case DropGuard(c) => DropKeepsExclusive(l, c);
  }

  lemma {:induction false} RunKeepsExclusive(l: Lock, steps: seq<Step>)
    requires Runs(l, steps) && GuardExcludes(l) && Exclusive(l) && !EverDecidesHolding(l, steps)
    ensures GuardExcludes(Run(l, steps)) && Exclusive(Run(l, steps)) && !EverForces(l, steps)
    decreases |steps|
  {
    if steps != [] {
      StepKeepsGuard(l, steps[0]);
      StepKeepsExclusive(l, steps[0]);
      RunKeepsExclusive(Next(l, steps[0]), steps[1..]);
    }
  }

  lemma {:induction false} DecidingLeadsToForce(l: Lock, steps: seq<Step>)
    requires Runs(l, steps) && GuardExcludes(l) && Exclusive(l) && EverDecidesHolding(l, steps)
    ensures EverForces(l, steps)
    decreases |steps|
  {
    var l' := Next(l, steps[0]);
    if DecidesHolding(l, steps[0]) {
      DecidingForces(l, steps[0].c);
      assert EverForces(l', steps[1..]);
    } else {
      StepKeepsGuard(l, steps[0]);
      StepKeepsExclusive(l, steps[0]);
      DecidingLeadsToForce(l', steps[1..]);
    }
  }

  /**
   * In every run, the forced release is reached if and only if some core decides on an acquisition
   * while an outer one of its own holds the hardware. Starting one, or locking OWNER for it, is harmless.
   */
  lemma ForcedExactly(cores: nat, first: nat, steps: seq<Step>)
    requires Runs(Boot(cores, first), steps)
    ensures EverForces(Boot(cores, first), steps) <==> EverDecidesHolding(Boot(cores, first), steps)
  {
    if EverDecidesHolding(Boot(cores, first), steps) {
      DecidingLeadsToForce(Boot(cores, first), steps);
    } else {
      RunKeepsExclusive(Boot(cores, first), steps);
    }
  }

  /**
   * Mutual exclusion: in every run in which that never happens, at most one core holds the hardware,
   * the hardware is locked while it is held, and its holder is the recorded owner.
   */
  lemma MutualExclusion(cores: nat, first: nat, steps: seq<Step>)
    requires Runs(Boot(cores, first), steps) && !EverDecidesHolding(Boot(cores, first), steps)
    ensures var l := Run(Boot(cores, first), steps);
      && (forall c, d :: HoldsAlready(l, c) && HoldsAlready(l, d) ==> c == d)
      && (forall c :: HoldsAlready(l, c) ==> l.locked && l.owner == c)
      && !AnyForces(l)
  {
    RunKeepsExclusive(Boot(cores, first), steps);
    var l := Run(Boot(cores, first), steps);
    forall c: nat | HoldsAlready(l, c) ensures l.locked && l.owner == c {
      HoldsAt(l, c);
    }
  }

  /** No core starts an acquisition while it already holds. */
  ghost predicate NotReentrant(l: Lock, steps: seq<Step>)
    requires Runs(l, steps)
    decreases |steps|
  {
    steps == [] ||
    ((steps[0].Start? ==> !HoldsAlready(l, steps[0].c)) && NotReentrant(Next(l, steps[0]), steps[1..]))
  }

  /** Nothing has been started on top of an acquisition that holds. */
  ghost predicate HoldsOnTop(l: Lock) {
    forall c, i :: At(l, c, i) && PhaseAt(l, c, i) == Holds ==> i == |l.stacks[c]| - 1
  }

  /** Runs in which no core acquires while it already holds are among those that keep exclusion. */
  lemma {:induction false} NotReentrantNeverDecides(l: Lock, steps: seq<Step>)
    requires Runs(l, steps) && NotReentrant(l, steps) && HoldsOnTop(l)
    ensures !EverDecidesHolding(l, steps)
    decreases |steps|
  {
    if steps != [] {
      var s, l' := steps[0], Next(l, steps[0]);
      OthersStay(l, s);
      HoldsAt(l, s.c);
      assert HoldsOnTop(l') by {
        forall c, i | At(l', c, i) && PhaseAt(l', c, i) == Holds ensures i == |l'.stacks[c]| - 1 {
          assert c != s.c || i != Spot(l, s) ==> At(l, c, i) && PhaseAt(l, c, i) == Holds;
        }
      }
      NotReentrantNeverDecides(l', steps[1..]);
    }
  }

  // ----- exactly when the OWNER lock is lost for good -----

  /** A core was interrupted while it held the OWNER lock, and has started another acquisition. */
  ghost predicate Buried(l: Lock) {
    exists c, i :: At(l, c, i) && Guarded(PhaseAt(l, c, i)) && i < |l.stacks[c]| - 1
  }

  /** What was started after OWNER was locked is still waiting to lock it. */
  ghost predicate OnlyWaitsAbove(l: Lock) {
    forall c, i, j :: At(l, c, i) && At(l, c, j) && i < j && Guarded(PhaseAt(l, c, i)) ==> PhaseAt(l, c, j).Wants?
  }

  lemma StepKeepsWaiting(l: Lock, s: Step)
    requires Enabled(l, s) && GuardExcludes(l) && OnlyWaitsAbove(l)
    ensures OnlyWaitsAbove(Next(l, s))
  {
    var l' := Next(l, s);
    OthersStay(l, s);
    forall c, i, j | At(l', c, i) && At(l', c, j) && i < j && Guarded(PhaseAt(l', c, i)) ensures PhaseAt(l', c, j).Wants? {
      assert At(l, c, i) && PhaseAt(l, c, i) == PhaseAt(l', c, i);
    }
  }

  lemma {:induction false} RunKeepsWaiting(l: Lock, steps: seq<Step>)
    requires Runs(l, steps) && GuardExcludes(l) && OnlyWaitsAbove(l)
    ensures GuardExcludes(Run(l, steps)) && OnlyWaitsAbove(Run(l, steps))
    decreases |steps|
  {
    if steps != [] {
      StepKeepsGuard(l, steps[0]);
      StepKeepsWaiting(l, steps[0]);
      RunKeepsWaiting(Next(l, steps[0]), steps[1..]);
    }
  }

  /** While OWNER is locked, some acquisition can move if and only if the one that locked it is not buried. */
  lemma StuckExactly(l: Lock)
    requires GuardExcludes(l)
    ensures l.guard.Some? && (forall c: nat :: !Enabled(l, Act(c))) <==> Buried(l)
  {
    if Buried(l) {
      var c, i :| At(l, c, i) && Guarded(PhaseAt(l, c, i)) && i < |l.stacks[c]| - 1;
      forall d: nat ensures !Enabled(l, Act(d)) {
        if Enabled(l, Act(d)) { assert At(l, d, |l.stacks[d]| - 1); }
      }
    } else if l.guard.Some? {
      var c := l.guard.value;
      var i :| At(l, c, i) && Guarded(PhaseAt(l, c, i));
      assert Enabled(l, Act(c));
    }
  }

  lemma StepKeepsBuried(l: Lock, s: Step)
    requires Enabled(l, s) && GuardExcludes(l) && OnlyWaitsAbove(l) && Buried(l)
    ensures !s.Act? && Buried(Next(l, s)) && Next(l, s).guard == l.guard
  {
    StuckExactly(l);
    OthersStay(l, s);
    var l' := Next(l, s);
    var c, i :| At(l, c, i) && Guarded(PhaseAt(l, c, i)) && i < |l.stacks[c]| - 1;
    assert At(l, c, |l.stacks[c]| - 1) && PhaseAt(l, c, |l.stacks[c]| - 1).Wants?;
    assert At(l', c, i) && Guarded(PhaseAt(l', c, i)) && i < |l'.stacks[c]| - 1;
  }

  ghost predicate NoneActs(steps: seq<Step>) { forall k :: 0 <= k < |steps| ==> !steps[k].Act? }

  lemma {:induction false} BuriedForGood(l: Lock, steps: seq<Step>)
    requires Runs(l, steps) && GuardExcludes(l) && OnlyWaitsAbove(l) && Buried(l)
    ensures NoneActs(steps) && Buried(Run(l, steps)) && Run(l, steps).guard == l.guard
    decreases |steps|
  {
    if steps != [] {
      StepKeepsGuard(l, steps[0]);
      StepKeepsWaiting(l, steps[0]);
      StepKeepsBuried(l, steps[0]);
      BuriedForGood(Next(l, steps[0]), steps[1..]);
    }
  }

  /** A core starts an acquisition while it holds the OWNER lock for another. */
  predicate StartsGuarded(l: Lock, s: Step) { s.Start? && l.guard == Some(s.c) }

  ghost predicate EverStartsGuarded(l: Lock, steps: seq<Step>)
    requires Runs(l, steps)
    decreases |steps|
  {
    steps != [] && (StartsGuarded(l, steps[0]) || EverStartsGuarded(Next(l, steps[0]), steps[1..]))
  }

  lemma StepBuriesExactly(l: Lock, s: Step)
    requires Enabled(l, s) && GuardExcludes(l) && !Buried(l)
    ensures Buried(Next(l, s)) <==> StartsGuarded(l, s)
  {
    var l' := Next(l, s);
    OthersStay(l, s);
    if StartsGuarded(l, s) {
      var i :| At(l, s.c, i) && Guarded(PhaseAt(l, s.c, i));
      assert At(l', s.c, i) && Guarded(PhaseAt(l', s.c, i)) && i < |l'.stacks[s.c]| - 1;
    } else {
      forall c, i | At(l', c, i) && Guarded(PhaseAt(l', c, i)) ensures i == |l'.stacks[c]| - 1 {
        assert (c == s.c && i == Spot(l, s)) || (At(l, c, i) && PhaseAt(l, c, i) == PhaseAt(l', c, i));
      }
    }
  }

  lemma {:induction false} RunBuriesExactly(l: Lock, steps: seq<Step>)
    requires Runs(l, steps) && GuardExcludes(l) && OnlyWaitsAbove(l) && !Buried(l)
    ensures Buried(Run(l, steps)) <==> EverStartsGuarded(l, steps)
    decreases |steps|
  {
    if steps != [] {
      var l' := Next(l, steps[0]);
      StepKeepsGuard(l, steps[0]);
      StepKeepsWaiting(l, steps[0]);
      StepBuriesExactly(l, steps[0]);
      if Buried(l') { BuriedForGood(l', steps[1..]); } else { RunBuriesExactly(l', steps[1..]); }
    }
  }

  /**
   * In every run: OWNER is locked and no acquisition on any core can move if and only if at some point
   * a core that held OWNER started another acquisition; and then none ever moves again, in any
   * continuation.
   */
  lemma DeadlockExactly(cores: nat, first: nat, steps: seq<Step>, more: seq<Step>)
    requires Runs(Boot(cores, first), steps) && Runs(Run(Boot(cores, first), steps), more)
    ensures var l := Run(Boot(cores, first), steps);
      && (l.guard.Some? && (forall c: nat :: !Enabled(l, Act(c))) <==> EverStartsGuarded(Boot(cores, first), steps))
      && (EverStartsGuarded(Boot(cores, first), steps) ==> NoneActs(more) && Run(l, more).guard == l.guard)
  {
    RunKeepsWaiting(Boot(cores, first), steps);
    RunBuriesExactly(Boot(cores, first), steps);
    var l := Run(Boot(cores, first), steps);
    StuckExactly(l);
    if Buried(l) { BuriedForGood(l, more); }
  }

  /** With OWNER open, every core that waits to lock it can. */
  lemma OpenMeansFree(l: Lock, c: nat)
    requires GuardExcludes(l) && l.guard.None? && Busy(l, c)
    ensures Enabled(l, Act(c)) <==> Top(l, c) != Holds
  {
    assert At(l, c, |l.stacks[c]| - 1);
  }

  // ----- an acquisition told to try again does -----

  /** What an acquisition with `LockAttempts::Multiple` can be doing. */
  predicate Persistent(p: Phase) {
    match p
    case Wants(once) => !once
    case Decides(once) => !once
    case Forces(once) => !once
    case Retries(once) => !once
    case Fails => false
    case _ => true
  }

  lemma StepPersists(l: Lock, s: Step, c: int, i: int)
    requires Enabled(l, s) && At(l, c, i) && Persistent(PhaseAt(l, c, i)) && PhaseAt(l, c, i) != Holds
    ensures At(Next(l, s), c, i) && Persistent(PhaseAt(Next(l, s), c, i))
  {
    OthersStay(l, s);
  }

  /** In some state of the run the acquisition at this place holds the hardware. */
  ghost predicate EverHoldsAt(l: Lock, steps: seq<Step>, c: int, i: int)
    requires Runs(l, steps)
    decreases |steps|
  {
    (At(l, c, i) && PhaseAt(l, c, i) == Holds) || (steps != [] && EverHoldsAt(Next(l, steps[0]), steps[1..], c, i))
  }

  lemma {:induction false} RunPersists(l: Lock, steps: seq<Step>, c: int, i: int)
    requires Runs(l, steps) && At(l, c, i) && Persistent(PhaseAt(l, c, i))
    ensures EverHoldsAt(l, steps, c, i) || (At(Run(l, steps), c, i) && Persistent(PhaseAt(Run(l, steps), c, i)))
    decreases |steps|
  {
    if steps != [] && PhaseAt(l, c, i) != Holds {
      StepPersists(l, steps[0], c, i);
      RunPersists(Next(l, steps[0]), steps[1..], c, i);
    }
  }

  /**
   * In all runs, an acquisition started with `LockAttempts::Multiple` never returns without the
   * hardware: until it comes to hold it, it is there, and has not failed.
   */
  lemma NeverGivesUp(l: Lock, c: nat, steps: seq<Step>)
    requires c < |l.stacks| && Runs(Next(l, Start(c, false)), steps)
    ensures var l', i := Next(l, Start(c, false)), |l.stacks[c]|;
      EverHoldsAt(l', steps, c, i) || (At(Run(l', steps), c, i) && Persistent(PhaseAt(Run(l', steps), c, i)))
  {
    RunPersists(Next(l, Start(c, false)), steps, c, |l.stacks[c]|);
  }

  // ----- what an acquisition achieves, and what re-entry can do -----

  /** One more step at the end of a run that has reached `mid`. */
  lemma {:induction false} Then(l: Lock, steps: seq<Step>, mid: Lock, s: Step) returns (more: seq<Step>)
    requires Runs(l, steps) && Run(l, steps) == mid && Enabled(mid, s)
    ensures Runs(l, more) && Run(l, more) == Next(mid, s)
    decreases |steps|
  {
    if steps == [] {
      more := [s];
      assert more[1..] == [];
    } else {
      var rest := Then(Next(l, steps[0]), steps[1..], mid, s);
      more := [steps[0]] + rest;
      assert more[1..] == rest;
    }
  }

  /** `l` with an acquisition in phase `p` on top of core `c`'s stack in `base`. */
  function Above(l: Lock, base: seq<seq<Phase>>, c: nat, p: Phase): Lock
    requires c < |base|
  {
    l.(stacks := base[c := base[c] + [p]])
  }

  lemma EnterAbove(l: Lock, base: seq<seq<Phase>>, c: nat, p: Phase, q: Phase)
    requires c < |base|
    ensures Busy(Above(l, base, c, p), c) && Top(Above(l, base, c, p), c) == p
    ensures Enter(Above(l, base, c, p), c, q) == Above(l, base, c, q)
    ensures Pop(Above(l, base, c, p), c) == l.(stacks := base)
  {
    assert (base[c] + [p])[|base[c]| := q] == base[c] + [q];
    assert base[c := base[c] + [p]][c := base[c] + [q]] == base[c := base[c] + [q]];
    assert base[c := base[c] + [p]][c := base[c]] == base;
  }

  /** An acquisition that has just begun and moves on alone up to its decision. */
  lemma BeginAlone(l: Lock, steps: seq<Step>, base: seq<seq<Phase>>, c: nat, once: bool) returns (more: seq<Step>)
    requires c < |base| && Runs(l, steps) && Run(l, steps).guard.None?
    requires Run(l, steps) == Above(Run(l, steps), base, c, Wants(once))
    ensures Runs(l, more) && Run(l, more) == Above(Run(l, steps).(guard := Some(c)), base, c, Decides(once))
  {
    var m := Run(l, steps);
    EnterAbove(m, base, c, Wants(once), Decides(once));
    more := Then(l, steps, m, Act(c));
    EnterAbove(m.(guard := Some(c)), base, c, Wants(once), Decides(once));
  }

  /** With the lock open, a core that tries alone gets it and is recorded as its owner. */
  lemma AcquireAlone(l: Lock, steps: seq<Step>, base: seq<seq<Phase>>, c: nat, once: bool) returns (more: seq<Step>)
    requires c < |base| && Runs(l, steps) && Run(l, steps).guard.None? && !Run(l, steps).locked
    requires Run(l, steps) == Above(Run(l, steps), base, c, Wants(once))
    ensures Runs(l, more)
    ensures Run(l, more) == Above(Run(l, steps).(owner := c, locked := true, last := Some(c)), base, c, Holds)
  {
    var m := Run(l, steps);
    more := BeginAlone(l, steps, base, c, once);
    var m1 := m.(guard := Some(c));
    EnterAbove(m1, base, c, Decides(once), Leaves);
    var m2 := m1.(locked := true, last := Some(c));
    if m.owner == c {
      EnterAbove(m2, base, c, Decides(once), Leaves);
      more := Then(l, more, Above(m1, base, c, Decides(once)), Act(c));
    } else {
      EnterAbove(m2, base, c, Decides(once), Claims);
      more := Then(l, more, Above(m1, base, c, Decides(once)), Act(c));
      EnterAbove(m2, base, c, Claims, Leaves);
      more := Then(l, more, Above(m2, base, c, Claims), Act(c));
      EnterAbove(m2.(owner := c), base, c, Claims, Leaves);
    }
    var m3 := m2.(owner := c);
    EnterAbove(m3, base, c, Leaves, Holds);
    more := Then(l, more, Above(m3, base, c, Leaves), Act(c));
    EnterAbove(m3.(guard := None), base, c, Leaves, Holds);
  }

  /** With the lock closed by the core's own earlier acquisition, a core that tries alone breaks it open and gets it. */
  lemma ReacquireAlone(l: Lock, steps: seq<Step>, base: seq<seq<Phase>>, c: nat, once: bool) returns (more: seq<Step>)
    requires c < |base| && Runs(l, steps) && Run(l, steps).guard.None?
    requires Run(l, steps).locked && Run(l, steps).owner == c
    requires Run(l, steps) == Above(Run(l, steps), base, c, Wants(once))
    ensures Runs(l, more) && Run(l, more) == Above(Run(l, steps).(last := Some(c)), base, c, Holds)
  {
    var m := Run(l, steps);
    more := BeginAlone(l, steps, base, c, once);
    var m1 := m.(guard := Some(c));
    EnterAbove(m1, base, c, Decides(once), Forces(once));
    more := Then(l, more, Above(m1, base, c, Decides(once)), Act(c));
    EnterAbove(m1, base, c, Forces(once), Retries(once));
    more := Then(l, more, Above(m1, base, c, Forces(once)), Act(c));
    var m2 := m1.(locked := false);
    EnterAbove(m2, base, c, Forces(once), Retries(once));
    EnterAbove(m2, base, c, Retries(once), Wants(once));
    more := Then(l, more, Above(m2, base, c, Retries(once)), Act(c));
    EnterAbove(m2.(guard := None), base, c, Retries(once), Wants(once));
    more := AcquireAlone(l, more, base, c, once);
  }

  /** With the lock held by another owner, a single attempt gives up and leaves everything as it was. */
  lemma TryOnceFails(l: Lock, c: nat) returns (steps: seq<Step>)
    requires c < |l.stacks| && l.guard.None? && l.locked && l.owner != c
    ensures Runs(l, steps) && Run(l, steps) == l && steps == [Start(c, true), Act(c), Act(c), Act(c)]
  {
    var base := l.stacks;
    var m := l.(guard := Some(c));
    EnterAbove(l, base, c, Wants(true), Decides(true));
    EnterAbove(m, base, c, Wants(true), Decides(true));
    EnterAbove(m, base, c, Decides(true), Fails);
    EnterAbove(m, base, c, Fails, Fails);
    EnterAbove(l, base, c, Fails, Fails);
    var s0 := Next(l, Start(c, true));
    var s1 := Next(s0, Act(c));
    var s2 := Next(s1, Act(c));
    assert s2 == Above(m, base, c, Fails);
    assert Next(s2, Act(c)) == l;
    steps := [Start(c, true), Act(c), Act(c), Act(c)];
    assert steps[1..] == [Act(c), Act(c), Act(c)] && steps[1..][1..] == [Act(c), Act(c)];
    assert steps[1..][1..][1..] == [Act(c)] && steps[1..][1..][1..][1..] == [];
    assert Runs(s2, [Act(c)]) && Run(s2, [Act(c)]) == l;
    assert Runs(s1, [Act(c), Act(c)]) && Run(s1, [Act(c), Act(c)]) == l;
    assert Runs(s0, [Act(c), Act(c), Act(c)]) && Run(s0, [Act(c), Act(c), Act(c)]) == l;
  }

  /** Told to try again, it comes back to where it was, with everything as it was. */
  lemma TryAgain(l: Lock, base: seq<seq<Phase>>, c: nat)
    requires c < |base| && l == Above(l, base, c, Wants(false)) && l.guard.None? && l.locked && l.owner != c
    ensures Runs(l, [Act(c), Act(c), Act(c)]) && Run(l, [Act(c), Act(c), Act(c)]) == l
  {
    var m := l.(guard := Some(c));
    EnterAbove(l, base, c, Wants(false), Decides(false));
    EnterAbove(m, base, c, Wants(false), Decides(false));
    EnterAbove(m, base, c, Decides(false), Retries(false));
    EnterAbove(m, base, c, Retries(false), Wants(false));
    EnterAbove(l, base, c, Retries(false), Wants(false));
    var s1 := Next(l, Act(c));
    var s2 := Next(s1, Act(c));
    assert s2 == Above(m, base, c, Retries(false));
    assert Next(s2, Act(c)) == l;
    assert [Act(c), Act(c), Act(c)][1..] == [Act(c), Act(c)] && [Act(c), Act(c)][1..] == [Act(c)] && [Act(c)][1..] == [];
    assert Runs(s2, [Act(c)]) && Run(s2, [Act(c)]) == l;
    assert Runs(s1, [Act(c), Act(c)]) && Run(s1, [Act(c), Act(c)]) == l;
  }

  /** And once the core that has the hardware drops its guard, it gets it. */
  lemma GetsItInTheEnd(l: Lock, base: seq<seq<Phase>>, c: nat, d: nat) returns (steps: seq<Step>)
    requires c < |base| && d < |base| && c != d && base[d] != [] && base[d][|base[d]| - 1] == Holds
    requires l == Above(l, base, c, Wants(false)) && l.guard.None?
    ensures Runs(l, steps)
    ensures var left := base[d := base[d][..|base[d]| - 1]];
      Run(l, steps) == Above(l.(owner := c, locked := true, last := Some(c)), left, c, Holds)
  {
    var left := base[d := base[d][..|base[d]| - 1]];
    steps := Then(l, [], l, DropGuard(d));
    var open := Run(l, steps);
    assert open.stacks == left[c := left[c] + [Wants(false)]];
    steps := AcquireAlone(l, steps, left, c, false);
  }

  /**
   * Re-entry does break exclusion: an interrupted holder breaks the lock open, acquires again and
   * drops the inner guard, which leaves the lock open while the outer guard is still held; then
   * another core acquires too.
   */
  lemma ReentryBreaksExclusion() returns (steps: seq<Step>)
    ensures Runs(Boot(2, 0), steps)
    ensures HoldsAlready(Run(Boot(2, 0), steps), 0) && HoldsAlready(Run(Boot(2, 0), steps), 1)
  {
    var b := Boot(2, 0);
    steps := Then(b, [], b, Start(0, false));
    steps := AcquireAlone(b, steps, b.stacks, 0, false);
    var m := Run(b, steps);
    steps := Then(b, steps, m, Start(0, false));
    steps := ReacquireAlone(b, steps, m.stacks, 0, false);
    var r := Run(b, steps);
    EnterAbove(r, m.stacks, 0, Holds, Holds);
    steps := Then(b, steps, r, DropGuard(0));
    EnterAbove(r.(locked := false), m.stacks, 0, Holds, Holds);
    var o := r.(locked := false, stacks := m.stacks);
    steps := Then(b, steps, o, Start(1, false));
    steps := AcquireAlone(b, steps, m.stacks, 1, false);
  }

  /** One core can do that by itself: interrupted right after locking OWNER, it waits for itself. */
  lemma ReentryDeadlocks() returns (steps: seq<Step>)
    ensures Runs(Boot(1, 0), steps) && EverStartsGuarded(Boot(1, 0), steps)
  {
    var b := Boot(1, 0);
    steps := Then(b, [], b, Start(0, false));
    steps := BeginAlone(b, steps, b.stacks, 0, false);
    var m := Run(b, steps);
    steps := Then(b, steps, m, Start(0, false));
    var l := Run(b, steps);
    assert At(l, 0, 0) && Guarded(PhaseAt(l, 0, 0)) && 0 < |l.stacks[0]| - 1;
    RunBuriesExactly(b, steps);
  }
}
