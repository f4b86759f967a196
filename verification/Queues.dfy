/**
 * The two-level wait queues: a high and a normal priority queue and the count of timeslices given
 * to high priority virtual cores since a normal one last ran.
 */
module Queues {
  import opened Base

  const HIGH_PRIO_TIMESLICES_MAX: nat := 10

  datatype Priority = High | Normal

  /** System-wide name of a virtual core. */
  datatype CanonicalId = CanonicalId(capsule: nat, vcore: nat)

  datatype VirtualCore = VirtualCore(id: CanonicalId, priority: Priority)

  datatype WaitQueues = WaitQueues(high: seq<VirtualCore>, low: seq<VirtualCore>, slices: nat)

  const EMPTY: WaitQueues := WaitQueues([], [], 0)

  datatype Dequeued = Dequeued(next: Option<VirtualCore>, rest: WaitQueues)

  function Enqueue(q: WaitQueues, v: VirtualCore): WaitQueues {
    match v.priority
    case High => q.(high := q.high + [v])
    case Normal => q.(low := q.low + [v])
  }

  function Dequeue(q: WaitQueues): Dequeued {
    if q.slices > HIGH_PRIO_TIMESLICES_MAX && q.low != [] then Dequeued(Some(q.low[0]), q.(low := q.low[1..]))
    else if q.high != [] then Dequeued(Some(q.high[0]), q.(high := q.high[1..]))
    else if q.low != [] then Dequeued(Some(q.low[0]), q.(low := q.low[1..]))
    else Dequeued(None, q)
  }

  /** The bookkeeping done by `run` for the virtual core about to run. */
  function Charge(q: WaitQueues, v: VirtualCore): WaitQueues {
    q.(slices := if v.priority == Normal then 0 else q.slices + 1)
  }

  function TotalQueued(q: WaitQueues): nat { |q.high| + |q.low| }

  /** Each queue holds only its own class. */
  predicate Sorted(q: WaitQueues) {
    && (forall i :: 0 <= i < |q.high| ==> q.high[i].priority == High)
    && (forall i :: 0 <= i < |q.low| ==> q.low[i].priority == Normal)
  }

  function Bag(q: WaitQueues): multiset<VirtualCore> { multiset(q.high) + multiset(q.low) }

  lemma EnqueueBag(q: WaitQueues, v: VirtualCore)
    ensures Bag(Enqueue(q, v)) == Bag(q) + multiset{v}
  {
  }

  /** A dequeue takes one virtual core out, or finds both queues empty and changes nothing. */
  lemma DequeueBag(q: WaitQueues)
    ensures var d := Dequeue(q);
      match d.next
      case Some(v) => Bag(q) == Bag(d.rest) + multiset{v} && v in Bag(q)
      case None => d.rest == q && Bag(q) == multiset{}
  {
    if q.slices > HIGH_PRIO_TIMESLICES_MAX && q.low != [] { HeadBag(q.low); }
    else if q.high != [] { HeadBag(q.high); }
    else if q.low != [] { HeadBag(q.low); }
  }

  lemma HeadBag(s: seq<VirtualCore>)
    requires s != []
    ensures multiset(s) == multiset{s[0]} + multiset(s[1..]) && s[0] in multiset(s)
  {
    assert s == [s[0]] + s[1..];
  }

  // ----- histories of one set of queues -----

  /** A virtual core arrives, or the queues' owner takes the next one to run. */
  datatype Event = Arrive(v: VirtualCore) | Turn

  /** The queues after a history, and what each class handed over to be run, in order. */
  datatype Outcome = Outcome(q: WaitQueues, high: seq<VirtualCore>, low: seq<VirtualCore>)

  /** One event; `charged` says whether a dequeued virtual core is passed to `run`. */
  function After(q: WaitQueues, e: Event, charged: bool): WaitQueues {
    match e
    case Arrive(v) => Enqueue(q, v)
    case Turn =>
      var d := Dequeue(q);
      if d.next.Some? && charged then Charge(d.rest, d.next.value) else d.rest
  }

  /** What the event hands over from the queue of class `p`. */
  function Handed(q: WaitQueues, e: Event, p: Priority): seq<VirtualCore> {
    var d := Dequeue(q);
    if e == Turn && d.next.Some? && d.next.value.priority == p then [d.next.value] else []
  }

  function Play(q: WaitQueues, events: seq<Event>, charged: bool): Outcome
    decreases |events|
  {
    if events == [] then Outcome(q, [], [])
    else
      var o := Play(After(q, events[0], charged), events[1..], charged);
      Outcome(o.q, Handed(q, events[0], High) + o.high, Handed(q, events[0], Normal) + o.low)
  }

  function Arrivals(events: seq<Event>, p: Priority): seq<VirtualCore>
    decreases |events|
  {
    if events == [] then []
    else (if events[0].Arrive? && events[0].v.priority == p then [events[0].v] else []) + Arrivals(events[1..], p)
  }

  function Turns(events: seq<Event>): nat
    decreases |events|
  {
    if events == [] then 0 else (if events[0] == Turn then 1 else 0) + Turns(events[1..])
  }

  lemma AfterSorted(q: WaitQueues, e: Event, charged: bool)
    requires Sorted(q)
    ensures Sorted(After(q, e, charged))
    ensures Handed(q, e, High) + After(q, e, charged).high == q.high + Arrivals([e], High)
    ensures Handed(q, e, Normal) + After(q, e, charged).low == q.low + Arrivals([e], Normal)
  {
    assert [e][1..] == [];
  }

  /** Each class leaves in arrival order: what left, then what still waits, is what waited, then what arrived. */
  lemma {:induction false} ArrivalOrder(q: WaitQueues, events: seq<Event>, charged: bool)
    requires Sorted(q)
    ensures var o := Play(q, events, charged);
      && o.high + o.q.high == q.high + Arrivals(events, High)
      && o.low + o.q.low == q.low + Arrivals(events, Normal)
    decreases |events|
  {
    if events != [] {
      var e, rest := events[0], events[1..];
      AfterSorted(q, e, charged);
      assert [e][1..] == [];
      var q' := After(q, e, charged);
      ArrivalOrder(q', rest, charged);
      var o := Play(q', rest, charged);
      Regroup(Handed(q, e, High), o.high, o.q.high, q'.high, q.high, Arrivals([e], High), Arrivals(rest, High));
      Regroup(Handed(q, e, Normal), o.low, o.q.low, q'.low, q.low, Arrivals([e], Normal), Arrivals(rest, Normal));
    }
  }

  lemma Regroup<T>(now: seq<T>, later: seq<T>, left: seq<T>, mid: seq<T>, first: seq<T>, a: seq<T>, b: seq<T>)
    requires later + left == mid + b && now + mid == first + a
    ensures (now + later) + left == first + (a + b)
  {
    assert (now + later) + left == now + (mid + b) == (now + mid) + b;
  }

  /** Turns that may pass before the normal virtual core at position `p` has been handed over. */
  function Patience(slices: nat, p: nat): nat {
    12 * p + 12 - if slices < 11 then slices else 11
  }

  lemma {:induction false} PatienceSuffices(q: WaitQueues, events: seq<Event>, p: nat)
    requires Sorted(q) && p < |q.low| && Patience(q.slices, p) <= Turns(events)
    ensures p < |Play(q, events, true).low|
    decreases |events|
  {
    var e, rest := events[0], events[1..];
    var q' := After(q, e, true);
    AfterSorted(q, e, true);
    if e == Turn && Handed(q, e, Normal) != [] {
      if p > 0 { PatienceSuffices(q', rest, p - 1); }
    } else {
      PatienceSuffices(q', rest, p);
    }
  }

  /**
   * Bounded waiting: if every dequeued virtual core is passed to `run`, the normal virtual core at
   * position `p` is handed over within 12 * (p + 1) turns, whatever high priority ones keep arriving.
   */
  lemma BoundedWaiting(q: WaitQueues, events: seq<Event>, p: nat)
    requires Sorted(q) && p < |q.low| && 12 * (p + 1) <= Turns(events)
    ensures var o := Play(q, events, true); p < |o.low| && o.low[p] == q.low[p]
  {
    PatienceSuffices(q, events, p);
    ArrivalOrder(q, events, true);
    var o := Play(q, events, true);
    assert (o.low + o.q.low)[p] == (q.low + Arrivals(events, Normal))[p];
  }

  /**
   * Within the first `k` events there are more turns than high priority virtual cores to hand over,
   * by enough for `p + 1` normal ones.
   */
  predicate Outpaces(q: WaitQueues, events: seq<Event>, p: nat, k: nat)
    requires k <= |events|
  {
    Turns(events[..k]) >= |q.high| + |Arrivals(events[..k], High)| + p + 1
  }

  lemma OutpacesTail(q: WaitQueues, events: seq<Event>, k: nat)
    requires 0 < k <= |events|
    ensures Turns(events[..k]) == (if events[0] == Turn then 1 else 0) + Turns(events[1..][..k - 1])
    ensures |Arrivals(events[..k], High)| ==
      (if events[0].Arrive? && events[0].v.priority == High then 1 else 0) + |Arrivals(events[1..][..k - 1], High)|
  {
    assert events[..k][1..] == events[1..][..k - 1];
  }

  /**
   * `run_next` switches to what it dequeues without calling `run`, so the count of timeslices never
   * moves. Then `p + 1` normal virtual cores are handed over exactly when at some point the turns
   * taken outnumber, by that many, the high priority virtual cores that waited or have arrived.
   */
  lemma {:induction false} UnchargedTurns(q: WaitQueues, events: seq<Event>, p: nat)
    requires Sorted(q) && p < |q.low| && q.slices <= HIGH_PRIO_TIMESLICES_MAX
    ensures p < |Play(q, events, false).low| <==> exists k :: 0 <= k <= |events| && Outpaces(q, events, p, k)
    decreases |events|
  {
    assert events[..0] == [];
    if events != [] {
      var e, rest := events[0], events[1..];
      var q' := After(q, e, false);
      AfterSorted(q, e, false);
      forall k | 0 < k <= |events|
        ensures Turns(events[..k]) == (if e == Turn then 1 else 0) + Turns(rest[..k - 1])
        ensures |Arrivals(events[..k], High)| ==
          (if e.Arrive? && e.v.priority == High then 1 else 0) + |Arrivals(rest[..k - 1], High)|
      {
        OutpacesTail(q, events, k);
      }
      if e == Turn && q.high == [] && p == 0 {
        assert rest[..0] == [];
        assert Outpaces(q, events, p, 1);
      } else {
        var p' := if e == Turn && q.high == [] then p - 1 else p;
        UnchargedTurns(q', rest, p');
        assert forall k :: 0 < k <= |events| ==> (Outpaces(q, events, p, k) <==> Outpaces(q', rest, p', k - 1));
        if k' :| 0 <= k' <= |rest| && Outpaces(q', rest, p', k') { assert Outpaces(q, events, p, k' + 1); }
        if k :| 0 <= k <= |events| && Outpaces(q, events, p, k) { assert Outpaces(q', rest, p', k - 1); }
      }
    }
  }

  /** So that is exactly when the normal virtual core at position `p` is handed over. */
  lemma UnchargedWaiting(q: WaitQueues, events: seq<Event>, p: nat)
    requires Sorted(q) && p < |q.low| && q.slices <= HIGH_PRIO_TIMESLICES_MAX
    ensures var o := Play(q, events, false);
      (p < |o.low| && o.low[p] == q.low[p]) <==>
      exists k :: 0 <= k <= |events| && Turns(events[..k]) >= |q.high| + |Arrivals(events[..k], High)| + p + 1
  {
    UnchargedTurns(q, events, p);
    ArrivalOrder(q, events, false);
    var o := Play(q, events, false);
    if p < |o.low| {
      assert (o.low + o.q.low)[p] == (q.low + Arrivals(events, Normal))[p];
      var k :| 0 <= k <= |events| && Outpaces(q, events, p, k);
    }
    if k :| 0 <= k <= |events| && Turns(events[..k]) >= |q.high| + |Arrivals(events[..k], High)| + p + 1 {
      assert Outpaces(q, events, p, k);
    }
  }

  /** `n` rounds in each of which a high priority virtual core arrives and a turn is taken. */
  function Flood(h: VirtualCore, n: nat): seq<Event> {
    if n == 0 then [] else [Arrive(h), Turn] + Flood(h, n - 1)
  }

  /** So without `run` a normal virtual core can be kept waiting through any number of turns. */
  lemma {:induction false} UnchargedStarvation(q: WaitQueues, h: VirtualCore, n: nat)
    requires Sorted(q) && q.slices <= HIGH_PRIO_TIMESLICES_MAX && h.priority == High
    ensures Turns(Flood(h, n)) == n && Play(q, Flood(h, n), false).low == []
    decreases n
  {
    if n > 0 {
      var events := Flood(h, n);
      var q1 := After(q, Arrive(h), false);
      AfterSorted(q, Arrive(h), false);
      AfterSorted(q1, Turn, false);
      var q2 := After(q1, Turn, false);
      UnchargedStarvation(q2, h, n - 1);
      assert events[0] == Arrive(h) && events[1..][0] == Turn && events[1..][1..] == Flood(h, n - 1);
      assert Handed(q1, Turn, Normal) == [];
    }
  }

  /** When a high priority virtual core arrives before every turn, every twelfth turn goes to a normal one. */
  lemma {:induction false} ChargedFlood(q: WaitQueues, h: VirtualCore, n: nat)
    requires Sorted(q) && q.slices <= 11 && (q.slices + n) / 12 <= |q.low| && h.priority == High
    ensures Turns(Flood(h, n)) == n && |Play(q, Flood(h, n), true).low| == (q.slices + n) / 12
    decreases n
  {
    if n > 0 {
      var events := Flood(h, n);
      var q1 := After(q, Arrive(h), true);
      AfterSorted(q, Arrive(h), true);
      AfterSorted(q1, Turn, true);
      ChargedFlood(After(q1, Turn, true), h, n - 1);
      assert events[0] == Arrive(h) && events[1..][0] == Turn && events[1..][1..] == Flood(h, n - 1);
    }
  }

  /** So the bound is tight for every position: one turn fewer, and the one at `p` may still be waiting. */
  lemma BoundIsTight(q: WaitQueues, h: VirtualCore, p: nat)
    requires Sorted(q) && p < |q.low| && q.slices == 0 && h.priority == High
    ensures var events := Flood(h, 12 * p + 11);
      Turns(events) == 12 * (p + 1) - 1 && |Play(q, events, true).low| == p
  {
    ChargedFlood(q, h, 12 * p + 11);
  }

  /** The queues as the code keeps them. */
  class ScheduleQueues {
    var high: seq<VirtualCore>
    var low: seq<VirtualCore>
    var highTimeslices: nat

    ghost function Value(): WaitQueues
      reads this
    {
      WaitQueues(high, low, highTimeslices)
    }

    constructor ()
      ensures Value() == EMPTY
    {
      high, low, highTimeslices := [], [], 0;
    }

    /** The part of `run` that comes before the context switch. */
    method CountTimeslice(v: VirtualCore)
      modifies this
      ensures Value() == Charge(old(Value()), v)
    {
      match v.priority
      case Normal => highTimeslices := 0;
      case High => highTimeslices := highTimeslices + 1;
    }

    method Queue(v: VirtualCore)
      modifies this
      ensures Value() == Enqueue(old(Value()), v)
    {
      match v.priority
      case High => high := high + [v];
      case Normal => low := low + [v];
    }

    method Take() returns (v: Option<VirtualCore>)
      modifies this
      ensures Dequeued(v, Value()) == Dequeue(old(Value()))
    {
      if highTimeslices > HIGH_PRIO_TIMESLICES_MAX && low != [] {
        v, low := Some(low[0]), low[1..];
      } else if high != [] {
        v, high := Some(high[0]), high[1..];
      } else if low != [] {
        v, low := Some(low[0]), low[1..];
      } else {
        v := None;
      }
    }

    method Total() returns (n: nat)
      ensures n == TotalQueued(Value())
    {
      n := |high| + |low|;
    }
  }
}
