/**
 * Many physical cores moving virtual cores between the global queues, their own queues and their
 * running slots, with the two side tables WORKLOAD and PCORES.
 */
module Scheduling {
  import opened Base
  import opened Queues

  /** A physical core: whether it can run guests, its own wait queues, and what it is running. */
  datatype Core = Core(smode: bool, queues: WaitQueues, running: Option<VirtualCore>)

  datatype Sched = Sched(
    global: WaitQueues,
    cores: seq<Core>,                  // physical cores are numbered from zero
    pcores: map<CanonicalId, nat>,     // the core that last ran each virtual core
    workload: map<nat, nat>)           // how many virtual cores each core has adopted

  function Boot(smode: seq<bool>): Sched {
    Sched(EMPTY, seq(|smode|, i requires 0 <= i < |smode| => Core(smode[i], EMPTY, None)), map[], map[])
  }

  /** Queue what the core was running on the core's own queues and run `next` instead. */
  function ContextSwitch(s: Sched, p: nat, next: VirtualCore): Sched
    requires p < |s.cores|
  {
    var c := s.cores[p];
    var queues := if c.running.Some? then Enqueue(c.queues, c.running.value) else c.queues;
    s.(cores := s.cores[p := c.(queues := queues, running := Some(next))], pcores := s.pcores[next.id := p])
  }

  function Count(s: Sched, p: nat): nat { if p in s.workload then s.workload[p] else 0 }

  /** What one pass of `run_next` on core `p` switches to, if anything. */
  function Chosen(s: Sched, p: nat): Option<VirtualCore>
    requires p < |s.cores|
  {
    if !s.cores[p].smode then None
    else if Dequeue(s.global).next.Some? then Dequeue(s.global).next
    else Dequeue(s.cores[p].queues).next
  }

  /** Core `p` takes the next virtual core from the global queues and runs it. */
  function Adopt(s: Sched, p: nat): Sched
    requires p < |s.cores| && Dequeue(s.global).next.Some?
  {
    var g := Dequeue(s.global);
    ContextSwitch(s.(global := g.rest, workload := s.workload[p := Count(s, p) + 1]), p, g.next.value)
  }

  /** Core `p` takes the next virtual core from its own queues and runs it. */
  function Resume(s: Sched, p: nat): Sched
    requires p < |s.cores| && Dequeue(s.cores[p].queues).next.Some?
  {
    var l := Dequeue(s.cores[p].queues);
    ContextSwitch(s.(cores := s.cores[p := s.cores[p].(queues := l.rest)]), p, l.next.value)
  }

  /** One pass of `run_next` on core `p`: adopt from the global queues, else take from its own. */
  function RunPass(s: Sched, p: nat): (s': Sched)
    requires p < |s.cores|
    ensures |s'.cores| == |s.cores|
  {
    if !s.cores[p].smode then s
    else if Dequeue(s.global).next.Some? then Adopt(s, p)
    else if Dequeue(s.cores[p].queues).next.Some? then Resume(s, p)
    else s
  }

  function Create(s: Sched, v: VirtualCore): Sched { s.(global := Enqueue(s.global, v)) }

  // ----- where virtual cores are -----

  /** Everything queued or running on a core. */
  function CoreBag(c: Core): multiset<VirtualCore> {
    Bag(c.queues) + (if c.running.Some? then multiset{c.running.value} else multiset{})
  }

  type Vcores = multiset<VirtualCore>

  /** Everything on each core. */
  function Bags(cs: seq<Core>): (bs: seq<Vcores>)
    ensures |bs| == |cs|
  {
    if cs == [] then [] else [CoreBag(cs[0])] + Bags(cs[1..])
  }

  lemma {:induction false} BagsAt(cs: seq<Core>, p: nat)
    requires p < |cs|
    ensures Bags(cs)[p] == CoreBag(cs[p])
  {
    if p > 0 { BagsAt(cs[1..], p - 1); }
  }

  lemma {:induction false} BagsUpdate(cs: seq<Core>, p: nat, c: Core)
    requires p < |cs|
    ensures Bags(cs[p := c]) == Bags(cs)[p := CoreBag(c)]
  {
    if p == 0 {
      assert cs[p := c][1..] == cs[1..];
    } else {
      BagsUpdate(cs[1..], p - 1, c);
      assert cs[p := c][1..] == cs[1..][p - 1 := c];
    }
  }

  function Sum(bs: seq<Vcores>): Vcores {
    if bs == [] then multiset{} else bs[0] + Sum(bs[1..])
  }

  /** Every virtual core in the system, with the number of places it is in. */
  function Placed(s: Sched): Vcores { Bag(s.global) + Sum(Bags(s.cores)) }

  lemma {:induction false} SumAdd(bs: seq<Vcores>, p: nat, v: VirtualCore)
    requires p < |bs|
    ensures Sum(bs[p := bs[p] + multiset{v}]) == Sum(bs) + multiset{v}
  {
    var cs := bs[p := bs[p] + multiset{v}];
    if p == 0 {
      assert cs[1..] == bs[1..];
    } else {
      SumAdd(bs[1..], p - 1, v);
      assert cs[1..] == bs[1..][p - 1 := bs[p] + multiset{v}];
    }
  }

  lemma {:induction false} PartOfSum(bs: seq<Vcores>, p: nat, v: VirtualCore)
    requires p < |bs| && v in bs[p]
    ensures v in Sum(bs)
  {
    if p > 0 { PartOfSum(bs[1..], p - 1, v); }
  }

  lemma {:induction false} HolderOf(bs: seq<Vcores>, v: VirtualCore) returns (p: nat)
    requires v in Sum(bs)
    ensures p < |bs| && v in bs[p]
  {
    if v in bs[0] {
      p := 0;
    } else {
      p := HolderOf(bs[1..], v);
      p := p + 1;
    }
  }

  /** A context switch puts the incoming virtual core on the core and loses nothing that was there. */
  lemma SwitchBag(c: Core, next: VirtualCore)
    ensures var queues := if c.running.Some? then Enqueue(c.queues, c.running.value) else c.queues;
      CoreBag(c.(queues := queues, running := Some(next))) == CoreBag(c) + multiset{next}
  {
    if c.running.Some? { EnqueueBag(c.queues, c.running.value); }
  }

  /** Adopting moves one virtual core from the global queues to core `p`. */
  lemma AdoptBags(s: Sched, p: nat)
    requires p < |s.cores| && Dequeue(s.global).next.Some?
    ensures var v, bs := Dequeue(s.global).next.value, Bags(s.cores);
      && v in Bag(s.global)
      && Bags(Adopt(s, p).cores) == bs[p := bs[p] + multiset{v}]
      && Placed(Adopt(s, p)) == Placed(s)
  {
    var v, bs := Dequeue(s.global).next.value, Bags(s.cores);
    DequeueBag(s.global);
    BagsAt(s.cores, p);
    SwitchBag(s.cores[p], v);
    BagsUpdate(s.cores, p, Adopt(s, p).cores[p]);
    SumAdd(bs, p, v);
  }

  /** Taking the next virtual core from a core's queues takes that one off the core. */
  lemma TakeBag(c: Core)
    requires Dequeue(c.queues).next.Some?
    ensures var l := Dequeue(c.queues);
      CoreBag(c) == CoreBag(c.(queues := l.rest)) + multiset{l.next.value} && l.next.value in CoreBag(c)
  {
    var l := Dequeue(c.queues);
    DequeueBag(c.queues);
    BagRegroup(Bag(l.rest), multiset{l.next.value}, if c.running.Some? then multiset{c.running.value} else multiset{});
  }

  lemma BagRegroup(a: Vcores, b: Vcores, c: Vcores)
    ensures (a + b) + c == (a + c) + b
  {
  }

  /** Resuming changes what core `p` runs, not what is on it. */
  lemma ResumeBags(s: Sched, p: nat)
    requires p < |s.cores| && Dequeue(s.cores[p].queues).next.Some?
    ensures Dequeue(s.cores[p].queues).next.value in Bags(s.cores)[p]
    ensures Bags(Resume(s, p).cores) == Bags(s.cores)
  {
    var l := Dequeue(s.cores[p].queues);
    TakeBag(s.cores[p]);
    SwitchBag(s.cores[p].(queues := l.rest), l.next.value);
    BagsAt(s.cores, p);
    assert Resume(s, p).cores == s.cores[p := Resume(s, p).cores[p]];
    BagsUpdate(s.cores, p, Resume(s, p).cores[p]);
  }

  lemma PassKeepsPlaced(s: Sched, p: nat)
    requires p < |s.cores|
    ensures Placed(RunPass(s, p)) == Placed(s)
  {
    if s.cores[p].smode {
      if Dequeue(s.global).next.Some? { AdoptBags(s, p); }
      else if Dequeue(s.cores[p].queues).next.Some? { ResumeBags(s, p); }
    }
  }

  lemma {:induction false} EmptySum(bs: seq<Vcores>)
    requires forall i :: 0 <= i < |bs| ==> bs[i] == multiset{}
    ensures Sum(bs) == multiset{}
  {
    if bs != [] { EmptySum(bs[1..]); }
  }

  // ----- the side tables -----

  /** No two virtual cores ever created share a canonical ID. */
  ghost predicate UniqueIds(vs: seq<VirtualCore>) {
    forall i, j :: 0 <= i < j < |vs| ==> vs[i].id != vs[j].id
  }

  ghost predicate HoldsId(bag: Vcores, id: CanonicalId) { exists v :: v in bag && v.id == id }

  /** WORKLOAD counts what is queued or running on each core. */
  ghost predicate WorkloadFor(bs: seq<Vcores>, workload: map<nat, nat>) {
    && (forall p :: p in workload ==> p < |bs|)
    && (forall p :: 0 <= p < |bs| ==> |bs[p]| == if p in workload then workload[p] else 0)
  }

  /** PCORES knows the ID of every virtual core that has run, and names a core that holds it. */
  ghost predicate PcoresFor(bs: seq<Vcores>, pcores: map<CanonicalId, nat>) {
    && (forall p, id :: 0 <= p < |bs| && HoldsId(bs[p], id) ==> id in pcores)
    && (forall id :: id in pcores ==> pcores[id] < |bs| && HoldsId(bs[pcores[id]], id))
  }

  /** PCORES names the core that each virtual core that has run is on. */
  ghost predicate ExactFor(bs: seq<Vcores>, pcores: map<CanonicalId, nat>) {
    forall p, id :: 0 <= p < |bs| && HoldsId(bs[p], id) ==> id in pcores && pcores[id] == p
  }

  /** No canonical ID is on two cores at once. */
  ghost predicate NoSharedIds(bs: seq<Vcores>) {
    forall p, q, id :: 0 <= p < q < |bs| ==> !(HoldsId(bs[p], id) && HoldsId(bs[q], id))
  }

  ghost predicate WorkloadExact(s: Sched) { WorkloadFor(Bags(s.cores), s.workload) }

  ghost predicate PcoresSound(s: Sched) { PcoresFor(Bags(s.cores), s.pcores) }

  ghost predicate PcoresExact(s: Sched) { ExactFor(Bags(s.cores), s.pcores) }

  lemma WorkloadJoin(bs: seq<Vcores>, workload: map<nat, nat>, p: nat, v: VirtualCore)
    requires p < |bs| && WorkloadFor(bs, workload)
    ensures WorkloadFor(bs[p := bs[p] + multiset{v}], workload[p := (if p in workload then workload[p] else 0) + 1])
  {
  }

  lemma PassWorkload(s: Sched, p: nat)
    requires p < |s.cores| && WorkloadExact(s)
    ensures WorkloadExact(RunPass(s, p))
  {
    if s.cores[p].smode {
      if Dequeue(s.global).next.Some? {
        AdoptBags(s, p);
        WorkloadJoin(Bags(s.cores), s.workload, p, Dequeue(s.global).next.value);
      } else if Dequeue(s.cores[p].queues).next.Some? {
        ResumeBags(s, p);
      }
    }
  }

  lemma {:induction false} TwiceInSeq(vs: seq<VirtualCore>, v: VirtualCore, w: VirtualCore) returns (i: nat, j: nat)
    requires multiset{v, w} <= multiset(vs)
    ensures i < |vs| && j < |vs| && i != j && vs[i] == v && vs[j] == w
  {
    assert v in multiset(vs);
    i :| 0 <= i < |vs| && vs[i] == v;
    assert vs == vs[..i] + [v] + vs[i + 1..];
    assert multiset(vs) == multiset(vs[..i]) + multiset{v} + multiset(vs[i + 1..]);
    assert w in multiset(vs[..i]) || w in multiset(vs[i + 1..]);
    if w in vs[..i] {
      j :| 0 <= j < i && vs[..i][j] == w;
    } else {
      var k :| 0 <= k < |vs[i + 1..]| && vs[i + 1..][k] == w;
      j := i + 1 + k;
    }
  }

  /** Two places for the same ID would be two creations of it. */
  lemma UniquePlaces(vs: seq<VirtualCore>, v: VirtualCore, w: VirtualCore)
    requires UniqueIds(vs) && multiset{v, w} <= multiset(vs)
    ensures v.id != w.id
  {
    var i, j := TwiceInSeq(vs, v, w);
    if i < j { assert vs[i].id != vs[j].id; } else { assert vs[j].id != vs[i].id; }
  }

  lemma {:induction false} TwoCores(bs: seq<Vcores>, p: nat, q: nat, v: VirtualCore, w: VirtualCore)
    requires p < q < |bs| && v in bs[p] && w in bs[q]
    ensures multiset{v, w} <= Sum(bs)
  {
    if p == 0 {
      PartOfSum(bs[1..], q - 1, w);
    } else {
      TwoCores(bs[1..], p - 1, q - 1, v, w);
    }
  }

  lemma HoldsAlso(bag: Vcores, v: VirtualCore, id: CanonicalId)
    ensures HoldsId(bag + multiset{v}, id) <==> HoldsId(bag, id) || id == v.id
  {
    if id == v.id { assert v in bag + multiset{v}; }
    if w :| w in bag && w.id == id { assert w in bag + multiset{v}; }
  }

  /** Naming core `p` for a virtual core that joins it. */
  lemma PcoresJoin(bs: seq<Vcores>, pcores: map<CanonicalId, nat>, p: nat, v: VirtualCore)
    requires p < |bs| && PcoresFor(bs, pcores)
    ensures PcoresFor(bs[p := bs[p] + multiset{v}], pcores[v.id := p])
  {
    var bs' := bs[p := bs[p] + multiset{v}];
    forall id ensures HoldsId(bs'[p], id) <==> HoldsId(bs[p], id) || id == v.id { HoldsAlso(bs[p], v, id); }
  }

  lemma PassPcores(s: Sched, p: nat)
    requires p < |s.cores| && PcoresSound(s)
    ensures PcoresSound(RunPass(s, p))
  {
    if s.cores[p].smode {
      var bs := Bags(s.cores);
      if Dequeue(s.global).next.Some? {
        AdoptBags(s, p);
        PcoresJoin(bs, s.pcores, p, Dequeue(s.global).next.value);
      } else if Dequeue(s.cores[p].queues).next.Some? {
        ResumeBags(s, p);
        assert HoldsId(bs[p], Dequeue(s.cores[p].queues).next.value.id);
      }
    }
  }

  /** PCORES is exact just as long as no canonical ID is on two cores. */
  lemma PcoresExactly(bs: seq<Vcores>, pcores: map<CanonicalId, nat>)
    requires PcoresFor(bs, pcores)
    ensures ExactFor(bs, pcores) <==> NoSharedIds(bs)
  {
    if NoSharedIds(bs) {
      forall p, id | 0 <= p < |bs| && HoldsId(bs[p], id) ensures id in pcores && pcores[id] == p {
        var q := pcores[id];
        assert HoldsId(bs[q], id);
        assert !(p < q) && !(q < p);
      }
    }
    if ExactFor(bs, pcores) {
      forall p, q, id | 0 <= p < q < |bs| ensures !(HoldsId(bs[p], id) && HoldsId(bs[q], id)) {
        assert HoldsId(bs[p], id) ==> id in pcores && pcores[id] == p;
        assert HoldsId(bs[q], id) ==> id in pcores && pcores[id] == q;
      }
    }
  }

  // ----- what holds after every history in which `vs` have been created -----

  /**
   * The virtual cores queued or running, counted with the number of places each is in, are exactly
   * those created; WORKLOAD is exact; PCORES always names a core that holds the ID.
   */
  ghost predicate Consistent(s: Sched, vs: seq<VirtualCore>) {
    Placed(s) == multiset(vs) && WorkloadExact(s) && PcoresSound(s)
  }

  lemma BootConsistent(smode: seq<bool>)
    ensures Consistent(Boot(smode), [])
  {
    var cs := Boot(smode).cores;
    forall i | 0 <= i < |cs| ensures Bags(cs)[i] == multiset{} { BagsAt(cs, i); }
    EmptySum(Bags(cs));
  }

  lemma CreateConsistent(s: Sched, vs: seq<VirtualCore>, v: VirtualCore)
    requires Consistent(s, vs)
    ensures Consistent(Create(s, v), vs + [v])
  {
    EnqueueBag(s.global, v);
  }

  lemma PassConsistent(s: Sched, vs: seq<VirtualCore>, p: nat)
    requires Consistent(s, vs) && p < |s.cores|
    ensures Consistent(RunPass(s, p), vs)
  {
    PassKeepsPlaced(s, p);
    PassWorkload(s, p);
    PassPcores(s, p);
  }

  /** With unique canonical IDs, PCORES is exact. */
  lemma UniqueIdsExact(s: Sched, vs: seq<VirtualCore>)
    requires Consistent(s, vs) && UniqueIds(vs)
    ensures PcoresExact(s)
  {
    var bs := Bags(s.cores);
    forall p, q, id | 0 <= p < q < |bs| ensures !(HoldsId(bs[p], id) && HoldsId(bs[q], id)) {
      forall v: VirtualCore, w: VirtualCore | v in bs[p] && w in bs[q] ensures v.id != w.id {
        TwoCores(bs, p, q, v, w);
        UniquePlaces(vs, v, w);
      }
    }
    PcoresExactly(bs, s.pcores);
  }

  /**
   * Nothing stops the same ID from being added to a capsule twice. Run on two cores, the copies leave
   * PCORES naming only the second core.
   */
  lemma DuplicateIdsConfuse(v: VirtualCore)
    ensures var s := Create(Create(Boot([true, true]), v), v);
      !PcoresExact(RunPass(RunPass(s, 0), 1))
  {
    var s := Create(Create(Boot([true, true]), v), v);
    TwoWaiting(v);
    SecondRun(s, v);
  }

  lemma TwoWaiting(v: VirtualCore)
    ensures var d := Dequeue(Enqueue(Enqueue(EMPTY, v), v)); d.next == Some(v) && Dequeue(d.rest).next == Some(v)
  {
    assert ([] + [v] + [v])[1..] == [v];
  }

  /** Two idle cores that adopt virtual cores with the same ID. */
  lemma SecondRun(s: Sched, v: VirtualCore)
    requires |s.cores| == 2 && s.cores[0].smode && s.cores[1].smode
    requires Dequeue(s.global).next == Some(v) && Dequeue(Dequeue(s.global).rest).next == Some(v)
    ensures !PcoresExact(RunPass(RunPass(s, 0), 1))
  {
    var t := RunPass(s, 0);
    assert t == Adopt(s, 0);
    assert t.cores[0].running == Some(v) && t.global == Dequeue(s.global).rest;
    var u := RunPass(t, 1);
    assert u == Adopt(t, 1);
    assert u.cores[0] == t.cores[0] && u.pcores[v.id] == 1;
    BagsAt(u.cores, 0);
    assert HoldsId(Bags(u.cores)[0], v.id) by { assert v in CoreBag(u.cores[0]); }
  }

  lemma OncePlaced(vs: seq<VirtualCore>, v: VirtualCore)
    requires UniqueIds(vs) && v in vs
    ensures multiset(vs)[v] == 1
  {
    if multiset(vs)[v] > 1 {
      assert multiset{v, v} <= multiset(vs);
      UniquePlaces(vs, v, v);
    }
  }

  /**
   * With unique IDs a created virtual core is in exactly one place: it waits in the global queues
   * until PCORES names a core, and from then on it is on that core.
   */
  lemma WhereItIs(s: Sched, vs: seq<VirtualCore>, v: VirtualCore)
    requires Consistent(s, vs) && UniqueIds(vs) && v in vs
    ensures Placed(s)[v] == 1
    ensures
      if v.id in s.pcores then s.pcores[v.id] < |s.cores| && v in CoreBag(s.cores[s.pcores[v.id]]) else v in Bag(s.global)
  {
    var bs := Bags(s.cores);
    UniqueIdsExact(s, vs);
    OncePlaced(vs, v);
    assert v in Placed(s);
    if v.id in s.pcores {
      var q := s.pcores[v.id];
      BagsAt(s.cores, q);
      assert HoldsId(bs[q], v.id);
      var w: VirtualCore :| w in bs[q] && w.id == v.id;
      PartOfSum(bs, q, w);
      SameIdSameCore(vs, v, w);
    } else if v in Sum(bs) {
      var p := HolderOf(bs, v);
    }
  }

  lemma SameIdSameCore(vs: seq<VirtualCore>, v: VirtualCore, w: VirtualCore)
    requires UniqueIds(vs) && v in multiset(vs) && w in multiset(vs) && v.id == w.id
    ensures v == w
  {
    var i :| 0 <= i < |vs| && vs[i] == v;
    var j :| 0 <= j < |vs| && vs[j] == w;
    assert i == j;
  }

  // ----- the global queues come first -----

  /** Passes made by the cores in `ps`, one after another. */
  function Passes(s: Sched, ps: seq<nat>): (s': Sched)
    requires forall i :: 0 <= i < |ps| ==> ps[i] < |s.cores|
    ensures |s'.cores| == |s.cores|
    decreases |ps|
  {
    if ps == [] then s else Passes(RunPass(s, ps[0]), ps[1..])
  }

  /**
   * While virtual cores wait in the global queues, every pass on any core that can run guests
   * adopts one: as many passes as there are waiting leave the global queues empty.
   */
  lemma {:induction false} GlobalDrains(s: Sched, ps: seq<nat>)
    requires forall i :: 0 <= i < |ps| ==> ps[i] < |s.cores| && s.cores[ps[i]].smode
    ensures TotalQueued(Passes(s, ps).global) ==
      if |ps| <= TotalQueued(s.global) then TotalQueued(s.global) - |ps| else 0
    decreases |ps|
  {
    if ps != [] {
      var t := RunPass(s, ps[0]);
      assert forall p :: 0 <= p < |s.cores| ==> t.cores[p].smode == s.cores[p].smode;
      GlobalDrains(t, ps[1..]);
    }
  }

  // ----- housekeeping -----

  /** Scan WORKLOAD, in whatever order the table is walked, for the busiest physical core. */
  method FindBusiest(workload: map<nat, nat>, order: seq<nat>) returns (highest: nat, busiest: Option<nat>)
    requires forall p :: p in order <==> p in workload
    ensures forall p :: p in workload ==> workload[p] <= highest
    ensures busiest.Some? ==> busiest.value in workload && workload[busiest.value] == highest > 0
    ensures busiest.None? ==> highest == 0
  {
    highest, busiest := 0, None;
    for i := 0 to |order|
      invariant forall j :: 0 <= j < i ==> order[j] in workload && workload[order[j]] <= highest
      invariant busiest.Some? ==> busiest.value in workload && workload[busiest.value] == highest > 0
      invariant busiest.None? ==> highest == 0
    {
      assert order[i] in workload;
      if workload[order[i]] > highest {
        highest, busiest := workload[order[i]], Some(order[i]);
      }
    }
    forall p | p in workload ensures workload[p] <= highest {
      assert p in order;
    }
  }

  /** So the core that the scan finds really is one that holds the most virtual cores. */
  lemma BusiestIsBusiest(s: Sched, vs: seq<VirtualCore>, pid: nat)
    requires Consistent(s, vs)
    requires pid in s.workload && forall p :: p in s.workload ==> s.workload[p] <= s.workload[pid]
    ensures pid < |s.cores| && |CoreBag(s.cores[pid])| == s.workload[pid]
    ensures forall p :: 0 <= p < |s.cores| ==> |CoreBag(s.cores[p])| <= |CoreBag(s.cores[pid])|
  {
    forall p | 0 <= p < |s.cores| ensures Bags(s.cores)[p] == CoreBag(s.cores[p]) { BagsAt(s.cores, p); }
  }
}
