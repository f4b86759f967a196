/**
 * An allocation taken apart into the owner's visits to single blocks, with frees by other CPUs
 * between any two of them.
 *
 * One visit is one step: the owner alone links, resizes and takes blocks, and a block it has seen
 * free stays free, so what a visit reads cannot change before the visit writes.
 */
module HeapSharing {
  import opened HeapSpec

  datatype Phase =
    | Walking(k: nat)                   // looking for a fit, at block k
    | Merging(i: nat, largest: nat)     // consolidating, at block i
    | Cornering(largest: nat)           // at the corner case of the head
    | Given(block: Block)
    | GaveUp

  /** `freed` holds the blocks given back by other CPUs since the search last started over. */
  datatype Searching = Searching(blocks: Blocks, phase: Phase, restarts: nat, freed: set<nat>)

  datatype Event = Own | Foreign(i: nat)

  function Start(bs: Blocks): Searching { Searching(bs, Walking(0), 0, {}) }

  predicate Finished(s: Searching) { s.phase.Given? || s.phase.GaveUp? }

  function OwnTurn(s: Searching, req: nat): Searching {
    var bs := s.blocks;
    match s.phase
    case Walking(k) =>
      if k < |bs| && Fits(bs[k], req) then
        var f := Place(bs, k, req);
        s.(blocks := f.blocks, phase := Given(f.block))
      else if k + 1 < |bs| then s.(phase := Walking(k + 1))
      else s.(phase := Merging(0, 0))
    case Merging(i, largest) =>
      if i + 1 >= |bs| then s.(phase := Cornering(largest))
      else if Mergeable(bs, i) then
        s.(blocks := MergeAt(bs, i), phase := Merging(i + 1, Max(largest, bs[i].size + bs[i + 1].size)))
      else s.(phase := Merging(i + 1, largest))
    case Cornering(largest) =>
      var p := Corner(Pass(bs, largest));
      if p.largest < HEAP_BLOCK_SIZE then s.(blocks := p.blocks, phase := GaveUp)
      else Searching(p.blocks, Walking(0), s.restarts + 1, {})
    case _ => s
  }

  predicate Possible(s: Searching, e: Event) {
    e.Foreign? ==> Enabled(s.blocks, FreeStep(e.i))
  }

  function Happen(s: Searching, e: Event, req: nat): Searching
    requires Possible(s, e)
  {
    match e
    case Own => OwnTurn(s, req)
    case Foreign(i) => s.(blocks := SetMagic(s.blocks, i, Free), freed := s.freed + {s.blocks[i].addr})
  }

  /** The events up to the end of the search can happen. */
  ghost predicate Plays(s: Searching, events: seq<Event>, req: nat)
    decreases |events|
  {
    events == [] || Finished(s) || (Possible(s, events[0]) && Plays(Happen(s, events[0], req), events[1..], req))
  }

  ghost function Play(s: Searching, events: seq<Event>, req: nat): Searching
    requires Plays(s, events, req)
    decreases |events|
  {
    if events == [] || Finished(s) then s else Play(Happen(s, events[0], req), events[1..], req)
  }

  function Turns(events: seq<Event>): nat
    decreases |events|
  {
    if events == [] then 0 else (if events[0].Own? then 1 else 0) + Turns(events[1..])
  }

  // ----- restarts -----

  /** One if the consolidation under way has merged something. */
  function Gain(s: Searching): nat {
    match s.phase
    case Merging(_, largest) => if largest > 0 then 1 else 0
    case Cornering(largest) => if largest > 0 then 1 else 0
    case _ => 0
  }

  /** Each restart has been paid for with a block of the `n` there were. */
  predicate Paid(s: Searching, n: nat) {
    && s.restarts < n
    && (s.phase.Walking? ==> s.phase.k < |s.blocks|)
    && (s.phase.Merging? ==> s.phase.i <= |s.blocks|)
    && (!s.phase.Given? ==> s.blocks != [] && s.restarts + |s.blocks| + Gain(s) <= n)
  }

  lemma EventPaid(s: Searching, e: Event, req: nat, n: nat)
    requires Possible(s, e) && Paid(s, n) && !Finished(s)
    ensures Paid(Happen(s, e, req), n)
  {
  }

  lemma {:induction false} PlayPaid(s: Searching, events: seq<Event>, req: nat, n: nat)
    requires Plays(s, events, req) && Paid(s, n)
    ensures Paid(Play(s, events, req), n)
    decreases |events|
  {
    if events != [] && !Finished(s) {
      EventPaid(s, events[0], req, n);
      PlayPaid(Happen(s, events[0], req), events[1..], req, n);
    }
  }

  /** Whatever other CPUs free meanwhile, a search starts over fewer times than the list was long. */
  lemma RestartsBounded(bs: Blocks, events: seq<Event>, req: nat)
    requires bs != [] && Plays(Start(bs), events, req)
    ensures Play(Start(bs), events, req).restarts < |bs|
  {
    PlayPaid(Start(bs), events, req, |bs|);
  }

  // ----- the search ends -----

  /** Visits left before the search ends or starts over. */
  function Visits(s: Searching): nat {
    match s.phase
    case Walking(k) => if k <= |s.blocks| then 2 * |s.blocks| - k + 2 else 0
    case Merging(i, _) => if i <= |s.blocks| then |s.blocks| - i + 2 else 1
    case Cornering(_) => 1
    case _ => 0
  }

  /** At most this many visits are left, when a round takes at most `w` of them. */
  function Left(s: Searching, w: nat): nat {
    if Finished(s) || s.blocks == [] then 0 else (|s.blocks| + Gain(s) - 1) * w + Visits(s)
  }

  lemma OneRound(a: nat, b: nat, w: nat)
    requires a <= b
    ensures a * w <= b * w && (a < b ==> a * w + w <= b * w)
  {
    if a < b { OneRound(a, b - 1, w); }
  }

  /** A turn of the owner uses up a visit, a free by another CPU does not add one. */
  lemma EventLeft(s: Searching, e: Event, req: nat, n: nat)
    requires Possible(s, e) && Paid(s, n) && !Finished(s)
    ensures Left(Happen(s, e, req), 2 * n + 2) + (if e.Own? then 1 else 0) <= Left(s, 2 * n + 2)
  {
    var t := Happen(s, e, req);
    EventPaid(s, e, req, n);
    if !Finished(t) {
      assert |t.blocks| + Gain(t) <= |s.blocks| + Gain(s);
      OneRound(|t.blocks| + Gain(t) - 1, |s.blocks| + Gain(s) - 1, 2 * n + 2);
      assert Visits(t) <= 2 * n + 2;
    } else {
      OneRound(0, |s.blocks| + Gain(s) - 1, 2 * n + 2);
    }
  }

  lemma {:induction false} PlayLeft(s: Searching, events: seq<Event>, req: nat, n: nat)
    requires Plays(s, events, req) && Paid(s, n)
    ensures Finished(Play(s, events, req))
         || Left(Play(s, events, req), 2 * n + 2) + Turns(events) <= Left(s, 2 * n + 2)
    decreases |events|
  {
    if events != [] && !Finished(s) {
      EventLeft(s, events[0], req, n);
      EventPaid(s, events[0], req, n);
      PlayLeft(Happen(s, events[0], req), events[1..], req, n);
    }
  }

  /**
   * An allocation from a list of `n` blocks ends within `2n(n + 1)` visits of its owner, however the
   * frees of other CPUs fall between them.
   */
  lemma SearchEnds(bs: Blocks, events: seq<Event>, req: nat)
    requires bs != [] && Plays(Start(bs), events, req) && Turns(events) >= 2 * |bs| * (|bs| + 1)
    ensures Finished(Play(Start(bs), events, req))
  {
    PlayLeft(Start(bs), events, req, |bs|);
    PlayPaid(Start(bs), events, req, |bs|);
    LeftAtStart(bs);
    if !Finished(Play(Start(bs), events, req)) { StillLeft(Play(Start(bs), events, req), |bs|); }
  }

  lemma LeftAtStart(bs: Blocks)
    requires bs != []
    ensures Left(Start(bs), 2 * |bs| + 2) == 2 * |bs| * (|bs| + 1)
  {
    var n := |bs|;
    assert (n - 1) * (2 * n + 2) + 2 * n + 2 == 2 * n * (n + 1);
  }

  lemma StillLeft(s: Searching, n: nat)
    requires Paid(s, n) && !Finished(s)
    ensures Left(s, 2 * n + 2) > 0
  {
    OneRound(0, |s.blocks| + Gain(s) - 1, 2 * n + 2);
  }

  // ----- left alone, it is the search of HeapSpec -----

  function Outcome(p: Pass, req: nat): Found {
    if p.largest < HEAP_BLOCK_SIZE then NotFound(p.blocks) else Search(p.blocks, req)
  }

  /** What the search will come to if nobody interferes. */
  function Answer(s: Searching, req: nat): Found {
    match s.phase
    case Walking(k) =>
      if k <= |s.blocks| && FirstFit(s.blocks, req, k) < |s.blocks|
      then Place(s.blocks, FirstFit(s.blocks, req, k), req)
      else Outcome(Consolidate(s.blocks), req)
    case Merging(i, largest) => Outcome(Corner(PassFrom(s.blocks, i, largest)), req)
    case Cornering(largest) => Outcome(Corner(Pass(s.blocks, largest)), req)
    case Given(b) => Found(s.blocks, b)
    case GaveUp => NotFound(s.blocks)
  }

  lemma TurnKeepsAnswer(s: Searching, req: nat)
    requires s.phase.Walking? ==> s.phase.k < |s.blocks|
    ensures Answer(OwnTurn(s, req), req) == Answer(s, req)
  {
    if s.phase.Cornering? { ReportMeansShorter(Corner(Pass(s.blocks, s.phase.largest)).blocks); }
  }

  lemma {:induction false} AloneKeepsAnswer(s: Searching, events: seq<Event>, req: nat, n: nat)
    requires Plays(s, events, req) && Paid(s, n) && forall k :: 0 <= k < |events| ==> events[k].Own?
    ensures Answer(Play(s, events, req), req) == Answer(s, req)
    decreases |events|
  {
    if events != [] && !Finished(s) {
      TurnKeepsAnswer(s, req);
      EventPaid(s, events[0], req, n);
      AloneKeepsAnswer(Happen(s, events[0], req), events[1..], req, n);
    }
  }

  /** Undisturbed, the visits end with exactly the answer and the list of `Search`. */
  lemma AloneIsSearch(bs: Blocks, events: seq<Event>, req: nat)
    requires bs != [] && Plays(Start(bs), events, req) && forall k :: 0 <= k < |events| ==> events[k].Own?
    requires Turns(events) >= 2 * |bs| * (|bs| + 1)
    ensures var s := Play(Start(bs), events, req);
      match Search(bs, req)
      case Found(cs, b) => s.phase == Given(b) && s.blocks == cs
      case NotFound(cs) => s.phase == GaveUp && s.blocks == cs
  {
    SearchEnds(bs, events, req);
    AloneKeepsAnswer(Start(bs), events, req, |bs|);
  }

  // ----- what is given, under interference -----

  /** The atomic step an event takes, if it changes the list. */
  function Moves(s: Searching, e: Event, req: nat): seq<Step> {
    if e.Foreign? then [FreeStep(e.i)]
    else match s.phase
      case Walking(k) =>
        if k < |s.blocks| && Fits(s.blocks[k], req)
        then [if s.blocks[k].size - req < HEAP_BLOCK_SIZE then TakeStep(k) else CarveStep(k, req)]
        else []
      case Merging(i, _) => if Mergeable(s.blocks, i) then [MergeStep(i)] else []
      case Cornering(_) => if HeadMergeable(s.blocks) then [HeadMergeStep] else []
      case _ => []
  }

  /** Every event is at most one step of HeapSpec. */
  lemma EventIsStep(s: Searching, e: Event, req: nat)
    requires Possible(s, e) && 0 < req && req % HEAP_BLOCK_SIZE == 0
    ensures var m := Moves(s, e, req);
      if m == [] then Happen(s, e, req).blocks == s.blocks
      else Enabled(s.blocks, m[0]) && Happen(s, e, req).blocks == Apply(s.blocks, m[0])
  {
  }

  lemma EventKeepsInv(s: Searching, e: Event, req: nat, h: Area)
    requires Possible(s, e) && 0 < req && req % HEAP_BLOCK_SIZE == 0 && Inv(s.blocks, h)
    ensures Inv(Happen(s, e, req).blocks, h)
  {
    EventIsStep(s, e, req);
    var m := Moves(s, e, req);
    if m != [] { StepKeepsInv(s.blocks, m[0], h); }
  }

  /** Until the search ends nobody frees block `b`. */
  ghost predicate Undisturbed(s: Searching, events: seq<Event>, req: nat, b: Block)
    requires Plays(s, events, req)
    decreases |events|
  {
    events == [] || Finished(s) ||
    ((events[0].Foreign? ==> s.blocks[events[0].i] != b)
     && Undisturbed(Happen(s, events[0], req), events[1..], req, b))
  }

  lemma EventKeepsLive(s: Searching, e: Event, req: nat, b: Block)
    requires Possible(s, e) && 0 < req && req % HEAP_BLOCK_SIZE == 0
    requires b in s.blocks && b.magic == InUse && (e.Foreign? ==> s.blocks[e.i] != b)
    ensures b in Happen(s, e, req).blocks
  {
    EventIsStep(s, e, req);
    var m := Moves(s, e, req);
    if m != [] { StepKeepsLive(s.blocks, m[0], b); }
  }

  /** If the search has just given a block, that block is listed, in use and of the right size. */
  predicate GivenRight(s: Searching, req: nat) {
    s.phase.Given? ==>
      s.phase.block in s.blocks && s.phase.block.magic == InUse
      && req <= s.phase.block.size < req + HEAP_BLOCK_SIZE
  }

  lemma EventGivesRight(s: Searching, e: Event, req: nat)
    requires Possible(s, e) && !Finished(s)
    ensures GivenRight(Happen(s, e, req), req)
  {
    var t := Happen(s, e, req);
    if t.phase.Given? {
      var k := s.phase.k;
      assert t.phase.block == t.blocks[if s.blocks[k].size - req < HEAP_BLOCK_SIZE then k else 0];
    }
  }

  lemma EventGivesFresh(s: Searching, e: Event, req: nat, h: Area, b: Block)
    requires Possible(s, e) && !Finished(s) && Inv(s.blocks, h) && b in s.blocks && b.magic == InUse
    ensures Happen(s, e, req).phase.Given? ==> Apart(b, Happen(s, e, req).phase.block)
  {
    if Happen(s, e, req).phase.Given? {
      var j :| 0 <= j < |s.blocks| && s.blocks[j] == b;
      assert Apart(s.blocks[j], s.blocks[s.phase.k]);
    }
  }

  lemma {:induction false} PlayGives(s: Searching, events: seq<Event>, req: nat, h: Area)
    requires Plays(s, events, req) && 0 < req && req % HEAP_BLOCK_SIZE == 0
    requires Inv(s.blocks, h) && !Finished(s)
    ensures Inv(Play(s, events, req).blocks, h) && GivenRight(Play(s, events, req), req)
    decreases |events|
  {
    if events != [] {
      var t := Happen(s, events[0], req);
      EventKeepsInv(s, events[0], req, h);
      EventGivesRight(s, events[0], req);
      if !Finished(t) { PlayGives(t, events[1..], req, h); }
    }
  }

  lemma {:induction false} PlaySpares(s: Searching, events: seq<Event>, req: nat, h: Area, b: Block)
    requires Plays(s, events, req) && 0 < req && req % HEAP_BLOCK_SIZE == 0
    requires Inv(s.blocks, h) && !Finished(s)
    requires b in s.blocks && b.magic == InUse && Undisturbed(s, events, req, b)
    ensures var t := Play(s, events, req); b in t.blocks && (t.phase.Given? ==> Apart(b, t.phase.block))
    decreases |events|
  {
    if events != [] {
      var t := Happen(s, events[0], req);
      EventKeepsInv(s, events[0], req, h);
      EventKeepsLive(s, events[0], req, b);
      EventGivesFresh(s, events[0], req, h, b);
      if !Finished(t) { PlaySpares(t, events[1..], req, h, b); }
    }
  }

  /**
   * Allocation stays sound under interference: the heap stays tiled, a block given is large enough
   * and less than 64 bytes too large, and every block in use that nobody frees meanwhile is untouched
   * and shares no byte with it.
   */
  lemma SharedAllocSound(bs: Blocks, events: seq<Event>, req: nat, h: Area)
    requires Inv(bs, h) && 0 < req && req % HEAP_BLOCK_SIZE == 0 && Plays(Start(bs), events, req)
    ensures var s := Play(Start(bs), events, req);
      && Inv(s.blocks, h) && GivenRight(s, req)
      && forall b :: b in bs && b.magic == InUse && Undisturbed(Start(bs), events, req, b) ==>
           b in s.blocks && (s.phase.Given? ==> Apart(b, s.phase.block))
  {
    PlayGives(Start(bs), events, req, h);
    forall b | b in bs && b.magic == InUse && Undisturbed(Start(bs), events, req, b)
      ensures var s := Play(Start(bs), events, req); b in s.blocks && (s.phase.Given? ==> Apart(b, s.phase.block))
    {
      PlaySpares(Start(bs), events, req, h, b);
    }
  }

  // ----- what is missed, under interference -----

  /** Each of the first `k` blocks that fits was freed after the search went past it. */
  predicate FitsAreNew(s: Searching, req: nat, k: nat) {
    forall j :: 0 <= j < k && j < |s.blocks| && Fits(s.blocks[j], req) ==> s.blocks[j].addr in s.freed
  }

  /** Each mergeable pair below `i` has a block that was freed after the search went past it. */
  predicate PairsAreNew(s: Searching, i: nat) {
    forall j: nat :: j < i && Mergeable(s.blocks, j) ==>
      s.blocks[j].addr in s.freed || s.blocks[j + 1].addr in s.freed
  }

  predicate Honest(s: Searching, req: nat) {
    match s.phase
    case Walking(k) => k < |s.blocks| && FitsAreNew(s, req, k)
    case Merging(i, largest) =>
      if largest == 0 then FitsAreNew(s, req, |s.blocks|) && PairsAreNew(s, i) else HEAP_BLOCK_SIZE <= largest
    case Cornering(largest) =>
      if largest == 0 then FitsAreNew(s, req, |s.blocks|) && PairsAreNew(s, |s.blocks|) else HEAP_BLOCK_SIZE <= largest
    case Given(_) => true
    case GaveUp => FitsAreNew(s, req, |s.blocks|) && PairsAreNew(s, |s.blocks|) && !HeadMergeable(s.blocks)
  }

  lemma OwnTurnHonest(s: Searching, req: nat, h: Area)
    requires Inv(s.blocks, h) && Honest(s, req) && !Finished(s)
    ensures Honest(OwnTurn(s, req), req)
  {
  }

  lemma ForeignHonest(s: Searching, i: nat, req: nat)
    requires Possible(s, Foreign(i)) && Honest(s, req) && !Finished(s)
    ensures Honest(Happen(s, Foreign(i), req), req)
  {
  }

  lemma EventHonest(s: Searching, e: Event, req: nat, h: Area)
    requires Possible(s, e) && Inv(s.blocks, h) && Honest(s, req) && !Finished(s)
    ensures Honest(Happen(s, e, req), req)
  {
    match e
    case Own => OwnTurnHonest(s, req, h);
    case Foreign(i) => ForeignHonest(s, i, req);
  }

  lemma {:induction false} PlayHonest(s: Searching, events: seq<Event>, req: nat, h: Area)
    requires Plays(s, events, req) && 0 < req && req % HEAP_BLOCK_SIZE == 0
    requires Inv(s.blocks, h) && Honest(s, req)
    ensures Honest(Play(s, events, req), req)
    decreases |events|
  {
    if events != [] && !Finished(s) {
      EventHonest(s, events[0], req, h);
      EventKeepsInv(s, events[0], req, h);
      PlayHonest(Happen(s, events[0], req), events[1..], req, h);
    }
  }

  /** What another CPU gave back in this round is still free. */
  predicate FreedAreFree(s: Searching) {
    forall j :: 0 <= j < |s.blocks| && s.blocks[j].addr in s.freed ==> s.blocks[j].magic == Free
  }

  lemma EventKeepsFreed(s: Searching, e: Event, req: nat, h: Area)
    requires Possible(s, e) && Inv(s.blocks, h) && !Finished(s) && FreedAreFree(s)
    ensures Happen(s, e, req).phase.Given? || FreedAreFree(Happen(s, e, req))
  {
    if e.Foreign? {
      forall j | 0 <= j < |s.blocks| && j != e.i ensures s.blocks[j].addr != s.blocks[e.i].addr {
        assert Apart(s.blocks[j], s.blocks[e.i]);
      }
    }
  }

  lemma {:induction false} PlayKeepsFreed(s: Searching, events: seq<Event>, req: nat, h: Area)
    requires Plays(s, events, req) && 0 < req && req % HEAP_BLOCK_SIZE == 0
    requires Inv(s.blocks, h) && FreedAreFree(s)
    ensures Play(s, events, req).phase.Given? || FreedAreFree(Play(s, events, req))
    decreases |events|
  {
    if events != [] && !Finished(s) {
      var t := Happen(s, events[0], req);
      EventKeepsFreed(s, events[0], req, h);
      EventKeepsInv(s, events[0], req, h);
      if !t.phase.Given? { PlayKeepsFreed(t, events[1..], req, h); }
    }
  }

  /**
   * When an allocation gives up, the blocks it has missed are exactly the large enough ones that
   * another CPU gave back during the last round: so failing was right if and only if there are none.
   * A block of any list neighbours that could be merged was given back in that round too.
   */
  lemma SharedFailureExactly(bs: Blocks, events: seq<Event>, req: nat, h: Area)
    requires Inv(bs, h) && 0 < req && req % HEAP_BLOCK_SIZE == 0 && Plays(Start(bs), events, req)
    requires Play(Start(bs), events, req).phase.GaveUp?
    ensures var s := Play(Start(bs), events, req);
      && (forall j :: 0 <= j < |s.blocks| ==>
            (Fits(s.blocks[j], req) <==> s.blocks[j].addr in s.freed && s.blocks[j].size >= req))
      && (forall j: nat :: Mergeable(s.blocks, j) ==> s.blocks[j].addr in s.freed || s.blocks[j + 1].addr in s.freed)
      && !HeadMergeable(s.blocks)
  {
    PlayHonest(Start(bs), events, req, h);
    PlayKeepsFreed(Start(bs), events, req, h);
  }

  /** Such a block really can be missed: freed behind the search, it does not keep it from giving up. */
  lemma FreedBehindIsMissed(b: Block, req: nat)
    requires b.magic == InUse && b.size >= req
    ensures var events := [Own, Foreign(0), Own, Own];
      && Plays(Start([b]), events, req)
      && var s := Play(Start([b]), events, req); s.phase.GaveUp? && Fits(s.blocks[0], req)
  {
    var s1 := OwnTurn(Start([b]), req);
    var s2 := Happen(s1, Foreign(0), req);
    var s3 := OwnTurn(s2, req);
    assert Finished(OwnTurn(s3, req));
    var events := [Own, Foreign(0), Own, Own];
    assert events[1..] == [Foreign(0), Own, Own] && events[1..][1..] == [Own, Own] && [Own, Own][1..] == [Own];
    assert Plays(s3, [Own], req) && Play(s3, [Own], req) == OwnTurn(s3, req);
    assert Plays(s2, [Own, Own], req) && Play(s2, [Own, Own], req) == OwnTurn(s3, req);
  }
}
