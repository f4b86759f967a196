/**
 * The per-CPU heap as a value: the sequence of blocks in list order, the atomic steps that
 * change it, and the two searches (`consolidate` and `alloc`) built from those steps.
 *
 * List order is not address order: carving puts the new block, which lies above the block it
 * was carved from, at the front of the list.
 */
module HeapSpec {
  import opened Base

  const HEAP_BLOCK_SIZE: nat := 64

  datatype Magic = Free | InUse

  /** A heap block; `size` includes the header. */
  datatype Block = Block(addr: nat, size: nat, magic: Magic) {
    function End(): nat { addr + size }
    predicate Has(a: int) { addr <= a < addr + size }
  }

  type Blocks = seq<Block>

  /** The memory a heap manages and the size of a block header. */
  datatype Area = Area(base: nat, size: nat, header: nat) {
    function End(): nat { base + size }
  }

  // ----- what holds in every reachable state -----

  predicate Apart(b: Block, c: Block) { b.End() <= c.addr || c.End() <= b.addr }

  ghost predicate Covered(bs: Blocks, a: int) { exists i :: 0 <= i < |bs| && bs[i].Has(a) }

  /** The blocks cover every address of the area exactly once, and none outside it. */
  ghost predicate Tiles(bs: Blocks, h: Area) {
    && (forall i :: 0 <= i < |bs| ==> h.base <= bs[i].addr && bs[i].End() <= h.End())
    && (forall i, j :: 0 <= i < |bs| && 0 <= j < |bs| && i != j ==> Apart(bs[i], bs[j]))
    && (forall a :: h.base <= a < h.End() ==> Covered(bs, a))
  }

  /** Every block holds its header, and once the heap has been split every block is at least 64 bytes. */
  ghost predicate Sized(bs: Blocks, h: Area) {
    && 0 < h.header <= HEAP_BLOCK_SIZE
    && (forall i :: 0 <= i < |bs| ==> h.header <= bs[i].size)
    && (forall i :: 0 <= i < |bs| && |bs| > 1 ==> HEAP_BLOCK_SIZE <= bs[i].size)
  }

  /** Every block ends a whole number of 64-byte units below the end of the heap. */
  ghost predicate Aligned(bs: Blocks, h: Area) {
    forall i :: 0 <= i < |bs| ==> (h.End() - bs[i].End()) % HEAP_BLOCK_SIZE == 0
  }

  ghost predicate Inv(bs: Blocks, h: Area) {
    |bs| > 0 && Tiles(bs, h) && Sized(bs, h) && Aligned(bs, h)
  }

  // ----- atomic steps -----

  datatype Step =
    | FreeStep(i: nat)              // any CPU gives a block back
    | TakeStep(i: nat)              // the owner takes a whole free block
    | CarveStep(i: nat, req: nat)   // the owner carves the top of a free block
    | MergeStep(i: nat)             // the owner merges list neighbours i and i + 1
    | HeadMergeStep                 // the owner merges the head into the block after it

  predicate Mergeable(bs: Blocks, i: nat) {
    i + 1 < |bs| && bs[i].magic == Free && bs[i + 1].magic == Free && bs[i].End() == bs[i + 1].addr
  }

  predicate HeadMergeable(bs: Blocks) {
    1 < |bs| && bs[0].magic == Free && bs[1].magic == Free && bs[1].End() == bs[0].addr
  }

  predicate Enabled(bs: Blocks, s: Step) {
    match s
    case FreeStep(i) => i < |bs| && bs[i].magic == InUse
    case TakeStep(i) => i < |bs| && bs[i].magic == Free
    case CarveStep(i, req) =>
      i < |bs| && bs[i].magic == Free && 0 < req && req % HEAP_BLOCK_SIZE == 0 && req + HEAP_BLOCK_SIZE <= bs[i].size
    case MergeStep(i) => Mergeable(bs, i)
    case HeadMergeStep => HeadMergeable(bs)
  }

  function SetMagic(bs: Blocks, i: nat, m: Magic): Blocks
    requires i < |bs|
  {
    bs[i := bs[i].(magic := m)]
  }

  function Carve(bs: Blocks, i: nat, req: nat): Blocks
    requires i < |bs| && req <= bs[i].size
  {
    [Block(bs[i].End() - req, req, InUse)] + bs[i := bs[i].(size := bs[i].size - req)]
  }

  function MergeAt(bs: Blocks, i: nat): Blocks
    requires i + 1 < |bs|
  {
    bs[..i] + [bs[i].(size := bs[i].size + bs[i + 1].size)] + bs[i + 2..]
  }

  function MergeHead(bs: Blocks): Blocks
    requires 1 < |bs|
  {
    [bs[1].(size := bs[1].size + bs[0].size)] + bs[2..]
  }

  function Apply(bs: Blocks, s: Step): Blocks
    requires Enabled(bs, s)
  {
    match s
    case FreeStep(i) => SetMagic(bs, i, Free)
    case TakeStep(i) => SetMagic(bs, i, InUse)
    case CarveStep(i, req) => Carve(bs, i, req)
    case MergeStep(i) => MergeAt(bs, i)
    case HeadMergeStep => MergeHead(bs)
  }

  // ----- every step keeps the invariant -----

  lemma SetMagicKeepsInv(bs: Blocks, i: nat, m: Magic, h: Area)
    requires Inv(bs, h) && i < |bs|
    ensures Inv(SetMagic(bs, i, m), h)
  {
    var cs := SetMagic(bs, i, m);
    forall a | h.base <= a < h.End() ensures Covered(cs, a) {
      assert Covered(bs, a);
      var k :| 0 <= k < |bs| && bs[k].Has(a);
      assert cs[k].Has(a);
    }
  }

  lemma CarveCovers(bs: Blocks, i: nat, req: nat, a: int)
    requires i < |bs| && req <= bs[i].size && Covered(bs, a)
    ensures Covered(Carve(bs, i, req), a)
  {
    var k :| 0 <= k < |bs| && bs[k].Has(a);
    var cs := Carve(bs, i, req);
    assert cs[k + 1].Has(a) || cs[0].Has(a);
  }

  /** Which block of `bs` a block of the carved list lies in. */
  lemma CarvedWithin(bs: Blocks, i: nat, req: nat, k: nat) returns (k': nat)
    requires i < |bs| && req <= bs[i].size && k <= |bs|
    ensures k' < |bs| && k' == (if k == 0 then i else k - 1)
    ensures var c := Carve(bs, i, req)[k];
      bs[k'].addr <= c.addr && c.End() <= bs[k'].End() &&
      (k' == i ==> if k == 0 then c.addr == bs[i].End() - req && c.End() == bs[i].End() && c.size == req
                   else c.End() == bs[i].End() - req && c.addr == bs[i].addr) &&
      (k' != i ==> c == bs[k'])
  {
    k' := if k == 0 then i else k - 1;
  }

  lemma CarveApart(bs: Blocks, i: nat, req: nat, h: Area)
    requires Inv(bs, h) && i < |bs| && req <= bs[i].size
    ensures var cs := Carve(bs, i, req);
      forall k, l :: 0 <= k < |cs| && 0 <= l < |cs| && k != l ==> Apart(cs[k], cs[l])
  {
    var cs := Carve(bs, i, req);
    forall k: nat, l: nat | k < |cs| && l < |cs| && k != l ensures Apart(cs[k], cs[l]) {
      var k' := CarvedWithin(bs, i, req, k);
      var l' := CarvedWithin(bs, i, req, l);
      if k' != l' { assert Apart(bs[k'], bs[l']); }
    }
  }

  lemma CarveKeepsInv(bs: Blocks, i: nat, req: nat, h: Area)
    requires Inv(bs, h) && Enabled(bs, CarveStep(i, req))
    ensures Inv(Carve(bs, i, req), h)
  {
    var cs := Carve(bs, i, req);
    forall k: nat | k < |cs|
      ensures h.base <= cs[k].addr && cs[k].End() <= h.End() && HEAP_BLOCK_SIZE <= cs[k].size
      ensures (h.End() - cs[k].End()) % HEAP_BLOCK_SIZE == 0
    {
      var k' := CarvedWithin(bs, i, req, k);
    }
    CarveApart(bs, i, req, h);
    forall a | h.base <= a < h.End() ensures Covered(cs, a) { CarveCovers(bs, i, req, a); }
  }

  lemma MergeCovers(bs: Blocks, i: nat, a: int)
    requires Mergeable(bs, i) && Covered(bs, a)
    ensures Covered(MergeAt(bs, i), a)
  {
    var k :| 0 <= k < |bs| && bs[k].Has(a);
    assert MergeAt(bs, i)[if k <= i then k else k - 1].Has(a);
  }

  lemma MergeApart(bs: Blocks, i: nat, h: Area)
    requires Inv(bs, h) && Mergeable(bs, i)
    ensures var cs := MergeAt(bs, i);
      forall k, l :: 0 <= k < |cs| && 0 <= l < |cs| && k != l ==> Apart(cs[k], cs[l])
  {
    var cs := MergeAt(bs, i);
    forall k, l | 0 <= k < |cs| && 0 <= l < |cs| && k != l ensures Apart(cs[k], cs[l]) {
      var k', l' := if k <= i then k else k + 1, if l <= i then l else l + 1;
      assert Apart(bs[k'], bs[l']);
      assert k != i ==> Apart(bs[k'], bs[i + 1]);
      assert l != i ==> Apart(bs[i + 1], bs[l']);
    }
  }

  lemma MergeKeepsInv(bs: Blocks, i: nat, h: Area)
    requires Inv(bs, h) && Mergeable(bs, i)
    ensures Inv(MergeAt(bs, i), h)
  {
    var cs := MergeAt(bs, i);
    forall k | 0 <= k < |cs|
      ensures h.base <= cs[k].addr && cs[k].End() <= h.End() && h.header <= cs[k].size && HEAP_BLOCK_SIZE <= cs[k].size
      ensures (h.End() - cs[k].End()) % HEAP_BLOCK_SIZE == 0
    {
      var top := if k < i then k else k + 1;
      assert cs[k].End() == bs[top].End() && cs[k].size >= bs[top].size;
      assert cs[k].addr == bs[if k <= i then k else k + 1].addr;
    }
    MergeApart(bs, i, h);
    forall a | h.base <= a < h.End() ensures Covered(cs, a) {
      MergeCovers(bs, i, a);
    }
  }

  lemma MergeHeadApart(bs: Blocks, h: Area)
    requires Inv(bs, h) && HeadMergeable(bs)
    ensures var cs := MergeHead(bs);
      forall k, l :: 0 <= k < |cs| && 0 <= l < |cs| && k != l ==> Apart(cs[k], cs[l])
  {
    var cs := MergeHead(bs);
    forall k, l | 0 <= k < |cs| && 0 <= l < |cs| && k != l ensures Apart(cs[k], cs[l]) {
      assert Apart(bs[k + 1], bs[l + 1]);
      assert k > 0 ==> Apart(bs[k + 1], bs[0]);
      assert l > 0 ==> Apart(bs[0], bs[l + 1]);
    }
  }

  lemma MergeHeadCovers(bs: Blocks, a: int)
    requires HeadMergeable(bs) && Covered(bs, a)
    ensures Covered(MergeHead(bs), a)
  {
    var k :| 0 <= k < |bs| && bs[k].Has(a);
    assert MergeHead(bs)[if k == 0 then 0 else k - 1].Has(a);
  }

  lemma MergeHeadKeepsInv(bs: Blocks, h: Area)
    requires Inv(bs, h) && HeadMergeable(bs)
    ensures Inv(MergeHead(bs), h)
  {
    var cs := MergeHead(bs);
    forall k | 0 <= k < |cs|
      ensures h.base <= cs[k].addr && cs[k].End() <= h.End() && HEAP_BLOCK_SIZE <= cs[k].size
      ensures (h.End() - cs[k].End()) % HEAP_BLOCK_SIZE == 0
    {
      var top := if k == 0 then 0 else k + 1;
      assert cs[k].End() == bs[top].End() && cs[k].size >= bs[top].size && cs[k].addr == bs[k + 1].addr;
    }
    MergeHeadApart(bs, h);
    forall a | h.base <= a < h.End() ensures Covered(cs, a) { MergeHeadCovers(bs, a); }
  }

  lemma StepKeepsInv(bs: Blocks, s: Step, h: Area)
    requires Inv(bs, h) && Enabled(bs, s)
    ensures Inv(Apply(bs, s), h)
  {
    match s
    case FreeStep(i) => SetMagicKeepsInv(bs, i, Free, h);
    case TakeStep(i) => SetMagicKeepsInv(bs, i, InUse, h);
    case CarveStep(i, req) => CarveKeepsInv(bs, i, req, h);
    case MergeStep(i) => MergeKeepsInv(bs, i, h);
    case HeadMergeStep => MergeHeadKeepsInv(bs, h);
  }

  /** Only freeing a block changes it while it is in use. */
  lemma StepKeepsLive(bs: Blocks, s: Step, b: Block)
    requires Enabled(bs, s) && b in bs && b.magic == InUse
    requires s.FreeStep? ==> bs[s.i] != b
    ensures b in Apply(bs, s)
  {
    var k :| 0 <= k < |bs| && bs[k] == b;
    var cs := Apply(bs, s);
    match s
    case FreeStep(i) => assert cs[k] == b;
    case TakeStep(i) => assert cs[k] == b;
    case CarveStep(i, req) => assert cs[k + 1] == b;
    case MergeStep(i) => assert cs[if k < i then k else k - 1] == b;
    case HeadMergeStep => assert cs[k - 1] == b;
  }

  /** Where block `j` is found once step `s` has been taken, if `s` leaves it alone. */
  function Moved(s: Step, j: nat): int {
    match s
    case FreeStep(_) => j
    case TakeStep(_) => j
    case CarveStep(_, _) => j + 1
    case MergeStep(i) => if j < i then j else j - 1
    case HeadMergeStep => j - 1
  }

  lemma FreeCarveCommutes(bs: Blocks, i: nat, req: nat, j: nat)
    requires i < |bs| && j < |bs| && i != j && req <= bs[i].size
    ensures Carve(bs, i, req)[j + 1] == bs[j]
    ensures Carve(SetMagic(bs, j, Free), i, req) == SetMagic(Carve(bs, i, req), j + 1, Free)
  {
    var shrunk := bs[i].(size := bs[i].size - req);
    assert SetMagic(bs, j, Free)[i := shrunk] == SetMagic(bs[i := shrunk], j, Free);
  }

  lemma FreeHeadCommutes(bs: Blocks, j: nat)
    requires 1 < j < |bs|
    ensures MergeHead(bs)[j - 1] == bs[j]
    ensures MergeHead(SetMagic(bs, j, Free)) == SetMagic(MergeHead(bs), j - 1, Free)
  {
    assert SetMagic(bs, j, Free)[2..] == SetMagic(bs[2..], j - 2, Free);
  }

  lemma FreeMergeCommutes(bs: Blocks, i: nat, j: nat)
    requires Mergeable(bs, i) && j < |bs| && bs[j].magic == InUse
    ensures var j' := Moved(MergeStep(i), j);
      && 0 <= j' < |bs| - 1 && MergeAt(bs, i)[j'] == bs[j]
      && MergeAt(SetMagic(bs, j, Free), i) == SetMagic(MergeAt(bs, i), j', Free)
  {
    var fs := SetMagic(bs, j, Free);
    if j < i {
      assert fs[..i] == bs[..i][j := bs[j].(magic := Free)];
    } else {
      assert fs[i + 2..] == bs[i + 2..][j - i - 2 := bs[j].(magic := Free)];
    }
  }

  /**
   * A step the owner may take stays possible when another CPU first frees some other block, and
   * the order of the two makes no difference: what the owner has read cannot be invalidated
   * before it writes.
   */
  lemma ForeignFreeCommutes(bs: Blocks, s: Step, j: nat)
    requires Enabled(bs, s) && Enabled(bs, FreeStep(j)) && s != FreeStep(j)
    ensures Enabled(Apply(bs, FreeStep(j)), s)
    ensures 0 <= Moved(s, j) && Enabled(Apply(bs, s), FreeStep(Moved(s, j)))
    ensures Apply(Apply(bs, FreeStep(j)), s) == Apply(Apply(bs, s), FreeStep(Moved(s, j)))
  {
    match s
    case FreeStep(i) => assert SetMagic(SetMagic(bs, j, Free), i, Free) == SetMagic(SetMagic(bs, i, Free), j, Free);
    case TakeStep(i) => assert SetMagic(SetMagic(bs, j, Free), i, InUse) == SetMagic(SetMagic(bs, i, InUse), j, Free);
    case CarveStep(i, req) => FreeCarveCommutes(bs, i, req, j);
    case MergeStep(i) => FreeMergeCommutes(bs, i, j);
    case HeadMergeStep => FreeHeadCommutes(bs, j);
  }

  // ----- runs -----

  ghost predicate Runs(bs: Blocks, steps: seq<Step>)
    decreases |steps|
  {
    steps == [] || (Enabled(bs, steps[0]) && Runs(Apply(bs, steps[0]), steps[1..]))
  }

  ghost function Run(bs: Blocks, steps: seq<Step>): Blocks
    requires Runs(bs, steps)
    decreases |steps|
  {
    if steps == [] then bs else Run(Apply(bs, steps[0]), steps[1..])
  }

  /** Along this run nobody frees block `b`. */
  ghost predicate Spares(bs: Blocks, steps: seq<Step>, b: Block)
    requires Runs(bs, steps)
    decreases |steps|
  {
    steps == [] ||
    ((steps[0].FreeStep? ==> bs[steps[0].i] != b) && Spares(Apply(bs, steps[0]), steps[1..], b))
  }

  function Initial(h: Area): Blocks { [Block(h.base, h.size, Free)] }

  lemma InitialInv(h: Area)
    requires 0 < h.header <= HEAP_BLOCK_SIZE && h.header <= h.size
    ensures Inv(Initial(h), h)
  {
    forall a | h.base <= a < h.End() ensures Covered(Initial(h), a) {
      assert Initial(h)[0].Has(a);
    }
  }

  lemma {:induction false} RunKeepsInv(bs: Blocks, steps: seq<Step>, h: Area)
    requires Inv(bs, h) && Runs(bs, steps)
    ensures Inv(Run(bs, steps), h)
    decreases |steps|
  {
    if steps != [] {
      StepKeepsInv(bs, steps[0], h);
      RunKeepsInv(Apply(bs, steps[0]), steps[1..], h);
    }
  }

  lemma {:induction false} RunKeepsLive(bs: Blocks, steps: seq<Step>, b: Block)
    requires Runs(bs, steps) && b in bs && b.magic == InUse && Spares(bs, steps, b)
    ensures b in Run(bs, steps)
    decreases |steps|
  {
    if steps != [] {
      StepKeepsLive(bs, steps[0], b);
      RunKeepsLive(Apply(bs, steps[0]), steps[1..], b);
    }
  }

  lemma {:induction false} RunConcat(bs: Blocks, s: seq<Step>, t: seq<Step>)
    requires Runs(bs, s) && Runs(Run(bs, s), t)
    ensures Runs(bs, s + t) && Run(bs, s + t) == Run(Run(bs, s), t)
    decreases |s|
  {
    if s == [] {
      JoinEmpty(t);
    } else {
      JoinTail(s, t);
      RunConcat(Apply(bs, s[0]), s[1..], t);
    }
  }

  function Merges(steps: seq<Step>): nat
    decreases |steps|
  {
    if steps == [] then 0
    else (if steps[0].MergeStep? || steps[0].HeadMergeStep? then 1 else 0) + Merges(steps[1..])
  }

  function Carves(steps: seq<Step>): nat
    decreases |steps|
  {
    if steps == [] then 0 else (if steps[0].CarveStep? then 1 else 0) + Carves(steps[1..])
  }

  /**
   * Whatever other CPUs free meanwhile, every merge takes one block from the list and every carve
   * adds one, so there are fewer merges than blocks there were and blocks carved.
   */
  lemma {:induction false} MergesBounded(bs: Blocks, steps: seq<Step>)
    requires Runs(bs, steps)
    ensures |Run(bs, steps)| + Merges(steps) == |bs| + Carves(steps)
    ensures bs != [] ==> Merges(steps) < |bs| + Carves(steps)
    decreases |steps|
  {
    if steps != [] { MergesBounded(Apply(bs, steps[0]), steps[1..]); }
  }

  // ----- consolidate -----

  datatype Pass = Pass(blocks: Blocks, largest: nat)

  function Max(a: nat, b: nat): nat { if a > b then a else b }

  /** One pass over the list from position `i`; a block that has just grown is not looked at again. */
  function PassFrom(bs: Blocks, i: nat, largest: nat): Pass
    decreases |bs| - i
  {
    if i + 1 >= |bs| then Pass(bs, largest)
    else if Mergeable(bs, i) then
      PassFrom(MergeAt(bs, i), i + 1, Max(largest, bs[i].size + bs[i + 1].size))
    else PassFrom(bs, i + 1, largest)
  }

  /** The corner case in which the head lies just above the block after it. */
  function Corner(p: Pass): Pass {
    if HeadMergeable(p.blocks) then
      var cs := MergeHead(p.blocks);
      Pass(cs, Max(p.largest, cs[0].size))
    else p
  }

  function Consolidate(bs: Blocks): Pass { Corner(PassFrom(bs, 0, 0)) }

  /** The steps taken by the owner alone: nothing is freed. */
  predicate OwnerOnly(steps: seq<Step>) { forall k :: 0 <= k < |steps| ==> !steps[k].FreeStep? }

  lemma {:induction false} OwnerSpares(bs: Blocks, steps: seq<Step>, b: Block)
    requires Runs(bs, steps) && OwnerOnly(steps)
    ensures Spares(bs, steps, b)
    decreases |steps|
  {
    if steps != [] { OwnerSpares(Apply(bs, steps[0]), steps[1..], b); }
  }

  lemma {:induction false} PassIsRun(bs: Blocks, i: nat, largest: nat) returns (steps: seq<Step>)
    ensures Runs(bs, steps) && OwnerOnly(steps) && Run(bs, steps) == PassFrom(bs, i, largest).blocks
    ensures |PassFrom(bs, i, largest).blocks| + |steps| == |bs|
    decreases |bs| - i
  {
    if i + 1 >= |bs| {
      steps := [];
    } else if Mergeable(bs, i) {
      var rest := PassIsRun(MergeAt(bs, i), i + 1, Max(largest, bs[i].size + bs[i + 1].size));
      steps := [MergeStep(i)] + rest;
      assert steps[1..] == rest;
      assert Apply(bs, steps[0]) == MergeAt(bs, i);
    } else {
      steps := PassIsRun(bs, i + 1, largest);
    }
  }

  lemma ConsolidateIsRun(bs: Blocks) returns (steps: seq<Step>)
    ensures Runs(bs, steps) && OwnerOnly(steps) && Run(bs, steps) == Consolidate(bs).blocks
    ensures |Consolidate(bs).blocks| + |steps| == |bs|
  {
    var pass := PassIsRun(bs, 0, 0);
    var p := PassFrom(bs, 0, 0);
    steps := pass;
    if HeadMergeable(p.blocks) {
      assert Run(p.blocks, [HeadMergeStep]) == MergeHead(p.blocks) by {
        assert [HeadMergeStep][1..] == [];
      }
      RunConcat(bs, pass, [HeadMergeStep]);
      steps := pass + [HeadMergeStep];
    }
  }

  /** What a pass that starts at `i` leaves behind when it merges nothing. */
  lemma {:induction false} PassOutcome(bs: Blocks, i: nat, largest: nat)
    ensures var p := PassFrom(bs, i, largest);
      && largest <= p.largest
      && (|p.blocks| == |bs| ==>
            p == Pass(bs, largest) && forall k :: i <= k < |bs| ==> !Mergeable(bs, k))
      && (|p.blocks| < |bs| && (forall k :: 0 <= k < |bs| ==> HEAP_BLOCK_SIZE <= bs[k].size) ==>
            HEAP_BLOCK_SIZE <= p.largest)
      && |p.blocks| <= |bs|
    decreases |bs| - i
  {
    if i + 1 < |bs| {
      if Mergeable(bs, i) {
        PassOutcome(MergeAt(bs, i), i + 1, Max(largest, bs[i].size + bs[i + 1].size));
      } else {
        PassOutcome(bs, i + 1, largest);
      }
    }
  }

  /**
   * `consolidate` reports 64 bytes or more exactly when it merged something, and something
   * merged means a shorter list. If it merged nothing, no neighbouring pair could have been merged.
   */
  lemma ConsolidateOutcome(bs: Blocks, h: Area)
    requires Inv(bs, h)
    ensures var c := Consolidate(bs);
      && (c.largest >= HEAP_BLOCK_SIZE <==> |c.blocks| < |bs|)
      && (c.largest < HEAP_BLOCK_SIZE ==>
            c.blocks == bs && !HeadMergeable(bs) && forall k: nat :: k < |bs| ==> !Mergeable(bs, k))
  {
    PassOutcome(bs, 0, 0);
    var p := PassFrom(bs, 0, 0);
    var steps := PassIsRun(bs, 0, 0);
    RunKeepsInv(bs, steps, h);
  }

  lemma ConsolidateKeepsInv(bs: Blocks, h: Area)
    requires Inv(bs, h)
    ensures Inv(Consolidate(bs).blocks, h)
  {
    var steps := ConsolidateIsRun(bs);
    RunKeepsInv(bs, steps, h);
  }

  /** Whatever `consolidate` is given, a non-zero report means the list got shorter. */
  lemma ReportMeansShorter(bs: Blocks)
    ensures Consolidate(bs).largest > 0 ==> |Consolidate(bs).blocks| < |bs|
  {
    PassOutcome(bs, 0, 0);
  }

  // ----- alloc -----

  /** Bytes needed for a payload, with its header, in whole 64-byte units. */
  function Required(header: nat, bytes: nat): (req: nat)
    ensures header + bytes < req <= header + bytes + HEAP_BLOCK_SIZE && req % HEAP_BLOCK_SIZE == 0
  {
    ((bytes + header) / HEAP_BLOCK_SIZE + 1) * HEAP_BLOCK_SIZE
  }

  predicate Fits(b: Block, req: nat) { b.magic == Free && b.size >= req }

  function FirstFit(bs: Blocks, req: nat, k: nat): (i: nat)
    requires k <= |bs|
    ensures k <= i <= |bs| && (i < |bs| ==> Fits(bs[i], req)) && forall j :: k <= j < i ==> !Fits(bs[j], req)
    decreases |bs| - k
  {
    if k == |bs| || Fits(bs[k], req) then k else FirstFit(bs, req, k + 1)
  }

  datatype Found = Found(blocks: Blocks, block: Block) | NotFound(blocks: Blocks)

  /** Take a fitting block whole if what would be left is under 64 bytes, otherwise carve its top. */
  function Place(bs: Blocks, i: nat, req: nat): Found
    requires i < |bs| && Fits(bs[i], req)
  {
    if bs[i].size - req < HEAP_BLOCK_SIZE
    then Found(SetMagic(bs, i, InUse), bs[i].(magic := InUse))
    else Found(Carve(bs, i, req), Block(bs[i].End() - req, req, InUse))
  }

  /** First fit; when there is none, consolidate and start over until a pass gains nothing. */
  function Search(bs: Blocks, req: nat): Found
    decreases |bs|
  {
    var i := FirstFit(bs, req, 0);
    if i < |bs| then Place(bs, i, req)
    else
      var c := Consolidate(bs);
      if c.largest < HEAP_BLOCK_SIZE then NotFound(c.blocks)
      else
        ReportMeansShorter(bs);
        Search(c.blocks, req)
  }

  /** The first fit found by walking the list is the one the search places. */
  lemma SearchHits(bs: Blocks, req: nat, k: nat)
    requires k < |bs| && Fits(bs[k], req) && forall j :: 0 <= j < k ==> !Fits(bs[j], req)
    ensures Search(bs, req) == Place(bs, k, req)
  {
  }

  /** Walking the whole list without a fit leads to a consolidation. */
  lemma SearchMisses(bs: Blocks, req: nat)
    requires forall j :: 0 <= j < |bs| ==> !Fits(bs[j], req)
    ensures var c := Consolidate(bs);
      if c.largest < HEAP_BLOCK_SIZE then Search(bs, req) == NotFound(c.blocks)
      else |c.blocks| < |bs| && Search(bs, req) == Search(c.blocks, req)
  {
    ReportMeansShorter(bs);
  }

  /** An allocation is a run of owner steps, so it may be interleaved with frees by other CPUs. */
  lemma {:induction false} SearchIsRun(bs: Blocks, req: nat) returns (steps: seq<Step>)
    requires 0 < req && req % HEAP_BLOCK_SIZE == 0
    ensures Runs(bs, steps) && OwnerOnly(steps) && Run(bs, steps) == Search(bs, req).blocks
    decreases |bs|
  {
    var i := FirstFit(bs, req, 0);
    if i < |bs| {
      steps := [if bs[i].size - req < HEAP_BLOCK_SIZE then TakeStep(i) else CarveStep(i, req)];
      assert steps[1..] == [];
      assert Runs(bs, steps);
    } else {
      var gather := ConsolidateIsRun(bs);
      var c := Consolidate(bs);
      steps := gather;
      if c.largest >= HEAP_BLOCK_SIZE {
        ReportMeansShorter(bs);
        var rest := SearchIsRun(c.blocks, req);
        RunConcat(bs, gather, rest);
        steps := gather + rest;
      }
    }
  }

  /** The block handed out is in the list, in use, as large as required, and less than 64 bytes larger. */
  lemma {:induction false} SearchFinds(bs: Blocks, req: nat)
    ensures var r := Search(bs, req);
      r.Found? ==> r.block in r.blocks && r.block.magic == InUse && req <= r.block.size < req + HEAP_BLOCK_SIZE
    decreases |bs|
  {
    var i := FirstFit(bs, req, 0);
    if i < |bs| {
      var r := Place(bs, i, req);
      assert r.block == r.blocks[if bs[i].size - req < HEAP_BLOCK_SIZE then i else 0];
    } else if Consolidate(bs).largest >= HEAP_BLOCK_SIZE {
      ReportMeansShorter(bs);
      SearchFinds(Consolidate(bs).blocks, req);
    }
  }

  /** The block handed out was not in use before. */
  lemma {:induction false} SearchIsFresh(bs: Blocks, req: nat, h: Area, b: Block)
    requires Inv(bs, h) && b in bs && b.magic == InUse && 0 < req && req % HEAP_BLOCK_SIZE == 0
    requires Search(bs, req).Found?
    ensures Apart(b, Search(bs, req).block)
    decreases |bs|
  {
    var i := FirstFit(bs, req, 0);
    if i < |bs| {
      var k :| 0 <= k < |bs| && bs[k] == b;
      assert k != i;
      assert Apart(bs[k], bs[i]);
    } else {
      var gather := ConsolidateIsRun(bs);
      ReportMeansShorter(bs);
      RunKeepsInv(bs, gather, h);
      OwnerSpares(bs, gather, b);
      RunKeepsLive(bs, gather, b);
      SearchIsFresh(Consolidate(bs).blocks, req, h, b);
    }
  }

  /** When `alloc` gives up, nothing large enough is free and no neighbouring pair is still mergeable. */
  lemma {:induction false} FailureIsHonest(bs: Blocks, req: nat, h: Area)
    requires Inv(bs, h) && Search(bs, req).NotFound?
    ensures var f := Search(bs, req).blocks;
      && (forall k :: 0 <= k < |f| ==> !Fits(f[k], req))
      && (forall k: nat :: k < |f| ==> !Mergeable(f, k))
      && !HeadMergeable(f)
    decreases |bs|
  {
    ConsolidateOutcome(bs, h);
    var c := Consolidate(bs);
    if c.largest >= HEAP_BLOCK_SIZE {
      var gather := ConsolidateIsRun(bs);
      RunKeepsInv(bs, gather, h);
      FailureIsHonest(c.blocks, req, h);
    }
  }

  // ----- main results -----

  /**
   * Tiling, sizes and alignment hold after every run of steps from `init`, in whatever order the
   * owner's steps and other CPUs' frees are interleaved.
   */
  lemma EveryRunTiles(h: Area, steps: seq<Step>)
    requires 0 < h.header <= HEAP_BLOCK_SIZE && h.header <= h.size
    requires Runs(Initial(h), steps)
    ensures Inv(Run(Initial(h), steps), h)
  {
    InitialInv(h);
    RunKeepsInv(Initial(h), steps, h);
  }

  /**
   * In a tiled heap every block but the one at the heap's base starts at the residue of the heap's
   * end modulo 64 and is a whole number of 64-byte units long.
   */
  lemma BlocksAligned(bs: Blocks, h: Area, i: nat)
    requires Inv(bs, h) && i < |bs| && bs[i].addr != h.base
    ensures (h.End() - bs[i].addr) % HEAP_BLOCK_SIZE == 0 && bs[i].size % HEAP_BLOCK_SIZE == 0
  {
    assert Covered(bs, bs[i].addr - 1);
    var j :| 0 <= j < |bs| && bs[j].Has(bs[i].addr - 1);
    assert Apart(bs[i], bs[j]);
    assert bs[j].End() == bs[i].addr;
    UnitsBetween(h.End() - bs[i].End(), bs[i].size);
  }

  lemma UnitsBetween(x: nat, y: nat)
    requires x % HEAP_BLOCK_SIZE == 0 && (x + y) % HEAP_BLOCK_SIZE == 0
    ensures y % HEAP_BLOCK_SIZE == 0
  {
  }

  /**
   * A live block keeps its address and size along every run in which it is not freed, stays inside
   * the heap, and its payload meets no other block, so no other header and no other payload.
   */
  lemma LiveBlocksPersist(bs: Blocks, steps: seq<Step>, h: Area, b: Block)
    requires Inv(bs, h) && Runs(bs, steps) && b in bs && b.magic == InUse && Spares(bs, steps, b)
    ensures var cs := Run(bs, steps);
      && b in cs
      && h.base <= b.addr && b.End() <= h.End()
      && (forall c :: c in cs && c != b ==> Apart(b, c))
  {
    RunKeepsInv(bs, steps, h);
    RunKeepsLive(bs, steps, b);
  }

  /**
   * A successful allocation of `bytes` bytes: the payload is at least that long and wastes less than
   * 128 bytes, everything in use before is still there unchanged, and the new block meets none of it.
   */
  lemma AllocSound(bs: Blocks, bytes: nat, h: Area)
    requires Inv(bs, h)
    ensures var r := Search(bs, Required(h.header, bytes));
      && Inv(r.blocks, h)
      && (forall b :: b in bs && b.magic == InUse ==> b in r.blocks)
      && (r.Found? ==>
            && r.block in r.blocks && r.block.magic == InUse
            && bytes <= r.block.size - h.header < bytes + 2 * HEAP_BLOCK_SIZE
            && (forall b :: b in bs && b.magic == InUse ==> Apart(b, r.block)))
  {
    var req := Required(h.header, bytes);
    var steps := SearchIsRun(bs, req);
    RunKeepsInv(bs, steps, h);
    forall b | b in bs && b.magic == InUse ensures b in Search(bs, req).blocks {
      OwnerSpares(bs, steps, b);
      RunKeepsLive(bs, steps, b);
    }
    if Search(bs, req).Found? {
      SearchFinds(bs, req);
      forall b | b in bs && b.magic == InUse ensures Apart(b, Search(bs, req).block) {
        SearchIsFresh(bs, req, h, b);
      }
    }
  }
}
