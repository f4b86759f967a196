/** What `consolidate` reports, and when that is what it is documented to report. */
module HeapReport {
  import opened HeapSpec

  /** Some free block up to position `i` has this size. */
  ghost predicate Reported(bs: Blocks, i: nat, size: nat) {
    exists k :: 0 <= k < i && k < |bs| && bs[k].magic == Free && bs[k].size == size
  }

  lemma {:induction false} PassReport(bs: Blocks, i: nat, largest: nat)
    requires largest == 0 || Reported(bs, i, largest)
    ensures var p := PassFrom(bs, i, largest); p.largest == 0 || Reported(p.blocks, |p.blocks|, p.largest)
    decreases |bs| - i
  {
    if i + 1 < |bs| {
      if Mergeable(bs, i) {
        var cs := MergeAt(bs, i);
        assert cs[i].magic == Free && cs[i].size == bs[i].size + bs[i + 1].size;
        assert forall k :: 0 <= k < i ==> cs[k] == bs[k];
        PassReport(cs, i + 1, Max(largest, bs[i].size + bs[i + 1].size));
      } else {
        PassReport(bs, i + 1, largest);
      }
    }
  }

  /** The size `consolidate` reports is the size of a free block now in the list. */
  lemma ReportIsReal(bs: Blocks)
    ensures var c := Consolidate(bs); c.largest == 0 || Reported(c.blocks, |c.blocks|, c.largest)
  {
    PassReport(bs, 0, 0);
    var p := PassFrom(bs, 0, 0);
    if HeadMergeable(p.blocks) {
      var cs := MergeHead(p.blocks);
      assert cs[0].magic == Free;
      if p.largest > cs[0].size {
        var k :| 0 <= k < |p.blocks| && p.blocks[k].magic == Free && p.blocks[k].size == p.largest;
        assert cs[k - 1] == p.blocks[k];
      }
    }
  }

  ghost predicate Starts(bs: Blocks, a: nat) { exists i :: 0 <= i < |bs| && bs[i].addr == a }

  /** A block that begins where one of `bs` did, and unless it is one of them is free and at most `largest`. */
  ghost predicate Accounted(bs: Blocks, b: Block, largest: nat) {
    Starts(bs, b.addr) && (b !in bs ==> b.magic == Free && b.size <= largest)
  }

  ghost predicate AllAccounted(bs: Blocks, cs: Blocks, largest: nat) {
    forall k :: 0 <= k < |cs| ==> Accounted(bs, cs[k], largest)
  }

  /** Some block among the first `i` is not in `bs` and has this size, unless it is zero. */
  ghost predicate MadeOfSize(bs: Blocks, cs: Blocks, i: nat, size: nat) {
    size == 0 || exists k :: 0 <= k < i && k < |cs| && cs[k] !in bs && cs[k].size == size
  }

  /** Two neighbours put together make a block that was not there before. */
  lemma MergedIsNew(bs: Blocks, h: Area, low: Block, high: Block)
    requires Inv(bs, h) && low.End() == high.addr && 0 < low.size && 0 < high.size && Starts(bs, high.addr)
    ensures low.(size := low.size + high.size) !in bs
  {
    var i :| 0 <= i < |bs| && bs[i].addr == high.addr;
    forall j | 0 <= j < |bs| ensures bs[j] != low.(size := low.size + high.size) {
      assert i != j ==> Apart(bs[i], bs[j]);
    }
  }

  lemma MergeAccounts(bs: Blocks, cs: Blocks, i: nat, largest: nat)
    requires Mergeable(cs, i) && AllAccounted(bs, cs, largest) && MadeOfSize(bs, cs, i, largest)
    requires cs[i].(size := cs[i].size + cs[i + 1].size) !in bs
    ensures var size := cs[i].size + cs[i + 1].size;
      && AllAccounted(bs, MergeAt(cs, i), Max(largest, size))
      && MadeOfSize(bs, MergeAt(cs, i), i + 1, Max(largest, size))
  {
    var ds, size := MergeAt(cs, i), cs[i].size + cs[i + 1].size;
    assert ds[i] == cs[i].(size := size);
    forall k | 0 <= k < |ds| ensures Accounted(bs, ds[k], Max(largest, size)) {
      assert Accounted(bs, cs[if k <= i then k else k + 1], largest);
    }
    if largest > size {
      var k :| 0 <= k < i && k < |cs| && cs[k] !in bs && cs[k].size == largest;
      assert ds[k] == cs[k];
    }
  }

  lemma MergeStepAccounts(bs: Blocks, cs: Blocks, i: nat, largest: nat, h: Area)
    requires Inv(bs, h) && Inv(cs, h) && Mergeable(cs, i)
    requires AllAccounted(bs, cs, largest) && MadeOfSize(bs, cs, i, largest)
    ensures var size := Max(largest, cs[i].size + cs[i + 1].size);
      AllAccounted(bs, MergeAt(cs, i), size) && MadeOfSize(bs, MergeAt(cs, i), i + 1, size)
  {
    assert Accounted(bs, cs[i + 1], largest);
    MergedIsNew(bs, h, cs[i], cs[i + 1]);
    MergeAccounts(bs, cs, i, largest);
  }

  lemma {:induction false} PassAccounts(bs: Blocks, cs: Blocks, i: nat, largest: nat, h: Area)
    requires Inv(bs, h) && Inv(cs, h) && AllAccounted(bs, cs, largest) && MadeOfSize(bs, cs, i, largest)
    ensures var p := PassFrom(cs, i, largest);
      Inv(p.blocks, h) && AllAccounted(bs, p.blocks, p.largest) && MadeOfSize(bs, p.blocks, |p.blocks|, p.largest)
    decreases |cs| - i
  {
    if i + 1 < |cs| {
      if Mergeable(cs, i) {
        MergeKeepsInv(cs, i, h);
        MergeStepAccounts(bs, cs, i, largest, h);
        PassAccounts(bs, MergeAt(cs, i), i + 1, Max(largest, cs[i].size + cs[i + 1].size), h);
      } else {
        PassAccounts(bs, cs, i + 1, largest, h);
      }
    }
  }

  lemma CornerAccounts(bs: Blocks, p: Pass)
    requires HeadMergeable(p.blocks) && AllAccounted(bs, p.blocks, p.largest)
    requires MadeOfSize(bs, p.blocks, |p.blocks|, p.largest)
    requires var cs := p.blocks; cs[1].(size := cs[1].size + cs[0].size) !in bs && 0 < cs[0].size && 0 < cs[1].size
    ensures var c := Corner(p); AllAccounted(bs, c.blocks, c.largest) && MadeOfSize(bs, c.blocks, |c.blocks|, c.largest)
  {
    var cs, ds := p.blocks, MergeHead(p.blocks);
    forall k | 0 <= k < |ds| ensures Accounted(bs, ds[k], Max(p.largest, ds[0].size)) {
      assert Accounted(bs, cs[k + 1], p.largest);
    }
    if p.largest > ds[0].size {
      var k :| 0 <= k < |cs| && cs[k] !in bs && cs[k].size == p.largest;
      assert ds[k - 1] == cs[k];
    }
  }

  lemma ConsolidateAccounts(bs: Blocks, h: Area)
    requires Inv(bs, h)
    ensures var c := Consolidate(bs); AllAccounted(bs, c.blocks, c.largest) && MadeOfSize(bs, c.blocks, |c.blocks|, c.largest)
  {
    PassAccounts(bs, bs, 0, 0, h);
    var p := PassFrom(bs, 0, 0);
    if HeadMergeable(p.blocks) {
      assert Accounted(bs, p.blocks[0], p.largest);
      MergedIsNew(bs, h, p.blocks[1], p.blocks[0]);
      CornerAccounts(bs, p);
    }
  }

  /**
   * What `consolidate` reports is the size of the largest block it has made: every block that was not
   * there before is free and no larger, and if it reports anything one of them has that size.
   */
  lemma ReportIsLargestMerged(bs: Blocks, h: Area)
    requires Inv(bs, h)
    ensures var c := Consolidate(bs);
      && (forall b :: b in c.blocks && b !in bs ==> b.magic == Free && b.size <= c.largest)
      && (c.largest > 0 ==> exists b :: b in c.blocks && b !in bs && b.magic == Free && b.size == c.largest)
  {
    ConsolidateAccounts(bs, h);
    var c := Consolidate(bs);
    forall b | b in c.blocks && b !in bs ensures b.magic == Free && b.size <= c.largest {
      var k :| 0 <= k < |c.blocks| && c.blocks[k] == b;
      assert Accounted(bs, c.blocks[k], c.largest);
    }
    if c.largest > 0 {
      var k :| 0 <= k < |c.blocks| && c.blocks[k] !in bs && c.blocks[k].size == c.largest;
      assert c.blocks[k] in c.blocks;
    }
  }

  /** The size of the largest free block in the list, which is what `consolidate` is documented to report. */
  ghost predicate LargestFree(bs: Blocks, size: nat) {
    && (exists b :: b in bs && b.magic == Free && b.size == size)
    && (forall b :: b in bs && b.magic == Free ==> b.size <= size)
  }

  /** Which is so if and only if it has merged something and no free block left as it was is larger. */
  lemma ReportAsDocumented(bs: Blocks, h: Area)
    requires Inv(bs, h)
    ensures var c := Consolidate(bs);
      LargestFree(c.blocks, c.largest) <==>
      |c.blocks| < |bs| && forall b :: b in bs && b in c.blocks && b.magic == Free ==> b.size <= c.largest
  {
    ReportIsLargestMerged(bs, h);
    ConsolidateOutcome(bs, h);
    ConsolidateKeepsInv(bs, h);
    var c := Consolidate(bs);
    assert forall b :: b in c.blocks ==> b.size > 0;
  }

  // ----- what a pass merges, seen from the list it is given -----

  /** A pass merges blocks `k` and `k + 1`: they can be merged, and `k` has not just been merged itself. */
  predicate PairAt(bs: Blocks, k: nat)
    decreases k
  {
    Mergeable(bs, k) && (k == 0 || !PairAt(bs, k - 1))
  }

  predicate InPair(bs: Blocks, k: nat) { PairAt(bs, k) || (k > 0 && PairAt(bs, k - 1)) }

  function PairOf(bs: Blocks, k: nat): Block
    requires k + 1 < |bs|
  {
    bs[k].(size := bs[k].size + bs[k + 1].size)
  }

  /** The pass from block `i` on, which has not just been merged. */
  function Paired(bs: Blocks, i: nat): Blocks
    requires i <= |bs|
    decreases |bs| - i
  {
    if i == |bs| then []
    else if Mergeable(bs, i) then [PairOf(bs, i)] + Paired(bs, i + 2)
    else [bs[i]] + Paired(bs, i + 1)
  }

  function LargestPair(bs: Blocks, i: nat): nat
    requires i <= |bs|
    decreases |bs| - i
  {
    if i == |bs| then 0
    else if Mergeable(bs, i) then Max(PairOf(bs, i).size, LargestPair(bs, i + 2))
    else LargestPair(bs, i + 1)
  }

  lemma PairUp(cs: Blocks, d: nat, bs: Blocks, i: nat)
    requires d <= |cs| && i <= |bs| && cs[d..] == bs[i..] && Mergeable(bs, i)
    ensures Mergeable(cs, d) && cs[d] == bs[i] && cs[d + 1] == bs[i + 1]
    ensures MergeAt(cs, d)[..d + 1] == cs[..d] + [PairOf(bs, i)] && MergeAt(cs, d)[d + 1..] == bs[i + 2..]
  {
    assert cs[d] == cs[d..][0] && cs[d + 1] == cs[d..][1] && cs[d + 2..] == cs[d..][2..];
    assert bs[i..][2..] == bs[i + 2..];
  }

  lemma Unpaired(cs: Blocks, d: nat, bs: Blocks, i: nat)
    requires d <= |cs| && i < |bs| && cs[d..] == bs[i..] && !Mergeable(bs, i)
    ensures d < |cs| && !Mergeable(cs, d) && cs[..d + 1] == cs[..d] + [bs[i]] && cs[d + 1..] == bs[i + 1..]
  {
    assert cs[d] == cs[d..][0] && cs[d + 1..] == cs[d..][1..];
    assert i + 1 < |bs| ==> cs[d + 1] == cs[d..][1];
    assert bs[i..][1..] == bs[i + 1..];
  }

  /** What has been dealt with stays, and the rest is paired up. */
  lemma {:induction false} PassPairs(cs: Blocks, d: nat, bs: Blocks, i: nat, largest: nat)
    requires d <= |cs| && i <= |bs| && cs[d..] == bs[i..]
    ensures PassFrom(cs, d, largest) == Pass(cs[..d] + Paired(bs, i), Max(largest, LargestPair(bs, i)))
    decreases |bs| - i
  {
    if i == |bs| {
      assert cs[..d] + [] == cs;
    } else if Mergeable(bs, i) {
      PairUp(cs, d, bs, i);
      var pair := PairOf(bs, i);
      PassPairs(MergeAt(cs, d), d + 1, bs, i + 2, Max(largest, pair.size));
      Regroup(cs[..d], pair, Paired(bs, i + 2));
    } else {
      Unpaired(cs, d, bs, i);
      PassPairs(cs, d + 1, bs, i + 1, largest);
      Regroup(cs[..d], bs[i], Paired(bs, i + 1));
      assert i + 1 == |bs| ==> Paired(bs, i + 1) == [];
    }
  }

  lemma Regroup(xs: Blocks, b: Block, ys: Blocks)
    ensures (xs + [b]) + ys == xs + ([b] + ys)
  {
  }

  lemma WholePass(bs: Blocks)
    ensures PassFrom(bs, 0, 0) == Pass(Paired(bs, 0), LargestPair(bs, 0))
  {
    PassPairs(bs, 0, bs, 0, 0);
    assert bs[..0] + Paired(bs, 0) == Paired(bs, 0);
  }

  /** Block `i` is where a pass comes to look for the next pair. */
  predicate Fresh(bs: Blocks, i: nat) { i == 0 || !PairAt(bs, i - 1) }

  lemma {:induction false} LargestPairAt(bs: Blocks, i: nat)
    requires i <= |bs| && Fresh(bs, i)
    ensures forall k: nat :: i <= k && PairAt(bs, k) ==> PairOf(bs, k).size <= LargestPair(bs, i)
    ensures LargestPair(bs, i) > 0 ==> exists k: nat :: PairAt(bs, k) && PairOf(bs, k).size == LargestPair(bs, i)
    decreases |bs| - i
  {
    if i < |bs| {
      if Mergeable(bs, i) {
        assert PairAt(bs, i) && !PairAt(bs, i + 1);
        LargestPairAt(bs, i + 2);
      } else {
        assert !PairAt(bs, i);
        LargestPairAt(bs, i + 1);
      }
    }
  }

  /** A block in no pair is left in the list. */
  lemma {:induction false} LeftAlone(bs: Blocks, i: nat, k: nat)
    requires i <= k < |bs| && Fresh(bs, i) && !InPair(bs, k)
    ensures bs[k] in Paired(bs, i)
    decreases |bs| - i
  {
    if Mergeable(bs, i) {
      assert PairAt(bs, i) && !PairAt(bs, i + 1);
      LeftAlone(bs, i + 2, k);
    } else if i < k {
      assert !PairAt(bs, i);
      LeftAlone(bs, i + 1, k);
    }
  }

  // ----- the corner case -----

  /** The first block after the pass, and where the second begins. */
  function First(bs: Blocks): Block
    requires bs != []
  {
    if PairAt(bs, 0) then PairOf(bs, 0) else bs[0]
  }

  function Rest(bs: Blocks): nat { if PairAt(bs, 0) then 2 else 1 }

  function Second(bs: Blocks): Block
    requires Rest(bs) < |bs|
  {
    if PairAt(bs, Rest(bs)) then PairOf(bs, Rest(bs)) else bs[Rest(bs)]
  }

  predicate CornerMerges(bs: Blocks) {
    && Rest(bs) < |bs| && First(bs).magic == Free && Second(bs).magic == Free
    && Second(bs).End() == First(bs).addr
  }

  lemma FrontOfPass(bs: Blocks)
    requires bs != []
    ensures Paired(bs, 0)[0] == First(bs) && (1 < |Paired(bs, 0)| <==> Rest(bs) < |bs|)
    ensures Rest(bs) < |bs| ==> Paired(bs, 0)[1] == Second(bs)
  {
    assert PairAt(bs, 0) <==> Mergeable(bs, 0);
    if Rest(bs) < |bs| { assert PairAt(bs, Rest(bs)) <==> Mergeable(bs, Rest(bs)); }
  }

  /** A block of this size is made, by a pair or by the corner case. */
  ghost predicate Makes(bs: Blocks, size: nat) {
    || (exists k: nat :: PairAt(bs, k) && size == PairOf(bs, k).size)
    || (CornerMerges(bs) && size == First(bs).size + Second(bs).size)
  }

  /** The report is the largest size made. */
  lemma ReportIsLargestMade(bs: Blocks)
    requires forall k :: 0 <= k < |bs| ==> 0 < bs[k].size
    ensures var c := Consolidate(bs);
      (forall size: nat :: Makes(bs, size) ==> size <= c.largest) && (c.largest > 0 ==> Makes(bs, c.largest))
  {
    WholePass(bs);
    LargestPairAt(bs, 0);
    if bs != [] { FrontOfPass(bs); }
  }

  /** A block in no pair is left in the list, or is part of the block the corner case makes. */
  lemma AloneOrCornered(bs: Blocks, k: nat)
    requires k < |bs| && !InPair(bs, k)
    ensures var c := Consolidate(bs); bs[k] in c.blocks || bs[k].size <= c.largest
  {
    WholePass(bs);
    LeftAlone(bs, 0, k);
    var cs := Paired(bs, 0);
    if HeadMergeable(cs) {
      var j :| 0 <= j < |cs| && cs[j] == bs[k];
      if j > 1 { assert MergeHead(cs)[j - 1] == bs[k]; }
    }
  }

  /** No free block that is in no pair is larger than this. */
  ghost predicate NoneLarger(bs: Blocks, size: nat) {
    forall k: nat :: k < |bs| && bs[k].magic == Free && !InPair(bs, k) ==> bs[k].size <= size
  }

  lemma DocumentedIsMade(bs: Blocks, h: Area)
    requires Inv(bs, h) && LargestFree(Consolidate(bs).blocks, Consolidate(bs).largest)
    ensures Makes(bs, Consolidate(bs).largest) && NoneLarger(bs, Consolidate(bs).largest)
  {
    var c := Consolidate(bs);
    ReportAsDocumented(bs, h);
    ReportIsLargestMade(bs);
    ConsolidateOutcome(bs, h);
    forall k: nat | k < |bs| && bs[k].magic == Free && !InPair(bs, k) ensures bs[k].size <= c.largest {
      AloneOrCornered(bs, k);
    }
  }

  lemma MadeIsDocumented(bs: Blocks, h: Area, size: nat)
    requires Inv(bs, h) && Makes(bs, size) && NoneLarger(bs, size)
    ensures LargestFree(Consolidate(bs).blocks, Consolidate(bs).largest)
  {
    var c := Consolidate(bs);
    ReportIsLargestMade(bs);
    MadeIsLarge(bs, h, size);
    ConsolidateOutcome(bs, h);
    forall b | b in bs && b in c.blocks && b.magic == Free ensures b.size <= c.largest {
      var k :| 0 <= k < |bs| && bs[k] == b;
      if InPair(bs, k) { PairsAreMade(bs, k); }
    }
    ReportAsDocumented(bs, h);
  }

  /**
   * `consolidate` reports what it is documented to if and only if, in the list it is given, a pair that
   * a pass merges, or the corner case, makes a block than which no free block in no pair is larger.
   */
  lemma ReportAsDocumentedExactly(bs: Blocks, h: Area)
    requires Inv(bs, h)
    ensures LargestFree(Consolidate(bs).blocks, Consolidate(bs).largest) <==>
      exists size: nat :: Makes(bs, size) && NoneLarger(bs, size)
  {
    if LargestFree(Consolidate(bs).blocks, Consolidate(bs).largest) { DocumentedIsMade(bs, h); }
    if size: nat :| Makes(bs, size) && NoneLarger(bs, size) { MadeIsDocumented(bs, h, size); }
  }

  lemma MadeIsLarge(bs: Blocks, h: Area, size: nat)
    requires Inv(bs, h) && Makes(bs, size)
    ensures HEAP_BLOCK_SIZE <= size
  {
  }

  /** A block in a pair is smaller than what the pair makes. */
  lemma PairsAreMade(bs: Blocks, k: nat)
    requires k < |bs| && InPair(bs, k)
    ensures exists size: nat :: Makes(bs, size) && bs[k].size <= size
  {
    var i := if PairAt(bs, k) then k else k - 1;
    assert Makes(bs, PairOf(bs, i).size);
  }

  /** A heap that is one free block is reported as having none. */
  lemma ReportMissesWholeHeap(h: Area)
    requires 0 < h.header <= HEAP_BLOCK_SIZE && h.header <= h.size
    ensures Consolidate(Initial(h)).largest == 0 && !LargestFree(Initial(h), 0) && LargestFree(Initial(h), h.size)
  {
    assert Initial(h)[0] in Initial(h);
  }
}
