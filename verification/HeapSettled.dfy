/**
 * The list a heap settles into when everything that can be merged has been, computed from the list
 * alone: allocation succeeds exactly when that list has a block that fits, and exactly when certain
 * blocks of the list it was given span enough bytes.
 */
module HeapSettled {
  import opened HeapSpec

  // ----- the settled list -----

  /** `b` put in front of a list, merged with its first block if that is free and begins where `b` ends. */
  function Glue(b: Block, bs: Blocks): Blocks {
    if bs != [] && b.magic == Free && bs[0].magic == Free && b.End() == bs[0].addr
    then [b.(size := b.size + bs[0].size)] + bs[1..]
    else [b] + bs
  }

  /** Every run of list neighbours that follow each other in memory as one block. */
  function Ascending(bs: Blocks): (cs: Blocks)
    ensures |cs| <= |bs| && (bs != [] ==> cs != [] && cs[0].addr == bs[0].addr && cs[0].magic == bs[0].magic)
  {
    if bs == [] then [] else Glue(bs[0], Ascending(bs[1..]))
  }

  /** The head merged with the block after it, above or below, for as long as it can be. */
  function Collapse(bs: Blocks): Blocks
    decreases |bs|
  {
    if Mergeable(bs, 0) then Collapse(MergeAt(bs, 0))
    else if HeadMergeable(bs) then Collapse(MergeHead(bs))
    else bs
  }

  function Settled(bs: Blocks): Blocks { Collapse(Ascending(bs)) }

  // ----- merging does not change it -----

  lemma GlueTwice(a: Block, b: Block, bs: Blocks)
    requires a.magic == Free && b.magic == Free && a.End() == b.addr
    ensures Glue(a, Glue(b, bs)) == Glue(a.(size := a.size + b.size), bs)
  {
  }

  lemma {:induction false} MergeKeepsAscending(bs: Blocks, i: nat)
    requires Mergeable(bs, i)
    ensures Ascending(MergeAt(bs, i)) == Ascending(bs)
    decreases i
  {
    var cs := MergeAt(bs, i);
    if i == 0 {
      assert cs[1..] == bs[1..][1..];
      GlueTwice(bs[0], bs[1], Ascending(bs[1..][1..]));
    } else {
      assert cs[0] == bs[0] && cs[1..] == MergeAt(bs[1..], i - 1);
      MergeKeepsAscending(bs[1..], i - 1);
    }
  }

  /** No block begins at `a`. */
  predicate NoneAt(bs: Blocks, a: nat) { forall k :: 0 <= k < |bs| ==> bs[k].addr != a }

  /** When the head can be merged with the block below it, neither has anything to merge with above. */
  lemma HeadAscending(bs: Blocks)
    requires HeadMergeable(bs) && 0 < bs[0].size && 0 < bs[1].size && NoneAt(bs[2..], bs[0].addr)
    ensures Ascending(bs) == [bs[0], bs[1]] + Ascending(bs[2..])
  {
    assert bs[1..][1..] == bs[2..] && bs[1..][0] == bs[1];
    var rest := Ascending(bs[2..]);
    assert rest != [] ==> rest[0].addr == bs[2..][0].addr;
    assert Glue(bs[1], rest) == [bs[1]] + rest;
    assert Ascending(bs[1..]) == [bs[1]] + rest;
  }

  lemma CollapseGlue(b: Block, bs: Blocks)
    ensures Collapse(Glue(b, bs)) == Collapse([b] + bs)
  {
    var cs := [b] + bs;
    if Mergeable(cs, 0) { assert MergeAt(cs, 0) == Glue(b, bs); }
  }

  lemma MergeHeadKeepsSettled(bs: Blocks)
    requires HeadMergeable(bs) && 0 < bs[0].size && 0 < bs[1].size && NoneAt(bs[2..], bs[0].addr)
    ensures Settled(MergeHead(bs)) == Settled(bs)
  {
    HeadAscending(bs);
    var cs, rest, m := Ascending(bs), Ascending(bs[2..]), MergeHead(bs)[0];
    assert MergeHead(bs)[1..] == bs[2..];
    assert cs[2..] == rest && MergeHead(cs) == [m] + rest;
    CollapseGlue(m, rest);
  }

  /** What the merges above need, of any tiled list. */
  lemma TiledHead(bs: Blocks, h: Area)
    requires Inv(bs, h) && 1 < |bs|
    ensures 0 < bs[0].size && 0 < bs[1].size && NoneAt(bs[2..], bs[0].addr)
  {
    forall k | 2 <= k < |bs| ensures bs[k].addr != bs[0].addr { assert Apart(bs[0], bs[k]); }
  }

  lemma {:induction false} PassKeepsSettled(bs: Blocks, i: nat, largest: nat)
    ensures Settled(PassFrom(bs, i, largest).blocks) == Settled(bs)
    decreases |bs| - i
  {
    if i + 1 < |bs| {
      if Mergeable(bs, i) {
        MergeKeepsAscending(bs, i);
        PassKeepsSettled(MergeAt(bs, i), i + 1, Max(largest, bs[i].size + bs[i + 1].size));
      } else {
        PassKeepsSettled(bs, i + 1, largest);
      }
    }
  }

  lemma ConsolidateKeepsSettled(bs: Blocks, h: Area)
    requires Inv(bs, h)
    ensures Settled(Consolidate(bs).blocks) == Settled(bs)
  {
    PassKeepsSettled(bs, 0, 0);
    var p := PassFrom(bs, 0, 0);
    var steps := PassIsRun(bs, 0, 0);
    RunKeepsInv(bs, steps, h);
    if HeadMergeable(p.blocks) {
      TiledHead(p.blocks, h);
      MergeHeadKeepsSettled(p.blocks);
    }
  }

  lemma {:induction false} NothingToAscend(bs: Blocks)
    requires forall k: nat :: k < |bs| ==> !Mergeable(bs, k)
    ensures Ascending(bs) == bs
    decreases |bs|
  {
    if bs != [] {
      forall k: nat | k < |bs[1..]| ensures !Mergeable(bs[1..], k) { assert !Mergeable(bs, k + 1); }
      NothingToAscend(bs[1..]);
      assert !Mergeable(bs, 0);
    }
  }

  // ----- merging keeps what fits -----

  ghost predicate AnyFits(bs: Blocks, req: nat) { exists k :: 0 <= k < |bs| && Fits(bs[k], req) }

  lemma GlueKeepsFits(b: Block, bs: Blocks, req: nat)
    requires Fits(b, req) || AnyFits(bs, req)
    ensures AnyFits(Glue(b, bs), req)
  {
    var cs := Glue(b, bs);
    if Fits(b, req) {
      assert Fits(cs[0], req);
    } else {
      var k :| 0 <= k < |bs| && Fits(bs[k], req);
      assert Fits(cs[if |cs| == |bs| then k else k + 1], req);
    }
  }

  lemma {:induction false} AscendingKeepsFits(bs: Blocks, req: nat)
    requires AnyFits(bs, req)
    ensures AnyFits(Ascending(bs), req)
    decreases |bs|
  {
    var k :| 0 <= k < |bs| && Fits(bs[k], req);
    if k > 0 {
      assert Fits(bs[1..][k - 1], req);
      AscendingKeepsFits(bs[1..], req);
    }
    GlueKeepsFits(bs[0], Ascending(bs[1..]), req);
  }

  lemma {:induction false} CollapseKeepsFits(bs: Blocks, req: nat)
    requires AnyFits(bs, req)
    ensures AnyFits(Collapse(bs), req)
    decreases |bs|
  {
    var k :| 0 <= k < |bs| && Fits(bs[k], req);
    if Mergeable(bs, 0) {
      assert Fits(MergeAt(bs, 0)[if k <= 1 then 0 else k - 1], req);
      CollapseKeepsFits(MergeAt(bs, 0), req);
    } else if HeadMergeable(bs) {
      assert Fits(MergeHead(bs)[if k <= 1 then 0 else k - 1], req);
      CollapseKeepsFits(MergeHead(bs), req);
    }
  }

  /**
   * Allocation against the settled list: it succeeds if and only if a block there fits, and when it
   * fails that is the list it leaves.
   */
  lemma {:induction false} SearchSettles(bs: Blocks, req: nat, h: Area)
    requires Inv(bs, h)
    ensures Search(bs, req).Found? <==> AnyFits(Settled(bs), req)
    ensures Search(bs, req).NotFound? ==> Search(bs, req).blocks == Settled(bs)
    decreases |bs|
  {
    var i := FirstFit(bs, req, 0);
    if i < |bs| {
      AscendingKeepsFits(bs, req);
      CollapseKeepsFits(Ascending(bs), req);
    } else {
      var c := Consolidate(bs);
      ConsolidateOutcome(bs, h);
      if c.largest < HEAP_BLOCK_SIZE {
        NothingToAscend(bs);
        assert !Mergeable(bs, 0);
      } else {
        ConsolidateKeepsSettled(bs, h);
        ConsolidateKeepsInv(bs, h);
        SearchSettles(c.blocks, req, h);
      }
    }
  }

  // ----- what the list has to look like -----

  /** Blocks `i` to `j` of the list are free and follow each other in memory. */
  ghost predicate Follow(bs: Blocks, i: nat, j: nat) {
    i <= j < |bs| && bs[i].magic == Free && forall k: nat :: i <= k < j ==> Mergeable(bs, k)
  }

  /**
   * The first `m` blocks of the list pile up to the bytes from `lo` to `hi`: starting with the head,
   * each next block sits on top of the pile so far, or each next run of blocks that follow each other
   * ends where it begins.
   */
  ghost predicate Piles(bs: Blocks, m: nat, lo: nat, hi: nat)
    decreases m
  {
    0 < m <= |bs| && bs[m - 1].magic == Free &&
    if m == 1 then lo == bs[0].addr && hi == bs[0].End()
    else
      || (hi == bs[m - 1].End() && Piles(bs, m - 1, lo, bs[m - 1].addr))
      || exists i :: 0 < i < m && Follow(bs, i, m - 1) && lo == bs[i].addr && Piles(bs, i, bs[m - 1].End(), hi)
  }

  /** Some blocks that follow each other in the list, or a pile at its front, span `req` bytes or more. */
  ghost predicate Reaches(bs: Blocks, req: nat) {
    || (exists i: nat, j: nat :: Follow(bs, i, j) && bs[i].addr + req <= bs[j].End())
    || (exists m: nat, lo: nat, hi: nat :: Piles(bs, m, lo, hi) && lo + req <= hi)
  }

  // ----- a settled block that fits comes from such blocks -----

  /** The block that the run beginning at `s` becomes, and where the run ends. */
  lemma {:induction false} RunAt(bs: Blocks, s: nat) returns (e: nat, b: Block)
    requires s < |bs|
    ensures s <= e < |bs| && Ascending(bs[s..]) == [b] + Ascending(bs[e + 1..])
    ensures b.addr == bs[s].addr && b.magic == bs[s].magic && b.End() == bs[e].End()
    ensures b.magic == Free ==> Follow(bs, s, e)
    decreases |bs| - s
  {
    var tail := bs[s..];
    assert tail[0] == bs[s] && tail[1..] == bs[s + 1..];
    if Mergeable(bs, s) {
      var c;
      e, c := RunAt(bs, s + 1);
      b := bs[s].(size := bs[s].size + c.size);
    } else {
      e, b := s, bs[s];
    }
  }

  lemma {:induction false} AscendingReaches(bs: Blocks, s: nat, req: nat)
    requires s <= |bs| && AnyFits(Ascending(bs[s..]), req)
    ensures Reaches(bs, req)
    decreases |bs| - s
  {
    if s < |bs| {
      var e, b := RunAt(bs, s);
      var rest := Ascending(bs[e + 1..]);
      var k :| 0 <= k < |Ascending(bs[s..])| && Fits(Ascending(bs[s..])[k], req);
      if k == 0 {
        assert Follow(bs, s, e) && bs[s].addr + req <= bs[e].End();
      } else {
        assert rest[k - 1] == Ascending(bs[s..])[k];
        AscendingReaches(bs, e + 1, req);
      }
    }
  }

  /** A run that begins on top of a pile joins it. */
  lemma {:induction false} RunOnTop(bs: Blocks, s: nat, e: nat, lo: nat)
    requires 0 < s && Follow(bs, s, e) && Piles(bs, s, lo, bs[s].addr)
    ensures Piles(bs, e + 1, lo, bs[e].End())
    decreases e
  {
    if s < e {
      assert Mergeable(bs, e - 1);
      RunOnTop(bs, s, e - 1, lo);
    }
  }

  /** And so does one that ends where the pile begins. */
  lemma RunBelow(bs: Blocks, s: nat, e: nat, hi: nat)
    requires 0 < s && Follow(bs, s, e) && Piles(bs, s, bs[e].End(), hi)
    ensures Piles(bs, e + 1, bs[s].addr, hi)
  {
    assert s < e ==> Mergeable(bs, e - 1);
  }

  /** Merging at the front of a list, above and below. */
  lemma MergeFront(a: Block, b: Block, rest: Blocks)
    ensures MergeAt([a, b] + rest, 0) == [a.(size := a.size + b.size)] + rest
    ensures MergeHead([a, b] + rest) == [b.(size := b.size + a.size)] + rest
  {
  }

  lemma CollapseFront(cs: Blocks)
    requires 1 < |cs| && cs[0].magic == Free
    ensures var a, b, rest := cs[0], cs[1], cs[2..];
      Collapse(cs) ==
        if b.magic == Free && b.addr == a.End() then Collapse([a.(size := a.size + b.size)] + rest)
        else if b.magic == Free && b.End() == a.addr then Collapse([b.(size := b.size + a.size)] + rest)
        else cs
  {
    assert cs[..0] == [];
    assert MergeAt(cs, 0) == [cs[0].(size := cs[0].size + cs[1].size)] + cs[2..];
  }

  lemma {:induction false} HeadRun(bs: Blocks, e: nat)
    requires Follow(bs, 0, e)
    ensures Piles(bs, e + 1, bs[0].addr, bs[e].End())
    decreases e
  {
    if e > 0 {
      assert Mergeable(bs, e - 1);
      HeadRun(bs, e - 1);
    }
  }

  /** The list in which the first `s` blocks have piled up and the others have become runs. */
  function PileAndRuns(bs: Blocks, s: nat, lo: nat, hi: nat): Blocks
    requires s <= |bs| && lo <= hi
  {
    [Block(lo, hi - lo, Free)] + Ascending(bs[s..])
  }

  /** The pile takes in the next run, if that lies just above or just below it. */
  lemma PileGrows(bs: Blocks, s: nat, lo: nat, hi: nat) returns (s': nat, lo': nat, hi': nat)
    requires s <= |bs| && Piles(bs, s, lo, hi) && lo <= hi
    ensures s <= s' <= |bs| && Piles(bs, s', lo', hi') && lo' <= hi'
    ensures s' == s ==> lo' == lo && hi' == hi && Collapse(PileAndRuns(bs, s, lo, hi)) == PileAndRuns(bs, s, lo, hi)
    ensures s' > s ==> Collapse(PileAndRuns(bs, s, lo, hi)) == Collapse(PileAndRuns(bs, s', lo', hi'))
  {
    s', lo', hi' := s, lo, hi;
    if s < |bs| {
      var e, b := RunAt(bs, s);
      CollapseStep(bs, s, e, b, lo, hi);
      if b.magic == Free && b.addr == hi {
        RunOnTop(bs, s, e, lo);
        s', hi' := e + 1, b.End();
      } else if b.magic == Free && b.End() == lo {
        RunBelow(bs, s, e, hi);
        s', lo' := e + 1, b.addr;
      }
    }
  }

  lemma CollapseStep(bs: Blocks, s: nat, e: nat, b: Block, lo: nat, hi: nat)
    requires s <= e < |bs| && lo <= hi && Ascending(bs[s..]) == [b] + Ascending(bs[e + 1..])
    ensures Collapse(PileAndRuns(bs, s, lo, hi)) ==
      if b.magic == Free && b.addr == hi then Collapse(PileAndRuns(bs, e + 1, lo, b.End()))
      else if b.magic == Free && b.End() == lo then Collapse(PileAndRuns(bs, e + 1, b.addr, hi))
      else PileAndRuns(bs, s, lo, hi)
  {
    var cs := PileAndRuns(bs, s, lo, hi);
    assert cs[1] == b && cs[2..] == Ascending(bs[e + 1..]);
    CollapseFront(cs);
  }

  lemma {:induction false} CollapseReaches(bs: Blocks, s: nat, lo: nat, hi: nat, req: nat)
    requires s <= |bs| && Piles(bs, s, lo, hi) && lo <= hi
    requires AnyFits(Collapse(PileAndRuns(bs, s, lo, hi)), req)
    ensures Reaches(bs, req)
    decreases |bs| - s
  {
    var s', lo', hi' := PileGrows(bs, s, lo, hi);
    if s' > s { CollapseReaches(bs, s', lo', hi', req); } else { PileReaches(bs, s, lo, hi, req); }
  }

  /** Where the head has nothing more to merge with. */
  lemma PileReaches(bs: Blocks, s: nat, lo: nat, hi: nat, req: nat)
    requires s <= |bs| && Piles(bs, s, lo, hi) && lo <= hi && AnyFits(PileAndRuns(bs, s, lo, hi), req)
    ensures Reaches(bs, req)
  {
    var cs := PileAndRuns(bs, s, lo, hi);
    var k :| 0 <= k < |cs| && Fits(cs[k], req);
    if k > 0 {
      assert Fits(Ascending(bs[s..])[k - 1], req);
      AscendingReaches(bs, s, req);
    }
  }

  lemma SettledReaches(bs: Blocks, req: nat)
    requires AnyFits(Settled(bs), req)
    ensures Reaches(bs, req)
  {
    if bs != [] {
      assert bs[0..] == bs;
      var e, b := RunAt(bs, 0);
      if b.magic == Free {
        HeadRun(bs, e);
        assert PileAndRuns(bs, e + 1, b.addr, b.End()) == Ascending(bs);
        CollapseReaches(bs, e + 1, b.addr, b.End(), req);
      } else {
        AscendingReaches(bs, 0, req);
      }
    }
  }

  // ----- and such blocks make a settled block that fits -----

  /** The list with blocks `i` to `j` as one. */
  function Joined(bs: Blocks, i: nat, j: nat): Blocks
    requires i <= j < |bs| && bs[i].addr <= bs[j].End()
  {
    bs[..i] + [Block(bs[i].addr, bs[j].End() - bs[i].addr, Free)] + bs[j + 1..]
  }

  lemma JoinOneMore(bs: Blocks, i: nat, j: nat)
    requires i < j < |bs| && bs[i].addr <= bs[j - 1].End() == bs[j].addr && bs[j].magic == Free
    ensures Mergeable(Joined(bs, i, j - 1), i) && MergeAt(Joined(bs, i, j - 1), i) == Joined(bs, i, j)
  {
    var cs := Joined(bs, i, j - 1);
    assert cs[i + 1] == bs[j] && cs[..i] == bs[..i] && cs[i + 2..] == bs[j + 1..];
  }

  lemma JoinOfOne(bs: Blocks, i: nat)
    requires i < |bs| && bs[i].magic == Free
    ensures Joined(bs, i, i) == bs
  {
    assert bs == bs[..i] + [bs[i]] + bs[i + 1..];
  }

  lemma MergeKeepsBoth(bs: Blocks, i: nat, h: Area)
    requires Inv(bs, h) && Mergeable(bs, i)
    ensures Inv(MergeAt(bs, i), h) && Settled(MergeAt(bs, i)) == Settled(bs)
  {
    MergeKeepsAscending(bs, i);
    MergeKeepsInv(bs, i, h);
  }

  lemma {:induction false} JoinKeepsSettled(bs: Blocks, i: nat, j: nat, h: Area)
    requires Inv(bs, h) && Follow(bs, i, j)
    ensures bs[i].addr <= bs[j].End() && Inv(Joined(bs, i, j), h) && Settled(Joined(bs, i, j)) == Settled(bs)
    decreases j
  {
    if i == j {
      JoinOfOne(bs, i);
    } else {
      assert Mergeable(bs, j - 1);
      JoinKeepsSettled(bs, i, j - 1, h);
      JoinOneMore(bs, i, j);
      MergeKeepsBoth(Joined(bs, i, j - 1), i, h);
    }
  }

  /** The list with the first `m` blocks as the bytes from `lo` to `hi`. */
  function Piled(bs: Blocks, m: nat, lo: nat, hi: nat): Blocks
    requires m <= |bs| && lo <= hi
  {
    [Block(lo, hi - lo, Free)] + bs[m..]
  }

  lemma PileFromTop(bs: Blocks, m: nat, lo: nat, h: Area)
    requires 0 < m <= |bs| && bs[m - 1].magic == Free && lo <= bs[m - 1].addr
    requires Inv(Piled(bs, m - 1, lo, bs[m - 1].addr), h)
    ensures Inv(Piled(bs, m, lo, bs[m - 1].End()), h)
    ensures Settled(Piled(bs, m, lo, bs[m - 1].End())) == Settled(Piled(bs, m - 1, lo, bs[m - 1].addr))
  {
    var cs := Piled(bs, m - 1, lo, bs[m - 1].addr);
    assert cs[1] == bs[m - 1] && Mergeable(cs, 0);
    assert MergeAt(cs, 0) == Piled(bs, m, lo, bs[m - 1].End());
    MergeKeepsBoth(cs, 0, h);
  }

  lemma PileFromBelow(bs: Blocks, i: nat, m: nat, hi: nat, h: Area)
    requires 0 < i < m <= |bs| && Follow(bs, i, m - 1) && bs[m - 1].End() <= hi
    requires Inv(Piled(bs, i, bs[m - 1].End(), hi), h)
    ensures bs[i].addr <= hi && Inv(Piled(bs, m, bs[i].addr, hi), h)
    ensures Settled(Piled(bs, m, bs[i].addr, hi)) == Settled(Piled(bs, i, bs[m - 1].End(), hi))
  {
    var cs := Piled(bs, i, bs[m - 1].End(), hi);
    RunUnderPile(bs, i, m, hi);
    JoinKeepsSettled(cs, 1, m - i, h);
    JoinUnderPile(bs, i, m, hi);
    var ds := Joined(cs, 1, m - i);
    TiledHead(ds, h);
    MergeHeadKeepsSettled(ds);
    MergeHeadKeepsInv(ds, h);
  }

  lemma RunUnderPile(bs: Blocks, i: nat, m: nat, hi: nat)
    requires 0 < i < m <= |bs| && Follow(bs, i, m - 1) && bs[m - 1].End() <= hi
    ensures Follow(Piled(bs, i, bs[m - 1].End(), hi), 1, m - i)
  {
    var cs := Piled(bs, i, bs[m - 1].End(), hi);
    assert forall k :: 1 <= k < |cs| ==> cs[k] == bs[k + i - 1];
    forall k: nat | 1 <= k < m - i ensures Mergeable(cs, k) { assert Mergeable(bs, k + i - 1); }
  }

  lemma JoinUnderPile(bs: Blocks, i: nat, m: nat, hi: nat)
    requires 0 < i < m <= |bs| && bs[i].addr <= bs[m - 1].End() <= hi
    ensures var cs := Piled(bs, i, bs[m - 1].End(), hi);
      && cs[1].addr <= cs[m - i].End()
      && HeadMergeable(Joined(cs, 1, m - i))
      && MergeHead(Joined(cs, 1, m - i)) == Piled(bs, m, bs[i].addr, hi)
  {
    var cs := Piled(bs, i, bs[m - 1].End(), hi);
    assert cs[1] == bs[i] && cs[m - i] == bs[m - 1] && cs[m - i + 1..] == bs[m..];
    var run := Block(bs[i].addr, bs[m - 1].End() - bs[i].addr, Free);
    assert Joined(cs, 1, m - i) == [cs[0], run] + bs[m..];
    MergeFront(cs[0], run, bs[m..]);
  }

  lemma {:induction false} PileKeepsSettled(bs: Blocks, m: nat, lo: nat, hi: nat, h: Area)
    requires Inv(bs, h) && Piles(bs, m, lo, hi)
    ensures lo <= hi && Inv(Piled(bs, m, lo, hi), h) && Settled(Piled(bs, m, lo, hi)) == Settled(bs)
    decreases m
  {
    if m == 1 {
      assert Piled(bs, m, lo, hi) == bs;
    } else if hi == bs[m - 1].End() && Piles(bs, m - 1, lo, bs[m - 1].addr) {
      PileKeepsSettled(bs, m - 1, lo, bs[m - 1].addr, h);
      PileFromTop(bs, m, lo, h);
    } else {
      var i :| 0 < i < m && Follow(bs, i, m - 1) && lo == bs[i].addr && Piles(bs, i, bs[m - 1].End(), hi);
      PileKeepsSettled(bs, i, bs[m - 1].End(), hi, h);
      PileFromBelow(bs, i, m, hi, h);
    }
  }

  lemma ReachesSettled(bs: Blocks, req: nat, h: Area)
    requires Inv(bs, h) && Reaches(bs, req)
    ensures AnyFits(Settled(bs), req)
  {
    var cs := bs;
    if i: nat, j: nat :| Follow(bs, i, j) && bs[i].addr + req <= bs[j].End() {
      JoinKeepsSettled(bs, i, j, h);
      cs := Joined(bs, i, j);
      assert Fits(cs[i], req);
    } else {
      var m: nat, lo: nat, hi: nat :| Piles(bs, m, lo, hi) && lo + req <= hi;
      PileKeepsSettled(bs, m, lo, hi, h);
      cs := Piled(bs, m, lo, hi);
      assert Fits(cs[0], req);
    }
    AscendingKeepsFits(cs, req);
    CollapseKeepsFits(Ascending(cs), req);
  }

  /** An allocation succeeds if and only if the list it is given reaches. */
  lemma FoundExactly(bs: Blocks, req: nat, h: Area)
    requires Inv(bs, h)
    ensures Search(bs, req).Found? <==> Reaches(bs, req)
  {
    SearchSettles(bs, req, h);
    if AnyFits(Settled(bs), req) { SettledReaches(bs, req); }
    if Reaches(bs, req) { ReachesSettled(bs, req, h); }
  }
}
