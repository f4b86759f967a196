/**
 * Whether an allocation that fails could have been served: the heap only merges blocks that are
 * neighbours in its list, which is not in address order.
 */
module HeapRoom {
  import opened HeapSpec
  import opened HeapSettled

  /** Address `a` is in a free block. */
  ghost predicate FreeAt(bs: Blocks, a: int) { exists i :: 0 <= i < |bs| && bs[i].magic == Free && bs[i].Has(a) }

  /** Some `req` bytes in a row are free. */
  ghost predicate Room(bs: Blocks, req: nat) { exists a: nat :: RoomAt(bs, a, req) }

  ghost predicate RoomAt(bs: Blocks, a: nat, req: nat) { forall x :: a <= x < a + req ==> FreeAt(bs, x) }

  // ----- searching keeps what is free free -----

  lemma MergeKeepsFreeAt(bs: Blocks, i: nat, a: int)
    requires Mergeable(bs, i)
    ensures FreeAt(MergeAt(bs, i), a) <==> FreeAt(bs, a)
  {
    var cs := MergeAt(bs, i);
    assert forall k :: 0 <= k < |cs| && k != i ==> cs[k] == bs[if k < i then k else k + 1];
    if k :| 0 <= k < |bs| && bs[k].magic == Free && bs[k].Has(a) {
      assert cs[if k <= i then k else k - 1].Has(a);
    }
    if k :| 0 <= k < |cs| && cs[k].magic == Free && cs[k].Has(a) {
      assert bs[i].Has(a) || bs[i + 1].Has(a) || bs[if k < i then k else k + 1].Has(a);
    }
  }

  lemma MergeHeadKeepsFreeAt(bs: Blocks, a: int)
    requires HeadMergeable(bs)
    ensures FreeAt(MergeHead(bs), a) <==> FreeAt(bs, a)
  {
    var cs := MergeHead(bs);
    assert forall k :: 0 < k < |cs| ==> cs[k] == bs[k + 1];
    if k :| 0 <= k < |bs| && bs[k].magic == Free && bs[k].Has(a) {
      assert cs[if k <= 1 then 0 else k - 1].Has(a);
    }
    if k :| 0 <= k < |cs| && cs[k].magic == Free && cs[k].Has(a) {
      assert bs[0].Has(a) || bs[k + 1].Has(a);
    }
  }

  lemma {:induction false} PassKeepsFreeAt(bs: Blocks, i: nat, largest: nat, a: int)
    ensures FreeAt(PassFrom(bs, i, largest).blocks, a) <==> FreeAt(bs, a)
    decreases |bs| - i
  {
    if i + 1 < |bs| {
      if Mergeable(bs, i) {
        MergeKeepsFreeAt(bs, i, a);
        PassKeepsFreeAt(MergeAt(bs, i), i + 1, Max(largest, bs[i].size + bs[i + 1].size), a);
      } else {
        PassKeepsFreeAt(bs, i + 1, largest, a);
      }
    }
  }

  lemma ConsolidateKeepsFreeAt(bs: Blocks, a: int)
    ensures FreeAt(Consolidate(bs).blocks, a) <==> FreeAt(bs, a)
  {
    PassKeepsFreeAt(bs, 0, 0, a);
    var p := PassFrom(bs, 0, 0);
    if HeadMergeable(p.blocks) { MergeHeadKeepsFreeAt(p.blocks, a); }
  }

  /** A failed search leaves the same bytes free; a successful one has taken bytes that were. */
  lemma {:induction false} SearchAndRoom(bs: Blocks, req: nat)
    ensures var r := Search(bs, req);
      && (r.NotFound? ==> forall a :: FreeAt(r.blocks, a) <==> FreeAt(bs, a))
      && (r.Found? ==> RoomAt(bs, r.block.addr, req))
    decreases |bs|
  {
    var i := FirstFit(bs, req, 0);
    if i < |bs| {
      var r := Search(bs, req);
      forall x | r.block.addr <= x < r.block.addr + req ensures FreeAt(bs, x) { assert bs[i].Has(x); }
    } else {
      var c := Consolidate(bs);
      forall a ensures FreeAt(c.blocks, a) <==> FreeAt(bs, a) { ConsolidateKeepsFreeAt(bs, a); }
      if c.largest >= HEAP_BLOCK_SIZE {
        ReportMeansShorter(bs);
        SearchAndRoom(c.blocks, req);
        assert Search(bs, req) == Search(c.blocks, req);
        var r := Search(c.blocks, req);
        assert r.Found? ==> RoomAt(bs, r.block.addr, req);
      }
    }
  }

  // ----- room is what free blocks adjacent in memory add up to -----

  /** Free blocks, each starting where the one before ends, add up to `req` bytes or more from `a` on. */
  ghost predicate AddUp(bs: Blocks, a: nat, req: nat)
    decreases req
  {
    req == 0 ||
    exists i :: 0 <= i < |bs| && bs[i].magic == Free && bs[i].addr == a && 0 < bs[i].size
      && AddUp(bs, bs[i].End(), if bs[i].size < req then req - bs[i].size else 0)
  }

  lemma {:induction false} AddingUpIsRoom(bs: Blocks, a: nat, req: nat)
    requires AddUp(bs, a, req)
    ensures RoomAt(bs, a, req)
    decreases req
  {
    if req > 0 {
      var i :| 0 <= i < |bs| && bs[i].magic == Free && bs[i].addr == a && 0 < bs[i].size
        && AddUp(bs, bs[i].End(), if bs[i].size < req then req - bs[i].size else 0);
      AddingUpIsRoom(bs, bs[i].End(), if bs[i].size < req then req - bs[i].size else 0);
      forall x | a <= x < a + req ensures FreeAt(bs, x) {
        if x < bs[i].End() { assert bs[i].Has(x); }
      }
    }
  }

  lemma {:induction false} RoomAddsUp(bs: Blocks, h: Area, i: nat, req: nat)
    requires Inv(bs, h) && i < |bs| && bs[i].magic == Free && RoomAt(bs, bs[i].addr, req)
    ensures AddUp(bs, bs[i].addr, req)
    decreases req
  {
    if bs[i].size < req {
      var a := bs[i].End();
      assert FreeAt(bs, a);
      var j :| 0 <= j < |bs| && bs[j].magic == Free && bs[j].Has(a);
      assert Apart(bs[i], bs[j]);
      RoomAddsUp(bs, h, j, req - bs[i].size);
    } else {
      assert AddUp(bs, bs[i].End(), 0);
    }
  }

  lemma {:induction false} AddUpLess(bs: Blocks, a: nat, req: nat, less: nat)
    requires AddUp(bs, a, req) && less <= req
    ensures AddUp(bs, a, less)
    decreases req
  {
    if less > 0 {
      var i :| 0 <= i < |bs| && bs[i].magic == Free && bs[i].addr == a && 0 < bs[i].size
        && AddUp(bs, bs[i].End(), if bs[i].size < req then req - bs[i].size else 0);
      var rest := if bs[i].size < less then less - bs[i].size else 0;
      AddUpLess(bs, bs[i].End(), if bs[i].size < req then req - bs[i].size else 0, rest);
    }
  }

  lemma RoomExactly(bs: Blocks, h: Area, req: nat)
    requires Inv(bs, h) && 0 < req
    ensures Room(bs, req) <==> exists i :: 0 <= i < |bs| && AddUp(bs, bs[i].addr, req)
  {
    if Room(bs, req) {
      var a: nat :| RoomAt(bs, a, req);
      assert FreeAt(bs, a);
      var i :| 0 <= i < |bs| && bs[i].magic == Free && bs[i].Has(a);
      var more := a - bs[i].addr + req;
      forall x | bs[i].addr <= x < bs[i].addr + more ensures FreeAt(bs, x) {
        assert x < a ==> bs[i].Has(x);
      }
      RoomAddsUp(bs, h, i, more);
      AddUpLess(bs, bs[i].addr, more, req);
    }
    if i :| 0 <= i < |bs| && AddUp(bs, bs[i].addr, req) {
      AddingUpIsRoom(bs, bs[i].addr, req);
    }
  }

  /**
   * An allocation fails although there is room if and only if, in the list it is given, free blocks
   * adjacent in memory add up to what it needs, but neither do blocks that follow each other in the
   * list, nor a pile at its front. One that succeeds had room.
   */
  lemma FailureMissesExactly(bs: Blocks, req: nat, h: Area)
    requires Inv(bs, h) && 0 < req
    ensures Search(bs, req).NotFound? && Room(bs, req) <==>
      (exists i :: 0 <= i < |bs| && AddUp(bs, bs[i].addr, req)) && !Reaches(bs, req)
    ensures Search(bs, req).Found? ==> Room(bs, req)
  {
    FoundExactly(bs, req, h);
    RoomExactly(bs, h, req);
    SearchAndRoom(bs, req);
  }

  /**
   * Failure does not mean that there is no room: after two carves and a free, 896 bytes from the base
   * of a 1024-byte heap are free, in two blocks that are not neighbours in the list, and an allocation
   * of just that many fails.
   */
  lemma RoomIsMissed()
    ensures var steps := [CarveStep(0, 128), CarveStep(1, 128), FreeStep(0)];
      && Runs(Initial(Area(0, 1024, 24)), steps)
      && var bs := Run(Initial(Area(0, 1024, 24)), steps);
         && (forall a :: 0 <= a < 896 ==> FreeAt(bs, a))
         && Search(bs, 896).NotFound?
  {
    var s0 := Initial(Area(0, 1024, 24));
    var s1, s2 := Apply(s0, CarveStep(0, 128)), Apply(Apply(s0, CarveStep(0, 128)), CarveStep(1, 128));
    var bs := Apply(s2, FreeStep(0));
    assert s1 == [Block(896, 128, InUse), Block(0, 896, Free)];
    assert s2 == [Block(768, 128, InUse), Block(896, 128, InUse), Block(0, 768, Free)];
    assert bs == [Block(768, 128, Free), Block(896, 128, InUse), Block(0, 768, Free)];
    var steps := [CarveStep(0, 128), CarveStep(1, 128), FreeStep(0)];
    assert steps[1..] == [CarveStep(1, 128), FreeStep(0)] && steps[1..][1..] == [FreeStep(0)];
    assert [FreeStep(0)][1..] == [];
    assert Runs(s2, [FreeStep(0)]) && Run(s2, [FreeStep(0)]) == bs;
    assert Runs(s1, [CarveStep(1, 128), FreeStep(0)]) && Run(s1, [CarveStep(1, 128), FreeStep(0)]) == bs;
    assert Runs(s0, steps) && Run(s0, steps) == bs;
    forall a | 0 <= a < 896 ensures FreeAt(bs, a) {
      assert bs[if a < 768 then 2 else 0].Has(a);
    }
    NothingGained(bs);
  }

  lemma NothingGained(bs: Blocks)
    requires bs == [Block(768, 128, Free), Block(896, 128, InUse), Block(0, 768, Free)]
    ensures Search(bs, 896) == NotFound(bs)
  {
    assert PassFrom(bs, 2, 0) == Pass(bs, 0);
    assert PassFrom(bs, 1, 0) == Pass(bs, 0);
    assert PassFrom(bs, 0, 0) == Pass(bs, 0);
  }
}
