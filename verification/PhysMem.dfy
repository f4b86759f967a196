/**
 * Physical RAM regions: the sorted list of free regions, first-fit allocation from the bottom of a
 * region, insertion with its partial collision test, and coalescing.
 */
module PhysMem {
  import opened Base

  /** Allocations are rounded up to whole multiples of 64 MB. */
  const PHYS_RAM_REGION_MIN_SIZE: nat := 64 * 1024 * 1024

  datatype Region = Region(base: nat, size: nat) {
    function End(): nat { base + size }
    predicate Has(a: int) { base <= a < base + size }

    /** Cut at the `count` byte mark. */
    function Split(count: nat): (r: Result<(Region, Region)>)
      ensures r.Ok? <==> count <= size
      ensures r.Ok? ==> r.value.0.size == count && forall a :: (r.value.0.Has(a) || r.value.1.Has(a)) <==> Has(a)
      ensures r.Ok? ==> forall a, b :: r.value.0.Has(a) && r.value.1.Has(b) ==> a < b
      ensures r.Err? ==> r.cause == PhysRegionSplitOutOfBounds
    {
      if count > size then Err(PhysRegionSplitOutOfBounds)
      else Ok((Region(base, count), Region(base + count, size - count)))
    }
  }

  type Regions = seq<Region>

  // ----- what a free list is -----

  /** No address belongs to both. */
  predicate Apart(r: Region, s: Region) {
    r.size == 0 || s.size == 0 || r.End() <= s.base || s.End() <= r.base
  }

  ghost predicate AllApart(rs: Regions) {
    forall i, j :: 0 <= i < j < |rs| ==> Apart(rs[i], rs[j])
  }

  ghost predicate Covered(rs: Regions, a: int) { exists i :: 0 <= i < |rs| && rs[i].Has(a) }

  /** `r` shares no address with any region of `rs`. */
  ghost predicate Clear(rs: Regions, r: Region) { forall i :: 0 <= i < |rs| ==> Apart(rs[i], r) }

  /** Sorted by base address, disjoint, without empty entries. */
  predicate FreeList(rs: Regions) {
    && (forall i :: 0 <= i < |rs| ==> 0 < rs[i].size)
    && (forall i, j :: 0 <= i < j < |rs| ==> rs[i].End() <= rs[j].base)
  }

  /** A free list in which neighbours do not touch. */
  predicate Canonical(rs: Regions) {
    FreeList(rs) && forall i, j :: 0 <= i < j < |rs| ==> rs[i].End() < rs[j].base
  }

  /** The same memory is free in both. */
  ghost predicate SameCover(rs: Regions, ss: Regions) { forall a :: Covered(rs, a) <==> Covered(ss, a) }

  // ----- find -----

  function FirstFit(rs: Regions, size: nat, k: nat): (i: nat)
    requires k <= |rs|
    ensures k <= i <= |rs| && (i < |rs| ==> size <= rs[i].size) && forall j :: k <= j < i ==> rs[j].size < size
    decreases |rs| - k
  {
    if k == |rs| || rs[k].size >= size then k else FirstFit(rs, size, k + 1)
  }

  // ----- insert -----

  function With(rs: Regions, i: nat, r: Region): (s: Regions)
    requires i <= |rs|
    ensures |s| == |rs| + 1
    ensures forall k :: 0 <= k < |s| ==> s[k] == if k < i then rs[k] else if k == i then r else rs[k - 1]
  {
    rs[..i] + [r] + rs[i..]
  }

  /** Where a region goes: before the first entry at or above its end, unless its base is inside an earlier one. */
  function Slot(rs: Regions, r: Region, k: nat): (s: Option<nat>)
    requires k <= |rs|
    ensures s.Some? ==> k <= s.value <= |rs|
    decreases |rs| - k
  {
    if k == |rs| then Some(k)
    else if r.End() <= rs[k].base then Some(k)
    else if rs[k].Has(r.base) then None
    else Slot(rs, r, k + 1)
  }

  function Insert(rs: Regions, r: Region): Result<Regions> {
    if r.size == 0 then Ok(rs)
    else
      match Slot(rs, r, 0)
      case Some(i) => Ok(With(rs, i, r))
      case None => Err(PhysRegionCollision)
  }

  /** In a free list the scan stops at the first entry not wholly below the region's base. */
  lemma {:induction false} SlotOutcome(rs: Regions, r: Region, k: nat)
    requires FreeList(rs) && 0 < r.size && k <= |rs|
    requires forall j :: 0 <= j < k ==> rs[j].End() <= r.base || rs[j].base < r.End()
    requires forall j :: 0 <= j < k ==> !rs[j].Has(r.base)
    ensures var s := Slot(rs, r, k);
      && (s.None? <==> exists j :: 0 <= j < |rs| && rs[j].Has(r.base))
      && (s.Some? ==> forall j :: s.value <= j < |rs| ==> r.End() <= rs[j].base)
      && (s.Some? ==> forall j :: 0 <= j < s.value ==> rs[j].base < r.End())
    decreases |rs| - k
  {
    if k < |rs| && r.End() > rs[k].base && !rs[k].Has(r.base) {
      SlotOutcome(rs, r, k + 1);
    }
  }

  /** Putting a region between what lies below it and what lies above it. */
  lemma WithSorted(rs: Regions, i: nat, r: Region)
    requires FreeList(rs) && 0 < r.size && i <= |rs|
    requires forall j :: 0 <= j < i ==> rs[j].End() <= r.base
    requires forall j :: i <= j < |rs| ==> r.End() <= rs[j].base
    ensures FreeList(With(rs, i, r))
  {
  }

  /** A region clear of every free region is accepted and the list stays a free list. */
  lemma InsertClear(rs: Regions, r: Region)
    requires FreeList(rs) && Clear(rs, r)
    ensures var s := Insert(rs, r);
      s.Ok? && FreeList(s.value) && forall a :: Covered(s.value, a) <==> Covered(rs, a) || r.Has(a)
  {
    if r.size > 0 {
      SlotOutcome(rs, r, 0);
      forall j | 0 <= j < |rs| ensures !rs[j].Has(r.base) && (rs[j].base < r.End() ==> rs[j].End() <= r.base) {
        assert Apart(rs[j], r);
      }
      var i := Slot(rs, r, 0).value;
      WithSorted(rs, i, r);
      forall a ensures Covered(With(rs, i, r), a) <==> Covered(rs, a) || r.Has(a) { WithCovers(rs, i, r, a); }
    }
  }

  lemma WithCovers(rs: Regions, i: nat, r: Region, a: int)
    requires i <= |rs|
    ensures Covered(With(rs, i, r), a) <==> Covered(rs, a) || r.Has(a)
  {
    var s := With(rs, i, r);
    if r.Has(a) { assert s[i].Has(a); }
    if Covered(rs, a) {
      var k :| 0 <= k < |rs| && rs[k].Has(a);
      assert s[if k < i then k else k + 1].Has(a);
    }
    if Covered(s, a) {
      var k :| 0 <= k < |s| && s[k].Has(a);
      if k != i { assert rs[if k < i then k else k - 1].Has(a); }
    }
  }

  /**
   * The collision test catches only a base lying inside a free region. Exactly when the new region
   * is clear of every free region is it accepted into a list that is still a free list.
   */
  lemma InsertExact(rs: Regions, r: Region)
    requires FreeList(rs)
    ensures (Insert(rs, r).Ok? && FreeList(Insert(rs, r).value)) <==> Clear(rs, r)
    ensures Insert(rs, r).Err? <==> r.size > 0 && Covered(rs, r.base)
  {
    if r.size > 0 { SlotOutcome(rs, r, 0); }
    if Clear(rs, r) { InsertClear(rs, r); }
    if r.size > 0 && Insert(rs, r).Ok? && FreeList(Insert(rs, r).value) {
      var i := Slot(rs, r, 0).value;
      var s := With(rs, i, r);
      forall j | 0 <= j < |rs| ensures Apart(rs[j], r) {
        assert s[i] == r && s[if j < i then j else j + 1] == rs[j];
      }
    }
  }

  /** A region that starts below a free region and runs into it is accepted, and corrupts the list. */
  lemma InsertAcceptsOverlap()
    ensures var rs := [Region(100, 50)];
      var s := Insert(rs, Region(80, 40));
      FreeList(rs) && s.Ok? && !FreeList(s.value)
  {
    var rs := [Region(100, 50)];
    var s := With(rs, 1, Region(80, 40));
    assert Slot(rs, Region(80, 40), 0) == Slot(rs, Region(80, 40), 1) == Some(1);
    assert s[0] == Region(100, 50) && s[1] == Region(80, 40);
  }

  // ----- merge -----

  /** Entry `c` takes over the size of entry `c + 1`, which is removed. */
  function Absorb(rs: Regions, c: nat): (s: Regions)
    requires c + 1 < |rs|
    ensures |s| == |rs| - 1
    ensures forall k :: 0 <= k < |s| ==>
      s[k] == if k < c then rs[k] else if k == c then Region(rs[c].base, rs[c].size + rs[c + 1].size) else rs[k + 1]
  {
    Without(rs[c := Region(rs[c].base, rs[c].size + rs[c + 1].size)], c + 1)
  }

  function MergeFrom(rs: Regions, c: nat): Regions
    decreases |rs| - c
  {
    if c + 1 >= |rs| then rs
    else if rs[c].End() == rs[c + 1].base then MergeFrom(Absorb(rs, c), c)
    else MergeFrom(rs, c + 1)
  }

  function Merge(rs: Regions): Regions { MergeFrom(rs, 0) }

  lemma AbsorbCovers(rs: Regions, c: nat, a: int)
    requires c + 1 < |rs| && rs[c].End() == rs[c + 1].base
    ensures Covered(Absorb(rs, c), a) <==> Covered(rs, a)
  {
    var s := Absorb(rs, c);
    if Covered(rs, a) {
      var k :| 0 <= k < |rs| && rs[k].Has(a);
      assert s[if k <= c then k else k - 1].Has(a);
    }
    if Covered(s, a) {
      var k :| 0 <= k < |s| && s[k].Has(a);
      assert rs[if k < c then k else if k == c && rs[c].Has(a) then c else k + 1].Has(a);
    }
  }

  /** Neighbours up to entry `c` do not touch. */
  predicate GapsTo(rs: Regions, c: nat) {
    forall i, j :: 0 <= i < j <= c && j < |rs| ==> rs[i].End() < rs[j].base
  }

  lemma AbsorbSorted(rs: Regions, c: nat)
    requires FreeList(rs) && GapsTo(rs, c) && c + 1 < |rs| && rs[c].End() == rs[c + 1].base
    ensures FreeList(Absorb(rs, c)) && GapsTo(Absorb(rs, c), c)
  {
    var s := Absorb(rs, c);
    forall i | 0 <= i < |s|
      ensures 0 < s[i].size && s[i].base == rs[Kept(c, i)].base && s[i].End() == rs[if i == c then c + 1 else Kept(c, i)].End()
    {
      assert 0 < rs[Kept(c, i)].size;
    }
    forall i, j | 0 <= i < j < |s| ensures s[i].End() <= s[j].base && (j <= c ==> s[i].End() < s[j].base) {
      assert rs[if i == c then c + 1 else Kept(c, i)].End() <= rs[Kept(c, j)].base;
    }
  }

  /** Where the entry at `i` was before entry `c` absorbed its successor. */
  function Kept(c: nat, i: nat): nat { if i <= c then i else i + 1 }

  lemma NextGap(rs: Regions, c: nat)
    requires FreeList(rs) && GapsTo(rs, c) && c + 1 < |rs| && rs[c].End() != rs[c + 1].base
    ensures GapsTo(rs, c + 1)
  {
    forall i, j | 0 <= i < j <= c + 1 ensures rs[i].End() < rs[j].base {
      if j == c + 1 && i < c { assert rs[i].End() <= rs[c].base; }
    }
  }

  lemma {:induction false} MergeFromOutcome(rs: Regions, c: nat)
    requires FreeList(rs) && c <= |rs| && GapsTo(rs, c)
    ensures Canonical(MergeFrom(rs, c)) && SameCover(MergeFrom(rs, c), rs)
    decreases |rs| - c
  {
    if c + 1 < |rs| {
      if rs[c].End() == rs[c + 1].base {
        forall a ensures Covered(Absorb(rs, c), a) <==> Covered(rs, a) { AbsorbCovers(rs, c, a); }
        AbsorbSorted(rs, c);
        MergeFromOutcome(Absorb(rs, c), c);
      } else {
        NextGap(rs, c);
        MergeFromOutcome(rs, c + 1);
      }
    }
  }

  lemma MergeOutcome(rs: Regions)
    requires FreeList(rs)
    ensures Canonical(Merge(rs)) && SameCover(Merge(rs), rs)
  {
    MergeFromOutcome(rs, 0);
  }

  /** In a canonical list the address just below an entry is not free. */
  lemma CanonicalEdges(rs: Regions, i: nat)
    requires Canonical(rs) && i < |rs|
    ensures !Covered(rs, rs[i].base - 1) && !Covered(rs, rs[i].End()) && Covered(rs, rs[i].base)
  {
    assert rs[i].Has(rs[i].base);
  }

  /** An entry of one canonical list is an entry of any other that covers the same memory. */
  lemma CanonicalEntry(rs: Regions, ss: Regions, i: nat) returns (j: nat)
    requires Canonical(rs) && Canonical(ss) && SameCover(rs, ss) && i < |rs|
    ensures j < |ss| && ss[j] == rs[i]
  {
    CanonicalEdges(rs, i);
    assert Covered(ss, rs[i].base);
    j :| 0 <= j < |ss| && ss[j].Has(rs[i].base);
    CanonicalEdges(ss, j);
    assert !ss[j].Has(rs[i].base - 1) && !ss[j].Has(rs[i].End()) && !rs[i].Has(ss[j].End());
  }

  lemma {:induction false} CanonicalAgree(rs: Regions, ss: Regions, k: nat)
    requires Canonical(rs) && Canonical(ss) && SameCover(rs, ss) && k <= |rs|
    ensures k <= |ss| && forall m :: 0 <= m < k ==> rs[m] == ss[m]
    decreases k
  {
    if k > 0 {
      var n := k - 1;
      CanonicalAgree(rs, ss, n);
      var j := CanonicalEntry(rs, ss, n);
      assert j >= n;
      var i := CanonicalEntry(ss, rs, n);
      assert i >= n;
      assert rs[n].base <= rs[i].base && ss[n].base <= ss[j].base;
    }
  }

  /** A canonical list is determined by the memory it covers. */
  lemma CanonicalUnique(rs: Regions, ss: Regions)
    requires Canonical(rs) && Canonical(ss) && SameCover(rs, ss)
    ensures rs == ss
  {
    CanonicalAgree(rs, ss, |rs|);
    CanonicalAgree(ss, rs, |ss|);
  }

  /** Coalescing computes a canonical form: free lists covering the same memory coalesce to one list. */
  lemma MergeCanonical(rs: Regions, ss: Regions)
    requires FreeList(rs) && FreeList(ss)
    ensures SameCover(rs, ss) <==> Merge(rs) == Merge(ss)
  {
    MergeOutcome(rs);
    MergeOutcome(ss);
    if SameCover(rs, ss) { CanonicalUnique(Merge(rs), Merge(ss)); }
  }

  // ----- what an insertion adds -----

  /** An accepted region, unless it is empty, becomes one more entry, and every other entry stays as it is. */
  lemma InsertAdds(rs: Regions, r: Region)
    ensures match Insert(rs, r)
      case Ok(s) => multiset(s) == multiset(rs) + (if r.size == 0 then multiset{} else multiset{r})
      case Err(cause) => cause == PhysRegionCollision
  {
    if r.size > 0 && Slot(rs, r, 0).Some? {
      var i := Slot(rs, r, 0).value;
      assert rs == rs[..i] + rs[i..];
    }
  }

  // ----- allocation -----

  function RoundUp(size: nat): (r: nat)
    ensures r % PHYS_RAM_REGION_MIN_SIZE == 0 && size <= r < size + PHYS_RAM_REGION_MIN_SIZE
  {
    var rem := size % PHYS_RAM_REGION_MIN_SIZE;
    if rem == 0 then size else size - rem + PHYS_RAM_REGION_MIN_SIZE
  }

  /** The region handed out, or the error, and the free list afterwards. */
  datatype Allocation = Allocation(result: Result<Region>, free: Regions)

  function Alloc(rs: Regions, size: nat): Allocation { TakeFrom(rs, RoundUp(size)) }

  /** Find a region, split it, and put the upper part back, the result of which is discarded. */
  function TakeFrom(rs: Regions, need: nat): Allocation {
    var i := FirstFit(rs, need, 0);
    if i == |rs| then Allocation(Err(PhysNotEnoughFreeRAM), rs)
    else
      var cut := rs[i].Split(need).value;
      var back := Insert(Without(rs, i), cut.1);
      Allocation(Ok(cut.0), if back.Ok? then back.value else Without(rs, i))
  }

  lemma WithoutCovers(rs: Regions, i: nat, a: int)
    requires i < |rs|
    ensures Covered(rs, a) <==> Covered(Without(rs, i), a) || rs[i].Has(a)
  {
    var w := Without(rs, i);
    if Covered(rs, a) && !rs[i].Has(a) {
      var k :| 0 <= k < |rs| && rs[k].Has(a);
      assert w[if k < i then k else k - 1].Has(a);
    }
    if Covered(w, a) {
      var k :| 0 <= k < |w| && w[k].Has(a);
      assert rs[if k < i then k else k + 1].Has(a);
    }
  }

  /** Sharing no address with anything covered is being clear of every entry. */
  lemma NotCoveredIsClear(rs: Regions, r: Region)
    requires forall a :: r.Has(a) ==> !Covered(rs, a)
    ensures Clear(rs, r)
  {
    forall i | 0 <= i < |rs| ensures Apart(rs[i], r) {
      var a := if rs[i].base < r.base then r.base else rs[i].base;
      assert rs[i].Has(a) ==> Covered(rs, a);
      assert r.Has(a) ==> !Covered(rs, a);
    }
  }

  /** Any part of an entry is clear of all the other entries. */
  lemma PartIsClear(rs: Regions, i: nat, r: Region)
    requires FreeList(rs) && i < |rs| && rs[i].base <= r.base && r.End() <= rs[i].End()
    ensures FreeList(Without(rs, i)) && Clear(Without(rs, i), r)
    ensures forall a :: r.Has(a) ==> !Covered(Without(rs, i), a)
  {
  }

  /**
   * A successful allocation hands out memory that was free, and the rest stays free; the result of
   * putting the upper part back, which the code discards, is never an error.
   */
  lemma AllocOutcome(rs: Regions, size: nat)
    requires FreeList(rs)
    ensures var m := Alloc(rs, size);
      && FreeList(m.free)
      && (m.result.Err? ==> m.free == rs && m.result.cause == PhysNotEnoughFreeRAM)
      && (m.result.Ok? ==>
            && m.result.value.size == RoundUp(size)
            && Clear(m.free, m.result.value)
            && forall a :: Covered(rs, a) <==> Covered(m.free, a) || m.result.value.Has(a))
  {
    var need := RoundUp(size);
    var i := FirstFit(rs, need, 0);
    if i < |rs| {
      var cut := rs[i].Split(need).value;
      var w := Without(rs, i);
      PartIsClear(rs, i, cut.0);
      PartIsClear(rs, i, cut.1);
      InsertClear(w, cut.1);
      var m := Insert(w, cut.1).value;
      forall a ensures Covered(rs, a) <==> Covered(m, a) || cut.0.Has(a) { WithoutCovers(rs, i, a); }
      NotCoveredIsClear(m, cut.0);
    }
  }

  /** The list with entry `i` cut down to what lies above its first `need` bytes, if anything does. */
  function CutFrom(rs: Regions, i: nat, need: nat): Regions
    requires i < |rs| && need <= rs[i].size
  {
    rs[..i] + (if need == rs[i].size then [] else [Region(rs[i].base + need, rs[i].size - need)]) + rs[i + 1..]
  }

  /** A region goes after the entries below it and before one above it. */
  lemma {:induction false} SlotAfter(rs: Regions, r: Region, k: nat, i: nat)
    requires k <= i <= |rs| && 0 < r.size
    requires forall j :: k <= j < i ==> rs[j].End() <= r.base
    requires i < |rs| ==> r.End() <= rs[i].base
    ensures Slot(rs, r, k) == Some(i)
    decreases i - k
  {
    if k < i { SlotAfter(rs, r, k + 1, i); }
  }

  lemma PutBack(rs: Regions, i: nat, r: Region)
    requires i < |rs|
    ensures With(Without(rs, i), i, r) == rs[..i] + [r] + rs[i + 1..]
  {
    assert Without(rs, i)[..i] == rs[..i] && Without(rs, i)[i..] == rs[i + 1..];
  }

  /** The upper part of an entry goes back to where the entry was. */
  lemma UpperPartReturns(rs: Regions, i: nat, need: nat)
    requires FreeList(rs) && i < |rs| && need <= rs[i].size
    ensures Insert(Without(rs, i), Region(rs[i].base + need, rs[i].size - need)) == Ok(CutFrom(rs, i, need))
  {
    var upper := Region(rs[i].base + need, rs[i].size - need);
    if upper.size > 0 {
      SlotAfter(Without(rs, i), upper, 0, i);
      PutBack(rs, i, upper);
    } else {
      assert CutFrom(rs, i, need) == Without(rs, i);
    }
  }

  /** Entry `i` is the lowest of those as large as this. */
  ghost predicate LowestFit(rs: Regions, need: nat, i: nat) {
    && i < |rs| && need <= rs[i].size
    && forall j :: 0 <= j < |rs| && need <= rs[j].size ==> rs[i].base <= rs[j].base
  }

  lemma TakeExactly(rs: Regions, need: nat)
    requires FreeList(rs)
    ensures var m := TakeFrom(rs, need);
      && (m.result.Ok? <==> exists i :: 0 <= i < |rs| && need <= rs[i].size)
      && (m.result.Err? ==> m == Allocation(Err(PhysNotEnoughFreeRAM), rs))
      && (m.result.Ok? ==> exists i: nat ::
            LowestFit(rs, need, i) && m == Allocation(Ok(Region(rs[i].base, need)), CutFrom(rs, i, need)))
  {
    var i := FirstFit(rs, need, 0);
    if i < |rs| {
      UpperPartReturns(rs, i, need);
      assert LowestFit(rs, need, i);
      assert TakeFrom(rs, need) == Allocation(Ok(Region(rs[i].base, need)), CutFrom(rs, i, need));
    }
  }

  /**
   * Allocation from any free list, coalesced or not: it succeeds if and only if some entry is as large
   * as the rounded-up size, it takes the bottom of the lowest such entry, and it leaves what lies above
   * that and every other entry as it was.
   */
  lemma AllocExactly(rs: Regions, size: nat)
    requires FreeList(rs)
    ensures var need, m := RoundUp(size), Alloc(rs, size);
      && (m.result.Ok? <==> exists i :: 0 <= i < |rs| && need <= rs[i].size)
      && (m.result.Err? ==> m == Allocation(Err(PhysNotEnoughFreeRAM), rs))
      && (m.result.Ok? ==> exists i: nat ::
            LowestFit(rs, need, i) && m == Allocation(Ok(Region(rs[i].base, need)), CutFrom(rs, i, need)))
  {
    TakeExactly(rs, RoundUp(size));
  }

  /** Handing a region out, taking it back and coalescing is the same as coalescing. */
  lemma AllocDeallocMerge(rs: Regions, size: nat)
    requires FreeList(rs) && Alloc(rs, size).result.Ok?
    ensures var m := Alloc(rs, size);
      var back := Insert(m.free, m.result.value);
      back.Ok? && Merge(back.value) == Merge(rs)
  {
    AllocOutcome(rs, size);
    var m := Alloc(rs, size);
    InsertClear(m.free, m.result.value);
    MergeCanonical(Insert(m.free, m.result.value).value, rs);
  }

  /** `size` consecutive addresses from `base` are all free. */
  ghost predicate FreeRun(rs: Regions, base: nat, size: nat) {
    forall a :: base <= a < base + size ==> Covered(rs, a)
  }

  /** In a canonical list a run of free addresses lies inside one entry. */
  lemma {:induction false} RunInOneEntry(rs: Regions, base: nat, size: nat) returns (i: nat)
    requires Canonical(rs) && 0 < size && FreeRun(rs, base, size)
    ensures i < |rs| && rs[i].base <= base && base + size <= rs[i].End()
    decreases size
  {
    if size == 1 {
      assert Covered(rs, base);
      i :| 0 <= i < |rs| && rs[i].Has(base);
    } else {
      i := RunInOneEntry(rs, base, size - 1);
      var last := base + size - 1;
      assert Covered(rs, last);
      CanonicalEdges(rs, i);
      assert rs[i].End() != last;
    }
  }

  /**
   * After coalescing, allocation succeeds exactly when free RAM holds a contiguous run of the
   * rounded-up size, and hands out that size at the lowest base of any entry large enough.
   */
  lemma AllocComplete(rs: Regions, size: nat)
    requires FreeList(rs) && 0 < size
    ensures var need := RoundUp(size);
      var m := Alloc(Merge(rs), size);
      && (m.result.Ok? <==> exists base: nat :: FreeRun(rs, base, need))
      && (m.result.Ok? ==>
            && m.result.value.size == need
            && (exists i :: 0 <= i < |Merge(rs)| && Merge(rs)[i].base == m.result.value.base)
            && forall i :: 0 <= i < |Merge(rs)| && need <= Merge(rs)[i].size ==>
                 m.result.value.base <= Merge(rs)[i].base)
  {
    var need := RoundUp(size);
    MergeOutcome(rs);
    var ms := Merge(rs);
    var i := FirstFit(ms, need, 0);
    if i < |ms| {
      forall a | ms[i].base <= a < ms[i].base + need ensures Covered(rs, a) {
        assert ms[i].Has(a);
        assert Covered(ms, a);
      }
      assert FreeRun(rs, ms[i].base, need);
    } else if base: nat :| FreeRun(rs, base, need) {
      assert FreeRun(ms, base, need);
      var k := RunInOneEntry(ms, base, need);
    }
  }

  // ----- discarded results, and registration at boot -----

  /** `insert` with its result discarded. */
  function InsertOrKeep(rs: Regions, r: Region): Regions {
    if Insert(rs, r).Ok? then Insert(rs, r).value else rs
  }

  /** Boot: every section of RAM is inserted, results discarded. */
  function RegisterSections(rs: Regions, sections: Regions): Regions
    decreases |sections|
  {
    if sections == [] then rs else RegisterSections(InsertOrKeep(rs, sections[0]), sections[1..])
  }

  predicate SectionsAccepted(rs: Regions, sections: Regions)
    decreases |sections|
  {
    sections == [] || (Insert(rs, sections[0]).Ok? && SectionsAccepted(InsertOrKeep(rs, sections[0]), sections[1..]))
  }

  lemma {:induction false} RegisterOutcome(rs: Regions, sections: Regions)
    requires FreeList(rs) && AllApart(sections)
    requires forall i :: 0 <= i < |sections| ==> Clear(rs, sections[i])
    ensures SectionsAccepted(rs, sections) && FreeList(RegisterSections(rs, sections))
    ensures forall a :: Covered(RegisterSections(rs, sections), a) <==> Covered(rs, a) || Covered(sections, a)
    decreases |sections|
  {
    if sections != [] {
      var r, rest := sections[0], sections[1..];
      InsertClear(rs, r);
      var rs' := InsertOrKeep(rs, r);
      forall i | 0 <= i < |rest| ensures Clear(rs', rest[i]) {
        assert rest[i] == sections[i + 1] && Apart(sections[0], sections[i + 1]);
        ClearAfterInsert(rs, r, rest[i]);
      }
      RegisterOutcome(rs', rest);
      forall a ensures Covered(sections, a) <==> r.Has(a) || Covered(rest, a) { HeadCovers(sections, a); }
    }
  }

  /** The regions that are not empty. */
  function Solid(rs: Regions): multiset<Region> {
    if rs == [] then multiset{} else (if rs[0].size == 0 then multiset{} else multiset{rs[0]}) + Solid(rs[1..])
  }

  /** Each section accepted that is not empty becomes an entry of its own. */
  lemma {:induction false} RegisterAdds(rs: Regions, sections: Regions)
    requires SectionsAccepted(rs, sections)
    ensures multiset(RegisterSections(rs, sections)) == multiset(rs) + Solid(sections)
    decreases |sections|
  {
    if sections != [] {
      InsertAdds(rs, sections[0]);
      RegisterAdds(InsertOrKeep(rs, sections[0]), sections[1..]);
    }
  }

  lemma HeadCovers(rs: Regions, a: int)
    requires rs != []
    ensures Covered(rs, a) <==> rs[0].Has(a) || Covered(rs[1..], a)
  {
    WithoutCovers(rs, 0, a);
    assert Without(rs, 0) == rs[1..];
  }

  lemma ClearAfterInsert(rs: Regions, r: Region, x: Region)
    requires FreeList(rs) && Clear(rs, r) && Clear(rs, x) && Apart(r, x)
    ensures Clear(InsertOrKeep(rs, r), x)
  {
    if r.size > 0 && Slot(rs, r, 0).Some? {
      var i := Slot(rs, r, 0).value;
      forall k | 0 <= k < |rs| + 1 ensures Apart(With(rs, i, r)[k], x) {
        if k < i { assert Apart(rs[k], x); } else if k > i { assert Apart(rs[k - 1], x); }
      }
    }
  }

  lemma ClearMeansUncovered(rs: Regions, r: Region)
    requires Clear(rs, r)
    ensures forall a :: r.Has(a) ==> !Covered(rs, a)
  {
    forall a, i | 0 <= i < |rs| && r.Has(a) ensures !rs[i].Has(a) { assert Apart(rs[i], r); }
  }

  /** A region clear of some memory is clear of any list that covers no more than that memory. */
  lemma ClearShrinks(rs: Regions, ss: Regions, r: Region)
    requires Clear(rs, r) && forall a :: Covered(ss, a) ==> Covered(rs, a)
    ensures Clear(ss, r)
  {
    ClearMeansUncovered(rs, r);
    NotCoveredIsClear(ss, r);
  }

  /** What is clear of a list is apart from any region inside the memory that list covers. */
  lemma ClearOfPart(rs: Regions, x: Region, r: Region)
    requires Clear(rs, x) && forall a :: r.Has(a) ==> Covered(rs, a)
    ensures Apart(x, r)
  {
    ClearMeansUncovered(rs, x);
    var a := if x.base < r.base then r.base else x.base;
    assert !(x.Has(a) && r.Has(a));
  }

  /** The upper part that an allocation puts back, with the result discarded, is always accepted. */
  lemma UpperPartAccepted(rs: Regions, size: nat)
    requires FreeList(rs)
    ensures var i := FirstFit(rs, RoundUp(size), 0);
      i < |rs| ==> Insert(Without(rs, i), rs[i].Split(RoundUp(size)).value.1).Ok?
  {
    var i := FirstFit(rs, RoundUp(size), 0);
    if i < |rs| {
      var upper := rs[i].Split(RoundUp(size)).value.1;
      PartIsClear(rs, i, upper);
      InsertClear(Without(rs, i), upper);
    }
  }
}
