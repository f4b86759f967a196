/** The free list as the code keeps it: a vector searched and changed in place. */
module RegionStore {
  import opened Base
  import opened PhysMem

  class SortedRegions {
    var regions: Regions

    constructor ()
      ensures regions == []
    {
      regions := [];
    }

    /** Remove and return the first region large enough. */
    method Find(size: nat) returns (r: Result<Region>)
      modifies this
      ensures var i := FirstFit(old(regions), size, 0);
        if i == |old(regions)| then r == Err(PhysRegionNoMatch) && regions == old(regions)
        else r == Ok(old(regions)[i]) && regions == Without(old(regions), i)
    {
      for index := 0 to |regions|
        invariant regions == old(regions)
        invariant FirstFit(regions, size, 0) == FirstFit(regions, size, index)
      {
        if regions[index].size >= size {
          r := Ok(regions[index]);
          regions := Without(regions, index);
          return;
        }
      }
      return Err(PhysRegionNoMatch);
    }

    /** Insert in base order; only a base inside an existing region is reported as a collision. */
    method Insert(r: Region) returns (res: Result<()>)
      modifies this
      ensures res == if PhysMem.Insert(old(regions), r).Ok? then Ok(()) else Err(PhysRegionCollision)
      ensures regions == InsertOrKeep(old(regions), r)
    {
      if r.size == 0 { return Ok(()); }
      for index := 0 to |regions|
        invariant regions == old(regions)
        invariant Slot(regions, r, 0) == Slot(regions, r, index)
      {
        if r.End() <= regions[index].base {
          regions := With(regions, index, r);
          return Ok(());
        }
        if r.base >= regions[index].base && r.base < regions[index].End() {
          return Err(PhysRegionCollision);
        }
      }
      regions := With(regions, |regions|, r);
      return Ok(());
    }

    /** Merge all adjoining regions. */
    method Merge()
      modifies this
      ensures regions == PhysMem.Merge(old(regions))
    {
      var cursor := 0;
      while cursor + 1 < |regions|
        invariant MergeFrom(regions, cursor) == PhysMem.Merge(old(regions))
        decreases |regions| - cursor
      {
        if regions[cursor].End() == regions[cursor + 1].base {
          regions := Absorb(regions, cursor);
        } else {
          cursor := cursor + 1;
        }
      }
    }

    /** Register the sections of RAM found at boot, if the hardware could be queried. */
    method Init(cpuCores: Option<nat>, chunks: Option<seq<Regions>>) returns (res: Result<()>)
      modifies this
      ensures cpuCores.None? ==> res == Err(PhysicalCoreCountUnknown) && regions == old(regions)
      ensures cpuCores.Some? && chunks.None? ==> res == Err(PhysNoRAMFound) && regions == old(regions)
      ensures cpuCores.Some? && chunks.Some? ==>
        res == Ok(()) && regions == RegisterSections(old(regions), Flatten(chunks.value))
    {
      match cpuCores {
        case None => return Err(PhysicalCoreCountUnknown);
        case Some(_) =>
      }
      match chunks {
        case None => return Err(PhysNoRAMFound);
        case Some(_) =>
      }
      for c := 0 to |chunks.value|
        invariant RegisterSections(regions, Flatten(chunks.value[c..])) == RegisterSections(old(regions), Flatten(chunks.value))
      {
        var sections := chunks.value[c];
        ghost var later := Flatten(chunks.value[c + 1..]);
        for k := 0 to |sections|
          invariant RegisterSections(regions, sections[k..] + later) == RegisterSections(old(regions), Flatten(chunks.value))
        {
          assert (sections[k..] + later)[0] == sections[k] && (sections[k..] + later)[1..] == sections[k + 1..] + later;
          var _ := Insert(sections[k]);
        }
        assert sections[|sections|..] + later == later;
      }
      return Ok(());
    }

    method AllocRegion(size: nat) returns (res: Result<Region>)
      modifies this
      ensures res == Alloc(old(regions), size).result
      ensures regions == Alloc(old(regions), size).free
    {
      var adjusted := RoundUp(size);
      var found := Find(adjusted);
      match found {
        case Ok(region) =>
          match region.Split(adjusted) {
            case Ok((lower, upper)) =>
              var _ := Insert(upper);
              return Ok(lower);
            case Err(e) => return Err(e);
          }
        case Err(_) => return Err(PhysNotEnoughFreeRAM);
      }
    }

    method DeallocRegion(region: Region) returns (res: Result<()>)
      modifies this
      ensures res == if PhysMem.Insert(old(regions), region).Ok? then Ok(()) else Err(PhysRegionCollision)
      ensures regions == InsertOrKeep(old(regions), region)
    {
      res := Insert(region);
    }
  }

  function Flatten(chunks: seq<Regions>): Regions
    decreases |chunks|
  {
    if chunks == [] then [] else chunks[0] + Flatten(chunks[1..])
  }
}
