/** A capsule's view of memory: a virtual base and the physical region behind it. */
module VirtMem {
  import opened Base
  import opened PhysMem

  datatype Mapping = Mapping(virtualBase: Option<nat>, physical: Option<Region>) {
    function SetPhysical(r: Region): Mapping { this.(physical := Some(r)) }

    /** Map virtual addresses one to one; needs the physical region. */
    function Identity(): Result<Mapping> {
      if physical.Some? then Ok(this.(virtualBase := Some(physical.value.base))) else Err(VirtMemPhysNotSet)
    }

    function PhysicalToVirtual(a: nat): Option<nat> {
      if virtualBase.Some? && physical.Some? && physical.value.base <= a < physical.value.End()
      then Some(a - physical.value.base + virtualBase.value) else None
    }

    function VirtualToPhysical(a: nat): Option<nat> {
      if virtualBase.Some? && physical.Some? && virtualBase.value <= a < virtualBase.value + physical.value.size
      then Some(a - virtualBase.value + physical.value.base) else None
    }
  }

  const NO_MAPPING: Mapping := Mapping(None, None)

  /**
   * The two translations are inverse to each other, physical addresses outside the region have no
   * virtual address, and an identity mapping translates its region to itself.
   */
  lemma TranslationsInverse(m: Mapping, p: nat, v: nat)
    ensures m.PhysicalToVirtual(p) == Some(v) <==> m.VirtualToPhysical(v) == Some(p)
    ensures m.VirtualToPhysical(v) == Some(p) ==> m.physical.value.Has(p)
    ensures m.PhysicalToVirtual(p).Some? <==> m.virtualBase.Some? && m.physical.Some? && m.physical.value.Has(p)
    ensures m.Identity().Ok? <==> m.physical.Some?
    ensures m.Identity().Err? ==> m.Identity().cause == VirtMemPhysNotSet
    ensures m.Identity().Ok? ==>
      (m.Identity().value.PhysicalToVirtual(p) == Some(v) <==> p == v && m.physical.value.Has(p))
  {
  }

  /** Translation keeps distances, and the base of the region goes to the virtual base. */
  lemma TranslationKeepsDistance(m: Mapping, p: nat, q: nat)
    requires m.PhysicalToVirtual(p).Some? && m.PhysicalToVirtual(q).Some?
    ensures m.PhysicalToVirtual(p).value - m.PhysicalToVirtual(q).value == p - q
    ensures m.PhysicalToVirtual(m.physical.value.base) == m.virtualBase
  {
  }
}
