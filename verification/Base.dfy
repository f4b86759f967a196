/** Result, option and error types, and a sequence operation, shared by every component. */
module Base {

  datatype Option<+T> = None | Some(value: T)

  /** The error codes of src/hypervisor/error.rs that the modelled operations can return. */
  datatype Cause =
    | HeapNotInUse
    | HeapNoFreeMem
    | HeapBadSize
    | PhysicalCoreCountUnknown
    | PhysNoRAMFound
    | PhysNotEnoughFreeRAM
    | PhysRegionCollision
    | PhysRegionNoMatch
    | PhysRegionSplitOutOfBounds
    | VirtMemPhysNotSet
    | CapsuleIDExhaustion
    | CapsuleBadID
    | ServiceAlreadyRegistered
    | ServiceNotAllowed
    | ServiceNotFound
    | LoaderSupervisorTooLarge
    | LoaderUnrecognizedSupervisor
    | LoaderBadEntry

  datatype Result<+T> = Ok(value: T) | Err(cause: Cause)

  /** `s` without the element at `i`. */
  function Without<T>(s: seq<T>, i: nat): (r: seq<T>)
    requires i < |s|
    ensures |r| == |s| - 1 && forall k :: 0 <= k < |r| ==> r[k] == s[if k < i then k else k + 1]
  {
    s[..i] + s[i + 1..]
  }

  lemma JoinEmpty<T>(t: seq<T>)
    ensures [] + t == t && t + [] == t
  {
  }

  lemma JoinThree<T>(s: seq<T>, t: seq<T>, u: seq<T>)
    ensures (s + t) + u == s + (t + u)
  {
  }

  lemma JoinTail<T>(s: seq<T>, t: seq<T>)
    requires s != []
    ensures (s + t)[0] == s[0] && (s + t)[1..] == s[1..] + t
  {
  }
}
