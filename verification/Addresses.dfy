/** Guest addresses and address ranges.

  A guest address is a `u64` in the source; here it is a `nat`, and the unchecked
  additions and subtractions carry the no-wrap-around duty that their
  documentation puts on the caller. */
module Addresses {
  const U64_MAX: nat := 0xFFFF_FFFF_FFFF_FFFF

  datatype Option<+T> = None | Some(value: T)

  function Min(a: int, b: int): int {
    if a <= b then a else b
  }

  function Max(a: int, b: int): int {
    if a >= b then a else b
  }

  function UncheckedAdd(a: nat, b: nat): nat
    requires a + b <= U64_MAX
  {
    a + b
  }

  function OffsetFrom(a: nat, b: nat): nat
    requires b <= a
  {
    a - b
  }

  datatype AddressRange = AddressRange(base: nat, size: nat) {
    /** One past the last address; the source adds in `u64`, so callers of its
        `end_addr` must stay below 2^64. */
    function End(): nat {
      base + size
    }

    predicate Contains(a: int) {
      base <= a < base + size
    }

    /** The intersection of two ranges, computed in `u128` by the source.  A
        zero-size range that lies strictly inside the other one still yields an
        (empty) intersection. */
    function FindIntersection(other: AddressRange): Option<AddressRange> {
      if End() <= other.base || other.End() <= base then
        None
      else
        var start := Max(base, other.base);
        Some(AddressRange(start, Min(End(), other.End()) - start))
    }
  }

  predicate Disjoint(a: AddressRange, b: AddressRange) {
    a.End() <= b.base || b.End() <= a.base
  }

  /** The intersection covers exactly the common addresses, and it exists exactly
      when the ranges share an address or one is an empty range strictly inside
      the other. */
  lemma {:induction false} FindIntersectionExact(a: AddressRange, b: AddressRange)
    ensures a.FindIntersection(b).None? <==> Disjoint(a, b)
    ensures a.FindIntersection(b).Some? ==>
              forall x: int :: a.FindIntersection(b).value.Contains(x) <==> a.Contains(x) && b.Contains(x)
    ensures a.FindIntersection(b).None? ==> forall x: int :: !(a.Contains(x) && b.Contains(x))
    ensures a.FindIntersection(b).Some? && a.size > 0 && b.size > 0 ==> a.FindIntersection(b).value.size > 0
  {
  }
}
