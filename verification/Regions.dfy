/** The region tree of an address space and its meaning.

  A region is a container of subregions, an alias window onto another region, or
  a terminating region (RAM, device RAM, ROM device, or IO).  `Resolve` is the
  reference meaning: it walks the tree downwards in relative offsets and knows
  nothing of flat ranges. */
module Regions {
  import opened Addresses

  /** Backing of a terminating region.  `host` is the host address of its mapping. */
  datatype Kind =
    | Ram(host: nat)
    | RamDevice(host: nat)
    | RomDevice(host: nat, romd: bool)
    | Io

  /** `id` stands for the identity of the shared region object. */
  datatype Region =
    | Container(id: nat, offset: nat, size: nat, priority: int, subregions: seq<Region>)
    | Alias(id: nat, offset: nat, size: nat, priority: int, target: Region, aliasOffset: nat)
    | Terminate(id: nat, offset: nat, size: nat, priority: int, kind: Kind)

  /** A terminating region together with an offset inside it. */
  datatype Hit = Hit(owner: Region, offset: nat)

  /** What lies at offset `off` of region `r`. */
  function Resolve(r: Region, off: int): (hit: Option<Hit>)
    decreases r, 1
  {
    if !(0 <= off < r.size) then
      None
    else
      match r
      case Terminate(_, _, _, _, _) => Some(Hit(r, off))
      case Alias(_, _, _, _, target, aliasOffset) => Resolve(target, off + aliasOffset)
      case Container(_, _, _, _, subregions) => ResolveFirst(subregions, off)
  }

  /** The first sibling that has something at `off` wins; siblings are kept in
      order of falling priority, newest first. */
  function ResolveFirst(rs: seq<Region>, off: int): (hit: Option<Hit>)
    decreases rs, 0
  {
    if rs == [] then
      None
    else
      var hit := Resolve(rs[0], off - rs[0].offset);
      if hit.Some? then hit else ResolveFirst(rs[1..], off)
  }

  /** The address arithmetic of rendering `r` at `base`, as far as it reaches into
      `range`, stays inside `u64`: the duty that `unchecked_add` and `unchecked_sub`
      leave to their caller. */
  ghost predicate Renderable(r: Region, base: nat, range: AddressRange)
    decreases r
  {
    && base + r.offset <= U64_MAX
    && var found := AddressRange(base + r.offset, r.size).FindIntersection(range);
       found.Some? ==>
         match r
         case Terminate(_, _, _, _, _) => true
         case Alias(_, offset, _, _, target, aliasOffset) =>
           && aliasOffset + target.offset <= base + offset
           && Renderable(target, base + offset - aliasOffset - target.offset, found.value)
         case Container(_, offset, _, _, subregions) =>
           forall c :: c in subregions ==> Renderable(c, base + offset, found.value)
  }

  /** No region of the tree is empty. */
  ghost predicate PositiveSizes(r: Region)
    decreases r
  {
    && r.size > 0
    && match r
       case Terminate(_, _, _, _, _) => true
       case Alias(_, _, _, _, target, _) => PositiveSizes(target)
       case Container(_, _, _, _, subregions) => forall c :: c in subregions ==> PositiveSizes(c)
  }

  lemma {:induction false} ResolveFirstAppend(rs: seq<Region>, r: Region, off: int)
    ensures ResolveFirst(rs + [r], off) ==
            if ResolveFirst(rs, off).Some? then ResolveFirst(rs, off) else Resolve(r, off - r.offset)
  {
    if rs == [] {
      assert rs + [r] == [r];
      assert ResolveFirst([r][1..], off) == None;
    } else {
      assert (rs + [r])[1..] == rs[1..] + [r];
      ResolveFirstAppend(rs[1..], r, off);
    }
  }
}
