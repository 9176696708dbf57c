/** The pool of KVM memory slots and what the KVM memory listener does to it.

  A freed slot keeps its old base with size 0.  The overlap test of the
  allocator still looks at it, so a stale base strictly inside a new range
  refuses the range; the contracts below say exactly that. */
module KvmSlots {
  import opened Addresses
  import opened Arithmetic
  import opened FlatViews

  datatype MemSlot = MemSlot(index: nat, guestAddr: nat, size: nat, hostAddr: nat) {
    function Range(): AddressRange {
      AddressRange(guestAddr, size)
    }

    predicate Live() {
      size > 0
    }
  }

  /** What a slot maps: guest range and host address. */
  datatype Mapping = Mapping(range: AddressRange, hostAddr: nat)

  datatype Allocation = Allocated(index: nat, slots: seq<MemSlot>) | Overlaps | NoneFree

  /** Live slots are pairwise disjoint and know their own index. */
  ghost predicate ValidSlots(slots: seq<MemSlot>) {
    && (forall i, j :: 0 <= i < j < |slots| && slots[i].Live() && slots[j].Live() ==>
          Disjoint(slots[i].Range(), slots[j].Range()))
    && (forall i :: 0 <= i < |slots| && slots[i].Live() ==> slots[i].index == i)
  }

  /** A live slot that overlaps `range`, or a freed slot whose stale base lies
      strictly inside it. */
  predicate Blocks(s: MemSlot, range: AddressRange) {
    s.Range().FindIntersection(range).Some?
  }

  lemma {:induction false} BlocksExact(s: MemSlot, range: AddressRange)
    ensures Blocks(s, range) <==>
            if s.Live() && range.size > 0 then exists a: int :: s.Range().Contains(a) && range.Contains(a)
            else if range.size > 0 then range.base < s.guestAddr < range.End()
            else s.guestAddr < range.base < s.Range().End()
  {
    if Blocks(s, range) && s.Live() && range.size > 0 {
      assert s.Range().Contains(Max(s.guestAddr, range.base)) && range.Contains(Max(s.guestAddr, range.base));
    }
  }

  class KvmMemoryListener {
    const page: nat
    var slots: seq<MemSlot>

    constructor (nrSlots: nat, page: nat)
      requires page > 0
      ensures this.page == page
      ensures ValidSlots(slots) && |slots| == nrSlots && forall i :: 0 <= i < nrSlots ==> !slots[i].Live()
    {
      this.page := page;
      slots := seq(nrSlots, _ => MemSlot(0, 0, 0, 0));
    }

    /** Find a free slot and fill it.  Refused as overlapping exactly when some
        slot blocks the range, refused as full exactly when nothing blocks and no
        slot is free; otherwise the first free slot is taken. */
    method GetFreeSlot(guestAddr: nat, size: nat, hostAddr: nat) returns (r: Allocation)
      modifies this
      ensures r == Allocate(old(slots), guestAddr, size, hostAddr)
      ensures slots == if r.Allocated? then r.slots else old(slots)
      ensures r.Overlaps? <==> exists i :: 0 <= i < |old(slots)| && Blocks(old(slots)[i], AddressRange(guestAddr, size))
      ensures r.NoneFree? <==> !r.Overlaps? && forall i :: 0 <= i < |old(slots)| ==> old(slots)[i].Live()
    {
      var range := AddressRange(guestAddr, size);
      var i := 0;
      while i < |slots|
        invariant 0 <= i <= |slots|
        invariant forall j :: 0 <= j < i ==> !Blocks(slots[j], range)
      {
        if Blocks(slots[i], range) {
          return Overlaps;
        }
        i := i + 1;
      }
      i := 0;
      while i < |slots|
        invariant 0 <= i <= |slots|
        invariant slots == old(slots)
        invariant forall j :: 0 <= j < i ==> slots[j].Live()
      {
        if slots[i].size == 0 {
          slots := slots[i := MemSlot(i, guestAddr, size, hostAddr)];
          return Allocated(i, slots);
        }
        i := i + 1;
      }
      return NoneFree;
    }

    /** Free the first slot with the given base and size, if there is one. */
    method DeleteSlot(addr: nat, size: nat) returns (r: Option<MemSlot>)
      modifies this
      ensures slots == Deallocate(old(slots), addr, size)
      ensures r.Some? <==> exists i :: 0 <= i < |old(slots)| && old(slots)[i].Range() == AddressRange(addr, size)
      ensures r.Some? ==>
                var i := FirstMatch(old(slots), addr, size);
                i < |slots| == |old(slots)| && r.value == slots[i] == old(slots)[i].(size := 0)
    {
      var i := 0;
      while i < |slots|
        invariant 0 <= i <= |slots|
        invariant slots == old(slots)
        invariant forall j :: 0 <= j < i ==> slots[j].Range() != AddressRange(addr, size)
      {
        if slots[i].guestAddr == addr && slots[i].size == size {
          slots := slots[i := slots[i].(size := 0)];
          return Some(slots[i]);
        }
        i := i + 1;
      }
      return None;
    }

    /** Give a flat range its slot.  On failure the pool is unchanged. */
    method AddRegion(fr: FlatRange) returns (ok: bool)
      requires page > 0 && fr.owner.Terminate?
      modifies this
      ensures ok <==> SlotsAfterAdd(old(slots), fr, page).Some?
      ensures slots == if ok then SlotsAfterAdd(old(slots), fr, page).value else old(slots)
    {
      hide Allocate, Deallocate, AlignMemSlot, Blocks;
      if fr.owner.kind.RomDevice? && !fr.owner.kind.romd {
        var _ := DeleteRegion(fr);
        return true;
      }
      if fr.owner.kind.Io? {
        return true;
      }
      var aligned := AlignMemSlot(fr.range, page);
      if aligned.None? {
        return false;
      }
      AlignedIsHigher(fr.range, page);
      var alignAdjust := aligned.value.base - fr.range.base;
      var hva := fr.owner.kind.host + fr.offsetInRegion + alignAdjust;
      var r := GetFreeSlot(aligned.value.base, aligned.value.size, hva);
      return r.Allocated?;
    }

    /** Take the slot of a flat range away.  On failure the pool is unchanged. */
    method DeleteRegion(fr: FlatRange) returns (ok: bool)
      requires page > 0 && fr.owner.Terminate?
      modifies this
      ensures ok <==> SlotsAfterDelete(old(slots), fr, page).Some?
      ensures slots == if ok then SlotsAfterDelete(old(slots), fr, page).value else old(slots)
    {
      if fr.owner.kind.Io? {
        return true;
      }
      var aligned := AlignMemSlot(fr.range, page);
      if aligned.None? {
        return false;
      }
      var _ := DeleteSlot(aligned.value.base, aligned.value.size);
      return true;
    }
  }

  /** Index of the first slot that is not live, or the length of the pool. */
  function FirstFree(slots: seq<MemSlot>): (i: nat)
    ensures i <= |slots|
    ensures forall j :: 0 <= j < i ==> slots[j].Live()
    ensures i < |slots| ==> !slots[i].Live()
  {
    if slots == [] || !slots[0].Live() then 0 else 1 + FirstFree(slots[1..])
  }

  /** Index of the first slot that maps exactly `range`, or the length of the pool. */
  function FirstMatch(slots: seq<MemSlot>, addr: nat, size: nat): (i: nat)
    ensures i <= |slots|
    ensures forall j :: 0 <= j < i ==> slots[j].Range() != AddressRange(addr, size)
    ensures i < |slots| ==> slots[i].Range() == AddressRange(addr, size)
  {
    if slots == [] || slots[0].Range() == AddressRange(addr, size) then 0 else 1 + FirstMatch(slots[1..], addr, size)
  }

  function Allocate(slots: seq<MemSlot>, guestAddr: nat, size: nat, hostAddr: nat): Allocation {
    if exists i :: 0 <= i < |slots| && Blocks(slots[i], AddressRange(guestAddr, size)) then Overlaps
    else if FirstFree(slots) == |slots| then NoneFree
    else
      var i := FirstFree(slots);
      Allocated(i, slots[i := MemSlot(i, guestAddr, size, hostAddr)])
  }

  function Deallocate(slots: seq<MemSlot>, addr: nat, size: nat): seq<MemSlot> {
    var i := FirstMatch(slots, addr, size);
    if i < |slots| then slots[i := slots[i].(size := 0)] else slots
  }

  function RoundUp(a: nat, page: nat): Option<nat>
    requires page > 0
  {
    if a % page == 0 then Some(a)
    else if a + (page - a % page) <= U64_MAX then Some(a + (page - a % page))
    else None
  }

  lemma {:induction false} AlignedIsHigher(range: AddressRange, page: nat)
    requires page > 0 && AlignMemSlot(range, page).Some?
    ensures range.base <= AlignMemSlot(range, page).value.base
  {
  }

  /** The whole pages inside `range`, or failure when there is none. */
  function AlignMemSlot(range: AddressRange, page: nat): Option<AddressRange>
    requires page > 0
  {
    match RoundUp(range.base, page)
    case None => None
    case Some(base) =>
      if range.size < base - range.base then None
      else
        var rest := range.size - (base - range.base);
        var size := rest - rest % page;
        if size > 0 then Some(AddressRange(base, size)) else None
  }

  /** Alignment keeps a page exactly when the range holds the whole page. */
  lemma {:induction false} AlignKeepsWholePages(range: AddressRange, page: nat, p: nat)
    requires page > 0 && range.End() <= U64_MAX
    ensures match AlignMemSlot(range, page)
            case Some(r) => r.size > 0 && r.base % page == 0 && r.size % page == 0 && range.base <= r.base &&
                            r.End() <= range.End() &&
                            (r.base <= p * page && p * page + page <= r.End() <==>
                             range.base <= p * page && p * page + page <= range.End())
            case None => !(range.base <= p * page && p * page + page <= range.End())
  {
    var base := range.base + (if range.base % page == 0 then 0 else page - range.base % page);
    RoundedUpIsLeast(range.base, page, p);
    if range.size >= base - range.base {
      var rest := range.size - (base - range.base);
      WholePagesFit(base, rest, page, p);
    }
  }

  lemma {:induction false} RoundedUpIsLeast(a: nat, page: nat, p: nat)
    requires page > 0
    ensures var up := a + (if a % page == 0 then 0 else page - a % page);
            up % page == 0 && (a <= p * page <==> up <= p * page)
  {
    var q := a / page;
    assert a == q * page + a % page;
    if a % page != 0 {
      DivModUnique((q + 1) * page, page, q + 1, 0);
      if a <= p * page {
        NextMultiple(q, p, page);
      }
    }
  }

  lemma {:induction false} WholePagesFit(base: nat, rest: nat, page: nat, p: nat)
    requires page > 0 && base % page == 0
    ensures (rest - rest % page) % page == 0
    ensures p * page + page <= base + rest <==> p * page + page <= base + (rest - rest % page)
  {
    var b, q := base / page, rest / page;
    assert base == b * page && rest == q * page + rest % page;
    DivModUnique(q * page, page, q, 0);
    assert b * page + q * page == (b + q) * page && p * page + page == (p + 1) * page;
    if (b + q) * page < (p + 1) * page {
      NextMultiple(b + q, p + 1, page);
    }
  }

  /** Backed by host memory that the guest may reach directly. */
  predicate WantsSlot(fr: FlatRange)
    requires fr.owner.Terminate?
  {
    fr.owner.kind.Ram? || fr.owner.kind.RamDevice? || (fr.owner.kind.RomDevice? && fr.owner.kind.romd)
  }

  /** The mapping that the listener makes for a flat range. */
  function MappingOf(fr: FlatRange, page: nat): Option<Mapping>
    requires page > 0 && fr.owner.Terminate?
  {
    if !WantsSlot(fr) then None
    else
      match AlignMemSlot(fr.range, page)
      case None => None
      case Some(r) => Some(Mapping(r, fr.owner.kind.host + fr.offsetInRegion + (r.base - fr.range.base)))
  }

  /** Slot effect of deleting a flat range; `None` is the alignment error. */
  function SlotsAfterDelete(slots: seq<MemSlot>, fr: FlatRange, page: nat): Option<seq<MemSlot>>
    requires page > 0 && fr.owner.Terminate?
  {
    if fr.owner.kind.Io? then Some(slots)
    else
      match AlignMemSlot(fr.range, page)
      case None => None
      case Some(r) => Some(Deallocate(slots, r.base, r.size))
  }

  /** Slot effect of adding a flat range; `None` is any error.  A ROM device in IO
      mode gives up its slot instead, and an error while doing so is ignored. */
  function SlotsAfterAdd(slots: seq<MemSlot>, fr: FlatRange, page: nat): Option<seq<MemSlot>>
    requires page > 0 && fr.owner.Terminate?
  {
    if fr.owner.kind.RomDevice? && !fr.owner.kind.romd then
      match SlotsAfterDelete(slots, fr, page)
      case None => Some(slots)
      case Some(slots') => Some(slots')
    else if fr.owner.kind.Io? then Some(slots)
    else
      match MappingOf(fr, page)
      case None => None
      case Some(m) =>
        match Allocate(slots, m.range.base, m.range.size, m.hostAddr)
        case Allocated(_, slots') => Some(slots')
        case Overlaps => None
        case NoneFree => None
  }

  /** The range holds a whole page. */
  ghost predicate HasWholePage(range: AddressRange, page: nat) {
    exists p: nat :: HoldsPage(range, p, page)
  }

  predicate HoldsPage(range: AddressRange, p: nat, page: nat) {
    range.base <= p * page && p * page + page <= range.End()
  }

  lemma {:induction false} AlignFailsExactly(range: AddressRange, page: nat)
    requires page > 0 && range.End() <= U64_MAX
    ensures AlignMemSlot(range, page).Some? <==> HasWholePage(range, page)
  {
    hide AlignMemSlot;
    match AlignMemSlot(range, page)
    case Some(r) =>
      AlignKeepsWholePages(range, page, 0);
      var p := r.base / page;
      assert r.base == p * page && r.size >= page by { DivBound(r.base, page); AtLeastOne(r.size, page); }
      AlignKeepsWholePages(range, page, p);
      assert HoldsPage(range, p, page);
    case None =>
      forall p: nat ensures !HoldsPage(range, p, page) {
        AlignKeepsWholePages(range, page, p);
      }
  }

  lemma {:induction false} AtLeastOne(size: nat, page: nat)
    requires page > 0 && size > 0 && size % page == 0
    ensures size >= page
  {
    if size < page {
      DivModUnique(size, page, 0, size);
    }
  }

  /** The deletion of a flat range is refused exactly if it is one of memory without a whole page. */
  lemma {:induction false} DeleteRefusedExactly(slots: seq<MemSlot>, fr: FlatRange, page: nat)
    requires page > 0 && fr.owner.Terminate? && fr.range.End() <= U64_MAX
    ensures SlotsAfterDelete(slots, fr, page).None? <==> !fr.owner.kind.Io? && !HasWholePage(fr.range, page)
  {
    hide AlignMemSlot, Deallocate;
    AlignFailsExactly(fr.range, page);
  }

  /** No slot blocks the range, and one is free. */
  ghost predicate HasRoom(slots: seq<MemSlot>, range: Option<AddressRange>) {
    && range.Some?
    && (forall i :: 0 <= i < |slots| ==> !Blocks(slots[i], range.value))
    && (exists i :: 0 <= i < |slots| && !slots[i].Live())
  }

  /** The addition of a flat range is refused exactly if the range wants a slot and has no
      whole page, or a slot blocks its whole pages, or no slot is free. */
  lemma {:induction false} AddRefusedExactly(slots: seq<MemSlot>, fr: FlatRange, page: nat)
    requires page > 0 && fr.owner.Terminate? && fr.range.End() <= U64_MAX
    ensures SlotsAfterAdd(slots, fr, page).None? <==>
            && (fr.owner.kind.Ram? || fr.owner.kind.RamDevice? || (fr.owner.kind.RomDevice? && fr.owner.kind.romd))
            && (!HasWholePage(fr.range, page) || !HasRoom(slots, AlignMemSlot(fr.range, page)))
  {
    hide AlignMemSlot, Blocks;
    AlignFailsExactly(fr.range, page);
    DeleteRefusedExactly(slots, fr, page);
  }

  /** Slot `i` is live and maps `m`. */
  ghost predicate Maps(slots: seq<MemSlot>, i: nat, m: Mapping) {
    i < |slots| && slots[i].Live() && slots[i].Range() == m.range && slots[i].hostAddr == m.hostAddr
  }

  ghost predicate Mapped(slots: seq<MemSlot>, m: Mapping) {
    exists i: nat :: Maps(slots, i, m)
  }

  ghost predicate Wanted(frs: set<FlatRange>, m: Mapping, page: nat)
    requires page > 0 && TerminateOwners(frs)
  {
    exists fr :: fr in frs && MappingOf(fr, page) == Some(m)
  }

  ghost predicate TerminateOwners(frs: set<FlatRange>) {
    forall fr :: fr in frs ==> fr.owner.Terminate?
  }

  /** Ranges of a view, in any order: non-empty, pairwise disjoint, in `u64`. */
  ghost predicate Separate(frs: set<FlatRange>) {
    && TerminateOwners(frs)
    && (forall fr :: fr in frs ==> fr.range.size > 0 && fr.range.End() <= U64_MAX)
    && (forall x, y :: x in frs && y in frs && x != y ==> Disjoint(x.range, y.range))
  }

  /** The live slots map exactly what the flat ranges want mapped. */
  ghost predicate Mirrors(slots: seq<MemSlot>, frs: set<FlatRange>, page: nat)
    requires page > 0 && TerminateOwners(frs)
  {
    && ValidSlots(slots)
    && forall m: Mapping :: Mapped(slots, m) <==> Wanted(frs, m, page)
  }

  /** The aligned range lies inside the range. */
  lemma {:induction false} AlignedInside(range: AddressRange, page: nat)
    requires page > 0 && range.End() <= U64_MAX
    ensures match AlignMemSlot(range, page)
            case Some(r) => r.size > 0 && range.base <= r.base && r.End() <= range.End()
            case None => true
  {
    AlignKeepsWholePages(range, page, 0);
  }

  lemma {:induction false} AllocateKeepsValid(slots: seq<MemSlot>, guestAddr: nat, size: nat, hostAddr: nat)
    requires ValidSlots(slots) && Allocate(slots, guestAddr, size, hostAddr).Allocated?
    ensures ValidSlots(Allocate(slots, guestAddr, size, hostAddr).slots)
  {
  }

  lemma {:induction false} DeallocateKeepsValid(slots: seq<MemSlot>, addr: nat, size: nat)
    requires ValidSlots(slots)
    ensures ValidSlots(Deallocate(slots, addr, size))
  {
  }

  /** Number of live slots. */
  function LiveCount(slots: seq<MemSlot>): nat {
    if slots == [] then 0 else LiveCount(slots[..|slots| - 1]) + (if slots[|slots| - 1].Live() then 1 else 0)
  }

  lemma {:induction false} LiveCountUpdate(slots: seq<MemSlot>, i: nat, s: MemSlot)
    requires i < |slots| && !slots[i].Live() && s.Live()
    ensures LiveCount(slots[i := s]) == LiveCount(slots) + 1
  {
    var n := |slots| - 1;
    if i < n {
      assert slots[i := s][..n] == slots[..n][i := s];
      LiveCountUpdate(slots[..n], i, s);
    } else {
      assert slots[i := s][..n] == slots[..n];
    }
  }

  lemma {:induction false} LiveCountFreed(slots: seq<MemSlot>, i: nat, s: MemSlot)
    requires i < |slots| && !s.Live()
    ensures LiveCount(slots[i := s]) <= LiveCount(slots)
  {
    if i == |slots| - 1 {
      assert slots[i := s][..i] == slots[..i];
    } else {
      var k := |slots| - 1;
      LiveCountFreed(slots[..k], i, s);
      assert slots[i := s][..k] == slots[..k][i := s];
    }
  }

  lemma {:induction false} AllLive(slots: seq<MemSlot>)
    requires forall i :: 0 <= i < |slots| ==> slots[i].Live()
    ensures LiveCount(slots) == |slots|
  {
    if slots != [] {
      AllLive(slots[..|slots| - 1]);
    }
  }

  /** Where nothing blocks and the pool is not full, allocation takes one more slot. */
  lemma {:induction false} AllocateSucceeds(slots: seq<MemSlot>, m: Mapping)
    requires m.range.size > 0 && LiveCount(slots) < |slots|
    requires forall k :: 0 <= k < |slots| ==> !Blocks(slots[k], m.range)
    ensures var a := Allocate(slots, m.range.base, m.range.size, m.hostAddr);
            a.Allocated? && LiveCount(a.slots) == LiveCount(slots) + 1 && !slots[a.index].Live()
  {
    var i := FirstFree(slots);
    if i == |slots| {
      AllLive(slots);
    } else {
      LiveCountUpdate(slots, i, MemSlot(i, m.range.base, m.range.size, m.hostAddr));
    }
  }

  datatype SlotOp = Take(range: AddressRange, hostAddr: nat) | Release(range: AddressRange)

  /** The pool after a run of allocations and deallocations; refused ones change nothing. */
  function RunOps(slots: seq<MemSlot>, ops: seq<SlotOp>): seq<MemSlot> {
    if ops == [] then slots
    else
      var before := RunOps(slots, ops[..|ops| - 1]);
      match ops[|ops| - 1]
      case Take(r, host) =>
        var a := Allocate(before, r.base, r.size, host);
        if a.Allocated? then a.slots else before
      case Release(r) => Deallocate(before, r.base, r.size)
  }

  /** Live slots stay pairwise disjoint, and in their own place, through every run. */
  lemma {:induction false} RunKeepsValid(slots: seq<MemSlot>, ops: seq<SlotOp>)
    requires ValidSlots(slots)
    ensures ValidSlots(RunOps(slots, ops)) && |RunOps(slots, ops)| == |slots|
  {
    if ops != [] {
      RunKeepsValid(slots, ops[..|ops| - 1]);
      var before := RunOps(slots, ops[..|ops| - 1]);
      match ops[|ops| - 1]
      case Take(r, host) =>
        if Allocate(before, r.base, r.size, host).Allocated? {
          AllocateKeepsValid(before, r.base, r.size, host);
        }
      case Release(r) => DeallocateKeepsValid(before, r.base, r.size);
    }
  }

  /** A freed slot can refuse a range that no live slot overlaps. */
  lemma {:induction false} StaleBaseRefuses()
    ensures var small, large := AddressRange(0x1000, 0x1000), AddressRange(0, 0x3000);
            var slots := RunOps([MemSlot(0, 0, 0, 0)], [Take(small, 0), Release(small)]);
            (forall i :: 0 <= i < |slots| ==> !slots[i].Live()) &&
            Allocate(slots, large.base, large.size, 0) == Overlaps
  {
    hide RunOps, Allocate, Deallocate, Blocks;
    var small := AddressRange(0x1000, 0x1000);
    var start := [MemSlot(0, 0, 0, 0)];
    RunNothing(start);
    FirstTaken();
    assert [] + [Take(small, 0)] == [Take(small, 0)];
    RunOne(start, [], Take(small, 0));
    FirstReleased();
    assert [Take(small, 0)] + [Release(small)] == [Take(small, 0), Release(small)];
    RunOne(start, [Take(small, 0)], Release(small));
    StaleBlocks();
  }

  lemma {:induction false} RunNothing(slots: seq<MemSlot>)
    ensures RunOps(slots, []) == slots
  {
  }

  lemma {:induction false} RunOne(slots: seq<MemSlot>, ops: seq<SlotOp>, op: SlotOp)
    ensures RunOps(slots, ops + [op]) ==
            match op
            case Take(r, host) =>
              var a := Allocate(RunOps(slots, ops), r.base, r.size, host);
              if a.Allocated? then a.slots else RunOps(slots, ops)
            case Release(r) => Deallocate(RunOps(slots, ops), r.base, r.size)
  {
    hide Allocate, Deallocate;
    assert (ops + [op])[..|ops|] == ops;
  }

  lemma {:induction false} FirstTaken()
    ensures Allocate([MemSlot(0, 0, 0, 0)], 0x1000, 0x1000, 0) == Allocated(0, [MemSlot(0, 0x1000, 0x1000, 0)])
  {
    var slots := [MemSlot(0, 0, 0, 0)];
    assert !Blocks(slots[0], AddressRange(0x1000, 0x1000));
    assert FirstFree(slots) == 0;
  }

  lemma {:induction false} FirstReleased()
    ensures Deallocate([MemSlot(0, 0x1000, 0x1000, 0)], 0x1000, 0x1000) == [MemSlot(0, 0x1000, 0, 0)]
  {
    var slots := [MemSlot(0, 0x1000, 0x1000, 0)];
    assert slots[0].Range() == AddressRange(0x1000, 0x1000);
    assert FirstMatch(slots, 0x1000, 0x1000) == 0;
  }

  lemma {:induction false} StaleBlocks()
    ensures Allocate([MemSlot(0, 0x1000, 0, 0)], 0, 0x3000, 0) == Overlaps
    ensures forall s :: s in [MemSlot(0, 0x1000, 0, 0)] ==> !s.Live()
  {
    var slots := [MemSlot(0, 0x1000, 0, 0)];
    assert Blocks(slots[0], AddressRange(0, 0x3000));
  }

  /** A slot that maps the same range as another live slot is that slot. */
  lemma {:induction false} LiveRangesDiffer(slots: seq<MemSlot>, i: nat, j: nat)
    requires ValidSlots(slots) && i < |slots| && j < |slots| && slots[i].Live() && slots[i].Range() == slots[j].Range()
    ensures i == j
  {
  }

  /** What slots map after an allocation. */
  lemma {:induction false} AllocateMaps(slots: seq<MemSlot>, m: Mapping, n: Mapping)
    requires m.range.size > 0 && Allocate(slots, m.range.base, m.range.size, m.hostAddr).Allocated?
    ensures Mapped(Allocate(slots, m.range.base, m.range.size, m.hostAddr).slots, n) <==> Mapped(slots, n) || n == m
  {
    var k, slots' := FirstFree(slots), Allocate(slots, m.range.base, m.range.size, m.hostAddr).slots;
    if i: nat :| Maps(slots', i, n) {
      assert i == k || Maps(slots, i, n);
    }
    if i: nat :| Maps(slots, i, n) {
      assert Maps(slots', i, n);
    }
    assert Maps(slots', k, m);
  }

  /** What slots map after the deallocation of a mapped range. */
  lemma {:induction false} DeallocateMaps(slots: seq<MemSlot>, range: AddressRange, n: Mapping)
    requires ValidSlots(slots) && range.size > 0
    ensures Mapped(Deallocate(slots, range.base, range.size), n) <==> Mapped(slots, n) && n.range != range
  {
    var k, slots' := FirstMatch(slots, range.base, range.size), Deallocate(slots, range.base, range.size);
    if i: nat :| Maps(slots', i, n) {
      assert Maps(slots, i, n);
      if n.range == range && k < |slots| {
        LiveRangesDiffer(slots, i, k);
      }
    }
    if i: nat :| Maps(slots, i, n) {
      assert n.range != range ==> Maps(slots', i, n);
    }
  }

  /** Flat ranges that want the same guest range mapped are the same. */
  lemma {:induction false} WantedRangesDiffer(frs: set<FlatRange>, x: FlatRange, y: FlatRange, page: nat)
    requires page > 0 && Separate(frs) && x in frs && y in frs && x != y
    requires MappingOf(x, page).Some? && AlignMemSlot(y.range, page).Some?
    ensures MappingOf(x, page).value.range != AlignMemSlot(y.range, page).value
  {
    AlignedInside(x.range, page);
    AlignedInside(y.range, page);
  }

  /** Deleting a flat range keeps the slots in step with the remaining ranges. */
  lemma {:induction false} DeleteRegionMirrors(slots: seq<MemSlot>, frs: set<FlatRange>, fr: FlatRange, page: nat)
    requires page > 0 && Separate(frs) && fr in frs && Mirrors(slots, frs, page)
    requires SlotsAfterDelete(slots, fr, page).Some?
    ensures Mirrors(SlotsAfterDelete(slots, fr, page).value, frs - {fr}, page)
  {
    var slots' := SlotsAfterDelete(slots, fr, page).value;
    if !fr.owner.kind.Io? {
      AlignedInside(fr.range, page);
      var r := AlignMemSlot(fr.range, page).value;
      DeallocateKeepsValid(slots, r.base, r.size);
      forall m: Mapping ensures Mapped(slots', m) <==> Wanted(frs - {fr}, m, page) {
        DeallocateMaps(slots, r, m);
        forall x | x in frs && x != fr && MappingOf(x, page) == Some(m) ensures m.range != r {
          WantedRangesDiffer(frs, x, fr, page);
        }
        if Wanted(frs, m, page) {
          var x :| x in frs && MappingOf(x, page) == Some(m);
          assert x != fr ==> x in frs - {fr};
        }
      }
    } else {
      forall m: Mapping ensures Wanted(frs, m, page) <==> Wanted(frs - {fr}, m, page) {
        if Wanted(frs, m, page) {
          var x :| x in frs && MappingOf(x, page) == Some(m);
          assert x in frs - {fr};
        }
      }
    }
  }

  /** Adding a flat range keeps the slots in step with the enlarged set of ranges. */
  lemma {:induction false} AddRegionMirrors(slots: seq<MemSlot>, frs: set<FlatRange>, fr: FlatRange, page: nat)
    requires page > 0 && Separate(frs + {fr}) && fr !in frs && Mirrors(slots, frs, page)
    requires SlotsAfterAdd(slots, fr, page).Some?
    ensures Mirrors(SlotsAfterAdd(slots, fr, page).value, frs + {fr}, page)
  {
    var slots' := SlotsAfterAdd(slots, fr, page).value;
    AlignedInside(fr.range, page);
    if MappingOf(fr, page).Some? {
      var m := MappingOf(fr, page).value;
      AllocateKeepsValid(slots, m.range.base, m.range.size, m.hostAddr);
    } else if !fr.owner.kind.Io? && AlignMemSlot(fr.range, page).Some? {
      var r := AlignMemSlot(fr.range, page).value;
      DeallocateKeepsValid(slots, r.base, r.size);
    }
    forall n: Mapping ensures Mapped(slots', n) <==> Wanted(frs + {fr}, n, page) {
      AddedIsWanted(slots, frs, fr, page, n);
      if Wanted(frs, n, page) {
        var x :| x in frs && MappingOf(x, page) == Some(n);
        assert x in frs + {fr};
      }
    }
  }

  lemma {:induction false} AddedIsWanted(slots: seq<MemSlot>, frs: set<FlatRange>, fr: FlatRange, page: nat, n: Mapping)
    requires page > 0 && Separate(frs + {fr}) && fr !in frs && TerminateOwners(frs) && Mirrors(slots, frs, page)
    requires SlotsAfterAdd(slots, fr, page).Some?
    ensures Mapped(SlotsAfterAdd(slots, fr, page).value, n) <==> Wanted(frs, n, page) || MappingOf(fr, page) == Some(n)
  {
    AlignedInside(fr.range, page);
    if MappingOf(fr, page).Some? {
      AllocateMaps(slots, MappingOf(fr, page).value, n);
    } else if !fr.owner.kind.Io? && AlignMemSlot(fr.range, page).Some? {
      var r := AlignMemSlot(fr.range, page).value;
      DeallocateMaps(slots, r, n);
      forall x | x in frs && MappingOf(x, page) == Some(n) ensures n.range != r {
        WantedRangesDiffer(frs + {fr}, x, fr, page);
      }
    }
  }
}