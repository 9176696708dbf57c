/** Rendering a region tree into a flat view.

  A flat view is the sorted list of address ranges through which every access,
  listener update and translation goes.  The main result is that looking an
  address up in the rendered view gives exactly what `Regions.Resolve` says. */
module FlatViews {
  import opened Addresses
  import opened Regions

  /** A piece of contiguous address space owned by a terminating region. */
  datatype FlatRange = FlatRange(range: AddressRange, owner: Region, offsetInRegion: nat) {
    /** What the range shows at address `a`. */
    function HitAt(a: int): Hit
      requires range.Contains(a)
    {
      Hit(owner, offsetInRegion + (a - range.base))
    }

    /** The range shows only bytes its owner has. */
    predicate InOwner() {
      owner.Terminate? && offsetInRegion + range.size <= owner.size
    }
  }

  /** What a view shows at address `a`. */
  function At(s: seq<FlatRange>, a: int): (hit: Option<Hit>)
  {
    if s == [] then None
    else if s[0].range.Contains(a) then Some(s[0].HitAt(a))
    else At(s[1..], a)
  }

  /** Ascending, pairwise disjoint, within `u64`, each range inside its owner. */
  ghost predicate ValidView(s: seq<FlatRange>) {
    && (forall i, j :: 0 <= i < j < |s| ==> s[i].range.End() <= s[j].range.base)
    && (forall i :: 0 <= i < |s| ==> s[i].range.End() <= U64_MAX && s[i].InOwner())
  }

  ghost predicate NoEmptyRange(s: seq<FlatRange>) {
    forall i :: 0 <= i < |s| ==> s[i].range.size > 0
  }

  lemma {:induction false} AtConcat(s: seq<FlatRange>, t: seq<FlatRange>, a: int)
    ensures At(s + t, a) == if At(s, a).Some? then At(s, a) else At(t, a)
  {
    if s == [] {
      assert s + t == t;
    } else {
      assert (s + t)[1..] == s[1..] + t;
      AtConcat(s[1..], t, a);
    }
  }

  lemma {:induction false} AtNone(s: seq<FlatRange>, a: int)
    requires forall i :: 0 <= i < |s| ==> !s[i].range.Contains(a)
    ensures At(s, a) == None
  {
    if s != [] {
      forall i | 0 <= i < |s[1..]| ensures !s[1..][i].range.Contains(a) {
        assert s[1..][i] == s[i + 1];
      }
      AtNone(s[1..], a);
    }
  }

  /** In a valid view an address is shown by at most one range. */
  lemma {:induction false} AtIndex(s: seq<FlatRange>, i: nat, a: int)
    requires ValidView(s) && i < |s| && s[i].range.Contains(a)
    ensures At(s, a) == Some(s[i].HitAt(a))
  {
    assert s == s[..i] + s[i..];
    AtConcat(s[..i], s[i..], a);
    AtNone(s[..i], a);
  }

  function Inserted(s: seq<FlatRange>, i: nat, x: FlatRange): seq<FlatRange>
    requires i <= |s|
  {
    s[..i] + [x] + s[i..]
  }

  /** `x` fits into the gap of the view before position `i`. */
  ghost predicate FitsGap(s: seq<FlatRange>, i: nat, x: FlatRange) {
    && i <= |s| && x.range.End() <= U64_MAX && x.InOwner()
    && (i > 0 ==> s[i - 1].range.End() <= x.range.base)
    && (i < |s| ==> x.range.End() <= s[i].range.base)
  }

  lemma {:induction false} InsertKeepsValid(s: seq<FlatRange>, i: nat, x: FlatRange)
    requires ValidView(s) && FitsGap(s, i, x)
    ensures ValidView(Inserted(s, i, x))
  {
    var t := Inserted(s, i, x);
    assert forall j :: 0 <= j < i ==> s[j].range.End() <= x.range.base;
    assert forall j :: 0 <= j < |t| ==> t[j] == if j < i then s[j] else if j == i then x else s[j - 1];
  }

  /** The new entry hides nothing. */
  lemma {:induction false} GapShowsNothing(s: seq<FlatRange>, i: nat, x: FlatRange, a: int)
    requires ValidView(s) && FitsGap(s, i, x) && x.range.Contains(a)
    ensures At(s, a) == None && At(s[..i], a) == None
  {
    hide At;
    forall j | 0 <= j < |s| ensures !s[j].range.Contains(a) {
      if j < i {
        assert s[j].range.End() <= s[i - 1].range.End();
      } else {
        assert s[i].range.base <= s[j].range.base;
      }
    }
    AtNone(s[..i], a);
    AtNone(s, a);
  }

  lemma {:induction false} InsertShows(s: seq<FlatRange>, i: nat, x: FlatRange, a: int)
    requires ValidView(s) && FitsGap(s, i, x) && x.range.Contains(a)
    ensures At(s, a) == None && At(Inserted(s, i, x), a) == Some(x.HitAt(a))
  {
    GapShowsNothing(s, i, x, a);
    AtInserted(s, i, x, a);
    AtOne(x, a);
    hide At, ValidView, FitsGap, Inserted;
  }

  lemma {:induction false} InsertKeeps(s: seq<FlatRange>, i: nat, x: FlatRange, a: int)
    requires i <= |s| && !x.range.Contains(a)
    ensures At(Inserted(s, i, x), a) == At(s, a)
  {
    hide At, Inserted;
    AtInserted(s, i, x, a);
    AtOne(x, a);
    AtConcat(s[..i], s[i..], a);
    assert s == s[..i] + s[i..];
  }

  lemma {:induction false} InsertAt(s: seq<FlatRange>, i: nat, x: FlatRange, a: int)
    requires ValidView(s) && FitsGap(s, i, x)
    ensures x.range.Contains(a) ==> At(s, a) == None
    ensures At(Inserted(s, i, x), a) == if x.range.Contains(a) then Some(x.HitAt(a)) else At(s, a)
  {
    hide At, ValidView, Inserted;
    if x.range.Contains(a) {
      InsertShows(s, i, x, a);
    } else {
      InsertKeeps(s, i, x, a);
    }
  }

  /** The new entry is looked at behind the entries before it and before the others. */
  lemma {:induction false} AtInserted(s: seq<FlatRange>, i: nat, x: FlatRange, a: int)
    requires i <= |s|
    ensures At(Inserted(s, i, x), a) ==
            if At(s[..i], a).Some? then At(s[..i], a) else if At([x], a).Some? then At([x], a) else At(s[i..], a)
  {
    hide At;
    AtConcat(s[..i] + [x], s[i..], a);
    AtConcat(s[..i], [x], a);
  }

  lemma {:induction false} AtOne(x: FlatRange, a: int)
    ensures At([x], a) == if x.range.Contains(a) then Some(x.HitAt(a)) else None
  {
    assert [x][1..] == [];
  }

  /** A view entry inserted into a gap of the view is shown, and nothing else changes. */
  lemma {:induction false} InsertInGap(s: seq<FlatRange>, i: nat, x: FlatRange)
    requires ValidView(s) && FitsGap(s, i, x)
    ensures ValidView(Inserted(s, i, x))
    ensures forall a: int :: x.range.Contains(a) ==> At(s, a) == None
    ensures forall a: int ::
              At(Inserted(s, i, x), a) == if x.range.Contains(a) then Some(x.HitAt(a)) else At(s, a)
  {
    InsertKeepsValid(s, i, x);
    forall a: int
      ensures x.range.Contains(a) ==> At(s, a) == None
      ensures At(Inserted(s, i, x), a) == if x.range.Contains(a) then Some(x.HitAt(a)) else At(s, a)
    {
      InsertAt(s, i, x, a);
    }
  }

  /** What is shown at `a` once the slice [lo, hi) of the guest is laid under a
      view with the region `r` placed at `place`: earlier entries keep priority. */
  function Under(before: Option<Hit>, r: Region, place: nat, lo: int, hi: int, a: int): Option<Hit> {
    if before.Some? then before
    else if lo <= a < hi then Resolve(r, a - place)
    else None
  }

  /** `now` is `was` with the slice [lo, hi) of `r`, placed at `place`, laid under it. */
  ghost predicate LaidUnder(was: seq<FlatRange>, now: seq<FlatRange>, r: Region, place: nat, lo: int, hi: int) {
    forall a: int :: At(now, a) == Under(At(was, a), r, place, lo, hi, a)
  }

  /** `now` is a valid view that lays [lo, hi) of `r` under `was` and has nothing
      below `i` that reaches beyond `hi`; if `solid`, it has no new empty range. */
  ghost predicate RenderedTo(was: seq<FlatRange>, now: seq<FlatRange>, i: nat, r: Region, place: nat, lo: int, hi: int,
                             solid: bool) {
    && ValidView(now)
    && i <= |now| && (i > 0 ==> now[i - 1].range.End() <= hi)
    && LaidUnder(was, now, r, place, lo, hi)
    && (solid && NoEmptyRange(was) ==> NoEmptyRange(now))
  }

  lemma {:induction false} NothingRendered(was: seq<FlatRange>, r: Region, place: nat, lo: int, solid: bool)
    requires ValidView(was)
    ensures RenderedTo(was, was, 0, r, place, lo, lo, solid)
  {
  }

  /** Filling the gap that begins at `hi` extends the slice laid so far. */
  lemma {:induction false} FillGap(was: seq<FlatRange>, now: seq<FlatRange>, i: nat, r: Region, place: nat, lo: nat,
                                   hi: nat, gap: FlatRange, solid: bool)
    requires RenderedTo(was, now, i, r, place, lo, hi, solid)
    requires r.Terminate? && place <= lo <= hi
    requires (solid ==> gap.range.size > 0) && gap.owner == r && gap.offsetInRegion == hi - place
    requires gap.range.base == hi && gap.range.End() <= place + r.size && gap.range.End() <= U64_MAX
    requires i < |now| ==> gap.range.End() <= now[i].range.base
    ensures RenderedTo(was, Inserted(now, i, gap), i + 1, r, place, lo, gap.range.End(), solid)
    ensures |Inserted(now, i, gap)| == |now| + 1 && (i < |now| ==> Inserted(now, i, gap)[i + 1] == now[i])
  {
    InsertInGap(now, i, gap);
  }

  /** Addresses the view already shows extend the slice laid so far. */
  lemma {:induction false} PassShown(was: seq<FlatRange>, now: seq<FlatRange>, i: nat, r: Region, place: nat, lo: nat,
                                     hi: nat, hi': nat, solid: bool)
    requires RenderedTo(was, now, i, r, place, lo, hi, solid)
    requires r.Terminate? && lo <= hi <= hi'
    requires i < |now| && (hi < hi' ==> now[i].range.base <= hi && hi' <= now[i].range.End())
    ensures RenderedTo(was, now, i, r, place, lo, hi', solid)
    ensures now[i].range.End() <= hi' ==> RenderedTo(was, now, i + 1, r, place, lo, hi', solid)
  {
    forall a: int ensures At(now, a) == Under(At(was, a), r, place, lo, hi', a) {
      if hi <= a < hi' {
        AtIndex(now, i, a);
      }
    }
  }

  /** The entry that shows `r` from `start` on, up to the next entry `fr` at most. */
  function GapBefore(fr: FlatRange, r: Region, start: nat, remain: nat, offsetInRegion: nat): FlatRange
    requires start < fr.range.base
  {
    FlatRange(AddressRange(start, Min(remain, OffsetFrom(fr.range.base, start))), r, offsetInRegion)
  }

  /** The view after one round of rendering at the entry at `i`. */
  function Filled(now: seq<FlatRange>, i: nat, r: Region, start: nat, remain: nat, offsetInRegion: nat): seq<FlatRange>
    requires i < |now|
  {
    if start < now[i].range.base then Inserted(now, i, GapBefore(now[i], r, start, remain, offsetInRegion)) else now
  }

  /** One round fills the gap before the entry at `i`, if there is one, and passes the entry. */
  lemma {:induction false} RoundExtends(was: seq<FlatRange>, now: seq<FlatRange>, i: nat, r: Region, place: nat,
                                        lo: nat, start: nat, remain: nat, solid: bool)
    requires RenderedTo(was, now, i, r, place, lo, start, solid)
    requires r.Terminate? && place <= lo <= start && start + remain <= place + r.size && start + remain <= U64_MAX
    requires i < |now| && start < now[i].range.End() && (solid ==> remain > 0)
    ensures var step := Min(now[i].range.End() - start, remain);
            var now' := Filled(now, i, r, start, remain, start - place);
            var i' := if start < now[i].range.base then i + 1 else i;
            && RenderedTo(was, now', i', r, place, lo, start + step, solid)
            && (step < remain ==> RenderedTo(was, now', i' + 1, r, place, lo, start + step, solid))
            && |now'| - i' == |now| - i
  {
    hide RenderedTo, Inserted;
    var fr, step := now[i], Min(now[i].range.End() - start, remain);
    if start < fr.range.base {
      var gap := GapBefore(fr, r, start, remain, start - place);
      FillGap(was, now, i, r, place, lo, start, gap, solid);
      PassShown(was, Inserted(now, i, gap), i + 1, r, place, lo, gap.range.End(), start + step, solid);
    } else {
      PassShown(was, now, i, r, place, lo, start, start + step, solid);
    }
  }

  /** A region that is rendered to the end of its intersection with `range` is
      laid under the view throughout `range`. */
  lemma {:induction false} RenderedAll(was: seq<FlatRange>, now: seq<FlatRange>, i: nat, r: Region, place: nat,
                                       range: AddressRange, solid: bool)
    requires r.Terminate?
    requires RenderedTo(was, now, i, r, place, Max(place, range.base), Min(place + r.size, range.End()), solid)
    ensures ValidView(now) && LaidUnder(was, now, r, place, range.base, range.End())
    ensures solid && NoEmptyRange(was) ==> NoEmptyRange(now)
  {
  }

  /** `now` lays the slice [lo, hi) of the siblings `rs`, placed at `place`, under `was`. */
  ghost predicate FirstsUnder(was: seq<FlatRange>, now: seq<FlatRange>, rs: seq<Region>, place: nat, lo: int, hi: int) {
    forall a: int :: At(now, a) ==
      if At(was, a).Some? then At(was, a) else if lo <= a < hi then ResolveFirst(rs, a - place) else None
  }

  lemma {:induction false} NoSiblings(was: seq<FlatRange>, place: nat, lo: int, hi: int)
    ensures forall rs: seq<Region> :: rs == [] ==> FirstsUnder(was, was, rs, place, lo, hi)
  {
  }

  lemma {:induction false} NotReached(was: seq<FlatRange>, r: Region, place: nat, range: AddressRange)
    requires Disjoint(AddressRange(place, r.size), range)
    ensures LaidUnder(was, was, r, place, range.base, range.End())
  {
  }

  lemma {:induction false} FirstsUnderStep(was: seq<FlatRange>, mid: seq<FlatRange>, now: seq<FlatRange>,
                                           rs: seq<Region>, i: nat, place: nat, lo: int, hi: int)
    requires i < |rs|
    requires FirstsUnder(was, mid, rs[..i], place, lo, hi)
    requires LaidUnder(mid, now, rs[i], place + rs[i].offset, lo, hi)
    ensures FirstsUnder(was, now, rs[..i + 1], place, lo, hi)
  {
    assert rs[..i + 1] == rs[..i] + [rs[i]];
    forall a: int
      ensures At(now, a) ==
              if At(was, a).Some? then At(was, a)
              else if lo <= a < hi then ResolveFirst(rs[..i + 1], a - place) else None
    {
      ResolveFirstAppend(rs[..i], rs[i], a - place);
    }
  }

  lemma {:induction false} ContainerUnder(was: seq<FlatRange>, now: seq<FlatRange>, r: Region, place: nat,
                                          range: AddressRange)
    requires r.Container?
    requires FirstsUnder(was, now, r.subregions, place, Max(place, range.base), Min(place + r.size, range.End()))
    ensures LaidUnder(was, now, r, place, range.base, range.End())
  {
  }

  lemma {:induction false} AliasUnder(was: seq<FlatRange>, now: seq<FlatRange>, r: Region, place: nat,
                                      range: AddressRange)
    requires r.Alias? && r.aliasOffset <= place
    requires LaidUnder(was, now, r.target, place - r.aliasOffset, Max(place, range.base),
                       Min(place + r.size, range.End()))
    ensures LaidUnder(was, now, r, place, range.base, range.End())
  {
  }

  class FlatView {
    var ranges: seq<FlatRange>

    constructor ()
      ensures ranges == []
    {
      ranges := [];
    }

    /** Lay the terminating region `r` under the view: fill every gap of the view
        inside the intersection of `r` and `range`, leave everything else alone.
        Fails exactly when the two do not intersect. */
    method RenderTerminateRegion(r: Region, base: nat, range: AddressRange) returns (ok: bool)
      requires r.Terminate? && base + r.offset <= U64_MAX && range.End() <= U64_MAX
      requires ValidView(ranges)
      modifies this
      ensures ok <==> !Disjoint(AddressRange(base + r.offset, r.size), range)
      ensures ValidView(ranges)
      ensures LaidUnder(old(ranges), ranges, r, base + r.offset, range.base, range.End())
      ensures NoEmptyRange(old(ranges)) && r.size > 0 && range.size > 0 ==> NoEmptyRange(ranges)
    {
      hide Inserted, RenderedTo, ValidView, NoEmptyRange, LaidUnder;
      var regionRange := AddressRange(UncheckedAdd(base, r.offset), r.size);
      var found := regionRange.FindIntersection(range);
      if found.None? {
        NotReached(ranges, r, regionRange.base, range);
        return false;
      }
      var intersect := found.value;
      ghost var place, lo, solid := regionRange.base, intersect.base, intersect.size > 0;

      var offsetInRegion := OffsetFrom(intersect.base, regionRange.base);
      var start := intersect.base;
      var remain: nat := intersect.size;
      var index := 0;
      NothingRendered(ranges, r, place, lo, solid);
      while index < |ranges|
        invariant 0 <= index <= |ranges|
        invariant start + remain == intersect.End() && (solid ==> remain > 0)
        invariant lo <= start && offsetInRegion == start - place
        invariant RenderedTo(old(ranges), ranges, index, r, place, lo, start, solid)
        decreases |ranges| - index
      {
        var fr := ranges[index];
        var frEnd := fr.range.End();
        if start >= frEnd {
          PassShown(old(ranges), ranges, index, r, place, lo, start, start, solid);
          index := index + 1;
          continue;
        }
        RoundExtends(old(ranges), ranges, index, r, place, lo, start, remain, solid);
        if start < fr.range.base {
          ranges := Inserted(ranges, index, GapBefore(fr, r, start, remain, offsetInRegion));
          index := index + 1;
        }
        var step: nat := Min(OffsetFrom(frEnd, start), remain);
        start := UncheckedAdd(start, step);
        offsetInRegion := offsetInRegion + step;
        remain := remain - step;
        if remain == 0 {
          break;
        }
        index := index + 1;
      }

      if remain > 0 {
        var rest := FlatRange(AddressRange(start, remain), r, offsetInRegion);
        FillGap(old(ranges), ranges, index, r, place, lo, start, rest, solid);
        ranges := Inserted(ranges, index, rest);
        index := index + 1;
      }
      RenderedAll(old(ranges), ranges, index, r, place, range, solid);
      return true;
    }

    /** Lay the region `r`, whose parent begins at `base`, under the view. */
    method RenderRegionPass(r: Region, base: nat, range: AddressRange) returns (ok: bool)
      requires Renderable(r, base, range) && range.End() <= U64_MAX
      requires ValidView(ranges)
      modifies this
      ensures ok
      ensures ValidView(ranges)
      ensures LaidUnder(old(ranges), ranges, r, base + r.offset, range.base, range.End())
      ensures NoEmptyRange(old(ranges)) && PositiveSizes(r) && range.size > 0 ==> NoEmptyRange(ranges)
      decreases r
    {
      hide ValidView, NoEmptyRange, LaidUnder, FirstsUnder;
      var regionBase := UncheckedAdd(base, r.offset);
      var regionRange := AddressRange(regionBase, r.size);
      var found := regionRange.FindIntersection(range);
      if found.None? {
        NotReached(ranges, r, regionBase, range);
        return true;
      }
      var intersect := found.value;
      match r {
        case Container(_, _, _, _, subregions) =>
          var i := 0;
          NoSiblings(ranges, regionBase, intersect.base, intersect.End());
          while i < |subregions|
            invariant 0 <= i <= |subregions|
            invariant ValidView(ranges)
            invariant FirstsUnder(old(ranges), ranges, subregions[..i], regionBase, intersect.base, intersect.End())
            invariant NoEmptyRange(old(ranges)) && PositiveSizes(r) && range.size > 0 ==> NoEmptyRange(ranges)
          {
            ghost var before := ranges;
            assert subregions[i] in subregions;
            var rendered := RenderRegionPass(subregions[i], regionBase, intersect);
            FirstsUnderStep(old(ranges), before, ranges, subregions, i, regionBase, intersect.base, intersect.End());
            if !rendered {
              return false;
            }
            i := i + 1;
          }
          assert subregions[..i] == subregions;
          ContainerUnder(old(ranges), ranges, r, regionBase, range);
        case Alias(_, _, _, _, target, aliasOffset) =>
          var aliasBase := regionBase - aliasOffset - target.offset;
          ok := RenderRegionPass(target, aliasBase, intersect);
          AliasUnder(old(ranges), ranges, r, regionBase, range);
          return ok;
        case Terminate(_, _, _, _, _) =>
          ok := RenderTerminateRegion(r, base, range);
          return ok;
      }
      return true;
    }
  }

  /** The flat view of the tree under `root`, or failure when `root` is not a
      container.  Every address of `range` shows what the tree resolves it to. */
  method GenerateFlatView(root: Region, base: nat, range: AddressRange) returns (view: FlatView?)
    requires Renderable(root, base, range) && range.End() <= U64_MAX
    ensures view == null <==> !root.Container?
    ensures view != null ==> fresh(view) && ValidView(view.ranges)
    ensures view != null ==> Renders(view.ranges, root, base + root.offset, range)
    ensures view != null && PositiveSizes(root) && range.size > 0 ==> NoEmptyRange(view.ranges)
  {
    if !root.Container? {
      return null;
    }
    view := new FlatView();
    var ok := view.RenderRegionPass(root, base, range);
  }

  /** The view shows, throughout `range` and nowhere else, what the tree under
      `root` placed at `place` resolves to. */
  ghost predicate Renders(s: seq<FlatRange>, root: Region, place: nat, range: AddressRange) {
    forall a: int :: At(s, a) == if range.Contains(a) then Resolve(root, a - place) else None
  }

  /** Number of entries of `s` whose base is at most `a`, by bisection of [lo, hi). */
  function UpperBound(s: seq<FlatRange>, a: int, lo: nat, hi: nat): (n: nat)
    requires lo <= hi <= |s| && ValidView(s) && NoEmptyRange(s)
    requires forall i :: 0 <= i < lo ==> s[i].range.base <= a
    requires forall i :: hi <= i < |s| ==> a < s[i].range.base
    ensures lo <= n <= hi
    ensures forall i :: 0 <= i < n ==> s[i].range.base <= a
    ensures forall i :: n <= i < |s| ==> a < s[i].range.base
    decreases hi - lo
  {
    if lo == hi then
      lo
    else
      var mid := lo + (hi - lo) / 2;
      if s[mid].range.base <= a then UpperBound(s, a, mid + 1, hi) else UpperBound(s, a, lo, mid)
  }

  /** Binary search by base address: the entry whose base is `a`, or else the
      last entry below `a` if `a` lies before its end. */
  function FindFlatRange(s: seq<FlatRange>, a: int): (found: Option<FlatRange>)
    requires ValidView(s) && NoEmptyRange(s)
  {
    var n := UpperBound(s, a, 0, |s|);
    if n > 0 && s[n - 1].range.base == a then Some(s[n - 1])
    else if n > 0 && a < s[n - 1].range.End() then Some(s[n - 1])
    else None
  }

  /** Binary search finds exactly the entry that shows `a`. */
  lemma {:induction false} FindFlatRangeExact(s: seq<FlatRange>, a: int)
    requires ValidView(s) && NoEmptyRange(s)
    ensures FindFlatRange(s, a).Some? <==> At(s, a).Some?
    ensures FindFlatRange(s, a).Some? ==>
              var fr := FindFlatRange(s, a).value;
              fr in s && fr.range.Contains(a) && At(s, a) == Some(fr.HitAt(a))
  {
    var n := UpperBound(s, a, 0, |s|);
    if n > 0 && s[n - 1].range.Contains(a) {
      AtIndex(s, n - 1, a);
    } else {
      AtNone(s, a);
    }
  }

  /** Looking an address up in a rendered view is resolving it in the tree. */
  lemma {:induction false} LookupIsResolve(s: seq<FlatRange>, root: Region, place: nat, range: AddressRange, a: int)
    requires ValidView(s) && NoEmptyRange(s) && Renders(s, root, place, range) && range.Contains(a)
    ensures match FindFlatRange(s, a)
            case Some(fr) => fr.range.Contains(a) && Resolve(root, a - place) == Some(fr.HitAt(a))
            case None => Resolve(root, a - place) == None
  {
    FindFlatRangeExact(s, a);
  }
}
