/** The subregion list of a container: kept by falling priority, and among equal
  priorities newest first, whatever sequence of additions and removals made it. */
module Containers {
  import opened Addresses
  import opened Regions

  /** Entry `i` takes precedence over entry `j`: higher priority, or equal
      priority and added later (`stamps` are times of addition). */
  ghost predicate Precedes(rs: seq<Region>, stamps: seq<nat>, i: nat, j: nat)
    requires |rs| == |stamps| && i < |rs| && j < |rs|
  {
    rs[i].priority > rs[j].priority || (rs[i].priority == rs[j].priority && stamps[i] > stamps[j])
  }

  ghost predicate Ordered(rs: seq<Region>, stamps: seq<nat>) {
    && |rs| == |stamps|
    && forall i, j :: 0 <= i < j < |rs| ==> Precedes(rs, stamps, i, j)
  }

  /** `i` resolves `off` and takes precedence over every other sibling that does. */
  ghost predicate Wins(rs: seq<Region>, stamps: seq<nat>, off: int, i: nat)
    requires |rs| == |stamps|
  {
    && i < |rs| && Resolve(rs[i], off - rs[i].offset).Some?
    && forall j :: 0 <= j < |rs| && j != i && Resolve(rs[j], off - rs[j].offset).Some? ==> Precedes(rs, stamps, i, j)
  }

  lemma {:induction false} FirstIndex(rs: seq<Region>, off: int) returns (k: nat)
    ensures k <= |rs|
    ensures forall j :: 0 <= j < k ==> Resolve(rs[j], off - rs[j].offset).None?
    ensures if k == |rs| then ResolveFirst(rs, off) == None
            else ResolveFirst(rs, off).Some? && ResolveFirst(rs, off) == Resolve(rs[k], off - rs[k].offset)
  {
    if rs == [] || Resolve(rs[0], off - rs[0].offset).Some? {
      k := 0;
    } else {
      var k' := FirstIndex(rs[1..], off);
      k := k' + 1;
      forall j | 0 <= j < k ensures Resolve(rs[j], off - rs[j].offset).None? {
        assert j > 0 ==> rs[j] == rs[1..][j - 1];
      }
    }
  }

  /** In an ordered list the address belongs to the winner by priority and age,
      and to nobody exactly when no sibling covers it. */
  lemma {:induction false} PriorityDecides(rs: seq<Region>, stamps: seq<nat>, off: int)
    requires Ordered(rs, stamps)
    ensures ResolveFirst(rs, off).None? <==>
            forall j :: 0 <= j < |rs| ==> Resolve(rs[j], off - rs[j].offset).None?
    ensures forall i :: 0 <= i < |rs| && Wins(rs, stamps, off, i) ==>
              ResolveFirst(rs, off) == Resolve(rs[i], off - rs[i].offset)
    ensures ResolveFirst(rs, off).Some? ==> exists i :: 0 <= i < |rs| && Wins(rs, stamps, off, i)
  {
    var k := FirstIndex(rs, off);
    if k < |rs| {
      assert Wins(rs, stamps, off, k);
      forall i | k < i < |rs| ensures !Wins(rs, stamps, off, i) {
        assert Precedes(rs, stamps, k, i) && !Precedes(rs, stamps, i, k);
      }
    }
  }

  class ContainerRegion {
    const size: nat
    var subregions: seq<Region>
    ghost var stamps: seq<nat>
    ghost var clock: nat

    ghost predicate Valid()
      reads this
    {
      && Ordered(subregions, stamps)
      && (forall i :: 0 <= i < |stamps| ==> stamps[i] < clock)
      && (forall i :: 0 <= i < |subregions| ==> subregions[i].offset + subregions[i].size <= size)
    }

    constructor (size: nat)
      ensures Valid() && subregions == [] && this.size == size
    {
      this.size := size;
      subregions, stamps, clock := [], [], 0;
    }

    /** Insert `child` at `offset` before the first subregion of no higher
        priority; refuse a child that reaches beyond the container. */
    method AddSubregionNotUpdate(child: Region, offset: nat) returns (ok: bool)
      requires Valid()
      modifies this
      ensures Valid()
      ensures ok <==> offset + child.size <= size
      ensures !ok ==> subregions == old(subregions) && stamps == old(stamps) && clock == old(clock)
      ensures ok ==> clock == old(clock) + 1
      ensures ok ==>
                exists k :: 0 <= k <= |old(subregions)| &&
                            subregions == old(subregions)[..k] + [child.(offset := offset)] + old(subregions)[k..] &&
                            stamps == old(stamps)[..k] + [old(clock)] + old(stamps)[k..]
    {
      if offset + child.size > size {
        return false;
      }
      var placed := child.(offset := offset);
      var index := 0;
      while index < |subregions|
        invariant 0 <= index <= |subregions|
        invariant forall j :: 0 <= j < index ==> subregions[j].priority > child.priority
      {
        if child.priority >= subregions[index].priority {
          break;
        }
        index := index + 1;
      }
      InsertOrdered(subregions, stamps, index, placed, clock);
      subregions := subregions[..index] + [placed] + subregions[index..];
      stamps := stamps[..index] + [clock] + stamps[index..];
      clock := clock + 1;
      return true;
    }

    /** Remove the first entry that is the same region as `child`. */
    method DeleteSubregion(child: Region) returns (ok: bool)
      requires Valid()
      modifies this
      ensures Valid() && clock == old(clock)
      ensures ok <==> exists k :: 0 <= k < |old(subregions)| && old(subregions)[k].id == child.id
      ensures !ok ==> subregions == old(subregions) && stamps == old(stamps)
      ensures ok ==>
                exists k :: 0 <= k < |old(subregions)| && old(subregions)[k].id == child.id &&
                            (forall j :: 0 <= j < k ==> old(subregions)[j].id != child.id) &&
                            subregions == old(subregions)[..k] + old(subregions)[k + 1..] &&
                            stamps == old(stamps)[..k] + old(stamps)[k + 1..]
    {
      var index := 0;
      while index < |subregions|
        invariant 0 <= index <= |subregions|
        invariant subregions == old(subregions) && stamps == old(stamps)
        invariant forall j :: 0 <= j < index ==> subregions[j].id != child.id
      {
        if subregions[index].id == child.id {
          RemoveOrdered(subregions, stamps, index);
          subregions := subregions[..index] + subregions[index + 1..];
          stamps := stamps[..index] + stamps[index + 1..];
          return true;
        }
        index := index + 1;
      }
      return false;
    }
  }

  lemma {:induction false} InsertOrdered(rs: seq<Region>, stamps: seq<nat>, k: nat, r: Region, now: nat)
    requires Ordered(rs, stamps) && k <= |rs|
    requires forall i :: 0 <= i < |stamps| ==> stamps[i] < now
    requires forall j :: 0 <= j < k ==> rs[j].priority > r.priority
    requires k < |rs| ==> r.priority >= rs[k].priority
    ensures Ordered(rs[..k] + [r] + rs[k..], stamps[..k] + [now] + stamps[k..])
  {
    var rs', stamps' := rs[..k] + [r] + rs[k..], stamps[..k] + [now] + stamps[k..];
    forall i, j | 0 <= i < j < |rs'| ensures Precedes(rs', stamps', i, j) {
      if i != k && j != k {
        assert Precedes(rs, stamps, if i < k then i else i - 1, if j < k then j else j - 1);
      } else if i == k && j > k + 1 {
        assert Precedes(rs, stamps, k, j - 1);
      }
    }
  }

  lemma {:induction false} RemoveOrdered(rs: seq<Region>, stamps: seq<nat>, k: nat)
    requires Ordered(rs, stamps) && k < |rs|
    ensures Ordered(rs[..k] + rs[k + 1..], stamps[..k] + stamps[k + 1..])
  {
    var rs', stamps' := rs[..k] + rs[k + 1..], stamps[..k] + stamps[k + 1..];
    forall i, j | 0 <= i < j < |rs'| ensures Precedes(rs', stamps', i, j) {
      assert Precedes(rs, stamps, if i < k then i else i + 1, if j < k then j else j + 1);
    }
  }
}
