/** Topology updates: the difference of two flat views is sent to the listeners in
  two passes, first the ranges to delete, then the ranges to add. */
module Topology {
  import opened Addresses
  import opened Regions
  import opened FlatViews
  import opened KvmSlots

  /** The entries of `s` that `t` does not have, in order. */
  function Missing(s: seq<FlatRange>, t: seq<FlatRange>): seq<FlatRange> {
    if s == [] then []
    else Missing(s[..|s| - 1], t) + (if s[|s| - 1] in t then [] else [s[|s| - 1]])
  }

  /** Views that are sorted, disjoint and free of empty ranges. */
  ghost predicate Proper(s: seq<FlatRange>) {
    ValidView(s) && NoEmptyRange(s)
  }

  function ToSet(s: seq<FlatRange>): set<FlatRange> {
    set fr | fr in s
  }

  lemma {:induction false} MissingExact(s: seq<FlatRange>, t: seq<FlatRange>)
    ensures forall fr :: fr in Missing(s, t) <==> fr in s && fr !in t
  {
    if s != [] {
      var k := |s| - 1;
      MissingExact(s[..k], t);
      assert s == s[..k] + [s[k]];
    }
  }

  /** Entries of the two views before positions `o` and `n` have been paired off:
      none of them occurs in the rest of the other view. */
  ghost predicate PairedOff(old_: seq<FlatRange>, new_: seq<FlatRange>, o: nat, n: nat) {
    && o <= |old_| && n <= |new_|
    && (forall i, j :: 0 <= i < o && n <= j < |new_| ==> old_[i] != new_[j])
    && (forall i, j :: o <= i < |old_| && 0 <= j < n ==> old_[i] != new_[j])
  }

  /** The next old entry has no partner and can be passed. */
  ghost predicate OldAlone(old_: seq<FlatRange>, new_: seq<FlatRange>, o: nat, n: nat) {
    && o < |old_|
    && (n < |new_| ==> old_[o].range.base <= new_[n].range.base && old_[o] != new_[n])
  }

  lemma {:induction false} PassOld(old_: seq<FlatRange>, new_: seq<FlatRange>, o: nat, n: nat)
    requires Proper(old_) && Proper(new_) && PairedOff(old_, new_, o, n) && OldAlone(old_, new_, o, n)
    ensures PairedOff(old_, new_, o + 1, n) && old_[o] !in new_
  {
    forall j | n < j < |new_| ensures old_[o] != new_[j] {
      assert new_[n].range.End() <= new_[j].range.base;
    }
  }

  lemma {:induction false} PairedOffSwap(old_: seq<FlatRange>, new_: seq<FlatRange>, o: nat, n: nat)
    requires PairedOff(old_, new_, o, n)
    ensures PairedOff(new_, old_, n, o)
  {
  }

  lemma {:induction false} PassBoth(old_: seq<FlatRange>, new_: seq<FlatRange>, o: nat, n: nat)
    requires Proper(old_) && Proper(new_) && PairedOff(old_, new_, o, n)
    requires o < |old_| && n < |new_| && old_[o] == new_[n]
    ensures PairedOff(old_, new_, o + 1, n + 1)
  {
    forall j | n < j < |new_| ensures old_[o] != new_[j] {
      assert new_[n].range.End() <= new_[j].range.base;
    }
    forall i | o < i < |old_| ensures old_[i] != new_[n] {
      assert old_[o].range.End() <= old_[i].range.base;
    }
  }

  lemma {:induction false} MissingStep(s: seq<FlatRange>, t: seq<FlatRange>, k: nat)
    requires k < |s|
    ensures Missing(s[..k + 1], t) == Missing(s[..k], t) + (if s[k] in t then [] else [s[k]])
  {
    assert s[..k + 1][..k] == s[..k];
  }

  /** A pass has worked through the first `o` old and `n` new entries and sent `requests`. */
  ghost predicate InPass(old_: seq<FlatRange>, new_: seq<FlatRange>, o: nat, n: nat, isAdd: bool,
                         requests: seq<FlatRange>) {
    && PairedOff(old_, new_, o, n)
    && requests == if isAdd then Missing(new_[..n], old_) else Missing(old_[..o], new_)
  }

  lemma {:induction false} PassStart(old_: seq<FlatRange>, new_: seq<FlatRange>, isAdd: bool)
    ensures InPass(old_, new_, 0, 0, isAdd, []) && Terminating([])
    ensures forall slots: seq<MemSlot>, page: nat :: page > 0 ==> SlotsAfter(slots, [], isAdd, page) == Some(slots)
  {
  }

  lemma {:induction false} PassEnd(old_: seq<FlatRange>, new_: seq<FlatRange>, isAdd: bool, requests: seq<FlatRange>)
    requires InPass(old_, new_, |old_|, |new_|, isAdd, requests)
    ensures requests == PassRequests(old_, new_, isAdd)
  {
    assert old_[..|old_|] == old_ && new_[..|new_|] == new_;
  }

  lemma {:induction false} OldPassed(old_: seq<FlatRange>, new_: seq<FlatRange>, o: nat, n: nat, isAdd: bool,
                                     requests: seq<FlatRange>)
    requires Proper(old_) && Proper(new_) && InPass(old_, new_, o, n, isAdd, requests) && OldAlone(old_, new_, o, n)
    ensures InPass(old_, new_, o + 1, n, isAdd, if isAdd then requests else requests + [old_[o]])
    ensures old_[o].owner.Terminate?
  {
    PassOld(old_, new_, o, n);
    MissingStep(old_, new_, o);
  }

  lemma {:induction false} NewPassed(old_: seq<FlatRange>, new_: seq<FlatRange>, o: nat, n: nat, isAdd: bool,
                                     requests: seq<FlatRange>)
    requires Proper(old_) && Proper(new_) && InPass(old_, new_, o, n, isAdd, requests) && OldAlone(new_, old_, n, o)
    ensures InPass(old_, new_, o, n + 1, isAdd, if isAdd then requests + [new_[n]] else requests)
    ensures new_[n].owner.Terminate?
  {
    PairedOffSwap(old_, new_, o, n);
    PassOld(new_, old_, n, o);
    PairedOffSwap(new_, old_, n + 1, o);
    MissingStep(new_, old_, n);
  }

  lemma {:induction false} BothPassed(old_: seq<FlatRange>, new_: seq<FlatRange>, o: nat, n: nat, isAdd: bool,
                                      requests: seq<FlatRange>)
    requires Proper(old_) && Proper(new_) && InPass(old_, new_, o, n, isAdd, requests)
    requires o < |old_| && n < |new_| && old_[o] == new_[n]
    ensures InPass(old_, new_, o + 1, n + 1, isAdd, requests)
  {
    PassBoth(old_, new_, o, n);
    MissingStep(old_, new_, o);
    MissingStep(new_, old_, n);
  }

  /** What one delete or add request makes of the slots; `None` when it is refused. */
  function SlotsAfterRequest(slots: seq<MemSlot>, fr: FlatRange, isAdd: bool, page: nat): Option<seq<MemSlot>>
    requires page > 0 && fr.owner.Terminate?
  {
    if isAdd then SlotsAfterAdd(slots, fr, page) else SlotsAfterDelete(slots, fr, page)
  }

  /** What a sequence of delete or add requests makes of the slots; `None` once one is refused. */
  function SlotsAfter(slots: seq<MemSlot>, frs: seq<FlatRange>, isAdd: bool, page: nat): Option<seq<MemSlot>>
    requires page > 0 && Terminating(frs)
  {
    if frs == [] then Some(slots)
    else
      match SlotsAfter(slots, frs[..|frs| - 1], isAdd, page)
      case None => None
      case Some(slots') => SlotsAfterRequest(slots', frs[|frs| - 1], isAdd, page)
  }

  ghost predicate Terminating(frs: seq<FlatRange>) {
    forall i :: 0 <= i < |frs| ==> frs[i].owner.Terminate?
  }

  lemma {:induction false} SlotsAfterStep(slots: seq<MemSlot>, frs: seq<FlatRange>, fr: FlatRange, isAdd: bool,
                                          page: nat)
    requires page > 0 && Terminating(frs) && fr.owner.Terminate?
    ensures SlotsAfter(slots, frs + [fr], isAdd, page) ==
            match SlotsAfter(slots, frs, isAdd, page)
            case None => None
            case Some(slots') => SlotsAfterRequest(slots', fr, isAdd, page)
    ensures Terminating(frs + [fr])
  {
    assert (frs + [fr])[..|frs|] == frs;
  }

  lemma {:induction false} MissingPrefix(s: seq<FlatRange>, t: seq<FlatRange>, k: nat)
    requires k <= |s|
    ensures Missing(s[..k], t) <= Missing(s, t)
  {
    if k < |s| {
      MissingPrefix(s[..|s| - 1], t, k);
      assert s[..|s| - 1][..k] == s[..k];
    } else {
      assert s[..k] == s;
    }
  }

  /** A refused request ends the sequence. */
  lemma {:induction false} RefusedEnds(slots: seq<MemSlot>, frs: seq<FlatRange>, k: nat, isAdd: bool, page: nat)
    requires page > 0 && Terminating(frs) && k <= |frs| && SlotsAfter(slots, frs[..k], isAdd, page) == None
    ensures SlotsAfter(slots, frs, isAdd, page) == None
  {
    if k < |frs| {
      assert frs[..|frs| - 1][..k] == frs[..k];
      RefusedEnds(slots, frs[..|frs| - 1], k, isAdd, page);
    } else {
      assert frs[..k] == frs;
    }
  }

  /** The requests of the whole pass, deletions or additions. */
  function PassRequests(old_: seq<FlatRange>, new_: seq<FlatRange>, isAdd: bool): seq<FlatRange> {
    if isAdd then Missing(new_, old_) else Missing(old_, new_)
  }

  lemma {:induction false} PassRefused(slots: seq<MemSlot>, old_: seq<FlatRange>, new_: seq<FlatRange>, o: nat, n: nat,
                                       isAdd: bool, requests: seq<FlatRange>, page: nat)
    requires page > 0 && Terminating(PassRequests(old_, new_, isAdd)) && Terminating(requests)
    requires InPass(old_, new_, o, n, isAdd, requests) && SlotsAfter(slots, requests, isAdd, page) == None
    ensures SlotsAfter(slots, PassRequests(old_, new_, isAdd), isAdd, page) == None
    ensures requests <= PassRequests(old_, new_, isAdd)
  {
    if isAdd {
      MissingPrefix(new_, old_, n);
    } else {
      MissingPrefix(old_, new_, o);
    }
    assert PassRequests(old_, new_, isAdd)[..|requests|] == requests;
    RefusedEnds(slots, PassRequests(old_, new_, isAdd), |requests|, isAdd, page);
  }

  /** Deleting ranges one after the other keeps the slots in step. */
  lemma {:induction false} DeletesMirror(slots: seq<MemSlot>, frs: set<FlatRange>, dels: seq<FlatRange>, page: nat)
    requires page > 0 && Separate(frs) && Mirrors(slots, frs, page) && Terminating(dels)
    requires forall i :: 0 <= i < |dels| ==> dels[i] in frs
    requires forall i, j :: 0 <= i < j < |dels| ==> dels[i] != dels[j]
    requires SlotsAfter(slots, dels, false, page).Some?
    ensures Mirrors(SlotsAfter(slots, dels, false, page).value, frs - ToSet(dels), page)
  {
    hide Mirrors, Separate, SlotsAfterDelete;
    if dels == [] {
      assert frs - ToSet(dels) == frs;
    } else {
      var k := |dels| - 1;
      DeletesMirror(slots, frs, dels[..k], page);
      var rest := frs - ToSet(dels[..k]);
      SubsetSeparate(rest, frs);
      DeleteRegionMirrors(SlotsAfter(slots, dels[..k], false, page).value, rest, dels[k], page);
      assert dels == dels[..k] + [dels[k]];
      assert rest - {dels[k]} == frs - ToSet(dels);
    }
  }

  /** Adding ranges one after the other keeps the slots in step. */
  lemma {:induction false} AddsMirror(slots: seq<MemSlot>, frs: set<FlatRange>, adds: seq<FlatRange>, page: nat)
    requires page > 0 && Separate(frs + ToSet(adds)) && TerminateOwners(frs) && Mirrors(slots, frs, page)
    requires forall i :: 0 <= i < |adds| ==> adds[i] in ToSet(adds) && adds[i] !in frs
    requires forall i, j :: 0 <= i < j < |adds| ==> adds[i] != adds[j]
    requires SlotsAfter(slots, adds, true, page).Some?
    ensures Mirrors(SlotsAfter(slots, adds, true, page).value, frs + ToSet(adds), page)
  {
    if adds == [] {
      assert frs + ToSet(adds) == frs;
    } else {
      var k := |adds| - 1;
      assert adds == adds[..k] + [adds[k]];
      var more := frs + ToSet(adds[..k]);
      assert more + {adds[k]} == frs + ToSet(adds);
      AddsMirror(slots, frs, adds[..k], page);
      AddRegionMirrors(SlotsAfter(slots, adds[..k], true, page).value, more, adds[k], page);
    }
  }

  /** Slot `s`, live or freed, lies in the range of `fr`. */
  predicate LiesIn(s: MemSlot, fr: FlatRange) {
    fr.range.base <= s.guestAddr < fr.range.End() && s.guestAddr + s.size <= fr.range.End()
  }

  /** Slot `s` lies in the range of one of the first `n` additions. */
  ghost predicate FromAdds(s: MemSlot, adds: seq<FlatRange>, n: nat)
    requires n <= |adds|
  {
    exists i :: 0 <= i < n && LiesIn(s, adds[i])
  }

  /** Distinct flat ranges of a view, none of them blocked, each with a whole page if it is to be mapped. */
  ghost predicate Addable(slots: seq<MemSlot>, adds: seq<FlatRange>, page: nat)
    requires page > 0
  {
    && Terminating(adds) && Separate(ToSet(adds))
    && (forall i, j :: 0 <= i < j < |adds| ==> adds[i] != adds[j])
    && (forall i :: 0 <= i < |adds| && WantsSlot(adds[i]) ==> MappingOf(adds[i], page).Some?)
    && (forall i, k :: 0 <= i < |adds| && 0 <= k < |slots| && MappingOf(adds[i], page).Some? ==>
          !Blocks(slots[k], MappingOf(adds[i], page).value.range))
  }

  lemma {:induction false} NotBlockedByAdds(s: MemSlot, adds: seq<FlatRange>, n: nat, page: nat)
    requires page > 0 && n < |adds| && Addable([], adds, page) && MappingOf(adds[n], page).Some? && FromAdds(s, adds, n)
    ensures !Blocks(s, MappingOf(adds[n], page).value.range)
  {
    var i :| 0 <= i < n && LiesIn(s, adds[i]);
    assert adds[i] in ToSet(adds) && adds[n] in ToSet(adds);
    AlignedInside(adds[n].range, page);
  }

  /** The pool after the first `n` additions: unchanged except for slots in their ranges. */
  ghost predicate Grown(slots: seq<MemSlot>, after: seq<MemSlot>, adds: seq<FlatRange>, n: nat)
    requires n <= |adds|
  {
    && |after| == |slots| && LiveCount(after) <= LiveCount(slots) + n
    && forall k :: 0 <= k < |slots| ==> after[k] == slots[k] || FromAdds(after[k], adds, n)
  }

  lemma {:induction false} NotBlocked(slots: seq<MemSlot>, before: seq<MemSlot>, adds: seq<FlatRange>, n: nat,
                                      page: nat)
    requires page > 0 && Addable(slots, adds, page) && n < |adds| && Grown(slots, before, adds, n)
    requires MappingOf(adds[n], page).Some?
    ensures forall k :: 0 <= k < |before| ==> !Blocks(before[k], MappingOf(adds[n], page).value.range)
  {
    forall k | 0 <= k < |before| ensures !Blocks(before[k], MappingOf(adds[n], page).value.range) {
      if before[k] != slots[k] {
        NotBlockedByAdds(before[k], adds, n, page);
      }
    }
  }

  lemma {:induction false} GrownByOne(slots: seq<MemSlot>, before: seq<MemSlot>, adds: seq<FlatRange>, n: nat,
                                      after: seq<MemSlot>, i: nat)
    requires n < |adds| && Grown(slots, before, adds, n)
    requires LiveCount(after) <= LiveCount(before) + 1
    requires after == before || (i < |before| == |after| && after == before[i := after[i]] && LiesIn(after[i], adds[n]))
    ensures Grown(slots, after, adds, n + 1)
  {
    hide LiesIn;
    forall k | 0 <= k < |slots| ensures after[k] == slots[k] || FromAdds(after[k], adds, n + 1) {
      if after[k] == before[k] && before[k] != slots[k] {
        assert FromAdds(after[k], adds, n);
      }
    }
  }

  /** A ROM device in IO mode frees its slot, if it has one, and never fails. */
  lemma {:induction false} GrowRomDevice(slots: seq<MemSlot>, before: seq<MemSlot>, adds: seq<FlatRange>, n: nat,
                                         page: nat)
    requires page > 0 && n < |adds| && Grown(slots, before, adds, n) && adds[n].range.End() <= U64_MAX
    requires adds[n].owner.Terminate? && adds[n].owner.kind.RomDevice? && !adds[n].owner.kind.romd
    ensures SlotsAfterAdd(before, adds[n], page).Some?
    ensures Grown(slots, SlotsAfterAdd(before, adds[n], page).value, adds, n + 1)
  {
    hide Grown, LiveCount;
    var after := SlotsAfterAdd(before, adds[n], page).value;
    if AlignMemSlot(adds[n].range, page).Some? {
      var r := AlignMemSlot(adds[n].range, page).value;
      AlignedInside(adds[n].range, page);
      var i := FirstMatch(before, r.base, r.size);
      if i < |before| {
        LiveCountFreed(before, i, after[i]);
      }
      GrownByOne(slots, before, adds, n, after, i);
    } else {
      GrownByOne(slots, before, adds, n, before, 0);
    }
  }

  lemma {:induction false} GrowOne(slots: seq<MemSlot>, before: seq<MemSlot>, adds: seq<FlatRange>, n: nat, page: nat)
    requires page > 0 && Addable(slots, adds, page) && n < |adds| && Grown(slots, before, adds, n)
    requires LiveCount(slots) + |adds| <= |slots|
    ensures SlotsAfterAdd(before, adds[n], page).Some?
    ensures Grown(slots, SlotsAfterAdd(before, adds[n], page).value, adds, n + 1)
  {
    hide Addable, Blocks, FromAdds, AlignMemSlot, Allocate, MappingOf, SlotsAfterAdd, Grown, LiveCount;
    AddFacts(slots, adds, n, page);
    Room(slots, before, adds, n);
    if WantsSlot(adds[n]) {
      NotBlocked(slots, before, adds, n, page);
      GrowMapped(slots, before, adds, n, page);
    } else if adds[n].owner.kind.RomDevice? {
      GrowRomDevice(slots, before, adds, n, page);
    } else {
      GrowNothing(slots, before, adds, n, page);
    }
  }

  lemma {:induction false} Room(slots: seq<MemSlot>, before: seq<MemSlot>, adds: seq<FlatRange>, n: nat)
    requires n < |adds| && Grown(slots, before, adds, n) && LiveCount(slots) + |adds| <= |slots|
    ensures LiveCount(before) < |before|
  {
  }

  lemma {:induction false} GrowMapped(slots: seq<MemSlot>, before: seq<MemSlot>, adds: seq<FlatRange>, n: nat,
                                      page: nat)
    requires page > 0 && n < |adds| && Grown(slots, before, adds, n) && LiveCount(before) < |before|
    requires adds[n].owner.Terminate? && WantsSlot(adds[n]) && MappingOf(adds[n], page).Some?
    requires var r := MappingOf(adds[n], page).value.range;
             && r.size > 0 && adds[n].range.base <= r.base && r.End() <= adds[n].range.End()
             && forall k :: 0 <= k < |before| ==> !Blocks(before[k], r)
    ensures SlotsAfterAdd(before, adds[n], page).Some?
    ensures Grown(slots, SlotsAfterAdd(before, adds[n], page).value, adds, n + 1)
  {
    hide Grown, Blocks, LiveCount, AlignMemSlot, Allocate, LiesIn, MappingOf;
    var m := MappingOf(adds[n], page).value;
    AllocateSucceeds(before, m);
    var a := Allocate(before, m.range.base, m.range.size, m.hostAddr);
    Placed(before, m, adds[n]);
    GrownByOne(slots, before, adds, n, a.slots, a.index);
  }

  lemma {:induction false} GrowNothing(slots: seq<MemSlot>, before: seq<MemSlot>, adds: seq<FlatRange>, n: nat,
                                       page: nat)
    requires page > 0 && n < |adds| && Grown(slots, before, adds, n)
    requires adds[n].owner.Terminate? && adds[n].owner.kind.Io?
    ensures SlotsAfterAdd(before, adds[n], page).Some?
    ensures Grown(slots, SlotsAfterAdd(before, adds[n], page).value, adds, n + 1)
  {
    hide Grown, LiveCount;
    GrownByOne(slots, before, adds, n, before, 0);
  }

  lemma {:induction false} AddFacts(slots: seq<MemSlot>, adds: seq<FlatRange>, n: nat, page: nat)
    requires page > 0 && Addable(slots, adds, page) && n < |adds|
    ensures adds[n].owner.Terminate? && adds[n].range.End() <= U64_MAX
    ensures WantsSlot(adds[n]) ==>
              && MappingOf(adds[n], page).Some?
              && var r := MappingOf(adds[n], page).value.range;
                 r.size > 0 && adds[n].range.base <= r.base && r.End() <= adds[n].range.End()
  {
    assert adds[n] in ToSet(adds);
    AlignedInside(adds[n].range, page);
  }

  /** An allocation changes one slot, which then maps the range. */
  lemma {:induction false} Placed(slots: seq<MemSlot>, m: Mapping, fr: FlatRange)
    requires Allocate(slots, m.range.base, m.range.size, m.hostAddr).Allocated?
    requires m.range.size > 0 && fr.range.base <= m.range.base && m.range.End() <= fr.range.End()
    ensures var a := Allocate(slots, m.range.base, m.range.size, m.hostAddr);
            a.index < |slots| == |a.slots| && a.slots == slots[a.index := a.slots[a.index]] &&
            LiesIn(a.slots[a.index], fr)
  {
    hide Blocks;
  }

  /** Additions go through when every range to be mapped holds a whole page, the
      pool has room, and neither a live slot nor a stale base is in the way. */
  lemma {:induction false} AddsSucceed(slots: seq<MemSlot>, adds: seq<FlatRange>, n: nat, page: nat)
    requires page > 0 && Addable(slots, adds, page) && n <= |adds| && LiveCount(slots) + |adds| <= |slots|
    ensures Terminating(adds[..n]) && SlotsAfter(slots, adds[..n], true, page).Some?
    ensures Grown(slots, SlotsAfter(slots, adds[..n], true, page).value, adds, n)
  {
    if n > 0 {
      AddsSucceed(slots, adds, n - 1, page);
      assert adds[..n][..n - 1] == adds[..n - 1];
      GrowOne(slots, SlotsAfter(slots, adds[..n - 1], true, page).value, adds, n - 1, page);
    }
  }

  lemma {:induction false} ProperIsSeparate(s: seq<FlatRange>)
    requires Proper(s)
    ensures Separate(ToSet(s)) && Terminating(s)
    ensures forall i, j :: 0 <= i < j < |s| ==> s[i] != s[j]
  {
    forall i, j | 0 <= i < j < |s| ensures s[i] != s[j] {
      assert s[i].range.End() <= s[j].range.base;
    }
  }

  lemma {:induction false} MissingDistinct(s: seq<FlatRange>, t: seq<FlatRange>)
    requires Proper(s)
    ensures Terminating(Missing(s, t))
    ensures forall i, j :: 0 <= i < j < |Missing(s, t)| ==> Missing(s, t)[i] != Missing(s, t)[j]
  {
    ProperIsSeparate(s);
    hide Proper, Missing;
    DistinctStays(s, t);
  }

  lemma {:induction false} DistinctStays(s: seq<FlatRange>, t: seq<FlatRange>)
    requires Terminating(s) && forall i, j :: 0 <= i < j < |s| ==> s[i] != s[j]
    ensures Terminating(Missing(s, t))
    ensures forall i, j :: 0 <= i < j < |Missing(s, t)| ==> Missing(s, t)[i] != Missing(s, t)[j]
  {
    if s != [] {
      var k := |s| - 1;
      DistinctStays(s[..k], t);
      MissingExact(s[..k], t);
      assert s[k] !in s[..k];
    }
  }

  lemma {:induction false} PassRequestsTerminate(old_: seq<FlatRange>, new_: seq<FlatRange>, isAdd: bool)
    requires Proper(old_) && Proper(new_)
    ensures Terminating(PassRequests(old_, new_, isAdd))
  {
    MissingDistinct(old_, new_);
    MissingDistinct(new_, old_);
  }

  /** Slots in step with the old view are, after both passes, in step with the new one. */
  lemma {:induction false} PassesMirror(slots: seq<MemSlot>, old_: seq<FlatRange>, new_: seq<FlatRange>, page: nat)
    requires page > 0 && Proper(old_) && Proper(new_)
    requires TerminateOwners(ToSet(old_)) && TerminateOwners(ToSet(new_)) && Mirrors(slots, ToSet(old_), page)
    requires Terminating(Missing(old_, new_)) && Terminating(Missing(new_, old_))
    requires SlotsAfter(slots, Missing(old_, new_), false, page).Some?
    requires SlotsAfter(SlotsAfter(slots, Missing(old_, new_), false, page).value, Missing(new_, old_), true,
                        page).Some?
    ensures Mirrors(SlotsAfter(SlotsAfter(slots, Missing(old_, new_), false, page).value, Missing(new_, old_), true,
                               page).value, ToSet(new_), page)
  {
    hide Proper, Mirrors, Missing, SlotsAfter, Separate, Terminating;
    var dels, adds := Missing(old_, new_), Missing(new_, old_);
    ProperIsSeparate(old_);
    ProperIsSeparate(new_);
    MissingDistinct(old_, new_);
    MissingDistinct(new_, old_);
    MissingExact(old_, new_);
    MissingExact(new_, old_);
    DeletesMirror(slots, ToSet(old_), dels, page);
    var kept := ToSet(old_) - ToSet(dels);
    assert kept + ToSet(adds) == ToSet(new_);
    AddsMirror(SlotsAfter(slots, dels, false, page).value, kept, adds, page);
  }

  /** A listener that mirrors the old view mirrors the new one after both passes,
      and holds only pairwise disjoint ranges after every single request. */
  lemma {:induction false} EveryStepSeparate(old_: seq<FlatRange>, new_: seq<FlatRange>, k: nat)
    requires Proper(old_) && Proper(new_)
    ensures k <= |Missing(old_, new_)| ==> Separate(ToSet(old_) - ToSet(Missing(old_, new_)[..k]))
    ensures k <= |Missing(new_, old_)| ==>
              Separate(ToSet(old_) - ToSet(Missing(old_, new_)) + ToSet(Missing(new_, old_)[..k]))
    ensures ToSet(old_) - ToSet(Missing(old_, new_)) + ToSet(Missing(new_, old_)) == ToSet(new_)
  {
    ProperIsSeparate(old_);
    ProperIsSeparate(new_);
    MissingExact(old_, new_);
    MissingExact(new_, old_);
    if k <= |Missing(new_, old_)| {
      SubsetSeparate(ToSet(old_) - ToSet(Missing(old_, new_)) + ToSet(Missing(new_, old_)[..k]), ToSet(new_));
    }
    if k <= |Missing(old_, new_)| {
      SubsetSeparate(ToSet(old_) - ToSet(Missing(old_, new_)[..k]), ToSet(old_));
    }
  }

  lemma {:induction false} SubsetSeparate(sub: set<FlatRange>, frs: set<FlatRange>)
    requires Separate(frs) && sub <= frs
    ensures Separate(sub)
  {
  }

  /** The listener takes all deletions and then all additions that lead from one view to the other. */
  ghost predicate Accepts(slots: seq<MemSlot>, old_: seq<FlatRange>, new_: seq<FlatRange>, page: nat)
    requires page > 0
  {
    && Terminating(Missing(old_, new_)) && Terminating(Missing(new_, old_))
    && var left := SlotsAfter(slots, Missing(old_, new_), false, page);
       left.Some? && SlotsAfter(left.value, Missing(new_, old_), true, page).Some?
  }

  lemma {:induction false} IsProper(view: seq<FlatRange>)
    requires ValidView(view) && NoEmptyRange(view)
    ensures Proper(view) && TerminateOwners(ToSet(view))
  {
  }

  /** The slots are on the way from the old view to the new one: in step with the old
      ranges without some of those to be deleted, or without all of them and with some
      of those to be added. */
  ghost predicate PartWay(slots: seq<MemSlot>, old_: seq<FlatRange>, new_: seq<FlatRange>,
                          dels: seq<FlatRange>, adds: seq<FlatRange>, page: nat)
    requires page > 0
  {
    && dels <= Missing(old_, new_) && adds <= Missing(new_, old_)
    && (adds != [] ==> dels == Missing(old_, new_))
    && var frs := ToSet(old_) - ToSet(dels) + ToSet(adds);
       TerminateOwners(frs) && Separate(frs) && Mirrors(slots, frs, page)
  }

  /** Deletions refused halfway leave the slots part way. */
  lemma {:induction false} DeletesPartWay(slots: seq<MemSlot>, old_: seq<FlatRange>, new_: seq<FlatRange>,
                                          dels: seq<FlatRange>, page: nat)
    requires page > 0 && Proper(old_) && Proper(new_)
    requires TerminateOwners(ToSet(old_)) && Mirrors(slots, ToSet(old_), page)
    requires dels <= Missing(old_, new_) && Terminating(dels) && SlotsAfter(slots, dels, false, page).Some?
    ensures PartWay(SlotsAfter(slots, dels, false, page).value, old_, new_, dels, [], page)
  {
    hide Proper, Mirrors, Missing, SlotsAfter, Separate, Terminating;
    ProperIsSeparate(old_);
    MissingDistinct(old_, new_);
    MissingExact(old_, new_);
    var all := Missing(old_, new_);
    assert forall i :: 0 <= i < |dels| ==> dels[i] == all[i];
    DeletesMirror(slots, ToSet(old_), dels, page);
    var frs := ToSet(old_) - ToSet(dels);
    assert frs + ToSet([]) == frs;
    SubsetSeparate(frs, ToSet(old_));
  }

  /** Additions refused halfway, after all deletions. */
  lemma {:induction false} AddsPartWay(slots: seq<MemSlot>, old_: seq<FlatRange>, new_: seq<FlatRange>,
                                       adds: seq<FlatRange>, page: nat)
    requires page > 0 && Proper(old_) && Proper(new_)
    requires PartWay(slots, old_, new_, Missing(old_, new_), [], page)
    requires adds <= Missing(new_, old_) && Terminating(adds) && SlotsAfter(slots, adds, true, page).Some?
    ensures PartWay(SlotsAfter(slots, adds, true, page).value, old_, new_, Missing(old_, new_), adds, page)
  {
    hide Proper, Mirrors, Missing, SlotsAfter, Separate, Terminating;
    ProperIsSeparate(new_);
    MissingDistinct(new_, old_);
    MissingExact(old_, new_);
    MissingExact(new_, old_);
    var all, kept := Missing(new_, old_), ToSet(old_) - ToSet(Missing(old_, new_));
    assert kept + ToSet([]) == kept;
    assert forall i :: 0 <= i < |adds| ==> adds[i] == all[i];
    SubsetSeparate(kept + ToSet(adds), ToSet(new_));
    AddsMirror(slots, kept, adds, page);
    OwnersTerminate(kept + ToSet(adds));
  }

  lemma {:induction false} OwnersTerminate(frs: set<FlatRange>)
    requires Separate(frs)
    ensures TerminateOwners(frs)
  {
  }

  /** A proper view of the tree under `root`. */
  ghost predicate IsViewOf(view: seq<FlatRange>, root: Region) {
    Proper(view) && Renders(view, root, root.offset, AddressRange(0, root.size))
  }

  class AddressSpace {
    var root: Region
    var flatView: seq<FlatRange>
    const listener: KvmMemoryListener

    /** The flat view is well formed and the slots mirror it. */
    ghost predicate Valid()
      reads this, listener
    {
      && listener.page > 0
      && Proper(flatView) && TerminateOwners(ToSet(flatView))
      && Mirrors(listener.slots, ToSet(flatView), listener.page)
    }

    constructor (root: Region, nrSlots: nat, page: nat)
      requires page > 0
      ensures Valid() && fresh(listener) && this.root == root && flatView == []
    {
      this.root := root;
      this.flatView := [];
      this.listener := new KvmMemoryListener(nrSlots, page);
    }

    /** Send one request to the listener. */
    method CallListeners(fr: FlatRange, isAdd: bool) returns (ok: bool)
      requires listener.page > 0 && fr.owner.Terminate?
      modifies listener
      ensures var after := SlotsAfterRequest(old(listener.slots), fr, isAdd, listener.page);
              ok == after.Some? && listener.slots == if ok then after.value else old(listener.slots)
    {
      if isAdd {
        ok := listener.AddRegion(fr);
      } else {
        ok := listener.DeleteRegion(fr);
      }
    }

    /** One pass over both views: request the deletion of exactly the old ranges
        that the new view lacks, or the addition of exactly the new ranges that
        the old view lacks, in address order, until a request is refused. */
    method UpdateTopologyPass(oldView: seq<FlatRange>, newView: seq<FlatRange>, isAdd: bool)
      returns (ok: bool, requests: seq<FlatRange>)
      requires Proper(oldView) && Proper(newView) && listener.page > 0
      modifies listener
      ensures requests <= PassRequests(oldView, newView, isAdd)
      ensures ok ==> requests == PassRequests(oldView, newView, isAdd)
      ensures Terminating(requests) && Terminating(PassRequests(oldView, newView, isAdd))
      ensures ok <==> SlotsAfter(old(listener.slots), PassRequests(oldView, newView, isAdd), isAdd, listener.page).Some?
      ensures SlotsAfter(old(listener.slots), requests, isAdd, listener.page) == Some(listener.slots)
    {
      hide Terminating, InPass, Proper, SlotsAfterRequest, SlotsAfter, Missing, PassRequests;
      requests := [];
      var oldIdx, newIdx := 0, 0;
      PassStart(oldView, newView, isAdd);
      PassRequestsTerminate(oldView, newView, isAdd);
      while oldIdx < |oldView| || newIdx < |newView|
        invariant 0 <= oldIdx <= |oldView| && 0 <= newIdx <= |newView|
        invariant InPass(oldView, newView, oldIdx, newIdx, isAdd, requests)
        invariant Terminating(requests)
        invariant SlotsAfter(old(listener.slots), requests, isAdd, listener.page) == Some(listener.slots)
        decreases |oldView| - oldIdx + |newView| - newIdx
      {
        if oldIdx < |oldView| {
          var oldR := oldView[oldIdx];
          if newIdx < |newView| {
            var newR := newView[newIdx];
            if oldR.range.base < newR.range.base || (oldR.range.base == newR.range.base && oldR != newR) {
              OldPassed(oldView, newView, oldIdx, newIdx, isAdd, requests);
              if !isAdd {
                SlotsAfterStep(old(listener.slots), requests, oldR, isAdd, listener.page);
                ok := CallListeners(oldR, isAdd);
                if !ok {
                  PassRefused(old(listener.slots), oldView, newView, oldIdx + 1, newIdx, isAdd, requests + [oldR],
                              listener.page);
                  assert requests <= requests + [oldR];
                  return;
                }
                requests := requests + [oldR];
              }
              oldIdx := oldIdx + 1;
              continue;
            } else if oldR == newR {
              BothPassed(oldView, newView, oldIdx, newIdx, isAdd, requests);
              oldIdx, newIdx := oldIdx + 1, newIdx + 1;
              continue;
            }
          } else {
            OldPassed(oldView, newView, oldIdx, newIdx, isAdd, requests);
            if !isAdd {
              SlotsAfterStep(old(listener.slots), requests, oldR, isAdd, listener.page);
              ok := CallListeners(oldR, isAdd);
              if !ok {
                PassRefused(old(listener.slots), oldView, newView, oldIdx + 1, newIdx, isAdd, requests + [oldR],
                            listener.page);
                assert requests <= requests + [oldR];
                return;
              }
              requests := requests + [oldR];
            }
            oldIdx := oldIdx + 1;
            continue;
          }
        }
        NewPassed(oldView, newView, oldIdx, newIdx, isAdd, requests);
        if isAdd {
          SlotsAfterStep(old(listener.slots), requests, newView[newIdx], isAdd, listener.page);
          ok := CallListeners(newView[newIdx], isAdd);
          if !ok {
            PassRefused(old(listener.slots), oldView, newView, oldIdx, newIdx + 1, isAdd,
                        requests + [newView[newIdx]], listener.page);
            assert requests <= requests + [newView[newIdx]];
            return;
          }
          requests := requests + [newView[newIdx]];
        }
        newIdx := newIdx + 1;
      }
      PassEnd(oldView, newView, isAdd, requests);
      ok := true;
    }

    /** Render the tree, bring the listener in step, and store the new view. */
    method UpdateTopology() returns (ok: bool)
      requires Valid() && Renderable(root, 0, AddressRange(0, root.size)) && PositiveSizes(root) && root.size <= U64_MAX
      modifies this, listener
      ensures root == old(root)
      ensures ok ==> Valid() && Renders(flatView, root, root.offset, AddressRange(0, root.size))
      ensures !ok ==> flatView == old(flatView)
      ensures !root.Container? ==> !ok
      ensures !root.Container? ==> listener.slots == old(listener.slots)
      ensures root.Container? ==>
                exists view, dels, adds ::
                  && IsViewOf(view, root) && (ok ==> flatView == view)
                  && (ok <==> Accepts(old(listener.slots), old(flatView), view, listener.page))
                  && PartWay(listener.slots, old(flatView), view, dels, adds, listener.page)
                  && (ok ==> dels == Missing(old(flatView), view) && adds == Missing(view, old(flatView)))
    {
      hide SlotsAfter, Missing, Terminating, Separate, Mirrors, Renders, Proper, TerminateOwners, PartWay;
      var range := AddressRange(0, root.size);
      var newView := GenerateFlatView(root, 0, range);
      if newView == null {
        return false;
      }
      ghost var slots := listener.slots;
      ghost var view := newView.ranges;
      IsProper(view);
      assert IsViewOf(view, root);
      ProperIsSeparate(newView.ranges);
      MissingDistinct(flatView, newView.ranges);
      MissingDistinct(newView.ranges, flatView);
      var deleted, dels := UpdateTopologyPass(flatView, newView.ranges, false);
      DeletesPartWay(slots, flatView, view, dels, listener.page);
      if !deleted {
        return false;
      }
      var added, adds := UpdateTopologyPass(flatView, newView.ranges, true);
      AddsPartWay(SlotsAfter(slots, dels, false, listener.page).value, flatView, view, adds, listener.page);
      if !added {
        return false;
      }
      PassesMirror(slots, flatView, newView.ranges, listener.page);
      flatView := newView.ranges;
      return true;
    }
  }
}