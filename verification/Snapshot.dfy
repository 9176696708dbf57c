/** Saving and restoring the state of transports, devices, CPUs and KVM as one
  byte stream of instances.  Each instance is the object's id and type alias, both
  little-endian 64-bit numbers, followed by its state.  The header and the
  descriptor database in front of the stream are not modelled. */
module Snapshot {
  import opened Addresses
  import opened Bytes
  import opened DeviceState

  /** What an object saves: its type alias and its state. */
  datatype Saved = Saved(alias: nat, state: seq<Byte>)

  /** Descriptors in the snapshot by alias, descriptors of this program by type name. */
  datatype Descs = Descs(snap: map<nat, DeviceStateDesc>, current: map<string, DeviceStateDesc>)

  const INSTANCE: nat := 16

  function InstanceBytes(id: nat, saved: Saved): seq<Byte> {
    ToLe(id, 8) + ToLe(saved.alias, 8) + saved.state
  }

  /** The stream that saving the objects in the given order writes. */
  function StreamOf(group: map<nat, Saved>, order: seq<nat>): seq<Byte>
    requires forall i :: 0 <= i < |order| ==> order[i] in group
  {
    if order == [] then []
    else InstanceBytes(order[0], group[order[0]]) + StreamOf(group, order[1..])
  }

  datatype Read = Read(id: nat, state: seq<Byte>, next: nat)

  /** Read one instance at `pos` and bring its state to the current version; `None` is any error. */
  function CheckVmState(stream: seq<Byte>, pos: nat, d: Descs): Option<Read> {
    if pos + INSTANCE > |stream| then None
    else
      var id, alias := FromLe(stream[pos..pos + 8]), FromLe(stream[pos + 8..pos + INSTANCE]);
      if alias !in d.snap || d.snap[alias].name !in d.current then None
      else
        var snap, current := d.snap[alias], d.current[d.snap[alias].name];
        if pos + INSTANCE + snap.size > |stream| then None
        else
          var state := stream[pos + INSTANCE..pos + INSTANCE + snap.size];
          match Convert(current, snap, state)
          case None => None
          case Some(state') => Some(Read(id, state', pos + INSTANCE + snap.size))
  }

  /** The state in the current version's layout. */
  function Convert(current: DeviceStateDesc, snap: DeviceStateDesc, state: seq<Byte>): Option<seq<Byte>> {
    match CheckVersion(current, snap)
    case Same => Some(state)
    case Compat =>
      if forall f :: f in current.fields ==> CopyOutcome(current, snap, |state|, f.alias) == Padded
      then Some(Rearranged(current, snap, state)) else None
    case Mismatch => None
  }

  /** The object's type is described on both sides, its state has the described
      size, and its numbers fit 64 bits. */
  predicate Readable(id: nat, saved: Saved, d: Descs) {
    && id < Pow256(8) && saved.alias < Pow256(8)
    && saved.alias in d.snap && d.snap[saved.alias].name in d.current
    && d.snap[saved.alias].size == |saved.state|
  }

  /** Besides, its version can be taken over. */
  predicate Restorable(id: nat, saved: Saved, d: Descs) {
    Readable(id, saved, d) && Convert(d.current[d.snap[saved.alias].name], d.snap[saved.alias], saved.state).Some?
  }

  function Restored(saved: Saved, d: Descs): seq<Byte>
    requires saved.alias in d.snap && d.snap[saved.alias].name in d.current
    requires Convert(d.current[d.snap[saved.alias].name], d.snap[saved.alias], saved.state).Some?
  {
    Convert(d.current[d.snap[saved.alias].name], d.snap[saved.alias], saved.state).value
  }

  /** What reading makes of one saved instance, wherever it stands in the stream. */
  lemma {:induction false} ReadsAnyInstance(before: seq<Byte>, id: nat, saved: Saved, after: seq<Byte>, d: Descs)
    requires Readable(id, saved, d)
    ensures CheckVmState(before + InstanceBytes(id, saved) + after, |before|, d) ==
            match Convert(d.current[d.snap[saved.alias].name], d.snap[saved.alias], saved.state)
            case None => None
            case Some(state) => Some(Read(id, state, |before| + INSTANCE + |saved.state|))
  {
    hide ToLe, FromLe, Convert, Pow256;
    var stream, pos := before + InstanceBytes(id, saved) + after, |before|;
    assert stream[pos..pos + 8] == ToLe(id, 8);
    assert stream[pos + 8..pos + INSTANCE] == ToLe(saved.alias, 8);
    assert stream[pos + INSTANCE..pos + INSTANCE + |saved.state|] == saved.state;
    LeRoundTrip(id, 8);
    LeRoundTrip(saved.alias, 8);
  }

  /** Reading back one saved instance, wherever it stands in the stream. */
  lemma {:induction false} ReadsInstance(before: seq<Byte>, id: nat, saved: Saved, after: seq<Byte>, d: Descs)
    requires Restorable(id, saved, d)
    ensures CheckVmState(before + InstanceBytes(id, saved) + after, |before|, d) ==
            Some(Read(id, Restored(saved, d), |before| + INSTANCE + |saved.state|))
  {
    hide CheckVmState, InstanceBytes, Convert;
    ReadsAnyInstance(before, id, saved, after, d);
  }

  /** The objects so far, the place in the stream, and whether all went well. */
  datatype Restoring = Restoring(ok: bool, group: map<nat, Saved>, pos: nat)

  /** Restore `n` instances: each goes to the object with its id, if there is one.  An
      instance that cannot be read or converted ends it; the objects before it are restored. */
  function RestoreSteps(stream: seq<Byte>, pos: nat, n: nat, group: map<nat, Saved>, d: Descs): Restoring
    decreases n
  {
    if n == 0 then Restoring(true, group, pos)
    else
      match CheckVmState(stream, pos, d)
      case None => Restoring(false, group, pos)
      case Some(r) =>
        RestoreSteps(stream, r.next, n - 1,
                     if r.id in group then group[r.id := group[r.id].(state := r.state)] else group, d)
  }

  ghost predicate AllRestorable(src: map<nat, Saved>, order: seq<nat>, d: Descs) {
    forall i :: 0 <= i < |order| ==> order[i] in src && Restorable(order[i], src[order[i]], d)
  }

  /** The group with the objects of `order` given their saved states. */
  ghost function Updated(group: map<nat, Saved>, src: map<nat, Saved>, order: seq<nat>, d: Descs): map<nat, Saved>
    requires AllRestorable(src, order, d)
  {
    map id | id in group :: if id in order then group[id].(state := Restored(src[id], d)) else group[id]
  }

  /** Restoring a saved group gives each object its own state, in whatever order
      the group was saved. */
  lemma {:induction false} RestoresGroup(before: seq<Byte>, src: map<nat, Saved>, order: seq<nat>, after: seq<Byte>,
                                         group: map<nat, Saved>, d: Descs)
    requires AllRestorable(src, order, d)
    ensures RestoreSteps(before + StreamOf(src, order) + after, |before|, |order|, group, d) ==
            Restoring(true, Updated(group, src, order, d), |before| + |StreamOf(src, order)|)
    decreases |order|
  {
    hide CheckVmState, Convert, StreamOf, InstanceBytes, Updated, Pow256;
    if order == [] {
      NothingSaved(group, src, d);
      assert before + [] + after == before + StreamOf(src, order) + after;
    } else {
      var id, saved, rest := order[0], src[order[0]], order[1..];
      var one := InstanceBytes(id, saved);
      var group' := if id in group then group[id := group[id].(state := Restored(saved, d))] else group;
      StreamStep(src, order);
      UpdatedStep(group, src, order, d);
      var stream := before + StreamOf(src, order) + after;
      assert stream == before + one + (StreamOf(src, rest) + after);
      assert stream == (before + one) + StreamOf(src, rest) + after;
      InstanceLength(id, saved);
      ReadsInstance(before, id, saved, StreamOf(src, rest) + after, d);
      RestoresGroup(before + one, src, rest, after, group', d);
    }
  }

  lemma {:induction false} InstanceLength(id: nat, saved: Saved)
    ensures |InstanceBytes(id, saved)| == INSTANCE + |saved.state|
  {
  }

  lemma {:induction false} StreamStep(src: map<nat, Saved>, order: seq<nat>)
    requires order != [] && forall i :: 0 <= i < |order| ==> order[i] in src
    ensures StreamOf(src, order) == InstanceBytes(order[0], src[order[0]]) + StreamOf(src, order[1..])
  {
  }

  lemma {:induction false} NothingSaved(group: map<nat, Saved>, src: map<nat, Saved>, d: Descs)
    ensures StreamOf(src, []) == [] && Updated(group, src, [], d) == group
  {
  }

  lemma {:induction false} UpdatedStep(group: map<nat, Saved>, src: map<nat, Saved>, order: seq<nat>, d: Descs)
    requires order != [] && AllRestorable(src, order, d)
    ensures AllRestorable(src, order[1..], d)
    ensures var id := order[0];
            var group' := if id in group then group[id := group[id].(state := Restored(src[id], d))] else group;
            Updated(group', src, order[1..], d) == Updated(group, src, order, d)
  {
    hide Convert, Restored;
    var id := order[0];
    assert Restorable(id, src[id], d);
    var group' := if id in group then group[id := group[id].(state := Restored(src[id], d))] else group;
    assert forall x :: x in order <==> x == id || x in order[1..];
    assert forall x :: x in group' <==> x in group;
  }

  /** An iteration order of a map: every key once. */
  ghost predicate IsOrder(order: seq<nat>, group: map<nat, Saved>) {
    && (forall i, j :: 0 <= i < j < |order| ==> order[i] != order[j])
    && (forall id :: id in order <==> id in group)
  }

  lemma {:induction false} OrderLength(order: seq<nat>, group: map<nat, Saved>)
    requires IsOrder(order, group)
    ensures |order| == |group|
  {
    DistinctSize(order);
    assert Ids(order) == group.Keys;
  }

  lemma {:induction false} DistinctSize(s: seq<nat>)
    requires forall i, j :: 0 <= i < j < |s| ==> s[i] != s[j]
    ensures |Ids(s)| == |s|
  {
    if s != [] {
      var k := |s| - 1;
      DistinctSize(s[..k]);
      assert s == s[..k] + [s[k]];
      assert Ids(s) == Ids(s[..k]) + {s[k]};
    }
  }

  function Ids(s: seq<nat>): set<nat> {
    set x | x in s
  }

  class Vmm {
    var transports: map<nat, Saved>
    var devices: map<nat, Saved>
    var cpus: map<nat, Saved>
    var kvm: Saved

    constructor (transports: map<nat, Saved>, devices: map<nat, Saved>, cpus: map<nat, Saved>, kvm: Saved)
      ensures this.transports == transports && this.devices == devices && this.cpus == cpus && this.kvm == kvm
    {
      this.transports, this.devices, this.cpus, this.kvm := transports, devices, cpus, kvm;
    }

    /** Append the instances of a group in the given iteration order. */
    static method SaveGroup(group: map<nat, Saved>, order: seq<nat>, fd: seq<Byte>) returns (fd': seq<Byte>)
      requires IsOrder(order, group)
      ensures fd' == fd + StreamOf(group, order)
    {
      fd' := fd;
      var i := 0;
      assert order[0..] == order;
      while i < |order|
        invariant 0 <= i <= |order|
        invariant fd' + StreamOf(group, order[i..]) == fd + StreamOf(group, order)
      {
        assert order[i..][1..] == order[i + 1..];
        assert fd' + (InstanceBytes(order[i], group[order[i]]) + StreamOf(group, order[i + 1..])) ==
               (fd' + InstanceBytes(order[i], group[order[i]])) + StreamOf(group, order[i + 1..]);
        fd' := fd' + InstanceBytes(order[i], group[order[i]]);
        i := i + 1;
      }
    }

    /** Write the state of all objects, each group in its map's iteration order. */
    method SaveVmState(kvmId: nat, o: Orders) returns (fd: seq<Byte>)
      requires AreOrders(o, VmStates(transports, devices, cpus, kvm))
      ensures fd == SavedStream(VmStates(transports, devices, cpus, kvm), kvmId, o)
    {
      hide StreamOf, IsOrder;
      fd := SaveGroup(transports, o.transports, []);
      fd := SaveGroup(devices, o.devices, fd);
      fd := SaveGroup(cpus, o.cpus, fd);
      fd := fd + InstanceBytes(kvmId, kvm);
    }

    /** Restore as many instances as the group has objects. */
    static method RestoreGroup(fd: seq<Byte>, pos: nat, group: map<nat, Saved>, d: Descs)
      returns (r: Restoring)
      ensures r == RestoreSteps(fd, pos, |group|, group, d)
    {
      var restored: map<nat, Saved>, at := group, pos;
      var i := 0;
      while i < |group|
        invariant 0 <= i <= |group|
        invariant RestoreSteps(fd, at, |group| - i, restored, d) == RestoreSteps(fd, pos, |group|, group, d)
      {
        var read := CheckVmState(fd, at, d);
        if read.None? {
          return Restoring(false, restored, at);
        }
        if read.value.id in restored {
          restored := restored[read.value.id := restored[read.value.id].(state := read.value.state)];
        }
        at := read.value.next;
        i := i + 1;
      }
      return Restoring(true, restored, at);
    }

    /** Restore all objects from the stream, one after the other. */
    method RestoreVmState(fd: seq<Byte>, d: Descs) returns (ok: bool)
      modifies this
      ensures RestoredVm(fd, old(VmStates(transports, devices, cpus, kvm)), d) ==
              Outcome(ok, VmStates(transports, devices, cpus, kvm))
    {
      var t := RestoreGroup(fd, 0, transports, d);
      transports := t.group;
      if !t.ok {
        return false;
      }
      var v := RestoreGroup(fd, t.pos, devices, d);
      devices := v.group;
      if !v.ok {
        return false;
      }
      var c := RestoreGroup(fd, v.pos, cpus, d);
      cpus := c.group;
      if !c.ok {
        return false;
      }
      var k := CheckVmState(fd, c.pos, d);
      if k.None? {
        return false;
      }
      kvm := kvm.(state := k.value.state);
      return true;
    }
  }

  datatype VmStates = VmStates(transports: map<nat, Saved>, devices: map<nat, Saved>, cpus: map<nat, Saved>, kvm: Saved)

  datatype Outcome = Outcome(ok: bool, vm: VmStates)

  /** What restoring makes of the objects; those restored before an error keep their new state. */
  function RestoredVm(fd: seq<Byte>, vm: VmStates, d: Descs): Outcome {
    var t := RestoreSteps(fd, 0, |vm.transports|, vm.transports, d);
    var vm1 := vm.(transports := t.group);
    if !t.ok then Outcome(false, vm1)
    else
      var v := RestoreSteps(fd, t.pos, |vm.devices|, vm.devices, d);
      var vm2 := vm1.(devices := v.group);
      if !v.ok then Outcome(false, vm2)
      else
        var c := RestoreSteps(fd, v.pos, |vm.cpus|, vm.cpus, d);
        var vm3 := vm2.(cpus := c.group);
        if !c.ok then Outcome(false, vm3)
        else
          match CheckVmState(fd, c.pos, d)
          case None => Outcome(false, vm3)
          case Some(k) => Outcome(true, vm3.(kvm := vm.kvm.(state := k.state)))
  }

  /** The group with every object given the state saved under its id. */
  ghost function Adopted(group: map<nat, Saved>, src: map<nat, Saved>, d: Descs): map<nat, Saved>
    requires GroupFits(group, src, d)
  {
    map id | id in group && id in src :: group[id].(state := Restored(src[id], d))
  }

  ghost predicate GroupFits(group: map<nat, Saved>, src: map<nat, Saved>, d: Descs) {
    && (forall id :: id in group <==> id in src)
    && (forall id :: id in src ==> Restorable(id, src[id], d))
  }

  /** Restoring one group out of the middle of the stream. */
  lemma {:induction false} RestoresWholeGroup(before: seq<Byte>, src: map<nat, Saved>, order: seq<nat>,
                                              after: seq<Byte>, group: map<nat, Saved>, d: Descs)
    requires IsOrder(order, src) && GroupFits(group, src, d)
    ensures RestoreSteps(before + StreamOf(src, order) + after, |before|, |group|, group, d) ==
            Restoring(true, Adopted(group, src, d), |before + StreamOf(src, order)|)
  {
    hide RestoreSteps, StreamOf, Restorable;
    OrderLength(order, src);
    assert |group| == |src| by {
      assert group.Keys == src.Keys;
    }
    RestoresGroup(before, src, order, after, group, d);
    assert Updated(group, src, order, d) == Adopted(group, src, d);
  }

  /** Each group in an iteration order of its map. */
  datatype Orders = Orders(transports: seq<nat>, devices: seq<nat>, cpus: seq<nat>)

  ghost predicate AreOrders(o: Orders, vm: VmStates) {
    IsOrder(o.transports, vm.transports) && IsOrder(o.devices, vm.devices) && IsOrder(o.cpus, vm.cpus)
  }

  /** What saving writes. */
  ghost function SavedStream(vm: VmStates, kvmId: nat, o: Orders): seq<Byte>
    requires AreOrders(o, vm)
  {
    StreamOf(vm.transports, o.transports) + StreamOf(vm.devices, o.devices) + StreamOf(vm.cpus, o.cpus) +
    InstanceBytes(kvmId, vm.kvm)
  }

  /** Both machines have the same objects, and every saved state can be taken over. */
  ghost predicate VmFits(dst: VmStates, src: VmStates, kvmId: nat, d: Descs) {
    && GroupFits(dst.transports, src.transports, d) && GroupFits(dst.devices, src.devices, d)
    && GroupFits(dst.cpus, src.cpus, d) && Restorable(kvmId, src.kvm, d)
  }

  ghost function AdoptedVm(dst: VmStates, src: VmStates, kvmId: nat, d: Descs): VmStates
    requires VmFits(dst, src, kvmId, d)
  {
    VmStates(Adopted(dst.transports, src.transports, d), Adopted(dst.devices, src.devices, d),
             Adopted(dst.cpus, src.cpus, d), dst.kvm.(state := Restored(src.kvm, d)))
  }

  /** Restoring what was saved gives every transport, device, CPU and KVM the state
      it saved, converted to the current version, for all iteration orders. */
  lemma {:induction false} SaveRestore(src: VmStates, dst: VmStates, kvmId: nat, o: Orders, d: Descs)
    requires AreOrders(o, src) && VmFits(dst, src, kvmId, d)
    ensures RestoredVm(SavedStream(src, kvmId, o), dst, d) == Outcome(true, AdoptedVm(dst, src, kvmId, d))
  {
    hide RestoreSteps, StreamOf, Restorable, CheckVmState, Restored, GroupFits;
    var t, v, c, k := StreamOf(src.transports, o.transports), StreamOf(src.devices, o.devices),
                      StreamOf(src.cpus, o.cpus), InstanceBytes(kvmId, src.kvm);
    var fd := t + v + c + k;
    assert fd == [] + t + (v + c + k) && fd == t + v + (c + k) && fd == (t + v) + c + k && fd == (t + v + c) + k + [];
    RestoresWholeGroup([], src.transports, o.transports, v + c + k, dst.transports, d);
    RestoresWholeGroup(t, src.devices, o.devices, c + k, dst.devices, d);
    RestoresWholeGroup(t + v, src.cpus, o.cpus, k, dst.cpus, d);
    ReadsInstance(t + v + c, kvmId, src.kvm, [], d);
  }

  /** `state` holds what was saved in another layout: every byte of every field that both
      layouts have, and zeros elsewhere. */
  ghost predicate SharesFields(state: seq<Byte>, current: DeviceStateDesc, saved: seq<Byte>, snap: DeviceStateDesc) {
    && |state| == current.size
    && (forall f, g, i: nat :: Fills(current, snap, f, g, i) ==>
          i < |state| && g.offset + (i - f.offset) < |saved| && state[i] == saved[g.offset + (i - f.offset)])
    && (forall i: nat :: i < |state| && (forall f, g :: !Fills(current, snap, f, g, i)) ==> state[i] == 0)
  }

  ghost predicate Described(saved: Saved, d: Descs) {
    saved.alias in d.snap && d.snap[saved.alias].name in d.current
  }

  /** `state` holds what the object saved: the very bytes for the same version, all shared
      fields for an older one. */
  ghost predicate KeepsFields(state: seq<Byte>, saved: Saved, d: Descs) {
    Described(saved, d) &&
    var snap, current := d.snap[saved.alias], d.current[d.snap[saved.alias].name];
    if snap.currentVersion == current.currentVersion then state == saved.state
    else snap.currentVersion < current.currentVersion && SharesFields(state, current, saved.state, snap)
  }

  /** The layouts of both versions are well formed and no shared field has shrunk. */
  ghost predicate LayoutsFit(saved: Saved, d: Descs) {
    Described(saved, d) &&
    var snap, current := d.snap[saved.alias], d.current[d.snap[saved.alias].name];
    WellFormed(current) && WellFormed(snap) && NoShrink(current, snap)
  }

  /** The version numbers decide: the same version restores the very bytes, an older one all
      shared fields, between well-formed layouts without shrinking, and a newer one is refused. */
  lemma {:induction false} VersionDecides(current: DeviceStateDesc, snap: DeviceStateDesc, state: seq<Byte>)
    ensures snap.currentVersion == current.currentVersion ==> Convert(current, snap, state) == Some(state)
    ensures snap.currentVersion > current.currentVersion ==> Convert(current, snap, state) == None
    ensures snap.currentVersion < current.currentVersion && |state| == snap.size &&
            WellFormed(current) && WellFormed(snap) && NoShrink(current, snap) ==>
              && Convert(current, snap, state).Some?
              && SharesFields(Convert(current, snap, state).value, current, state, snap)
  {
    hide WellFormed, NoShrink, CopyOutcome, Holds, Fills, Rearranged;
    if snap.currentVersion < current.currentVersion && |state| == snap.size &&
       WellFormed(current) && WellFormed(snap) && NoShrink(current, snap) {
      forall f | f in current.fields ensures CopyOutcome(current, snap, |state|, f.alias) == Padded {
        PaddingSucceeds(current, snap, state, f);
      }
      RearrangedHolds(current, snap, state);
      PaddingKeepsFields(current, snap, state, Rearranged(current, snap, state));
    }
  }

  /** Conversion keeps every field the two versions share. */
  lemma {:induction false} RestoredKeepsFields(id: nat, saved: Saved, d: Descs)
    requires Restorable(id, saved, d) && LayoutsFit(saved, d)
    ensures KeepsFields(Restored(saved, d), saved, d)
  {
    hide WellFormed, NoShrink, Convert, SharesFields;
    VersionDecides(d.current[d.snap[saved.alias].name], d.snap[saved.alias], saved.state);
  }

  ghost predicate GroupKept(group: map<nat, Saved>, src: map<nat, Saved>, d: Descs) {
    forall id :: id in src ==> id in group && KeepsFields(group[id].state, src[id], d)
  }

  ghost predicate GroupLayoutsFit(src: map<nat, Saved>, d: Descs) {
    forall id :: id in src ==> LayoutsFit(src[id], d)
  }

  lemma {:induction false} AdoptedKeepsFields(group: map<nat, Saved>, src: map<nat, Saved>, d: Descs)
    requires GroupFits(group, src, d) && GroupLayoutsFit(src, d)
    ensures GroupKept(Adopted(group, src, d), src, d)
  {
    hide KeepsFields, LayoutsFit, Restored, Convert;
    forall id | id in src ensures KeepsFields(Adopted(group, src, d)[id].state, src[id], d) {
      RestoredKeepsFields(id, src[id], d);
    }
  }

  ghost predicate VmLayoutsFit(src: VmStates, d: Descs) {
    GroupLayoutsFit(src.transports, d) && GroupLayoutsFit(src.devices, d) && GroupLayoutsFit(src.cpus, d)
    && LayoutsFit(src.kvm, d)
  }

  ghost predicate VmKept(vm: VmStates, src: VmStates, d: Descs) {
    GroupKept(vm.transports, src.transports, d) && GroupKept(vm.devices, src.devices, d)
    && GroupKept(vm.cpus, src.cpus, d) && KeepsFields(vm.kvm.state, src.kvm, d)
  }

  /** Saving and restoring keeps, of every transport, device and CPU and of KVM, every byte
      of every field that the saved and the current version share. */
  lemma {:induction false} SavedFieldsSurvive(src: VmStates, dst: VmStates, kvmId: nat, o: Orders, d: Descs)
    requires AreOrders(o, src) && VmFits(dst, src, kvmId, d) && VmLayoutsFit(src, d)
    ensures var r := RestoredVm(SavedStream(src, kvmId, o), dst, d);
            r.ok && VmKept(r.vm, src, d)
  {
    hide RestoredVm, SavedStream, KeepsFields, GroupKept, GroupFits, GroupLayoutsFit, LayoutsFit, AreOrders;
    SaveRestore(src, dst, kvmId, o, d);
    AdoptedKeepsFields(dst.transports, src.transports, d);
    AdoptedKeepsFields(dst.devices, src.devices, d);
    AdoptedKeepsFields(dst.cpus, src.cpus, d);
    RestoredKeepsFields(kvmId, src.kvm, d);
  }

  // ---- When a saved machine is refused ----

  /** The object was saved by a newer version than this program has. */
  ghost predicate Newer(saved: Saved, d: Descs) {
    Described(saved, d) && d.snap[saved.alias].currentVersion > d.current[d.snap[saved.alias].name].currentVersion
  }

  /** Where the layouts fit, an object can be taken over exactly if it is not newer. */
  lemma {:induction false} RestorableUnlessNewer(id: nat, saved: Saved, d: Descs)
    requires Readable(id, saved, d) && LayoutsFit(saved, d)
    ensures Restorable(id, saved, d) <==> !Newer(saved, d)
  {
    hide WellFormed, NoShrink, Convert, SharesFields, Pow256;
    VersionDecides(d.current[d.snap[saved.alias].name], d.snap[saved.alias], saved.state);
  }

  ghost predicate AllReadable(src: map<nat, Saved>, d: Descs) {
    forall id :: id in src ==> Readable(id, src[id], d) && LayoutsFit(src[id], d)
  }

  /** Restoring a saved group stops at the first object that is newer. */
  lemma {:induction false} GroupRefused(before: seq<Byte>, src: map<nat, Saved>, order: seq<nat>, after: seq<Byte>,
                                        group: map<nat, Saved>, d: Descs)
    requires AllReadable(src, d) && forall i :: 0 <= i < |order| ==> order[i] in src
    requires exists i :: 0 <= i < |order| && Newer(src[order[i]], d)
    ensures !RestoreSteps(before + StreamOf(src, order) + after, |before|, |order|, group, d).ok
    decreases |order|
  {
    hide CheckVmState, Convert, StreamOf, InstanceBytes, Readable, LayoutsFit, Newer;
    var id, saved, rest := order[0], src[order[0]], order[1..];
    var one := InstanceBytes(id, saved);
    StreamStep(src, order);
    var stream := before + StreamOf(src, order) + after;
    assert stream == before + one + (StreamOf(src, rest) + after);
    assert stream == (before + one) + StreamOf(src, rest) + after;
    InstanceRead(before, id, saved, StreamOf(src, rest) + after, d);
    if !Newer(saved, d) {
      InstanceLength(id, saved);
      var i :| 0 <= i < |order| && Newer(src[order[i]], d);
      assert rest[i - 1] == order[i];
      var r := CheckVmState(stream, |before|, d).value;
      var group' := if r.id in group then group[r.id := group[r.id].(state := r.state)] else group;
      GroupRefused(before + one, src, rest, after, group', d);
    }
  }

  /** A readable instance is refused exactly if it is newer; otherwise it is consumed whole. */
  lemma {:induction false} InstanceRead(before: seq<Byte>, id: nat, saved: Saved, after: seq<Byte>, d: Descs)
    requires Readable(id, saved, d) && LayoutsFit(saved, d)
    ensures var r := CheckVmState(before + InstanceBytes(id, saved) + after, |before|, d);
            && (r.None? <==> Newer(saved, d))
            && (r.Some? ==> r.value.next == |before| + INSTANCE + |saved.state|)
  {
    hide CheckVmState, Convert, InstanceBytes, LayoutsFit, Newer, Pow256;
    ReadsAnyInstance(before, id, saved, after, d);
    RestorableUnlessNewer(id, saved, d);
  }

  ghost predicate SameObjects(dst: VmStates, src: VmStates) {
    dst.transports.Keys == src.transports.Keys && dst.devices.Keys == src.devices.Keys && dst.cpus.Keys == src.cpus.Keys
  }

  ghost predicate VmReadable(src: VmStates, kvmId: nat, d: Descs) {
    && AllReadable(src.transports, d) && AllReadable(src.devices, d) && AllReadable(src.cpus, d)
    && Readable(kvmId, src.kvm, d) && LayoutsFit(src.kvm, d)
  }

  ghost predicate SomeNewer(src: map<nat, Saved>, d: Descs) {
    exists id :: id in src && Newer(src[id], d)
  }

  /** One group of the stream is restored exactly if none of its objects is newer. */
  lemma {:induction false} GroupExact(before: seq<Byte>, src: map<nat, Saved>, order: seq<nat>, after: seq<Byte>,
                                      group: map<nat, Saved>, d: Descs)
    requires IsOrder(order, src) && group.Keys == src.Keys && AllReadable(src, d)
    ensures var r := RestoreSteps(before + StreamOf(src, order) + after, |before|, |group|, group, d);
            && (r.ok <==> !SomeNewer(src, d))
            && (r.ok ==> r.pos == |before + StreamOf(src, order)|)
  {
    hide RestoreSteps, StreamOf, Readable, LayoutsFit, Newer, Restorable, Convert;
    OrderLength(order, src);
    assert |group| == |src|;
    if SomeNewer(src, d) {
      var id :| id in src && Newer(src[id], d);
      var i :| 0 <= i < |order| && order[i] == id;
      GroupRefused(before, src, order, after, group, d);
    } else {
      forall id | id in src ensures Restorable(id, src[id], d) {
        RestorableUnlessNewer(id, src[id], d);
      }
      RestoresWholeGroup(before, src, order, after, group, d);
    }
  }

  /** A saved machine of readable objects with fitting layouts is restored if and only if no
      transport, device or CPU, nor KVM, was saved by a newer version. */
  lemma {:induction false} RestoredUnlessNewer(src: VmStates, dst: VmStates, kvmId: nat, o: Orders, d: Descs)
    requires AreOrders(o, src) && SameObjects(dst, src) && VmReadable(src, kvmId, d)
    ensures RestoredVm(SavedStream(src, kvmId, o), dst, d).ok <==>
            && !SomeNewer(src.transports, d) && !SomeNewer(src.devices, d) && !SomeNewer(src.cpus, d)
            && !Newer(src.kvm, d)
  {
    hide RestoreSteps, StreamOf, CheckVmState, InstanceBytes, Newer, SomeNewer, LayoutsFit, Readable, AllReadable;
    var t, v, c, k := StreamOf(src.transports, o.transports), StreamOf(src.devices, o.devices),
                      StreamOf(src.cpus, o.cpus), InstanceBytes(kvmId, src.kvm);
    var fd := t + v + c + k;
    assert fd == [] + t + (v + c + k) && fd == t + v + (c + k) && fd == (t + v) + c + k && fd == (t + v + c) + k + [];
    GroupExact([], src.transports, o.transports, v + c + k, dst.transports, d);
    GroupExact(t, src.devices, o.devices, c + k, dst.devices, d);
    GroupExact(t + v, src.cpus, o.cpus, k, dst.cpus, d);
    InstanceRead(t + v + c, kvmId, src.kvm, [], d);
  }
}
