/** Device-state descriptors and the padding that carries the state of an older
  device version over to the layout of a newer one. */
module DeviceState {
  import opened Addresses
  import opened Bytes

  datatype FieldDesc = FieldDesc(alias: string, offset: nat, size: nat)

  datatype DeviceStateDesc = DeviceStateDesc(
    name: string, alias: nat, size: nat, currentVersion: nat, compatVersion: nat, fields: seq<FieldDesc>)

  datatype VersionCheck = Same | Compat | Mismatch

  /** A newer device accepts older state, never the reverse. */
  function CheckVersion(current: DeviceStateDesc, snap: DeviceStateDesc): VersionCheck {
    if current.currentVersion == snap.currentVersion then Same
    else if current.currentVersion > snap.currentVersion then Compat
    else Mismatch
  }

  /** The first field with the given alias. */
  function Find(fields: seq<FieldDesc>, alias: string): (f: Option<FieldDesc>)
    ensures f.Some? ==> f.value in fields && f.value.alias == alias
    ensures f.None? ==> forall i :: 0 <= i < |fields| ==> fields[i].alias != alias
  {
    if fields == [] then None
    else if fields[0].alias == alias then Some(fields[0])
    else Find(fields[1..], alias)
  }

  datatype Slice = Slice(start: nat, end: nat)

  /** The bytes of a field, or an error for a missing alias or a field beyond the end. */
  function GetSliceIndex(desc: DeviceStateDesc, alias: string): Option<Slice> {
    match Find(desc.fields, alias)
    case None => None
    case Some(f) => if f.offset + f.size > desc.size then None else Some(Slice(f.offset, f.offset + f.size))
  }

  /** The source returns an error for a bad field, and panics on a copy that does
      not fit the buffers. */
  datatype Outcome = Padded | BadField | Panicked

  /** Outcome of copying the field `alias` of the old state `slice` into the new one. */
  function CopyOutcome(new_: DeviceStateDesc, old_: DeviceStateDesc, len: nat, alias: string): Outcome {
    if Find(old_.fields, alias).None? then Padded
    else
      var o, n := GetSliceIndex(old_, alias), GetSliceIndex(new_, alias);
      if o.None? || n.None? then BadField
      else if n.value.start + (o.value.end - o.value.start) > new_.size || o.value.end > len then Panicked
      else Padded
  }

  /** Where byte `i` of the new state comes from after the first `k` fields were
      copied: the last copy that covers it decides. */
  function SourceOf(new_: DeviceStateDesc, old_: DeviceStateDesc, k: nat, i: nat): Option<nat>
    requires k <= |new_.fields|
  {
    if k == 0 then None
    else
      var alias := new_.fields[k - 1].alias;
      var o, n := Find(old_.fields, alias), Find(new_.fields, alias);
      if o.Some? && n.Some? && n.value.offset <= i < n.value.offset + o.value.size then
        Some(o.value.offset + (i - n.value.offset))
      else
        SourceOf(new_, old_, k - 1, i)
  }

  /** `out` holds at each place the byte of `slice` that belongs there, or zero. */
  ghost predicate Holds(new_: DeviceStateDesc, old_: DeviceStateDesc, k: nat, slice: seq<Byte>, out: seq<Byte>)
    requires k <= |new_.fields|
  {
    && |out| == new_.size
    && forall i :: 0 <= i < |out| ==> ComesFrom(out[i], SourceOf(new_, old_, k, i), slice)
  }

  predicate ComesFrom(b: Byte, source: Option<nat>, slice: seq<Byte>) {
    match source
    case Some(j) => j < |slice| && b == slice[j]
    case None => b == 0
  }

  lemma {:induction false} StartsZero(new_: DeviceStateDesc, old_: DeviceStateDesc, slice: seq<Byte>)
    ensures Holds(new_, old_, 0, slice, seq(new_.size, _ => 0))
  {
  }

  lemma {:induction false} SkipKeeps(new_: DeviceStateDesc, old_: DeviceStateDesc, k: nat, slice: seq<Byte>,
                                     out: seq<Byte>)
    requires k < |new_.fields| && Holds(new_, old_, k, slice, out) && Find(old_.fields, new_.fields[k].alias).None?
    ensures Holds(new_, old_, k + 1, slice, out)
  {
  }

  /** Copying the next field that the old state has. */
  lemma {:induction false} CopyKeeps(new_: DeviceStateDesc, old_: DeviceStateDesc, k: nat, slice: seq<Byte>,
                                     out: seq<Byte>)
    requires k < |new_.fields| && Holds(new_, old_, k, slice, out) && Find(old_.fields, new_.fields[k].alias).Some?
    requires CopyOutcome(new_, old_, |slice|, new_.fields[k].alias) == Padded
    ensures var o := GetSliceIndex(old_, new_.fields[k].alias).value;
            var n := GetSliceIndex(new_, new_.fields[k].alias).value;
            Holds(new_, old_, k + 1, slice, out[..n.start] + slice[o.start..o.end] + out[n.start + (o.end - o.start)..])
  {
    hide Find, SourceOf;
    var o, n := GetSliceIndex(old_, new_.fields[k].alias).value, GetSliceIndex(new_, new_.fields[k].alias).value;
    var out' := out[..n.start] + slice[o.start..o.end] + out[n.start + (o.end - o.start)..];
    assert |out'| == new_.size;
    forall i | 0 <= i < |out'|
      ensures ComesFrom(out'[i], SourceOf(new_, old_, k + 1, i), slice)
    {
      CopySource(new_, old_, k, i);
      if n.start <= i < n.start + (o.end - o.start) {
        assert out'[i] == slice[o.start..o.end][i - n.start] == slice[o.start + (i - n.start)];
      } else {
        assert out'[i] == out[i];
      }
    }
    assert Holds(new_, old_, k + 1, slice, out');
  }

  /** What the next copy does to the source of a byte. */
  lemma {:induction false} CopySource(new_: DeviceStateDesc, old_: DeviceStateDesc, k: nat, i: nat)
    requires k < |new_.fields|
    requires GetSliceIndex(old_, new_.fields[k].alias).Some? && GetSliceIndex(new_, new_.fields[k].alias).Some?
    ensures var o := GetSliceIndex(old_, new_.fields[k].alias).value;
            var n := GetSliceIndex(new_, new_.fields[k].alias).value;
            SourceOf(new_, old_, k + 1, i) ==
            if n.start <= i < n.start + (o.end - o.start) then Some(o.start + (i - n.start))
            else SourceOf(new_, old_, k, i)
  {
    hide Find;
  }

  /** Field `k` is the first that cannot be copied. */
  ghost predicate FailsAt(new_: DeviceStateDesc, old_: DeviceStateDesc, len: nat, k: nat) {
    && k < |new_.fields| && CopyOutcome(new_, old_, len, new_.fields[k].alias) != Padded
    && forall i :: 0 <= i < k ==> CopyOutcome(new_, old_, len, new_.fields[i].alias) == Padded
  }

  /** Rearrange the state `slice` of layout `old_` to layout `new_`. */
  method AddPadding(new_: DeviceStateDesc, old_: DeviceStateDesc, slice: seq<Byte>) returns (r: Outcome, out: seq<Byte>)
    ensures r == Padded <==> forall f :: f in new_.fields ==> CopyOutcome(new_, old_, |slice|, f.alias) == Padded
    ensures r == Padded ==> Holds(new_, old_, |new_.fields|, slice, out) && out == Rearranged(new_, old_, slice)
    ensures r != Padded ==>
              exists k: nat :: FailsAt(new_, old_, |slice|, k) && Holds(new_, old_, k, slice, out) &&
                          CopyOutcome(new_, old_, |slice|, new_.fields[k].alias) == r
  {
    hide SourceOf, Holds, Rearranged;
    out := seq(new_.size, _ => 0);
    StartsZero(new_, old_, slice);
    var k := 0;
    while k < |new_.fields|
      invariant 0 <= k <= |new_.fields|
      invariant forall i :: 0 <= i < k ==> CopyOutcome(new_, old_, |slice|, new_.fields[i].alias) == Padded
      invariant Holds(new_, old_, k, slice, out) && |out| == new_.size
    {
      var alias := new_.fields[k].alias;
      if Find(old_.fields, alias).Some? {
        var from := GetSliceIndex(old_, alias);
        if from.None? {
          assert FailsAt(new_, old_, |slice|, k);
          return BadField, out;
        }
        var to := GetSliceIndex(new_, alias);
        if to.None? {
          assert FailsAt(new_, old_, |slice|, k);
          return BadField, out;
        }
        var start, end := to.value.start, to.value.end;
        if from.value.end - from.value.start > end - start {
          end := end + ((from.value.end - from.value.start) - (end - start));
        } else {
          end := end - ((end - start) - (from.value.end - from.value.start));
        }
        if end > |out| || from.value.end > |slice| {
          assert FailsAt(new_, old_, |slice|, k);
          return Panicked, out;
        }
        CopyKeeps(new_, old_, k, slice, out);
        out := out[..start] + slice[from.value.start..from.value.end] + out[end..];
      } else {
        SkipKeeps(new_, old_, k, slice, out);
      }
      k := k + 1;
    }
    HoldsOne(new_, old_, slice, out);
    return Padded, out;
  }

  /** Unique aliases; fields inside the state and pairwise disjoint. */
  ghost predicate WellFormed(d: DeviceStateDesc) {
    && (forall i, j :: 0 <= i < j < |d.fields| ==> d.fields[i].alias != d.fields[j].alias)
    && (forall i :: 0 <= i < |d.fields| ==> d.fields[i].offset + d.fields[i].size <= d.size)
    && (forall i, j :: 0 <= i < j < |d.fields| ==>
          d.fields[i].offset + d.fields[i].size <= d.fields[j].offset ||
          d.fields[j].offset + d.fields[j].size <= d.fields[i].offset)
  }

  /** No field that both versions have got smaller. */
  ghost predicate NoShrink(new_: DeviceStateDesc, old_: DeviceStateDesc) {
    forall f, g :: f in new_.fields && g in old_.fields && f.alias == g.alias ==> g.size <= f.size
  }

  lemma {:induction false} NotShrunk(new_: DeviceStateDesc, old_: DeviceStateDesc, f: FieldDesc, g: FieldDesc)
    requires NoShrink(new_, old_) && f in new_.fields && g in old_.fields && f.alias == g.alias
    ensures g.size <= f.size
  {
  }

  lemma {:induction false} FindOwn(d: DeviceStateDesc, f: FieldDesc)
    requires WellFormed(d) && f in d.fields
    ensures Find(d.fields, f.alias) == Some(f)
  {
    var g := Find(d.fields, f.alias);
    var i :| 0 <= i < |d.fields| && d.fields[i] == f;
    assert g.Some?;
    var j :| 0 <= j < |d.fields| && d.fields[j] == g.value;
    assert i == j;
  }

  lemma {:induction false} FieldsApart(d: DeviceStateDesc, f: FieldDesc, g: FieldDesc, i: nat)
    requires WellFormed(d) && f in d.fields && g in d.fields
    requires f.offset <= i < f.offset + f.size && g.offset <= i < g.offset + g.size
    ensures f == g
  {
    var a :| 0 <= a < |d.fields| && d.fields[a] == f;
    var b :| 0 <= b < |d.fields| && d.fields[b] == g;
    assert a == b;
  }

  /** Byte `i` of the new state belongs to the part of field `f` that field `g` of the old state fills. */
  ghost predicate Fills(new_: DeviceStateDesc, old_: DeviceStateDesc, f: FieldDesc, g: FieldDesc, i: nat) {
    f in new_.fields && g in old_.fields && f.alias == g.alias && f.offset <= i < f.offset + g.size
  }

  /** A filled byte comes from the same byte of the same field. */
  lemma {:induction false} FilledHasSource(new_: DeviceStateDesc, old_: DeviceStateDesc, k: nat, i: nat, j: nat,
                                           g: FieldDesc)
    requires WellFormed(new_) && WellFormed(old_) && NoShrink(new_, old_)
    requires j < k <= |new_.fields| && Fills(new_, old_, new_.fields[j], g, i)
    ensures SourceOf(new_, old_, k, i) == Some(g.offset + (i - new_.fields[j].offset))
  {
    hide NoShrink, WellFormed, Find;
    var f, last := new_.fields[j], new_.fields[k - 1];
    var o := Find(old_.fields, last.alias);
    NotShrunk(new_, old_, f, g);
    if o.Some? {
      NotShrunk(new_, old_, last, o.value);
    }
    FindOwn(new_, last);
    FindOwn(old_, g);
    if o.Some? && last.offset <= i < last.offset + o.value.size {
      FieldsApart(new_, last, f, i);
    } else {
      assert j != k - 1;
      FilledHasSource(new_, old_, k - 1, i, j, g);
    }
  }

  /** A byte with a source is filled. */
  lemma {:induction false} SourceIsFilled(new_: DeviceStateDesc, old_: DeviceStateDesc, k: nat, i: nat)
    returns (f: FieldDesc, g: FieldDesc)
    requires WellFormed(new_) && k <= |new_.fields| && SourceOf(new_, old_, k, i).Some?
    ensures f in new_.fields[..k] && Fills(new_, old_, f, g, i)
  {
    f := new_.fields[k - 1];
    FindOwn(new_, f);
    var o := Find(old_.fields, f.alias);
    if o.Some? && f.offset <= i < f.offset + o.value.size {
      g := o.value;
    } else {
      f, g := SourceIsFilled(new_, old_, k - 1, i);
    }
  }

  /** Padding between well-formed layouts without shrinking always succeeds. */
  lemma {:induction false} PaddingSucceeds(new_: DeviceStateDesc, old_: DeviceStateDesc, slice: seq<Byte>, f: FieldDesc)
    requires WellFormed(new_) && WellFormed(old_) && NoShrink(new_, old_) && |slice| == old_.size && f in new_.fields
    ensures CopyOutcome(new_, old_, |slice|, f.alias) == Padded
  {
    FindOwn(new_, f);
  }

  /** It keeps every byte of every shared field, and zeroes every other byte. */
  lemma {:induction false} PaddingKeepsFields(new_: DeviceStateDesc, old_: DeviceStateDesc, slice: seq<Byte>,
                                              out: seq<Byte>)
    requires WellFormed(new_) && WellFormed(old_) && NoShrink(new_, old_) && |slice| == old_.size
    requires Holds(new_, old_, |new_.fields|, slice, out)
    ensures |out| == new_.size
    ensures forall f, g, i: nat :: Fills(new_, old_, f, g, i) ==>
              i < |out| && g.offset + (i - f.offset) < |slice| && out[i] == slice[g.offset + (i - f.offset)]
    ensures forall i: nat :: i < |out| && (forall f, g :: !Fills(new_, old_, f, g, i)) ==> out[i] == 0
  {
    hide WellFormed, NoShrink, SourceOf, Find;
    forall f, g, i: nat | Fills(new_, old_, f, g, i)
      ensures i < |out| && g.offset + (i - f.offset) < |slice| && out[i] == slice[g.offset + (i - f.offset)]
    {
      NotShrunk(new_, old_, f, g);
      FieldInside(new_, f);
      OriginOf(new_, old_, f, g, i);
    }
    forall i: nat | i < |out| && (forall f, g :: !Fills(new_, old_, f, g, i)) ensures out[i] == 0 {
      if SourceOf(new_, old_, |new_.fields|, i).Some? {
        var f, g := SourceIsFilled(new_, old_, |new_.fields|, i);
        assert false;
      }
    }
  }

  lemma {:induction false} FieldInside(d: DeviceStateDesc, f: FieldDesc)
    requires WellFormed(d) && f in d.fields
    ensures f.offset + f.size <= d.size
  {
  }

  /** The padded state. */
  function Rearranged(new_: DeviceStateDesc, old_: DeviceStateDesc, slice: seq<Byte>): (out: seq<Byte>) {
    seq(new_.size, i requires 0 <= i =>
      match SourceOf(new_, old_, |new_.fields|, i)
      case Some(j) => if j < |slice| then slice[j] else 0
      case None => 0)
  }

  lemma {:induction false} HoldsOne(new_: DeviceStateDesc, old_: DeviceStateDesc, slice: seq<Byte>, out: seq<Byte>)
    requires Holds(new_, old_, |new_.fields|, slice, out)
    ensures out == Rearranged(new_, old_, slice)
  {
    hide SourceOf;
  }

  /** Where every field can be copied, every source lies in the old state. */
  lemma {:induction false} SourceInside(new_: DeviceStateDesc, old_: DeviceStateDesc, len: nat, k: nat, i: nat)
    requires k <= |new_.fields| && SourceOf(new_, old_, k, i).Some?
    requires forall f :: f in new_.fields ==> CopyOutcome(new_, old_, len, f.alias) == Padded
    ensures SourceOf(new_, old_, k, i).value < len
  {
    hide Find;
    if k > 0 {
      var f := new_.fields[k - 1];
      assert f in new_.fields;
      var o, n := Find(old_.fields, f.alias), Find(new_.fields, f.alias);
      if !(o.Some? && n.Some? && n.value.offset <= i < n.value.offset + o.value.size) {
        SourceInside(new_, old_, len, k - 1, i);
      }
    }
  }

  /** The padded state is the one that padding yields wherever it succeeds. */
  lemma {:induction false} RearrangedHolds(new_: DeviceStateDesc, old_: DeviceStateDesc, slice: seq<Byte>)
    requires forall f :: f in new_.fields ==> CopyOutcome(new_, old_, |slice|, f.alias) == Padded
    ensures Holds(new_, old_, |new_.fields|, slice, Rearranged(new_, old_, slice))
  {
    hide SourceOf, CopyOutcome;
    var out := Rearranged(new_, old_, slice);
    forall i | 0 <= i < |out| ensures ComesFrom(out[i], SourceOf(new_, old_, |new_.fields|, i), slice) {
      if SourceOf(new_, old_, |new_.fields|, i).Some? {
        SourceInside(new_, old_, |slice|, |new_.fields|, i);
      }
    }
  }

  /** Where a byte comes from. */
  function Origin(new_: DeviceStateDesc, old_: DeviceStateDesc, i: nat): Option<nat> {
    SourceOf(new_, old_, |new_.fields|, i)
  }

  /** Where a byte comes from when the state passes through an intermediate version. */
  function OriginVia(v3: DeviceStateDesc, v2: DeviceStateDesc, v1: DeviceStateDesc, i: nat): Option<nat> {
    match Origin(v3, v2, i)
    case None => None
    case Some(j) => Origin(v2, v1, j)
  }

  /** Every non-empty field that versions 1 and 3 share is in version 2. */
  ghost predicate KeepsShared(v3: DeviceStateDesc, v2: DeviceStateDesc, v1: DeviceStateDesc) {
    forall f, g :: f in v3.fields && g in v1.fields && f.alias == g.alias && g.size > 0 ==>
                   Find(v2.fields, f.alias).Some?
  }

  lemma {:induction false} OriginOf(new_: DeviceStateDesc, old_: DeviceStateDesc, f: FieldDesc, g: FieldDesc, i: nat)
    requires WellFormed(new_) && WellFormed(old_) && NoShrink(new_, old_) && Fills(new_, old_, f, g, i)
    ensures Origin(new_, old_, i) == Some(g.offset + (i - f.offset))
  {
    hide WellFormed, NoShrink, SourceOf;
    var j :| 0 <= j < |new_.fields| && new_.fields[j] == f;
    FilledHasSource(new_, old_, |new_.fields|, i, j, g);
  }

  /** An origin through version 2 is the direct origin. */
  lemma {:induction false} ViaIsDirect(v3: DeviceStateDesc, v2: DeviceStateDesc, v1: DeviceStateDesc, i: nat)
    requires WellFormed(v3) && WellFormed(v2) && WellFormed(v1)
    requires NoShrink(v3, v2) && NoShrink(v2, v1) && NoShrink(v3, v1)
    ensures OriginVia(v3, v2, v1, i).Some? ==> OriginVia(v3, v2, v1, i) == Origin(v3, v1, i)
  {
    hide WellFormed, NoShrink, SourceOf, Find;
    if OriginVia(v3, v2, v1, i).Some? {
      var f3, f2 := SourceIsFilled(v3, v2, |v3.fields|, i);
      OriginOf(v3, v2, f3, f2, i);
      var j := f2.offset + (i - f3.offset);
      var f2', f1 := SourceIsFilled(v2, v1, |v2.fields|, j);
      NotShrunk(v2, v1, f2', f1);
      FieldsApart(v2, f2, f2', j);
      OriginOf(v2, v1, f2, f1, j);
      OriginOf(v3, v1, f3, f1, i);
    }
  }

  /** A direct origin survives version 2 when version 2 has the field. */
  lemma {:induction false} DirectIsVia(v3: DeviceStateDesc, v2: DeviceStateDesc, v1: DeviceStateDesc, i: nat)
    requires WellFormed(v3) && WellFormed(v2) && WellFormed(v1)
    requires NoShrink(v3, v2) && NoShrink(v2, v1) && NoShrink(v3, v1)
    requires KeepsShared(v3, v2, v1) && Origin(v3, v1, i).Some?
    ensures OriginVia(v3, v2, v1, i) == Origin(v3, v1, i)
  {
    hide WellFormed, NoShrink, SourceOf, Find;
    var f3, f1 := SourceIsFilled(v3, v1, |v3.fields|, i);
    OriginOf(v3, v1, f3, f1, i);
    var f2 := Find(v2.fields, f3.alias).value;
    NotShrunk(v2, v1, f2, f1);
    OriginOf(v3, v2, f3, f2, i);
    OriginOf(v2, v1, f2, f1, f2.offset + (i - f3.offset));
  }

  /** Padding by way of version 2 gives for every state what padding directly
      gives, if and only if version 2 has every non-empty field that versions 1
      and 3 share. */
  lemma {:induction false} PaddingComposes(v3: DeviceStateDesc, v2: DeviceStateDesc, v1: DeviceStateDesc)
    requires WellFormed(v3) && WellFormed(v2) && WellFormed(v1)
    requires NoShrink(v3, v2) && NoShrink(v2, v1) && NoShrink(v3, v1)
    ensures (forall i: nat :: OriginVia(v3, v2, v1, i) == Origin(v3, v1, i)) <==> KeepsShared(v3, v2, v1)
  {
    hide WellFormed, NoShrink, SourceOf, Find;
    if KeepsShared(v3, v2, v1) {
      forall i: nat ensures OriginVia(v3, v2, v1, i) == Origin(v3, v1, i) {
        ViaIsDirect(v3, v2, v1, i);
        if Origin(v3, v1, i).Some? {
          DirectIsVia(v3, v2, v1, i);
        }
      }
    } else {
      var f, g :| f in v3.fields && g in v1.fields && f.alias == g.alias && g.size > 0 &&
                  Find(v2.fields, f.alias).None?;
      var i := f.offset;
      OriginOf(v3, v1, f, g, i);
      if Origin(v3, v2, i).Some? {
        var f', g2 := SourceIsFilled(v3, v2, |v3.fields|, i);
        NotShrunk(v3, v2, f', g2);
        NotShrunk(v3, v1, f, g);
        FieldsApart(v3, f, f', i);
        assert false;
      }
    }
  }

  /** Byte for byte: two paddings in a row hold the bytes of their joint origins. */
  lemma {:induction false} TwoPaddings(v3: DeviceStateDesc, v2: DeviceStateDesc, v1: DeviceStateDesc,
                                       s1: seq<Byte>, s2: seq<Byte>, s3: seq<Byte>, direct: seq<Byte>)
    requires WellFormed(v3) && WellFormed(v2) && WellFormed(v1) && |s1| == v1.size
    requires NoShrink(v3, v2) && NoShrink(v2, v1) && NoShrink(v3, v1) && KeepsShared(v3, v2, v1)
    requires Holds(v2, v1, |v2.fields|, s1, s2) && Holds(v3, v2, |v3.fields|, s2, s3) &&
             Holds(v3, v1, |v3.fields|, s1, direct)
    ensures s3 == direct
  {
    hide WellFormed, NoShrink, KeepsShared, SourceOf;
    PaddingComposes(v3, v2, v1);
    forall i | 0 <= i < |s3| ensures s3[i] == direct[i] {
      assert OriginVia(v3, v2, v1, i) == Origin(v3, v1, i);
    }
  }
}