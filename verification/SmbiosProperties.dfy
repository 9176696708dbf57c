/** What a reader of the built SMBIOS table finds. */
module SmbiosProperties {
  import opened Addresses
  import opened Arithmetic
  import opened Bytes
  import opened SmbiosStructures
  import opened SmbiosTables
  import opened SmbiosBuilder

  // ---- Every structure, every string ----

  lemma {:induction false} AllConcat(a: seq<Structure>, b: seq<Structure>)
    ensures AllWellformed(a + b) <==> AllWellformed(a) && AllWellformed(b)
    ensures AllVisible(a + b) <==> AllVisible(a) && AllVisible(b)
  {
    hide Wellformed, NoneEmpty;
    var c := a + b;
    assert forall i :: 0 <= i < |a| ==> a[i] == c[i];
    assert forall i :: 0 <= i < |b| ==> b[i] == c[|a| + i];
    assert forall i :: |a| <= i < |c| ==> c[i] == b[i - |a|];
  }

  lemma {:induction false} AllSingle(s: Structure)
    ensures AllWellformed([s]) <==> Wellformed(s)
    ensures AllVisible([s]) <==> NoneEmpty(s.strings)
  {
    hide Wellformed, NoneEmpty;
    assert [s][0] == s;
  }

  lemma {:induction false} FrontIs(c: SmbiosConfig)
    requires ValidUuid(c.type1) && TextsNulFree(c)
    ensures AllWellformed(Front(c))
    ensures AllVisible(Front(c)) <==>
            SlotsVisible(Slots0(c.type0)) && SlotsVisible(Slots1(c.type1))
            && (c.type2.added ==> SlotsVisible(Slots2(c.type2))) && SlotsVisible(Slots3(c.type3))
  {
    hide AllWellformed, AllVisible, Filled, SlotsNulFree, SlotsVisible, Slots0, Slots1, Slots2, Slots3;
    hide Fields0, Fields1, Fields2, Fields3;
    FrontTexts(c);
    var second := if c.type2.added then [Type2(c.type2)] else [];
    AllConcat([Type0(c.type0)], [Type1(c.type1)]);
    assert [Type0(c.type0)] + [Type1(c.type1)] == [Type0(c.type0), Type1(c.type1)];
    AllConcat([Type0(c.type0), Type1(c.type1)], second);
    AllConcat([Type0(c.type0), Type1(c.type1)] + second, [Type3(c.type3)]);
    AllSingle(Type0(c.type0));
    AllSingle(Type1(c.type1));
    AllSingle(Type3(c.type3));
    NothingIsFine();
    if c.type2.added {
      AllSingle(Type2(c.type2));
    }
  }

  lemma {:induction false} NothingIsFine()
    ensures AllWellformed([]) && AllVisible([])
  {
  }

  lemma {:induction false} FrontTexts(c: SmbiosConfig)
    requires ValidUuid(c.type1) && TextsNulFree(c)
    ensures Wellformed(Type0(c.type0)) && Wellformed(Type1(c.type1))
    ensures Wellformed(Type2(c.type2)) && Wellformed(Type3(c.type3))
    ensures NoneEmpty(Type0(c.type0).strings) <==> SlotsVisible(Slots0(c.type0))
    ensures NoneEmpty(Type1(c.type1).strings) <==> SlotsVisible(Slots1(c.type1))
    ensures NoneEmpty(Type2(c.type2).strings) <==> SlotsVisible(Slots2(c.type2))
    ensures NoneEmpty(Type3(c.type3).strings) <==> SlotsVisible(Slots3(c.type3))
  {
    hide Filled, SlotsNulFree, SlotsVisible, Fields0, Fields1, Fields2, Fields3;
    FilledTexts(Structure(0, TYPE0_HANDLE, Fields0(), []), Slots0(c.type0));
    FilledTexts(Structure(1, TYPE1_HANDLE, Fields1(c.type1), []), Slots1(c.type1));
    FilledTexts(Structure(2, TYPE2_HANDLE, Fields2(), []), Slots2(c.type2));
    FilledTexts(Structure(3, TYPE3_HANDLE, Fields3(), []), Slots3(c.type3));
  }

  lemma {:induction false} ProcessorTexts(c: Type4Config, m: Machine, i: nat)
    requires i < 256 && SlotsNulFree(Slots4(c, i))
    ensures Wellformed(Type4(c, m, i))
    ensures NoneEmpty(Type4(c, m, i).strings) <==> SlotsVisible(Slots4(c, 0))
  {
    hide Filled, SlotsNulFree, Fields4, Hex2;
    FilledTexts(Structure(4, TYPE4_HANDLE + i, Fields4(c, m), []), Slots4(c, i));
    var a, b := Slots4(c, i), Slots4(c, 0);
    assert a[0].text != Some([]) && b[0].text != Some([]);
    assert forall k :: 1 <= k < |a| ==> a[k] == b[k];
  }

  lemma {:induction false} DeviceTexts(c: Type17Config, size: nat, i: nat)
    requires i < MemNum(size) && SlotsNulFree(Slots17(c, i))
    ensures Wellformed(Type17(c, size, i))
    ensures NoneEmpty(Type17(c, size, i).strings) <==> SlotsVisible(Slots17(c, 0))
  {
    hide Filled, SlotsNulFree, Fields17, Digits;
    FilledTexts(Structure(17, (TYPE17_HANDLE + i) % U16, Fields17(c, DeviceSize(size, i)), []), Slots17(c, i));
    var a, b := Slots17(c, i), Slots17(c, 0);
    assert a[1].text != Some([]) && b[1].text != Some([]);
    assert forall k :: 0 <= k < |a| && k != 1 ==> a[k] == b[k];
  }

  lemma {:induction false} ProcessorsAre(c: Type4Config, m: Machine, n: nat)
    requires n <= 256 && forall i :: SlotsNulFree(Slots4(c, i))
    ensures AllWellformed(Processors(c, m, n))
    ensures AllVisible(Processors(c, m, n)) <==> (n > 0 ==> SlotsVisible(Slots4(c, 0)))
  {
    hide Wellformed, NoneEmpty, SlotsVisible, SlotsNulFree, Type4;
    var r := Processors(c, m, n);
    forall i | 0 <= i < n
      ensures Wellformed(r[i]) && (NoneEmpty(r[i].strings) <==> SlotsVisible(Slots4(c, 0)))
    {
      ProcessorTexts(c, m, i);
    }
    if n > 0 {
      assert NoneEmpty(r[0].strings) <==> SlotsVisible(Slots4(c, 0));
    }
  }

  lemma {:induction false} DevicesAre(c: Type17Config, size: nat, n: nat)
    requires n <= MemNum(size) && forall i :: SlotsNulFree(Slots17(c, i))
    ensures AllWellformed(Devices(c, size, n))
    ensures AllVisible(Devices(c, size, n)) <==> (n > 0 ==> SlotsVisible(Slots17(c, 0)))
  {
    hide Wellformed, NoneEmpty, SlotsVisible, SlotsNulFree, Type17;
    var r := Devices(c, size, n);
    forall i | 0 <= i < n
      ensures Wellformed(r[i]) && (NoneEmpty(r[i].strings) <==> SlotsVisible(Slots17(c, 0)))
    {
      DeviceTexts(c, size, i);
    }
    if n > 0 {
      assert NoneEmpty(r[0].strings) <==> SlotsVisible(Slots17(c, 0));
    }
  }

  lemma {:induction false} PlainAre(m: Machine)
    requires ValidMachine(m)
    ensures AllWellformed(Ranges(m, |m.ranges|)) && AllVisible(Ranges(m, |m.ranges|))
    ensures AllWellformed(Last()) && AllVisible(Last())
    ensures AllWellformed([Type16(m.memSize)]) && AllVisible([Type16(m.memSize)])
  {
    hide Fields19, Fields16;
  }

  lemma {:induction false} MiddleIs(c: SmbiosConfig, m: Machine)
    requires ValidMachine(m) && TextsNulFree(c)
    ensures AllWellformed(Middle(c, m))
    ensures AllVisible(Middle(c, m)) <==>
            (Sockets(m) > 0 ==> SlotsVisible(Slots4(c.type4, 0)))
            && (MemNum(m.memSize) > 0 ==> SlotsVisible(Slots17(c.type17, 0)))
  {
    hide AllWellformed, AllVisible, SlotsVisible, SlotsNulFree, Sockets, MemNum, Type16;
    var ps := Processors(c.type4, m, Sockets(m));
    var ds := Devices(c.type17, m.memSize, MemNum(m.memSize));
    ProcessorsAre(c.type4, m, Sockets(m));
    DevicesAre(c.type17, m.memSize, MemNum(m.memSize));
    PlainAre(m);
    AllConcat(ps, [Type16(m.memSize)]);
    AllConcat(ps + [Type16(m.memSize)], ds);
  }

  /** Walking the built table finds exactly the structures of the machine, in order and with
      all their strings, if and only if no configured string that is used is empty. */
  lemma {:induction false} TableWalks(c: SmbiosConfig, m: Machine)
    requires ValidInput(c, m)
    ensures AllWellformed(Table(c, m))
    ensures Walk(TableBytes(Table(c, m))) == Some(Table(c, m)) <==> TextsVisible(c, m)
  {
    hide AllWellformed, AllVisible, SlotsVisible, SlotsNulFree, Sockets, MemNum, Walk, TableBytes;
    FrontIs(c);
    MiddleIs(c, m);
    PlainAre(m);
    AllConcat(Front(c), Middle(c, m));
    AllConcat(Front(c) + Middle(c, m), Ranges(m, |m.ranges|));
    AllConcat(Front(c) + Middle(c, m) + Ranges(m, |m.ranges|), Last());
    WalkBack(Table(c, m));
  }

  // ---- Handles ----

  ghost predicate Distinct(ss: seq<Structure>) {
    forall i, j :: 0 <= i < j < |ss| ==> ss[i].handle != ss[j].handle
  }

  ghost predicate Rising(ss: seq<Structure>, lo: int, hi: int) {
    (forall i :: 0 <= i < |ss| ==> lo <= ss[i].handle < hi)
    && forall i, j :: 0 <= i < j < |ss| ==> ss[i].handle < ss[j].handle
  }

  lemma {:induction false} RisingConcat(a: seq<Structure>, b: seq<Structure>, lo: int, mid: int, hi: int)
    requires Rising(a, lo, mid) && Rising(b, mid, hi) && lo <= mid <= hi
    ensures Rising(a + b, lo, hi)
  {
    var c := a + b;
    assert forall i :: 0 <= i < |a| ==> c[i] == a[i];
    assert forall i :: |a| <= i < |c| ==> c[i] == b[i - |a|];
  }

  lemma {:induction false} Clash(a: seq<Structure>, i: nat, b: seq<Structure>, j: nat)
    requires i < |a| && j < |b| && a[i].handle == b[j].handle
    ensures !Distinct(a + b)
  {
    assert (a + b)[i] == a[i] && (a + b)[|a| + j] == b[j];
  }

  /** Devices and ranges leave the handle of the boot structure free. */
  predicate HandlesFit(m: Machine) {
    var devices := MemNum(m.memSize);
    if m.ranges == [] then TYPE17_HANDLE + devices <= TYPE32_HANDLE
    else TYPE19_HANDLE + Offset(m.memSize) + |m.ranges| <= TYPE32_HANDLE
  }

  lemma {:induction false} RisingParts(c: SmbiosConfig, m: Machine)
    requires ValidMachine(m) && ValidUuid(c.type1) && HandlesFit(m)
    ensures Rising(Front(c), 0, TYPE4_HANDLE)
    ensures Rising(Processors(c.type4, m, Sockets(m)), TYPE4_HANDLE, TYPE16_HANDLE)
    ensures Rising([Type16(m.memSize)], TYPE16_HANDLE, TYPE17_HANDLE)
    ensures var devices := MemNum(m.memSize);
            Rising(Devices(c.type17, m.memSize, devices), TYPE17_HANDLE, TYPE17_HANDLE + devices)
    ensures Rising(Ranges(m, |m.ranges|), TYPE17_HANDLE + MemNum(m.memSize), TYPE32_HANDLE)
    ensures Rising(Last(), TYPE32_HANDLE, U16)
  {
    hide Rising, MemNum, Sockets, Front, Processors, Devices, Ranges, Type16, Last;
    RisingFront(c);
    RisingProcessors(c.type4, m, Sockets(m));
    RisingDevices(c.type17, m);
    RisingRanges(m);
    RisingPlain(m.memSize);
  }

  lemma {:induction false} RisingProcessors(c: Type4Config, m: Machine, n: nat)
    requires n <= 256
    ensures Rising(Processors(c, m, n), TYPE4_HANDLE, TYPE16_HANDLE)
  {
    hide Filled, Fields4, Slots4, Processors, ValidMachine;
    var r := Processors(c, m, n);
    forall i | 0 <= i < n ensures r[i].handle == TYPE4_HANDLE + i {
      Type4Is(c, m, i);
    }
  }

  lemma {:induction false} RisingDevices(c: Type17Config, m: Machine)
    requires HandlesFit(m)
    ensures var devices := MemNum(m.memSize);
            Rising(Devices(c, m.memSize, devices), TYPE17_HANDLE, TYPE17_HANDLE + devices)
  {
    hide Filled, Fields17, Slots17, Devices, MemNum, DeviceSize;
    DevicesEndBefore(m);
    var devices := MemNum(m.memSize);
    var r := Devices(c, m.memSize, devices);
    forall i | 0 <= i < devices ensures r[i].handle == TYPE17_HANDLE + i {
      Type17Is(c, m.memSize, i);
    }
  }

  lemma {:induction false} RisingRanges(m: Machine)
    requires ValidMachine(m) && HandlesFit(m)
    ensures Rising(Ranges(m, |m.ranges|), TYPE17_HANDLE + MemNum(m.memSize), TYPE32_HANDLE)
  {
    hide Fields19, Ranges, MemNum;
    var r := Ranges(m, |m.ranges|);
    forall i | 0 <= i < |m.ranges| ensures r[i].handle == TYPE19_HANDLE + Offset(m.memSize) + i {
      assert r[i] == Type19(m, i);
    }
  }

  lemma {:induction false} RisingPlain(size: nat)
    ensures Rising([Type16(size)], TYPE16_HANDLE, TYPE17_HANDLE)
    ensures Rising(Last(), TYPE32_HANDLE, U16)
  {
    hide Fields16, MemNum;
  }

  lemma {:induction false} RisingFront(c: SmbiosConfig)
    requires ValidUuid(c.type1)
    ensures Rising(Front(c), 0, TYPE4_HANDLE)
  {
    hide Filled, Fields0, Fields1, Fields2, Fields3, Slots0, Slots1, Slots2, Slots3;
  }

  /** No two structures share a handle exactly if devices and ranges end below the boot structure's. */
  lemma {:induction false} HandlesDistinct(c: SmbiosConfig, m: Machine)
    requires ValidMachine(m) && ValidUuid(c.type1)
    ensures Distinct(Table(c, m)) <==> HandlesFit(m)
  {
    hide Rising, Distinct, Sockets, MemNum, Devices, Processors, Ranges, Front, ValidMachine;
    if HandlesFit(m) {
      RisingParts(c, m);
      HandlesRise(c, m);
    } else {
      HandlesClash(c, m);
    }
  }

  lemma {:induction false} FrontAndMiddleRise(c: SmbiosConfig, m: Machine)
    requires ValidMachine(m) && ValidUuid(c.type1) && HandlesFit(m)
    ensures Rising(Front(c) + Middle(c, m), 0, TYPE17_HANDLE + MemNum(m.memSize))
  {
    hide Rising, Sockets, MemNum, Middle, Ranges, Front, ValidMachine, HandlesFit, ValidUuid;
    RisingParts(c, m);
    MiddleRises(c, m);
    RisingConcat(Front(c), Middle(c, m), 0, TYPE4_HANDLE, TYPE17_HANDLE + MemNum(m.memSize));
  }

  lemma {:induction false} HandlesRise(c: SmbiosConfig, m: Machine)
    requires ValidMachine(m) && ValidUuid(c.type1) && HandlesFit(m)
    ensures Distinct(Table(c, m))
  {
    hide Rising, Distinct, Sockets, MemNum, Middle, Ranges, Front, ValidMachine, Offset, Last, HandlesFit, ValidUuid;
    RisingParts(c, m);
    FrontAndMiddleRise(c, m);
    DevicesEndBefore(m);
    var front, rs := Front(c) + Middle(c, m), Ranges(m, |m.ranges|);
    RisingConcat(front, rs, 0, TYPE17_HANDLE + MemNum(m.memSize), TYPE32_HANDLE);
    RisingConcat(front + rs, Last(), 0, TYPE32_HANDLE, U16);
    RisingIsDistinct(Table(c, m), 0, U16);
  }

  lemma {:induction false} MiddleRises(c: SmbiosConfig, m: Machine)
    requires ValidMachine(m) && ValidUuid(c.type1) && HandlesFit(m)
    ensures Rising(Middle(c, m), TYPE4_HANDLE, TYPE17_HANDLE + MemNum(m.memSize))
  {
    hide Rising, Sockets, MemNum, Devices, Processors, ValidMachine, HandlesFit, Type16;
    RisingProcessors(c.type4, m, Sockets(m));
    RisingPlain(m.memSize);
    RisingDevices(c.type17, m);
    var devices := MemNum(m.memSize);
    var ps := Processors(c.type4, m, Sockets(m));
    var ds := Devices(c.type17, m.memSize, devices);
    RisingConcat(ps, [Type16(m.memSize)], TYPE4_HANDLE, TYPE16_HANDLE, TYPE17_HANDLE);
    RisingConcat(ps + [Type16(m.memSize)], ds, TYPE4_HANDLE, TYPE17_HANDLE, TYPE17_HANDLE + devices);
  }

  lemma {:induction false} DevicesEndBefore(m: Machine)
    requires HandlesFit(m)
    ensures TYPE17_HANDLE + MemNum(m.memSize) <= TYPE32_HANDLE
  {
  }

  lemma {:induction false} RisingIsDistinct(ss: seq<Structure>, lo: int, hi: int)
    requires Rising(ss, lo, hi)
    ensures Distinct(ss)
  {
  }

  /** A structure in the middle of a table that carries the handle of a later one. */
  lemma {:induction false} ClashIn(before: seq<Structure>, xs: seq<Structure>, i: nat, after: seq<Structure>,
                                   last: seq<Structure>)
    requires i < |xs| && last != [] && xs[i].handle == last[0].handle
    ensures !Distinct(before + xs + after + last)
  {
    hide Distinct;
    assert (before + xs + after)[|before| + i] == xs[i];
    Clash(before + xs + after, |before| + i, last, 0);
  }

  lemma {:induction false} BootHandle()
    ensures Last() != [] && Last()[0].handle == TYPE32_HANDLE
  {
  }

  lemma {:induction false} DeviceHandle(c: Type17Config, size: nat, i: nat)
    requires i < MemNum(size)
    ensures Type17(c, size, i).handle == (TYPE17_HANDLE + i) % U16
  {
    hide Filled, Fields17, Slots17, MemNum, DeviceSize;
    Type17Is(c, size, i);
  }

  lemma {:induction false} DevicesClash(c: SmbiosConfig, m: Machine)
    requires ValidMachine(m) && ValidUuid(c.type1) && TYPE17_HANDLE + MemNum(m.memSize) > TYPE32_HANDLE
    ensures !Distinct(Table(c, m))
  {
    hide Distinct, MemNum, Sockets, Front, Processors, Devices, Ranges, Type16, Last, Type17;
    var ds, i := Devices(c.type17, m.memSize, MemNum(m.memSize)), TYPE32_HANDLE - TYPE17_HANDLE;
    var before := Front(c) + (Processors(c.type4, m, Sockets(m)) + [Type16(m.memSize)]);
    assert Table(c, m) == before + ds + Ranges(m, |m.ranges|) + Last();
    BootHandle();
    DeviceHandle(c.type17, m.memSize, i);
    ClashIn(before, ds, i, Ranges(m, |m.ranges|), Last());
  }

  lemma {:induction false} RangeHandleIs(m: Machine, i: nat)
    requires ValidMachine(m) && i < |m.ranges|
    ensures Type19(m, i).handle == (TYPE19_HANDLE + Offset(m.memSize) + i) % U16
  {
    hide Fields19;
  }

  lemma {:induction false} RangesClash(c: SmbiosConfig, m: Machine)
    requires ValidMachine(m) && ValidUuid(c.type1) && TYPE17_HANDLE + MemNum(m.memSize) <= TYPE32_HANDLE
    requires TYPE19_HANDLE + Offset(m.memSize) + |m.ranges| > TYPE32_HANDLE
    ensures !Distinct(Table(c, m))
  {
    hide Distinct, MemNum, Sockets, Front, Middle, Ranges, Last, Type19;
    var rs, i := Ranges(m, |m.ranges|), TYPE32_HANDLE - TYPE19_HANDLE - Offset(m.memSize);
    var before := Front(c) + Middle(c, m);
    assert Table(c, m) == before + rs + [] + Last();
    BootHandle();
    assert Type19(m, i).handle == TYPE32_HANDLE by { RangeHandleIs(m, i); }
    ClashIn(before, rs, i, [], Last());
  }

  lemma {:induction false} HandlesClash(c: SmbiosConfig, m: Machine)
    requires ValidMachine(m) && ValidUuid(c.type1) && !HandlesFit(m)
    ensures !Distinct(Table(c, m))
  {
    hide Distinct, Table, MemNum, ValidMachine;
    if TYPE17_HANDLE + MemNum(m.memSize) > TYPE32_HANDLE {
      DevicesClash(c, m);
    } else {
      RangesClash(c, m);
    }
  }

  // ---- Memory ----

  /** What a reader takes as the size of a memory device, in megabytes. */
  function SizeMb(s: Structure): nat
    requires |s.fields| == 36
  {
    FromLe(s.fields[8..10])
  }

  ghost function SumMb(c: Type17Config, size: nat, n: nat): nat
    requires n <= MemNum(size)
  {
    if n == 0 then 0 else SumMb(c, size, n - 1) + SizeMb(Type17(c, size, n - 1))
  }

  lemma {:induction false} SizeRead(c: Type17Config, size: nat, i: nat)
    requires i < MemNum(size)
    ensures SizeMb(Type17(c, size, i)) == DeviceSize(size, i) / MB
  {
    hide Digits, ToLe, FromLe, Filled, MemNum;
    var mb := DeviceSize(size, i) / MB;
    var start := Structure(17, (TYPE17_HANDLE + i) % U16, Fields17(c, DeviceSize(size, i)), []);
    FilledElsewhere(start, Slots17(c, i), 8);
    FilledElsewhere(start, Slots17(c, i), 9);
    assert Type17(c, size, i).fields[8..10] == start.fields[8..10];
    assert start.fields[8..10] == ToLe(mb, 2);
    TwoBytes(mb);
  }

  lemma {:induction false} SumBefore(c: Type17Config, size: nat, n: nat)
    requires n < MemNum(size)
    ensures SumMb(c, size, n) == n * (DEVICE_MAX / MB)
  {
    hide MemNum, Type17, SizeMb;
    if n > 0 {
      SumBefore(c, size, n - 1);
      SizeRead(c, size, n - 1);
    }
  }

  /** The device sizes add up to the memory of the machine, exactly if their number fits in 16 bits. */
  lemma {:induction false} SizesSum(c: Type17Config, size: nat)
    ensures SumMb(c, size, MemNum(size)) == size / MB <==> size <= 0xFFFF * DEVICE_MAX
  {
    hide Type17, SizeMb;
    var all := (size + DEVICE_MAX - 1) / DEVICE_MAX;
    var n := MemNum(size);
    if n > 0 {
      SumBefore(c, size, n - 1);
      SizeRead(c, size, n - 1);
      LastDevice(size);
    } else {
      assert all == 0 || all >= U16;
    }
  }

  lemma {:induction false} LastDevice(size: nat)
    requires MemNum(size) > 0
    ensures var n := MemNum(size);
            (n - 1) * (DEVICE_MAX / MB) + DeviceSize(size, n - 1) / MB == size / MB
            <==> size <= 0xFFFF * DEVICE_MAX
  {
    var all, n := (size + DEVICE_MAX - 1) / DEVICE_MAX, MemNum(size);
    var last := DeviceSize(size, n - 1);
    hide MemNum, DeviceSize;
    DeviceCount(size);
    InMegabytes(all - 1, last);
    CountFits(size, all, last);
    MulOrder(n - 1, all - 1, DEVICE_MAX / MB);
    MulOrder(all - 1, n - 1, DEVICE_MAX / MB);
  }

  /** The memory fits in so many devices exactly if its devices are so many at most. */
  lemma {:induction false} CountFits(size: nat, all: nat, last: nat)
    requires all >= 1 && size == (all - 1) * DEVICE_MAX + last && 1 <= last <= DEVICE_MAX
    ensures size <= 0xFFFF * DEVICE_MAX <==> all <= 0xFFFF
  {
    MulOrder(all, 0xFFFF, DEVICE_MAX);
    MulOrder(0xFFFF, all - 1, DEVICE_MAX);
  }

  lemma {:induction false} DeviceCount(size: nat)
    requires MemNum(size) > 0
    ensures var all := (size + DEVICE_MAX - 1) / DEVICE_MAX;
            var last := DeviceSize(size, MemNum(size) - 1);
            all >= 1 && size == (all - 1) * DEVICE_MAX + last && 1 <= last <= DEVICE_MAX
    ensures var all := (size + DEVICE_MAX - 1) / DEVICE_MAX;
            MemNum(size) == all <==> all <= 0xFFFF
  {
    var q, r := (size - 1) / DEVICE_MAX, (size - 1) % DEVICE_MAX;
    assert size - 1 == q * DEVICE_MAX + r;
    DivModUnique(size + DEVICE_MAX - 1, DEVICE_MAX, q + 1, r);
  }

  lemma {:induction false} InMegabytes(devices: nat, last: nat)
    ensures (devices * DEVICE_MAX + last) / MB == devices * (DEVICE_MAX / MB) + last / MB
  {
    DivModUnique(devices * DEVICE_MAX + last, MB, devices * (DEVICE_MAX / MB) + last / MB, last % MB);
  }

  /** A reader of the memory array: the capacity in kilobytes. */
  function CapacityKb(maximum: nat, extended: nat): nat {
    if maximum == KB_2T then extended / 1024 else maximum
  }

  /** The array's capacity reads as the memory of the machine, except where the number of
      kilobytes does not fit in 32 bits and loses its top bits without reaching the marker. */
  lemma {:induction false} CapacityExact(size: nat)
    requires size <= U64_MAX
    ensures CapacityKb(MaximumCapacity(size), ExtendedCapacity(size)) == size / 1024
            <==> size / 1024 < U32 || (size / 1024) % U32 >= KB_2T
  {
  }

  /** A reader of a mapped range: its first and last kilobyte. */
  function RangeKb(f: seq<Byte>): (nat, nat)
    requires |f| == 27
  {
    if FromLe(f[0..4]) == U32 - 1 then (FromLe(f[11..19]) / 1024, FromLe(f[19..27]) / 1024)
    else (FromLe(f[0..4]), FromLe(f[4..8]))
  }

  /** Every range of the machine is read back to the kilobyte, wherever it lies. */
  lemma {:induction false} RangeRead(m: Machine, i: nat)
    requires ValidMachine(m) && i < |m.ranges|
    ensures RangeKb(Type19(m, i).fields)
         == (m.ranges[i].0 / 1024, (m.ranges[i].0 + m.ranges[i].1 - 1) / 1024)
  {
    hide ToLe, FromLe;
    var start, last := m.ranges[i].0, m.ranges[i].0 + m.ranges[i].1 - 1;
    var f := Type19(m, i).fields;
    Fits4And8(U32 - 1, 4);
    if NeedsExtended(start, last) {
      Fits4And8(start, 8);
      Fits4And8(last, 8);
      assert f[0..4] == ToLe(U32 - 1, 4) && f[11..19] == ToLe(start, 8) && f[19..27] == ToLe(last, 8);
    } else {
      Fits4And8(start / 1024, 4);
      Fits4And8(last / 1024, 4);
      assert f[0..4] == ToLe(start / 1024, 4) && f[4..8] == ToLe(last / 1024, 4);
    }
  }

  lemma {:induction false} Fits4And8(n: nat, width: nat)
    requires (width == 4 && n < U32) || (width == 8 && n <= U64_MAX)
    ensures FromLe(ToLe(n, width)) == n
  {
    assert Pow256(0) == 1;
    assert Pow256(2) == 0x1_0000;
    assert Pow256(4) == U32;
    assert Pow256(6) == 0x1_0000_0000_0000;
    assert Pow256(8) == U64_MAX + 1;
    LeRoundTrip(n, width);
  }
}
