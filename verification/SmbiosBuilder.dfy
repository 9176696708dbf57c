/** Building the whole SMBIOS table of a machine. */
module SmbiosBuilder {
  import opened Bytes
  import opened SmbiosStructures
  import opened SmbiosTables

  // ---- The table as a list of structures ----

  function Type0(c: Type0Config): Structure {
    Filled(Structure(0, TYPE0_HANDLE, Fields0(), []), Slots0(c))
  }

  function Type1(c: Type1Config): Structure
    requires ValidUuid(c)
  {
    Filled(Structure(1, TYPE1_HANDLE, Fields1(c), []), Slots1(c))
  }

  function Type2(c: Type2Config): Structure {
    Filled(Structure(2, TYPE2_HANDLE, Fields2(), []), Slots2(c))
  }

  function Type3(c: Type3Config): Structure {
    Filled(Structure(3, TYPE3_HANDLE, Fields3(), []), Slots3(c))
  }

  function Type4(c: Type4Config, m: Machine, i: nat): Structure
    requires i < 256
  {
    Filled(Structure(4, TYPE4_HANDLE + i, Fields4(c, m), []), Slots4(c, i))
  }

  function Type16(size: nat): Structure {
    Structure(16, TYPE16_HANDLE, Fields16(size, MemNum(size)), [])
  }

  function Type17(c: Type17Config, size: nat, i: nat): Structure
    requires i < MemNum(size)
  {
    Filled(Structure(17, (TYPE17_HANDLE + i) % U16, Fields17(c, DeviceSize(size, i)), []), Slots17(c, i))
  }

  function Type19(m: Machine, i: nat): Structure
    requires ValidMachine(m) && i < |m.ranges|
  {
    Structure(19, (TYPE19_HANDLE + Offset(m.memSize) + i) % U16, Fields19(m.ranges[i].0, m.ranges[i].1), [])
  }

  function Type32(): Structure {
    Structure(32, TYPE32_HANDLE, Zeros(7), [])
  }

  function Type127(): Structure {
    Structure(127, TYPE127_HANDLE, [], [])
  }

  ghost predicate TextsNulFree(c: SmbiosConfig) {
    SlotsNulFree(Slots0(c.type0)) && SlotsNulFree(Slots1(c.type1)) && SlotsNulFree(Slots2(c.type2))
    && SlotsNulFree(Slots3(c.type3))
    && (forall i :: SlotsNulFree(Slots4(c.type4, i)))
    && (forall i :: SlotsNulFree(Slots17(c.type17, i)))
  }

  ghost predicate ValidInput(c: SmbiosConfig, m: Machine) {
    ValidMachine(m) && ValidUuid(c.type1) && TextsNulFree(c)
  }

  /** Every configured string that a structure of this machine will hold is non-empty. */
  ghost predicate TextsVisible(c: SmbiosConfig, m: Machine)
    requires ValidMachine(m)
  {
    SlotsVisible(Slots0(c.type0)) && SlotsVisible(Slots1(c.type1))
    && (c.type2.added ==> SlotsVisible(Slots2(c.type2)))
    && SlotsVisible(Slots3(c.type3))
    && (Sockets(m) > 0 ==> SlotsVisible(Slots4(c.type4, 0)))
    && (MemNum(m.memSize) > 0 ==> SlotsVisible(Slots17(c.type17, 0)))
  }

  ghost function Front(c: SmbiosConfig): seq<Structure>
    requires ValidUuid(c.type1)
  {
    [Type0(c.type0), Type1(c.type1)] + (if c.type2.added then [Type2(c.type2)] else []) + [Type3(c.type3)]
  }

  ghost function Processors(c: Type4Config, m: Machine, n: nat): (r: seq<Structure>)
    requires n <= 256
    ensures |r| == n && forall i :: 0 <= i < n ==> r[i] == Type4(c, m, i)
  {
    if n == 0 then [] else Processors(c, m, n - 1) + [Type4(c, m, n - 1)]
  }

  ghost function Devices(c: Type17Config, size: nat, n: nat): (r: seq<Structure>)
    requires n <= MemNum(size)
    ensures |r| == n && forall i :: 0 <= i < n ==> r[i] == Type17(c, size, i)
  {
    if n == 0 then [] else Devices(c, size, n - 1) + [Type17(c, size, n - 1)]
  }

  ghost function Ranges(m: Machine, n: nat): (r: seq<Structure>)
    requires ValidMachine(m) && n <= |m.ranges|
    ensures |r| == n && forall i :: 0 <= i < n ==> r[i] == Type19(m, i)
  {
    if n == 0 then [] else Ranges(m, n - 1) + [Type19(m, n - 1)]
  }

  ghost function Middle(c: SmbiosConfig, m: Machine): seq<Structure>
    requires ValidMachine(m)
  {
    Processors(c.type4, m, Sockets(m)) + [Type16(m.memSize)] + Devices(c.type17, m.memSize, MemNum(m.memSize))
  }

  ghost function Last(): seq<Structure> {
    [Type32(), Type127()]
  }

  ghost function Table(c: SmbiosConfig, m: Machine): seq<Structure>
    requires ValidMachine(m) && ValidUuid(c.type1)
  {
    Front(c) + Middle(c, m) + Ranges(m, |m.ranges|) + Last()
  }

  // ---- The builder ----

  class SmbiosTable {
    var entries: seq<Byte>
    ghost var structures: seq<Structure>

    ghost predicate Valid()
      reads this
    {
      AllWellformed(structures) && entries == TableBytes(structures)
    }

    constructor ()
      ensures Valid() && structures == []
    {
      entries, structures := [], [];
    }

    /** Fill in one structure, string by string, and append it to the table. */
    method Append(start: Structure, slots: seq<Slot>)
      requires Valid() && start.strings == [] && Wellformed(start)
      requires CanHold(start, slots) && SlotsNulFree(slots)
      modifies this
      ensures Valid() && structures == old(structures) + [Filled(start, slots)]
    {
      hide Placed, Wellformed, StructureBytes, TableBytes, AllWellformed, Texts, SlotsNulFree, StringSet;
      var table := new StructureTable(start.kind, start.handle, start.fields);
      var i := 0;
      assert table.Current() == start && slots[0..] == slots;
      while i < |slots|
        invariant i <= |slots| && table.Valid() && fresh(table)
        invariant structures == old(structures) && entries == old(entries)
        invariant table.kind == start.kind && table.handle == start.handle
        invariant CanHold(table.Current(), slots[i..])
        invariant Filled(table.Current(), slots[i..]) == Filled(start, slots)
      {
        FillStep(table.Current(), slots, i);
        table.Place(slots[i]);
        i := i + 1;
      }
      assert slots[i..] == [];
      FilledTexts(start, slots);
      table.Finish();
      ghost var s := Filled(start, slots);
      assert table.Current() == s;
      TableSnoc(structures, s);
      BytesOf(s);
      entries := entries + [table.kind, HEADER_LEN + |table.fields|] + ToLe(table.handle, 2)
                 + table.fields + table.body;
      structures := structures + [s];
    }

    method AppendPlain(s: Structure)
      requires Valid() && s.strings == [] && s.handle < U16 && |s.fields| < 252
      modifies this
      ensures Valid() && structures == old(structures) + [s]
    {
      Append(s, []);
    }

    method BuildFront(c: SmbiosConfig)
      requires Valid() && ValidUuid(c.type1) && TextsNulFree(c)
      modifies this
      ensures Valid() && structures == old(structures) + Front(c)
    {
      hide Wellformed, Filled, Fields0, Fields1, Fields2, Fields3, TableBytes, AllWellformed;
      Holdings();
      Append(Structure(0, TYPE0_HANDLE, Fields0(), []), Slots0(c.type0));
      Append(Structure(1, TYPE1_HANDLE, Fields1(c.type1), []), Slots1(c.type1));
      if c.type2.added {
        Append(Structure(2, TYPE2_HANDLE, Fields2(), []), Slots2(c.type2));
      }
      Append(Structure(3, TYPE3_HANDLE, Fields3(), []), Slots3(c.type3));
    }

    method BuildProcessors(c: Type4Config, m: Machine)
      requires Valid() && ValidMachine(m) && forall i :: SlotsNulFree(Slots4(c, i))
      modifies this
      ensures Valid() && structures == old(structures) + Processors(c, m, Sockets(m))
    {
      hide Wellformed, Filled, Fields4, SlotsNulFree, TableBytes, AllWellformed, Type4;
      Holdings();
      for i := 0 to Sockets(m)
        invariant Valid() && structures == old(structures) + Processors(c, m, i)
      {
        Type4Is(c, m, i);
        Append(Structure(4, TYPE4_HANDLE + i, Fields4(c, m), []), Slots4(c, i));
      }
    }

    method BuildDevices(c: Type17Config, size: nat)
      requires Valid() && forall i :: SlotsNulFree(Slots17(c, i))
      modifies this
      ensures Valid() && structures == old(structures) + Devices(c, size, MemNum(size))
    {
      hide Wellformed, Filled, Fields17, SlotsNulFree, TableBytes, AllWellformed, Type17;
      Holdings();
      for i := 0 to MemNum(size)
        invariant Valid() && structures == old(structures) + Devices(c, size, i)
      {
        Type17Is(c, size, i);
        Append(Structure(17, (TYPE17_HANDLE + i) % U16, Fields17(c, DeviceSize(size, i)), []), Slots17(c, i));
      }
    }

    method BuildRanges(m: Machine)
      requires Valid() && ValidMachine(m)
      modifies this
      ensures Valid() && structures == old(structures) + Ranges(m, |m.ranges|)
    {
      hide Wellformed, Fields19, TableBytes, AllWellformed;
      Holdings();
      for i := 0 to |m.ranges|
        invariant Valid() && structures == old(structures) + Ranges(m, i)
      {
        AppendPlain(Type19(m, i));
      }
    }

    /** The whole table; the bytes are those of the machine's structures, in order. */
    method BuildTables(c: SmbiosConfig, m: Machine) returns (bytes: seq<Byte>)
      requires Valid() && structures == [] && ValidInput(c, m)
      modifies this
      ensures Valid() && structures == Table(c, m) && bytes == TableBytes(Table(c, m))
    {
      hide Valid, Filled, ValidMachine, SlotsNulFree, Fields16, Front, Processors, Devices, Ranges, Sockets;
      BuildFront(c);
      BuildProcessors(c.type4, m);
      AppendPlain(Type16(m.memSize));
      BuildDevices(c.type17, m.memSize);
      BuildRanges(m);
      AppendPlain(Type32());
      AppendPlain(Type127());
      Together(Front(c), Processors(c.type4, m, Sockets(m)), [Type16(m.memSize)],
               Devices(c.type17, m.memSize, MemNum(m.memSize)), Ranges(m, |m.ranges|), Type32(), Type127());
      bytes := Entries(Table(c, m));
    }

    method Entries(ghost expected: seq<Structure>) returns (bytes: seq<Byte>)
      requires Valid() && structures == expected
      ensures AllWellformed(expected) && bytes == entries == TableBytes(expected)
    {
      bytes := entries;
    }
  }

  lemma {:induction false} Together<T>(a: seq<T>, b: seq<T>, c: seq<T>, d: seq<T>, e: seq<T>, x: T, y: T)
    ensures [] + a + b + c + d + e + [x] + [y] == a + (b + c + d) + e + [x, y]
  {
  }

  /** Structures that the header can describe, before any string is placed. */
  lemma {:induction false} Holdings()
    ensures forall s: Structure {:trigger Wellformed(s)} ::
              s.strings == [] && s.handle < U16 && |s.fields| < 252 ==> Wellformed(s)
    ensures forall s: Structure {:trigger Filled(s, [])} :: |s.strings| < 256 ==> Filled(s, []) == s
  {
  }

  lemma {:induction false} Type4Is(c: Type4Config, m: Machine, i: nat)
    requires i < 256
    ensures CanHold(Structure(4, TYPE4_HANDLE + i, Fields4(c, m), []), Slots4(c, i))
    ensures Type4(c, m, i) == Filled(Structure(4, TYPE4_HANDLE + i, Fields4(c, m), []), Slots4(c, i))
  {
  }

  lemma {:induction false} Type17Is(c: Type17Config, size: nat, i: nat)
    requires i < MemNum(size)
    ensures var start := Structure(17, (TYPE17_HANDLE + i) % U16, Fields17(c, DeviceSize(size, i)), []);
            CanHold(start, Slots17(c, i)) && Type17(c, size, i) == Filled(start, Slots17(c, i))
  {
  }

  lemma {:induction false} FillStep(s: Structure, slots: seq<Slot>, i: nat)
    requires i < |slots| && CanHold(s, slots[i..])
    ensures slots[i].pos < |s.fields| && |s.strings| < 255
    ensures CanHold(Placed(s, slots[i]), slots[i + 1..])
    ensures Filled(s, slots[i..]) == Filled(Placed(s, slots[i]), slots[i + 1..])
  {
    var left := slots[i..];
    assert left[0] == slots[i] && left[1..] == slots[i + 1..];
    assert forall k :: 0 <= k < |left[1..]| ==> left[1..][k] == left[k + 1];
  }

  lemma {:induction false} BytesOf(s: Structure)
    requires Wellformed(s)
    ensures StructureBytes(s)
         == [s.kind, HEADER_LEN + |s.fields|] + ToLe(s.handle, 2) + s.fields + StringSet(s.strings)
  {
  }
}
