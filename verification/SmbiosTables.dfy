/** The SMBIOS table of a machine: which structures it holds, which string each field
    names, which handles they carry and how much memory they describe. */
module SmbiosTables {
  import opened Addresses
  import opened Arithmetic
  import opened Bytes
  import opened CStrings
  import opened SmbiosStructures

  const GB: nat := 0x4000_0000
  const MB: nat := 0x10_0000
  const DEVICE_MAX: nat := 16 * GB

  const TYPE0_HANDLE: nat := 0x0
  const TYPE1_HANDLE: nat := 0x100
  const TYPE2_HANDLE: nat := 0x200
  const TYPE3_HANDLE: nat := 0x300
  const TYPE4_HANDLE: nat := 0x400
  const TYPE16_HANDLE: nat := 0x1000
  const TYPE17_HANDLE: nat := 0x1100
  const TYPE19_HANDLE: nat := 0x1300
  const TYPE32_HANDLE: nat := 0x2000
  const TYPE127_HANDLE: nat := 0x7F00

  /** "StratoVirt" */
  const HYPERVISOR: Text := [0x53, 0x74, 0x72, 0x61, 0x74, 0x6F, 0x56, 0x69, 0x72, 0x74]
  /** "Virtual Machine" */
  const PRODUCT: Text :=
    [0x56, 0x69, 0x72, 0x74, 0x75, 0x61, 0x6C, 0x20, 0x4D, 0x61, 0x63, 0x68, 0x69, 0x6E, 0x65]
  /** "CPU" */
  const CPU: Text := [0x43, 0x50, 0x55]
  /** "DIMM" */
  const DIMM: Text := [0x44, 0x49, 0x4D, 0x4D]
  const SPACE: Byte := 0x20

  // ---- One structure: places for strings ----

  /** A byte of the fields that is to name a string, if the string is configured. */
  datatype Slot = Slot(pos: nat, text: Option<Text>)

  predicate CanHold(s: Structure, slots: seq<Slot>) {
    |s.strings| + |slots| < 256 && forall i :: 0 <= i < |slots| ==> slots[i].pos < |s.fields|
  }

  function Placed(s: Structure, slot: Slot): (r: Structure)
    requires slot.pos < |s.fields| && |s.strings| < 255
    ensures |r.fields| == |s.fields| && |s.strings| <= |r.strings| <= |s.strings| + 1
    ensures r.kind == s.kind && r.handle == s.handle
  {
    if slot.text.None? then s
    else s.(fields := s.fields[slot.pos := |s.strings| + 1], strings := s.strings + [slot.text.value])
  }

  function Filled(s: Structure, slots: seq<Slot>): (r: Structure)
    requires CanHold(s, slots)
    ensures |r.fields| == |s.fields| && r.kind == s.kind && r.handle == s.handle
    decreases |slots|
  {
    if slots == [] then s else Filled(Placed(s, slots[0]), slots[1..])
  }

  ghost predicate DistinctPlaces(slots: seq<Slot>) {
    forall i, j :: 0 <= i < j < |slots| ==> slots[i].pos != slots[j].pos
  }

  /** The field names the text by its one-based index, or is as it was. */
  predicate NamesText(r: Structure, slot: Slot, was: Structure)
    requires slot.pos < |r.fields| == |was.fields|
  {
    if slot.text.Some? then
      1 <= r.fields[slot.pos] <= |r.strings| && r.strings[r.fields[slot.pos] - 1] == slot.text.value
    else r.fields[slot.pos] == was.fields[slot.pos]
  }

  /** Fields outside the places are untouched, and the strings before stay where they were. */
  lemma {:induction false} FilledElsewhere(s: Structure, slots: seq<Slot>, p: nat)
    requires CanHold(s, slots) && p < |s.fields|
    requires forall i :: 0 <= i < |slots| ==> slots[i].pos != p
    ensures Filled(s, slots).fields[p] == s.fields[p]
    ensures s.strings <= Filled(s, slots).strings
    decreases |slots|
  {
    if slots != [] {
      FilledElsewhere(Placed(s, slots[0]), slots[1..], p);
    }
  }

  /** Every configured string is named by its own field, in whatever structure and order. */
  lemma {:induction false} FilledNames(s: Structure, slots: seq<Slot>, i: nat)
    requires CanHold(s, slots) && DistinctPlaces(slots) && i < |slots|
    ensures NamesText(Filled(s, slots), slots[i], s)
    decreases |slots|
  {
    var next := Placed(s, slots[0]);
    if i == 0 {
      FilledElsewhere(next, slots[1..], slots[0].pos);
    } else {
      assert slots[1..][i - 1] == slots[i];
      FilledNames(next, slots[1..], i - 1);
    }
  }

  predicate SlotsNulFree(slots: seq<Slot>) {
    forall i :: 0 <= i < |slots| && slots[i].text.Some? ==> 0 !in slots[i].text.value
  }

  predicate SlotsVisible(slots: seq<Slot>) {
    forall i :: 0 <= i < |slots| ==> slots[i].text != Some([])
  }

  lemma {:induction false} FilledTexts(s: Structure, slots: seq<Slot>)
    requires CanHold(s, slots) && Wellformed(s) && SlotsNulFree(slots)
    ensures Wellformed(Filled(s, slots))
    ensures NoneEmpty(Filled(s, slots).strings) <==> NoneEmpty(s.strings) && SlotsVisible(slots)
    decreases |slots|
  {
    if slots != [] {
      var next := Placed(s, slots[0]);
      var others := slots[1..];
      assert forall i :: 0 <= i < |others| ==> others[i] == slots[i + 1];
      assert forall i :: 1 <= i < |slots| ==> slots[i] == others[i - 1];
      assert NoneEmpty(next.strings) <==> NoneEmpty(s.strings) && slots[0].text != Some([]) by {
        if slots[0].text.Some? {
          assert next.strings[|s.strings|] == slots[0].text.value;
          assert forall i :: 0 <= i < |s.strings| ==> next.strings[i] == s.strings[i];
        }
      }
      FilledTexts(next, others);
    }
  }

  /** One structure under construction. */
  class StructureTable {
    const kind: Byte
    const handle: nat
    var fields: seq<Byte>
    var body: seq<Byte>
    var strIndex: nat
    ghost var strings: seq<Text>

    ghost predicate Valid()
      reads this
    {
      body == Texts(strings) && strIndex == |strings| < 256
    }

    ghost function Current(): Structure
      reads this
    {
      Structure(kind, handle, fields, strings)
    }

    constructor (kind: Byte, handle: nat, fields: seq<Byte>)
      ensures Valid() && Current() == Structure(kind, handle, fields, [])
    {
      this.kind, this.handle, this.fields := kind, handle, fields;
      body, strIndex, strings := [], 0, [];
    }

    method SetStr(text: Text)
      requires Valid() && strIndex < 255
      modifies this
      ensures Valid() && Current() == old(Current().(strings := strings + [text]))
    {
      TextsSnoc(strings, text);
      strIndex := strIndex + 1;
      body := body + text + [0];
      strings := strings + [text];
    }

    method Place(slot: Slot)
      requires Valid() && strIndex < 255 && slot.pos < |fields|
      modifies this
      ensures Valid() && Current() == Placed(old(Current()), slot)
    {
      if slot.text.Some? {
        fields := fields[slot.pos := strIndex + 1];
        SetStr(slot.text.value);
      }
    }

    method Finish()
      requires Valid()
      modifies this
      ensures body == StringSet(strings) && Current() == old(Current())
    {
      if strIndex == 0 {
        body := body + [0, 0];
      } else {
        body := body + [0];
      }
    }
  }

  // ---- The structures of a machine ----

  datatype Type0Config = Type0Config(vendor: Option<Text>, version: Option<Text>, date: Option<Text>)

  datatype Type1Config = Type1Config(manufacturer: Option<Text>, product: Option<Text>, version: Option<Text>,
                                     serial: Option<Text>, sku: Option<Text>, family: Option<Text>,
                                     uuid: Option<seq<Byte>>)

  datatype Type2Config = Type2Config(added: bool, manufacturer: Option<Text>, product: Option<Text>,
                                     version: Option<Text>, serial: Option<Text>, location: Option<Text>,
                                     asset: Option<Text>)

  datatype Type3Config = Type3Config(manufacturer: Option<Text>, version: Option<Text>, serial: Option<Text>,
                                     sku: Option<Text>, asset: Option<Text>)

  datatype Type4Config = Type4Config(sockPfx: Option<Text>, manufacturer: Option<Text>, version: Option<Text>,
                                     serial: Option<Text>, asset: Option<Text>, part: Option<Text>,
                                     maxSpeed: Option<nat>, currentSpeed: Option<nat>)

  datatype Type17Config = Type17Config(manufacturer: Option<Text>, locPfx: Option<Text>, bank: Option<Text>,
                                       serial: Option<Text>, part: Option<Text>, asset: Option<Text>, speed: nat)

  datatype SmbiosConfig = SmbiosConfig(type0: Type0Config, type1: Type1Config, type2: Type2Config,
                                       type3: Type3Config, type4: Type4Config, type17: Type17Config)

  /** Processor counts and memory of the machine, and its memory ranges as (start, size). */
  datatype Machine = Machine(cpus: nat, cores: nat, threads: nat, memSize: nat, ranges: seq<(nat, nat)>)

  predicate ValidMachine(m: Machine) {
    m.cpus < 256 && 1 <= m.cores && 1 <= m.threads && m.cores * m.threads < 256
    && forall i :: 0 <= i < |m.ranges| ==> m.ranges[i].1 > 0 && m.ranges[i].0 + m.ranges[i].1 <= U64_MAX + 1
  }

  predicate ValidUuid(c: Type1Config) {
    c.uuid.Some? ==> |c.uuid.value| == 16
  }

  function Or(text: Option<Text>, default: Text): (t: Option<Text>)
    ensures t == Some(default) || t == text != None
    ensures text.Some? ==> t == text
  {
    if text.Some? then text else Some(default)
  }

  function Zeros(n: nat): (z: seq<Byte>)
    ensures |z| == n
  {
    seq(n, _ => 0)
  }

  /** A number in the given base, without leading zeros. */
  function Digits(n: nat, base: nat): (t: Text)
    requires 2 <= base <= 16
    ensures t != [] && 0 !in t
  {
    var d := n % base;
    var digit: Byte := if d < 10 then 0x30 + d else 0x57 + d;
    if n < base then [digit] else Digits(n / base, base) + [digit]
  }

  /** Hexadecimal, padded with a blank to two characters. */
  function Hex2(n: nat): (t: Text)
    ensures t != [] && 0 !in t
  {
    if n < 16 then [SPACE] + Digits(n, 16) else Digits(n, 16)
  }

  function Prefixed(prefix: Option<Text>, default: Text, tail: Text): (t: Option<Text>)
    requires tail != []
    ensures t.Some? && t.value != []
  {
    Some((if prefix.Some? then prefix.value else default) + tail)
  }

  function Slots0(c: Type0Config): seq<Slot> {
    [Slot(0, c.vendor), Slot(1, c.version), Slot(4, c.date)]
  }

  function Slots1(c: Type1Config): seq<Slot> {
    [Slot(0, Or(c.manufacturer, HYPERVISOR)), Slot(1, Or(c.product, PRODUCT)), Slot(2, Or(c.version, HYPERVISOR)),
     Slot(3, c.serial), Slot(21, c.sku), Slot(22, c.family)]
  }

  function Slots2(c: Type2Config): seq<Slot> {
    [Slot(0, Or(c.manufacturer, HYPERVISOR)), Slot(1, Or(c.product, PRODUCT)), Slot(2, Or(c.version, HYPERVISOR)),
     Slot(3, c.serial), Slot(6, c.location), Slot(4, c.asset)]
  }

  function Slots3(c: Type3Config): seq<Slot> {
    [Slot(0, Or(c.manufacturer, HYPERVISOR)), Slot(2, Or(c.version, HYPERVISOR)),
     Slot(3, c.serial), Slot(17, c.sku), Slot(4, c.asset)]
  }

  function Slots4(c: Type4Config, instance: nat): seq<Slot> {
    [Slot(0, Prefixed(c.sockPfx, CPU, Hex2(instance))), Slot(3, Or(c.manufacturer, HYPERVISOR)),
     Slot(12, Or(c.version, HYPERVISOR)), Slot(28, c.serial), Slot(29, c.asset), Slot(30, c.part)]
  }

  function Slots17(c: Type17Config, ins: nat): seq<Slot> {
    [Slot(19, Or(c.manufacturer, HYPERVISOR)), Slot(12, Prefixed(c.locPfx, DIMM, [SPACE] + Digits(ins, 10))),
     Slot(13, c.bank), Slot(20, c.serial), Slot(22, c.part), Slot(21, c.asset)]
  }

  function Fields0(): (f: seq<Byte>)
    ensures |f| == 20
  {
    [0, 0, 0x00, 0xE8, 0, 0] + ToLe(0x08, 8) + [0, 0x1C, 0, 0, 0xFF, 0xFF]
  }

  function Fields1(c: Type1Config): (f: seq<Byte>)
    requires ValidUuid(c)
    ensures |f| == 23
  {
    Zeros(4) + (if c.uuid.Some? then c.uuid.value else Zeros(16)) + [0x06, 0, 0]
  }

  function Fields2(): (f: seq<Byte>)
    ensures |f| == 11
  {
    [0, 0, 0, 0, 0, 1, 0, 0x00, 0x03, 0x0A, 0]
  }

  function Fields3(): (f: seq<Byte>)
    ensures |f| == 18
  {
    [0, 0x01, 0, 0, 0, 0x03, 0x03, 0x03, 0x02] + Zeros(9)
  }

  /** Speeds, status and upgrade of a processor. */
  function Speeds4(c: Type4Config): (f: seq<Byte>)
    ensures |f| == 6
  {
    var max := if c.maxSpeed.Some? then c.maxSpeed.value else 2000;
    var current := if c.currentSpeed.Some? then c.currentSpeed.value else 2000;
    ToLe(max, 2) + ToLe(current, 2) + [0x41, 0x01]
  }

  /** Cache handles of a processor, and the places of its last three strings. */
  function Caches4(): (f: seq<Byte>)
    ensures |f| == 9
  {
    ToLe(0xFFFF, 2) + ToLe(0xFFFF, 2) + ToLe(0xFFFF, 2) + Zeros(3)
  }

  /** Core and thread counts of a processor, in one byte and in two. */
  function Counts4(m: Machine): (f: seq<Byte>)
    ensures |f| == 13
  {
    ToLe(m.cores, 1) + ToLe(m.cores, 1) + ToLe(m.threads, 1) + ToLe(0x02, 2) + ToLe(0x01, 2)
    + ToLe(m.cores, 2) + ToLe(m.cores, 2) + ToLe(m.threads, 2)
  }

  function Fields4(c: Type4Config, m: Machine): (f: seq<Byte>)
    ensures |f| == 44
  {
    [0, 0x03, 0x01, 0] + Zeros(12) + Speeds4(c) + Caches4() + Counts4(m)
  }

  const KB_2T: nat := 0x8000_0000
  const U32: nat := 0x1_0000_0000
  const U16: nat := 0x1_0000

  /** Capacity in kilobytes, or a marker that sends the reader to the extended capacity in bytes. */
  function MaximumCapacity(size: nat): nat {
    var kb := (size / 1024) % U32;
    if kb < KB_2T then kb else KB_2T
  }

  function ExtendedCapacity(size: nat): nat {
    if (size / 1024) % U32 < KB_2T then 0 else size
  }

  function Fields16(size: nat, devices: nat): (f: seq<Byte>)
    ensures |f| == 19
  {
    [0x01, 0x03, 0x06] + ToLe(MaximumCapacity(size), 4) + ToLe(0xFFFE, 2) + ToLe(devices, 2)
    + ToLe(ExtendedCapacity(size), 8)
  }

  function Fields17(c: Type17Config, size: nat): (f: seq<Byte>)
    ensures |f| == 36
  {
    ToLe(0x1000, 2) + ToLe(0xFFFE, 2) + ToLe(0xFFFF, 2) + ToLe(0xFFFF, 2) + ToLe(size / MB, 2)
    + [0x09, 0, 0, 0, 0x07, 0x02, 0] + ToLe(c.speed, 2) + Zeros(9) + ToLe(c.speed, 2) + Zeros(6)
  }

  predicate NeedsExtended(start: nat, last: nat) {
    start / 1024 >= U32 - 1 || last / 1024 >= U32 - 1
  }

  function Fields19(start: nat, size: nat): (f: seq<Byte>)
    requires size > 0
    ensures |f| == 27
  {
    var last := start + size - 1;
    if NeedsExtended(start, last) then
      ToLe(U32 - 1, 4) + ToLe(U32 - 1, 4) + ToLe(0x1000, 2) + [1] + ToLe(start, 8) + ToLe(last, 8)
    else ToLe(start / 1024, 4) + ToLe(last / 1024, 4) + ToLe(0x1000, 2) + [1] + Zeros(16)
  }

  // ---- How many, how large, which handle ----

  /** One socket for every full set of cores and threads. */
  function Sockets(m: Machine): (n: nat)
    requires ValidMachine(m)
    ensures n < 256
    ensures n * (m.cores * m.threads) <= m.cpus < (n + 1) * (m.cores * m.threads)
  {
    assert m.cores * m.threads >= 1 by { MulMonotone(1, m.cores, m.threads); }
    DivBound(m.cpus, m.cores * m.threads);
    m.cpus / (m.cores * m.threads)
  }

  function MemNum(size: nat): nat {
    ((size + DEVICE_MAX - 1) / DEVICE_MAX) % U16
  }

  function DeviceSize(size: nat, i: nat): nat
    requires i < MemNum(size)
  {
    if i < MemNum(size) - 1 then DEVICE_MAX else (size - 1) % DEVICE_MAX + 1
  }

  function Offset(size: nat): nat {
    if MemNum(size) > TYPE19_HANDLE - TYPE17_HANDLE then MemNum(size) - (TYPE19_HANDLE - TYPE17_HANDLE) else 0
  }
}
