/** A reader of the SMBIOS table: it walks the bytes and takes every field from the offset
    that DMTF DSP0134 gives it (sections 7.1 to 7.5, 7.17, 7.18, 7.20, 7.33 and 7.45). */
module SmbiosReader {
  import opened Addresses
  import opened Arithmetic
  import opened Bytes
  import opened CStrings
  import opened SmbiosStructures
  import opened SmbiosTables
  import opened SmbiosBuilder
  import opened SmbiosProperties

  // ---- The reader ----

  /** What a structure tells.  A string is absent if its field is zero or names none. */
  datatype Info =
    | Bios(vendor: Option<Text>, version: Option<Text>, releaseDate: Option<Text>, startSegment: nat, romSize: nat,
           characteristics: nat, extension: nat, release: nat, controller: nat)
    | System(manufacturer: Option<Text>, product: Option<Text>, version: Option<Text>, serial: Option<Text>,
             uuid: seq<Byte>, wakeUp: nat, sku: Option<Text>, family: Option<Text>)
    | Board(manufacturer: Option<Text>, product: Option<Text>, version: Option<Text>, serial: Option<Text>,
            asset: Option<Text>, features: nat, location: Option<Text>, chassis: nat, boardType: nat, contained: nat)
    | Chassis(manufacturer: Option<Text>, chassisType: nat, version: Option<Text>, serial: Option<Text>,
              asset: Option<Text>, bootUp: nat, power: nat, thermal: nat, security: nat, sku: Option<Text>)
    | Processor(socket: Option<Text>, processorType: nat, processorFamily: nat, manufacturer: Option<Text>,
                version: Option<Text>, maxSpeed: nat, currentSpeed: nat, status: nat, upgrade: nat,
                caches: seq<nat>, serial: Option<Text>, asset: Option<Text>, part: Option<Text>,
                counts: Counts, characteristics: nat, family2: nat, counts2: Counts)
    | MemoryArray(place: nat, use: nat, correction: nat, capacityKb: nat, errorHandle: nat, devices: nat)
    | MemoryDevice(array: nat, errorHandle: nat, totalWidth: nat, dataWidth: nat, sizeMb: nat, form: nat,
                   locator: Option<Text>, bank: Option<Text>, memoryType: nat, detail: nat, speed: nat,
                   manufacturer: Option<Text>, serial: Option<Text>, asset: Option<Text>, part: Option<Text>,
                   configured: nat)
    | MappedRange(firstKb: nat, lastKb: nat, array: nat, width: nat)
    | Boot(status: nat)
    | EndOfTable
    | Unknown

  datatype Counts = Counts(cores: nat, enabled: nat, threads: nat)

  datatype Entry = Entry(handle: nat, info: Info)

  /** The number at an offset of the structure, which counts its header. */
  function Number(s: Structure, offset: nat, width: nat): nat
    requires HEADER_LEN <= offset && offset + width <= HEADER_LEN + |s.fields|
  {
    FromLe(s.fields[offset - HEADER_LEN..offset - HEADER_LEN + width])
  }

  /** The string that the byte at an offset names. */
  function Named(s: Structure, offset: nat): Option<Text>
    requires HEADER_LEN <= offset < HEADER_LEN + |s.fields|
  {
    var n := s.fields[offset - HEADER_LEN];
    if 1 <= n <= |s.strings| then Some(s.strings[n - 1]) else None
  }

  function ReadBios(s: Structure): Info
    requires |s.fields| == 0x14
  {
    Bios(Named(s, 0x04), Named(s, 0x05), Named(s, 0x08), Number(s, 0x06, 2), Number(s, 0x09, 1), Number(s, 0x0A, 8),
         Number(s, 0x12, 2), Number(s, 0x14, 2), Number(s, 0x16, 2))
  }

  function ReadSystem(s: Structure): Info
    requires |s.fields| == 0x17
  {
    System(Named(s, 0x04), Named(s, 0x05), Named(s, 0x06), Named(s, 0x07), s.fields[0x08 - 4..0x18 - 4],
           Number(s, 0x18, 1), Named(s, 0x19), Named(s, 0x1A))
  }

  function ReadBoard(s: Structure): Info
    requires |s.fields| == 0x0B
  {
    Board(Named(s, 0x04), Named(s, 0x05), Named(s, 0x06), Named(s, 0x07), Named(s, 0x08), Number(s, 0x09, 1),
          Named(s, 0x0A), Number(s, 0x0B, 2), Number(s, 0x0D, 1), Number(s, 0x0E, 1))
  }

  function ReadChassis(s: Structure): Info
    requires |s.fields| == 0x12
  {
    Chassis(Named(s, 0x04), Number(s, 0x05, 1), Named(s, 0x06), Named(s, 0x07), Named(s, 0x08), Number(s, 0x09, 1),
            Number(s, 0x0A, 1), Number(s, 0x0B, 1), Number(s, 0x0C, 1), Named(s, 0x15))
  }

  function ReadProcessor(s: Structure): Info
    requires |s.fields| == 0x2C
  {
    Processor(Named(s, 0x04), Number(s, 0x05, 1), Number(s, 0x06, 1), Named(s, 0x07), Named(s, 0x10),
              Number(s, 0x14, 2), Number(s, 0x16, 2), Number(s, 0x18, 1), Number(s, 0x19, 1),
              [Number(s, 0x1A, 2), Number(s, 0x1C, 2), Number(s, 0x1E, 2)],
              Named(s, 0x20), Named(s, 0x21), Named(s, 0x22),
              Counts(Number(s, 0x23, 1), Number(s, 0x24, 1), Number(s, 0x25, 1)),
              Number(s, 0x26, 2), Number(s, 0x28, 2),
              Counts(Number(s, 0x2A, 2), Number(s, 0x2C, 2), Number(s, 0x2E, 2)))
  }

  function ReadArray(s: Structure): Info
    requires |s.fields| == 0x13
  {
    MemoryArray(Number(s, 0x04, 1), Number(s, 0x05, 1), Number(s, 0x06, 1),
                CapacityKb(Number(s, 0x07, 4), Number(s, 0x0F, 8)), Number(s, 0x0B, 2), Number(s, 0x0D, 2))
  }

  function ReadDevice(s: Structure): Info
    requires |s.fields| == 0x24
  {
    MemoryDevice(Number(s, 0x04, 2), Number(s, 0x06, 2), Number(s, 0x08, 2), Number(s, 0x0A, 2), Number(s, 0x0C, 2),
                 Number(s, 0x0E, 1), Named(s, 0x10), Named(s, 0x11), Number(s, 0x12, 1), Number(s, 0x13, 2),
                 Number(s, 0x15, 2), Named(s, 0x17), Named(s, 0x18), Named(s, 0x19), Named(s, 0x1A),
                 Number(s, 0x20, 2))
  }

  function ReadRange(s: Structure): Info
    requires |s.fields| == 0x1B
  {
    var kb := RangeKb(s.fields);
    MappedRange(kb.0, kb.1, Number(s, 0x0C, 2), Number(s, 0x0E, 1))
  }

  function Interpret(s: Structure): Entry {
    Entry(s.handle,
          if s.kind == 0 && |s.fields| == 0x14 then ReadBios(s)
          else if s.kind == 1 && |s.fields| == 0x17 then ReadSystem(s)
          else if s.kind == 2 && |s.fields| == 0x0B then ReadBoard(s)
          else if s.kind == 3 && |s.fields| == 0x12 then ReadChassis(s)
          else if s.kind == 4 && |s.fields| == 0x2C then ReadProcessor(s)
          else if s.kind == 16 && |s.fields| == 0x13 then ReadArray(s)
          else if s.kind == 17 && |s.fields| == 0x24 then ReadDevice(s)
          else if s.kind == 19 && |s.fields| == 0x1B then ReadRange(s)
          else if s.kind == 32 && |s.fields| == 0x07 then Boot(Number(s, 0x0A, 1))
          else if s.kind == 127 && s.fields == [] then EndOfTable
          else Unknown)
  }

  function Interpreted(ss: seq<Structure>): (r: seq<Entry>)
    ensures |r| == |ss| && forall i :: 0 <= i < |ss| ==> r[i] == Interpret(ss[i])
  {
    if ss == [] then [] else Interpreted(ss[..|ss| - 1]) + [Interpret(ss[|ss| - 1])]
  }

  /** What the bytes of a table tell. */
  function ReadTable(bytes: seq<Byte>): Option<seq<Entry>> {
    match Walk(bytes)
    case None => None
    case Some(ss) => Some(Interpreted(ss))
  }

  // ---- Strings and numbers of a filled structure ----

  /** A string field that was zero tells the text of its place. */
  lemma {:induction false} NamedBack(start: Structure, slots: seq<Slot>, i: nat)
    requires CanHold(start, slots) && DistinctPlaces(slots) && i < |slots| && start.fields[slots[i].pos] == 0
    ensures Named(Filled(start, slots), HEADER_LEN + slots[i].pos) == slots[i].text
  {
    hide Filled;
    FilledNames(start, slots, i);
  }

  ghost predicate Apart(slots: seq<Slot>, lo: nat, hi: nat) {
    forall i :: 0 <= i < |slots| ==> !(lo <= slots[i].pos < hi)
  }

  /** Fields that no string place touches are as they were. */
  lemma {:induction false} KeptBytes(start: Structure, slots: seq<Slot>, lo: nat, hi: nat)
    requires CanHold(start, slots) && lo <= hi <= |start.fields| && Apart(slots, lo, hi)
    ensures Filled(start, slots).fields[lo..hi] == start.fields[lo..hi]
  {
    hide Filled;
    forall p | lo <= p < hi ensures Filled(start, slots).fields[p] == start.fields[p] {
      FilledElsewhere(start, slots, p);
    }
  }

  lemma {:induction false} NumberBack(start: Structure, slots: seq<Slot>, offset: nat, width: nat)
    requires HEADER_LEN <= offset && offset + width <= HEADER_LEN + |start.fields|
    requires CanHold(start, slots) && Apart(slots, offset - HEADER_LEN, offset - HEADER_LEN + width)
    ensures Number(Filled(start, slots), offset, width) == Number(start, offset, width)
  {
    hide Filled, FromLe;
    KeptBytes(start, slots, offset - HEADER_LEN, offset - HEADER_LEN + width);
  }

  lemma {:induction false} OneByte(s: Structure, offset: nat)
    requires HEADER_LEN <= offset < HEADER_LEN + |s.fields|
    ensures Number(s, offset, 1) == s.fields[offset - HEADER_LEN]
  {
    var p := offset - HEADER_LEN;
    assert s.fields[p..p + 1] == [s.fields[p]];
    assert FromLe([s.fields[p]]) == s.fields[p] + 256 * FromLe([]);
  }

  lemma {:induction false} TwoByteNumber(s: Structure, offset: nat)
    requires HEADER_LEN <= offset && offset + 2 <= HEADER_LEN + |s.fields|
    ensures var low: int, high: int := s.fields[offset - HEADER_LEN], s.fields[offset - HEADER_LEN + 1];
            Number(s, offset, 2) == low + 256 * high
  {
    var p := offset - HEADER_LEN;
    var b := s.fields[p..p + 2];
    assert b[1..] == [s.fields[p + 1]];
    assert FromLe(b[1..]) == s.fields[p + 1] + 256 * FromLe(b[1..][1..]);
  }

  /** A number in the fields from position `at` on. */
  lemma {:induction false} PartNumber(s: Structure, at: nat, offset: nat, width: nat)
    requires at <= |s.fields| && HEADER_LEN + at <= offset && offset + width <= HEADER_LEN + |s.fields|
    ensures Number(s, offset, width) == Number(Structure(0, 0, s.fields[at..], []), offset - at, width)
  {
    hide FromLe;
    var lo := offset - HEADER_LEN;
    assert s.fields[at..][lo - at..lo - at + width] == s.fields[lo..lo + width];
  }

  lemma {:induction false} LeBytes(n: nat)
    ensures ToLe(n, 1) == [n % 256] && ToLe(n, 2) == [n % 256, n / 256 % 256]
    ensures n % 256 + 256 * (n / 256 % 256) == n % U16
  {
    assert ToLe(n, 2) == [n % 256] + ToLe(n / 256, 1);
    assert ToLe(n / 256, 1) == [n / 256 % 256] + ToLe(n / 256 / 256, 0);
    assert ToLe(n, 1) == [n % 256] + ToLe(n / 256, 0);
  }

  // ---- What each structure tells ----

  function BiosInfo(c: Type0Config): Info {
    Bios(c.vendor, c.version, c.date, 0xE800, 0, 0x08, 0x1C00, 0, 0xFFFF)
  }

  lemma {:induction false} BiosTells(c: Type0Config)
    ensures Interpret(Type0(c)) == Entry(0x000, BiosInfo(c))
  {
    hide Filled, FromLe, ToLe;
    var start, slots := Structure(0, TYPE0_HANDLE, Fields0(), []), Slots0(c);
    NamedBack(start, slots, 0);
    NamedBack(start, slots, 1);
    NamedBack(start, slots, 2);
    NumberBack(start, slots, 0x06, 2);
    NumberBack(start, slots, 0x09, 1);
    NumberBack(start, slots, 0x0A, 8);
    NumberBack(start, slots, 0x12, 2);
    NumberBack(start, slots, 0x14, 2);
    NumberBack(start, slots, 0x16, 2);
    TwoByteNumber(start, 0x06);
    OneByte(start, 0x09);
    assert start.fields[6..14] == ToLe(0x08, 8);
    Fits4And8(0x08, 8);
    TwoByteNumber(start, 0x12);
    TwoByteNumber(start, 0x14);
    TwoByteNumber(start, 0x16);
  }

  function SystemInfo(c: Type1Config): Info {
    System(Or(c.manufacturer, HYPERVISOR), Or(c.product, PRODUCT), Or(c.version, HYPERVISOR), c.serial,
           if c.uuid.Some? then c.uuid.value else Zeros(16), 0x06, c.sku, c.family)
  }

  lemma {:induction false} SystemTells(c: Type1Config)
    requires ValidUuid(c)
    ensures Interpret(Type1(c)) == Entry(0x100, SystemInfo(c))
  {
    hide Filled, FromLe, Or;
    var start, slots := Structure(1, TYPE1_HANDLE, Fields1(c), []), Slots1(c);
    NamedBack(start, slots, 0);
    NamedBack(start, slots, 1);
    NamedBack(start, slots, 2);
    NamedBack(start, slots, 3);
    NamedBack(start, slots, 4);
    NamedBack(start, slots, 5);
    KeptBytes(start, slots, 4, 20);
    NumberBack(start, slots, 0x18, 1);
    OneByte(start, 0x18);
    assert start.fields[4..20] == if c.uuid.Some? then c.uuid.value else Zeros(16);
  }

  function BoardInfo(c: Type2Config): Info {
    Board(Or(c.manufacturer, HYPERVISOR), Or(c.product, PRODUCT), Or(c.version, HYPERVISOR), c.serial, c.asset, 1,
          c.location, 0x300, 0x0A, 0)
  }

  lemma {:induction false} BoardTells(c: Type2Config)
    ensures Interpret(Type2(c)) == Entry(0x200, BoardInfo(c))
  {
    hide Filled, FromLe, Or;
    var start, slots := Structure(2, TYPE2_HANDLE, Fields2(), []), Slots2(c);
    NamedBack(start, slots, 0);
    NamedBack(start, slots, 1);
    NamedBack(start, slots, 2);
    NamedBack(start, slots, 3);
    NamedBack(start, slots, 4);
    NamedBack(start, slots, 5);
    NumberBack(start, slots, 0x09, 1);
    NumberBack(start, slots, 0x0B, 2);
    NumberBack(start, slots, 0x0D, 1);
    NumberBack(start, slots, 0x0E, 1);
    OneByte(start, 0x09);
    TwoByteNumber(start, 0x0B);
    OneByte(start, 0x0D);
    OneByte(start, 0x0E);
  }

  function ChassisInfo(c: Type3Config): Info {
    Chassis(Or(c.manufacturer, HYPERVISOR), 0x01, Or(c.version, HYPERVISOR), c.serial, c.asset, 0x03, 0x03, 0x03, 0x02,
            c.sku)
  }

  lemma {:induction false} ChassisTells(c: Type3Config)
    ensures Interpret(Type3(c)) == Entry(0x300, ChassisInfo(c))
  {
    hide Filled, FromLe, Or;
    var start, slots := Structure(3, TYPE3_HANDLE, Fields3(), []), Slots3(c);
    NamedBack(start, slots, 0);
    NamedBack(start, slots, 1);
    NamedBack(start, slots, 2);
    NamedBack(start, slots, 3);
    NamedBack(start, slots, 4);
    NumberBack(start, slots, 0x05, 1);
    NumberBack(start, slots, 0x09, 1);
    NumberBack(start, slots, 0x0A, 1);
    NumberBack(start, slots, 0x0B, 1);
    NumberBack(start, slots, 0x0C, 1);
    OneByte(start, 0x05);
    OneByte(start, 0x09);
    OneByte(start, 0x0A);
    OneByte(start, 0x0B);
    OneByte(start, 0x0C);
  }

  // ---- Numbers in texts ----

  /** The value of a digit, in lower case, if it is one of the base. */
  function DigitValue(c: Byte, base: nat): Option<nat> {
    var v := if 0x30 <= c <= 0x39 then c - 0x30 else if 0x61 <= c <= 0x66 then c - 0x61 + 10 else base;
    if 0 <= v < base then Some(v) else None
  }

  function ReadDigits(t: Text, base: nat): Option<nat> {
    if t == [] then Some(0)
    else
      var before, d := ReadDigits(t[..|t| - 1], base), DigitValue(t[|t| - 1], base);
      if before.None? || d.None? then None else Some(before.value * base + d.value)
  }

  lemma {:induction false} SmallerQuotient(n: nat, base: nat)
    requires 2 <= base <= n
    ensures 1 <= n / base < n
  {
    assert n == n / base * base + n % base;
    if n / base < 1 {
      MulMonotone(n / base, 0, base);
    } else {
      MulMonotone(2, base, n / base);
    }
  }

  lemma {:induction false} FirstDigit(n: nat, base: nat)
    requires 1 <= n < base && 2 <= base <= 16
    ensures Digits(n, base)[0] != 0x30
  {
    DivModUnique(n, base, 0, n);
  }

  /** The digit that stands for the remainder. */
  lemma {:induction false} LastDigit(n: nat, base: nat)
    requires 2 <= base <= 16
    ensures var t := Digits(n, base);
            && t[..|t| - 1] == (if n < base then [] else Digits(n / base, base))
            && DigitValue(t[|t| - 1], base) == Some(n % base)
  {
  }

  /** The digits are those of the number, without leading zeros. */
  lemma {:induction false} DigitsBack(n: nat, base: nat)
    requires 2 <= base <= 16
    ensures ReadDigits(Digits(n, base), base) == Some(n)
    ensures |Digits(n, base)| > 1 ==> Digits(n, base)[0] != 0x30
    decreases n
  {
    LastDigit(n, base);
    hide Digits, DigitValue;
    var t := Digits(n, base);
    var q := n / base;
    assert n == q * base + n % base;
    if n >= base {
      SmallerQuotient(n, base);
      DigitsBack(q, base);
      assert t[0] == Digits(q, base)[0];
      if q < base {
        FirstDigit(q, base);
      } else {
        LastDigit(q, base);
      }
    } else {
      DivModUnique(n, base, 0, n);
      assert ReadDigits([], base) == Some(0);
    }
  }

  lemma {:induction false} LongDigits(n: nat)
    requires n >= 16
    ensures |Digits(n, 16)| >= 2
  {
    assert |Digits(n / 16, 16)| >= 1;
  }

  /** A socket number takes two characters at least: a blank, or the first of its digits. */
  lemma {:induction false} Hex2Back(n: nat)
    ensures |Hex2(n)| >= 2
    ensures ReadDigits(if n < 16 then Hex2(n)[1..] else Hex2(n), 16) == Some(n)
    ensures n < 16 ==> Hex2(n)[0] == SPACE
  {
    hide Digits;
    DigitsBack(n, 16);
    if n < 16 {
      assert Hex2(n)[1..] == Digits(n, 16);
    } else {
      LongDigits(n);
    }
  }

  // ---- Processors ----

  function Speed(configured: Option<nat>): nat {
    if configured.Some? then configured.value % U16 else 2000
  }

  function ProcessorInfo(c: Type4Config, m: Machine, i: nat): Info {
    var counts := Counts(m.cores, m.cores, m.threads);
    Processor(Some((if c.sockPfx.Some? then c.sockPfx.value else CPU) + Hex2(i)), 0x03, 0x01,
              Or(c.manufacturer, HYPERVISOR), Or(c.version, HYPERVISOR), Speed(c.maxSpeed), Speed(c.currentSpeed),
              0x41, 0x01, [0xFFFF, 0xFFFF, 0xFFFF], c.serial, c.asset, c.part, counts, 0x02, 0x01, counts)
  }

  lemma {:induction false} ProcessorStrings(c: Type4Config, m: Machine, i: nat)
    requires i < 256
    ensures var s, info := Type4(c, m, i), ProcessorInfo(c, m, i);
            && Named(s, 0x04) == info.socket && Named(s, 0x07) == info.manufacturer && Named(s, 0x10) == info.version
            && Named(s, 0x20) == info.serial && Named(s, 0x21) == info.asset && Named(s, 0x22) == info.part
  {
    hide Filled, ToLe, FromLe, Or, Hex2, Speeds4, Caches4, Counts4;
    var start, slots := Structure(4, TYPE4_HANDLE + i, Fields4(c, m), []), Slots4(c, i);
    ProcessorCaches(c, m, start);
    NamedBack(start, slots, 0);
    NamedBack(start, slots, 1);
    NamedBack(start, slots, 2);
    NamedBack(start, slots, 3);
    NamedBack(start, slots, 4);
    NamedBack(start, slots, 5);
  }

  lemma {:induction false} SpeedNumbers(c: Type4Config, s: Structure)
    requires s.fields == Speeds4(c)
    ensures Number(s, 4, 2) == Speed(c.maxSpeed) && Number(s, 6, 2) == Speed(c.currentSpeed)
    ensures Number(s, 8, 1) == 0x41 && Number(s, 9, 1) == 0x01
  {
    hide FromLe, ToLe;
    LeBytes(if c.maxSpeed.Some? then c.maxSpeed.value else 2000);
    LeBytes(if c.currentSpeed.Some? then c.currentSpeed.value else 2000);
    TwoByteNumber(s, 4);
    TwoByteNumber(s, 6);
    OneByte(s, 8);
    OneByte(s, 9);
  }

  lemma {:induction false} SpeedsFirst(c: Type4Config, rest: seq<Byte>, offset: nat, width: nat)
    requires Speeds4(c) <= rest && HEADER_LEN <= offset && offset + width <= HEADER_LEN + 6
    ensures Number(Structure(0, 0, rest, []), offset, width) == Number(Structure(0, 0, Speeds4(c), []), offset, width)
  {
    hide Speeds4, FromLe;
    var lo := offset - HEADER_LEN;
    assert rest[lo..lo + width] == Speeds4(c)[lo..lo + width];
  }

  /** The numbers before any string is placed. */
  lemma {:induction false} ProcessorSpeeds(c: Type4Config, m: Machine, s: Structure)
    requires s.fields == Fields4(c, m)
    ensures Number(s, 0x05, 1) == 0x03 && Number(s, 0x06, 1) == 0x01
    ensures Number(s, 0x14, 2) == Speed(c.maxSpeed) && Number(s, 0x16, 2) == Speed(c.currentSpeed)
    ensures Number(s, 0x18, 1) == 0x41 && Number(s, 0x19, 1) == 0x01
  {
    hide Number, Speeds4, Caches4, Counts4, Speed;
    var rest := Speeds4(c) + Caches4() + Counts4(m);
    SpeedNumbers(c, Structure(0, 0, Speeds4(c), []));
    assert s.fields[16..] == rest;
    OneByte(s, 0x05);
    OneByte(s, 0x06);
    SpeedsFirst(c, rest, 4, 2);
    SpeedsFirst(c, rest, 6, 2);
    SpeedsFirst(c, rest, 8, 1);
    SpeedsFirst(c, rest, 9, 1);
    PartNumber(s, 16, 0x14, 2);
    PartNumber(s, 16, 0x16, 2);
    PartNumber(s, 16, 0x18, 1);
    PartNumber(s, 16, 0x19, 1);
  }

  lemma {:induction false} ProcessorCaches(c: Type4Config, m: Machine, s: Structure)
    requires s.fields == Fields4(c, m)
    ensures Number(s, 0x1A, 2) == Number(s, 0x1C, 2) == Number(s, 0x1E, 2) == 0xFFFF
    ensures s.fields[28] == s.fields[29] == s.fields[30] == 0
  {
    hide FromLe, ToLe, Speeds4, Counts4;
    LeBytes(0xFFFF);
    assert forall i :: 0 <= i < 9 ==> s.fields[22 + i] == Caches4()[i];
    TwoByteNumber(s, 0x1A);
    TwoByteNumber(s, 0x1C);
    TwoByteNumber(s, 0x1E);
  }

  lemma {:induction false} CountsFit(m: Machine)
    requires ValidMachine(m)
    ensures m.cores < 256 && m.threads < 256
  {
    MulMonotone(1, m.threads, m.cores);
    MulMonotone(1, m.cores, m.threads);
  }

  lemma {:induction false} CountBytes(m: Machine)
    requires m.cores < 256 && m.threads < 256
    ensures Counts4(m) == [m.cores, m.cores, m.threads, 0x02, 0, 0x01, 0, m.cores, 0, m.cores, 0, m.threads, 0]
  {
    hide ToLe;
    LeBytes(m.cores);
    LeBytes(m.threads);
    LeBytes(0x02);
    LeBytes(0x01);
  }

  lemma {:induction false} CountNumbers(m: Machine, s: Structure)
    requires m.cores < 256 && m.threads < 256 && s.fields == Counts4(m)
    ensures Number(s, 4, 1) == Number(s, 5, 1) == m.cores && Number(s, 6, 1) == m.threads
    ensures Number(s, 7, 2) == 0x02 && Number(s, 9, 2) == 0x01
    ensures Number(s, 11, 2) == Number(s, 13, 2) == m.cores && Number(s, 15, 2) == m.threads
  {
    hide Counts4, FromLe;
    CountBytes(m);
    OneByte(s, 4);
    OneByte(s, 5);
    OneByte(s, 6);
    TwoByteNumber(s, 7);
    TwoByteNumber(s, 9);
    TwoByteNumber(s, 11);
    TwoByteNumber(s, 13);
    TwoByteNumber(s, 15);
  }

  lemma {:induction false} ProcessorCounts(c: Type4Config, m: Machine, s: Structure)
    requires ValidMachine(m) && s.fields == Fields4(c, m)
    ensures Number(s, 0x23, 1) == Number(s, 0x24, 1) == m.cores && Number(s, 0x25, 1) == m.threads
    ensures Number(s, 0x26, 2) == 0x02 && Number(s, 0x28, 2) == 0x01
    ensures Number(s, 0x2A, 2) == Number(s, 0x2C, 2) == m.cores && Number(s, 0x2E, 2) == m.threads
  {
    hide Number, Speeds4, Caches4, Counts4;
    CountsFit(m);
    CountNumbers(m, Structure(0, 0, Counts4(m), []));
    assert s.fields[31..] == Counts4(m);
    PartNumber(s, 31, 0x23, 1);
    PartNumber(s, 31, 0x24, 1);
    PartNumber(s, 31, 0x25, 1);
    PartNumber(s, 31, 0x26, 2);
    PartNumber(s, 31, 0x28, 2);
    PartNumber(s, 31, 0x2A, 2);
    PartNumber(s, 31, 0x2C, 2);
    PartNumber(s, 31, 0x2E, 2);
  }

  lemma {:induction false} ProcessorTells(c: Type4Config, m: Machine, i: nat)
    requires ValidMachine(m) && i < 256
    ensures Interpret(Type4(c, m, i)) == Entry(0x400 + i, ProcessorInfo(c, m, i))
  {
    hide Filled, Fields4, Or, Hex2, Number, Named, Speed;
    ProcessorStrings(c, m, i);
    var start, slots := Structure(4, TYPE4_HANDLE + i, Fields4(c, m), []), Slots4(c, i);
    ProcessorSpeeds(c, m, start);
    ProcessorCaches(c, m, start);
    ProcessorCounts(c, m, start);
    NumberBack(start, slots, 0x05, 1);
    NumberBack(start, slots, 0x06, 1);
    NumberBack(start, slots, 0x14, 2);
    NumberBack(start, slots, 0x16, 2);
    NumberBack(start, slots, 0x18, 1);
    NumberBack(start, slots, 0x19, 1);
    NumberBack(start, slots, 0x1A, 2);
    NumberBack(start, slots, 0x1C, 2);
    NumberBack(start, slots, 0x1E, 2);
    NumberBack(start, slots, 0x23, 1);
    NumberBack(start, slots, 0x24, 1);
    NumberBack(start, slots, 0x25, 1);
    NumberBack(start, slots, 0x26, 2);
    NumberBack(start, slots, 0x28, 2);
    NumberBack(start, slots, 0x2A, 2);
    NumberBack(start, slots, 0x2C, 2);
    NumberBack(start, slots, 0x2E, 2);
  }

  // ---- Memory ----

  /** Memory devices of 16 GiB at most; their number is kept in 16 bits. */
  function DeviceNumber(size: nat): nat {
    (size + 16 * GB - 1) / (16 * GB) % U16
  }

  function ArrayInfo(size: nat): Info {
    var kb := size / 1024;
    MemoryArray(0x01, 0x03, 0x06, if kb < U32 || kb % U32 >= KB_2T then kb else kb % U32, 0xFFFE, DeviceNumber(size))
  }

  lemma {:induction false} ArrayCapacity(s: Structure, size: nat)
    requires size <= U64_MAX && s.fields == Fields16(size, MemNum(size))
    ensures var kb := size / 1024;
            CapacityKb(Number(s, 0x07, 4), Number(s, 0x0F, 8)) ==
            if kb < U32 || kb % U32 >= KB_2T then kb else kb % U32
  {
    hide FromLe, ToLe, MemNum;
    assert s.fields[3..7] == ToLe(MaximumCapacity(size), 4) && s.fields[11..19] == ToLe(ExtendedCapacity(size), 8);
    Fits4And8(MaximumCapacity(size), 4);
    Fits4And8(ExtendedCapacity(size), 8);
  }

  lemma {:induction false} ArrayNumbers(s: Structure, size: nat)
    requires s.fields == Fields16(size, MemNum(size))
    ensures Number(s, 0x04, 1) == 0x01 && Number(s, 0x05, 1) == 0x03 && Number(s, 0x06, 1) == 0x06
    ensures Number(s, 0x0B, 2) == 0xFFFE && Number(s, 0x0D, 2) == DeviceNumber(size)
  {
    hide FromLe, ToLe, MaximumCapacity, ExtendedCapacity;
    OneByte(s, 0x04);
    OneByte(s, 0x05);
    OneByte(s, 0x06);
    LeBytes(0xFFFE);
    LeBytes(MemNum(size));
    TwoByteNumber(s, 0x0B);
    TwoByteNumber(s, 0x0D);
  }

  lemma {:induction false} ArrayTells(size: nat)
    requires size <= U64_MAX
    ensures Interpret(Type16(size)) == Entry(0x1000, ArrayInfo(size))
  {
    hide Number, CapacityKb, Fields16, DeviceNumber;
    ArrayCapacity(Type16(size), size);
    ArrayNumbers(Type16(size), size);
  }

  /** Every device but the last is full. */
  function DeviceMb(size: nat, i: nat): nat {
    if i < DeviceNumber(size) - 1 then 16 * GB / MB else ((size - 1) % (16 * GB) + 1) / MB
  }

  function DeviceInfo(c: Type17Config, size: nat, i: nat): Info {
    MemoryDevice(0x1000, 0xFFFE, 0xFFFF, 0xFFFF, DeviceMb(size, i), 0x09,
                 Some((if c.locPfx.Some? then c.locPfx.value else DIMM) + [SPACE] + Digits(i, 10)), c.bank, 0x07, 0x02,
                 c.speed % U16, Or(c.manufacturer, HYPERVISOR), c.serial, c.asset, c.part, c.speed % U16)
  }

  lemma {:induction false} DeviceStrings(c: Type17Config, size: nat, i: nat)
    requires i < MemNum(size)
    ensures var s, info := Type17(c, size, i), DeviceInfo(c, size, i);
            && Named(s, 0x10) == info.locator && Named(s, 0x11) == info.bank && Named(s, 0x17) == info.manufacturer
            && Named(s, 0x18) == info.serial && Named(s, 0x19) == info.asset && Named(s, 0x1A) == info.part
  {
    hide Filled, ToLe, FromLe, Or, Digits, MemNum, DeviceSize, DeviceMb;
    var start := Structure(17, (TYPE17_HANDLE + i) % U16, Fields17(c, DeviceSize(size, i)), []);
    var slots := Slots17(c, i);
    NamedBack(start, slots, 0);
    NamedBack(start, slots, 1);
    NamedBack(start, slots, 2);
    NamedBack(start, slots, 3);
    NamedBack(start, slots, 4);
    NamedBack(start, slots, 5);
    var prefix := if c.locPfx.Some? then c.locPfx.value else DIMM;
    assert prefix + ([SPACE] + Digits(i, 10)) == prefix + [SPACE] + Digits(i, 10);
  }

  lemma {:induction false} DeviceHandles(c: Type17Config, size: nat, s: Structure)
    requires s.fields == Fields17(c, size)
    ensures Number(s, 0x04, 2) == 0x1000 && Number(s, 0x06, 2) == 0xFFFE
    ensures Number(s, 0x08, 2) == Number(s, 0x0A, 2) == 0xFFFF
  {
    hide FromLe, ToLe;
    LeBytes(0x1000);
    LeBytes(0xFFFE);
    LeBytes(0xFFFF);
    TwoByteNumber(s, 0x04);
    TwoByteNumber(s, 0x06);
    TwoByteNumber(s, 0x08);
    TwoByteNumber(s, 0x0A);
  }

  lemma {:induction false} DeviceTypes(c: Type17Config, size: nat, s: Structure)
    requires s.fields == Fields17(c, size)
    ensures Number(s, 0x0E, 1) == 0x09 && Number(s, 0x12, 1) == 0x07 && Number(s, 0x13, 2) == 0x02
  {
    hide FromLe, ToLe;
    OneByte(s, 0x0E);
    OneByte(s, 0x12);
    TwoByteNumber(s, 0x13);
  }

  lemma {:induction false} DeviceSpeeds(c: Type17Config, size: nat, s: Structure)
    requires s.fields == Fields17(c, size)
    ensures Number(s, 0x15, 2) == Number(s, 0x20, 2) == c.speed % U16
  {
    hide FromLe, ToLe;
    LeBytes(c.speed);
    TwoByteNumber(s, 0x15);
    TwoByteNumber(s, 0x20);
  }

  lemma {:induction false} DeviceTells(c: Type17Config, size: nat, i: nat)
    requires i < MemNum(size)
    ensures Interpret(Type17(c, size, i)) == Entry((0x1100 + i) % U16, DeviceInfo(c, size, i))
  {
    hide Filled, Fields17, Or, Digits, Named;
    DeviceStrings(c, size, i);
    SizeRead(c, size, i);
    var start := Structure(17, (TYPE17_HANDLE + i) % U16, Fields17(c, DeviceSize(size, i)), []);
    var slots := Slots17(c, i);
    DeviceHandles(c, DeviceSize(size, i), start);
    DeviceTypes(c, DeviceSize(size, i), start);
    DeviceSpeeds(c, DeviceSize(size, i), start);
    assert Number(Type17(c, size, i), 0x0C, 2) == SizeMb(Type17(c, size, i));
    hide Number;
    NumberBack(start, slots, 0x04, 2);
    NumberBack(start, slots, 0x06, 2);
    NumberBack(start, slots, 0x08, 2);
    NumberBack(start, slots, 0x0A, 2);
    NumberBack(start, slots, 0x0E, 1);
    NumberBack(start, slots, 0x12, 1);
    NumberBack(start, slots, 0x13, 2);
    NumberBack(start, slots, 0x15, 2);
    NumberBack(start, slots, 0x20, 2);
  }

  function RangeHandle(size: nat, i: nat): nat {
    var beyond := if DeviceNumber(size) > 0x200 then DeviceNumber(size) - 0x200 else 0;
    (0x1300 + beyond + i) % U16
  }

  function RangeInfo(range: (nat, nat)): Info
    requires range.1 > 0
  {
    MappedRange(range.0 / 1024, (range.0 + range.1 - 1) / 1024, 0x1000, 1)
  }

  lemma {:induction false} RangeTells(m: Machine, i: nat)
    requires ValidMachine(m) && i < |m.ranges|
    ensures Interpret(Type19(m, i)) == Entry(RangeHandle(m.memSize, i), RangeInfo(m.ranges[i]))
  {
    hide FromLe, ToLe, RangeKb;
    RangeRead(m, i);
    var s := Type19(m, i);
    LeBytes(0x1000);
    TwoByteNumber(s, 0x0C);
    OneByte(s, 0x0E);
  }

  lemma {:induction false} LastTell()
    ensures Interpret(Type32()) == Entry(0x2000, Boot(0)) && Interpret(Type127()) == Entry(0x7F00, EndOfTable)
  {
    hide FromLe;
    OneByte(Type32(), 0x0A);
  }

  // ---- The whole table ----

  function FrontEntries(c: SmbiosConfig): seq<Entry> {
    [Entry(0x000, BiosInfo(c.type0)), Entry(0x100, SystemInfo(c.type1))]
    + (if c.type2.added then [Entry(0x200, BoardInfo(c.type2))] else [])
    + [Entry(0x300, ChassisInfo(c.type3))]
  }

  function ProcessorEntries(c: Type4Config, m: Machine, n: nat): seq<Entry> {
    seq(n, i requires 0 <= i => Entry(0x400 + i, ProcessorInfo(c, m, i)))
  }

  function DeviceEntries(c: Type17Config, size: nat): seq<Entry> {
    seq(DeviceNumber(size), i requires 0 <= i => Entry((0x1100 + i) % U16, DeviceInfo(c, size, i)))
  }

  function RangeEntries(m: Machine): seq<Entry>
    requires ValidMachine(m)
  {
    seq(|m.ranges|, i requires 0 <= i < |m.ranges| => Entry(RangeHandle(m.memSize, i), RangeInfo(m.ranges[i])))
  }

  /** What the table is to tell: the configuration, a processor for every full set of cores
      and threads, the memory in devices of 16 GiB, and its ranges. */
  function Told(c: SmbiosConfig, m: Machine): seq<Entry>
    requires ValidMachine(m)
  {
    FrontEntries(c) + ProcessorEntries(c.type4, m, Sockets(m)) + [Entry(0x1000, ArrayInfo(m.memSize))]
    + DeviceEntries(c.type17, m.memSize) + RangeEntries(m) + [Entry(0x2000, Boot(0)), Entry(0x7F00, EndOfTable)]
  }

  lemma {:induction false} InterpretedConcat(a: seq<Structure>, b: seq<Structure>)
    ensures Interpreted(a + b) == Interpreted(a) + Interpreted(b)
  {
    hide Interpret, Interpreted;
  }

  lemma {:induction false} FrontTells(c: SmbiosConfig)
    requires ValidUuid(c.type1)
    ensures Interpreted(Front(c)) == FrontEntries(c)
  {
    hide Type0, Type1, Type2, Type3, Interpret, Interpreted, BiosInfo, SystemInfo, BoardInfo, ChassisInfo;
    BiosTells(c.type0);
    SystemTells(c.type1);
    BoardTells(c.type2);
    ChassisTells(c.type3);
  }

  lemma {:induction false} MiddleTells(c: SmbiosConfig, m: Machine)
    requires ValidMachine(m) && m.memSize <= U64_MAX
    ensures Interpreted(Middle(c, m)) ==
            ProcessorEntries(c.type4, m, Sockets(m)) + [Entry(0x1000, ArrayInfo(m.memSize))] +
            DeviceEntries(c.type17, m.memSize)
  {
    hide Type4, Type16, Type17, Interpret, Interpreted, ProcessorInfo, ArrayInfo, DeviceInfo, Sockets, Processors,
      Devices;
    var n := MemNum(m.memSize);
    var ps, ds := Processors(c.type4, m, Sockets(m)), Devices(c.type17, m.memSize, n);
    forall i | 0 <= i < Sockets(m) ensures Interpret(ps[i]) == Entry(0x400 + i, ProcessorInfo(c.type4, m, i)) {
      ProcessorTells(c.type4, m, i);
    }
    assert Interpreted(ps) == ProcessorEntries(c.type4, m, Sockets(m));
    ArrayTells(m.memSize);
    assert Interpreted([Type16(m.memSize)]) == [Entry(0x1000, ArrayInfo(m.memSize))];
    forall i | 0 <= i < n ensures Interpret(ds[i]) == Entry((0x1100 + i) % U16, DeviceInfo(c.type17, m.memSize, i)) {
      DeviceTells(c.type17, m.memSize, i);
    }
    assert Interpreted(ds) == DeviceEntries(c.type17, m.memSize);
    InterpretedConcat(ps, [Type16(m.memSize)]);
    InterpretedConcat(ps + [Type16(m.memSize)], ds);
  }

  lemma {:induction false} EndTells(m: Machine)
    requires ValidMachine(m)
    ensures Interpreted(Ranges(m, |m.ranges|)) == RangeEntries(m)
    ensures Interpreted(Last()) == [Entry(0x2000, Boot(0)), Entry(0x7F00, EndOfTable)]
  {
    hide Type19, Type32, Type127, Interpret, Interpreted, RangeInfo, RangeHandle, Ranges;
    var rs := Ranges(m, |m.ranges|);
    forall i | 0 <= i < |m.ranges|
      ensures Interpret(rs[i]) == Entry(RangeHandle(m.memSize, i), RangeInfo(m.ranges[i]))
    {
      RangeTells(m, i);
    }
    LastTell();
  }

  lemma {:induction false} StructuresTell(c: SmbiosConfig, m: Machine)
    requires ValidMachine(m) && ValidUuid(c.type1) && m.memSize <= U64_MAX
    ensures Interpreted(Table(c, m)) == Told(c, m)
  {
    hide Interpreted, Front, Middle, Ranges, Last, ProcessorEntries, DeviceEntries, RangeEntries, FrontEntries, Sockets,
      ArrayInfo;
    var front, middle, rs := Front(c), Middle(c, m), Ranges(m, |m.ranges|);
    FrontTells(c);
    MiddleTells(c, m);
    EndTells(m);
    InterpretedConcat(front, middle);
    InterpretedConcat(front + middle, rs);
    InterpretedConcat(front + middle + rs, Last());
  }

  /** Where no configured string that is used is empty, the bytes of the table tell a reader
      exactly the configuration, the processors and the memory of the machine. */
  lemma {:induction false} TableTells(c: SmbiosConfig, m: Machine)
    requires ValidInput(c, m) && TextsVisible(c, m) && m.memSize <= U64_MAX
    ensures AllWellformed(Table(c, m)) && ReadTable(TableBytes(Table(c, m))) == Some(Told(c, m))
  {
    hide Table, Told, Walk, TableBytes, Interpreted, AllWellformed, TextsVisible;
    TableWalks(c, m);
    StructuresTell(c, m);
  }
}
