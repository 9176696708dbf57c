/** Terms of the ACPI Machine Language: the bytes that the builders emit for nested
    terms, and a parser that reads them back (ACPI Specification 6.4, section 20.2). */
module AmlTerms {
  import opened Addresses
  import opened Bytes
  import opened CStrings
  import opened AmlPkgLength
  import opened AmlNames

  const MAX_INT: nat := 0x1_0000_0000_0000_0000

  /** Builders that emit an opcode followed by fixed fields and, for scopes, children. */
  datatype Kind =
    | NameDecl | Scope | Package | Method | If | Else | While | Return | Device
    | Mutex | Acquire | Release | OpRegion
    | CreateWordField | CreateDWordField | CreateQWordField
    | Store | Add | Concat | Subtract | Increment | Decrement | ShiftLeft | ShiftRight
    | And | Or | DeRefOf | Notify | SizeOf | Index
    | LAnd | LOr | LNot | Equal | LGreater | LLess

  datatype Field = NameField | ByteField | TermField

  datatype Unit = Unit(name: Option<Text>, length: nat)

  datatype Item = NameItem(path: NamePath) | ByteItem(value: Byte) | TermItem(term: Term)

  datatype Term =
    | Integer(n: nat)
    | Ones
    | Str(text: Text)
    | Name(path: NamePath)
    | Local(index: nat)
    | Arg(index: nat)
    | Buffer(data: seq<Byte>)
    | FieldList(region: NamePath, flags: Byte, units: seq<Unit>)
    | Node(kind: Kind, head: seq<Item>, body: seq<Term>)

  function Opcode(kind: Kind): (op: seq<Byte>)
    ensures 1 <= |op| <= 2
  {
    match kind
    case NameDecl => [0x08]
    case Scope => [0x10]
    case Package => [0x12]
    case Method => [0x14]
    case If => [0xA0]
    case Else => [0xA1]
    case While => [0xA2]
    case Return => [0xA4]
    case Device => [0x5B, 0x82]
    case Mutex => [0x5B, 0x01]
    case Acquire => [0x5B, 0x23]
    case Release => [0x5B, 0x27]
    case OpRegion => [0x5B, 0x80]
    case CreateWordField => [0x8B]
    case CreateDWordField => [0x8A]
    case CreateQWordField => [0x8F]
    case Store => [0x70]
    case Add => [0x72]
    case Concat => [0x73]
    case Subtract => [0x74]
    case Increment => [0x75]
    case Decrement => [0x76]
    case ShiftLeft => [0x79]
    case ShiftRight => [0x7A]
    case And => [0x7B]
    case Or => [0x7D]
    case DeRefOf => [0x83]
    case Notify => [0x86]
    case SizeOf => [0x87]
    case Index => [0x88]
    case LAnd => [0x90]
    case LOr => [0x91]
    case LNot => [0x92]
    case Equal => [0x93]
    case LGreater => [0x94]
    case LLess => [0x95]
  }

  /** Kinds that carry a package length and children. */
  predicate Encloses(kind: Kind) {
    kind in {Scope, Package, Method, If, Else, While, Device}
  }

  /** The fixed fields between the opcode (or package length) and the children. */
  function Fields(kind: Kind): seq<Field> {
    match kind
    case NameDecl => [NameField, TermField]
    case Scope => [NameField]
    case Device => [NameField]
    case Package => [ByteField]
    case Method => [NameField, ByteField]
    case Mutex => [NameField, ByteField]
    case If => [TermField]
    case While => [TermField]
    case Else => []
    case Acquire => [TermField, ByteField, ByteField]
    case OpRegion => [NameField, ByteField, TermField, TermField]
    case CreateWordField => [TermField, TermField, NameField]
    case CreateDWordField => [TermField, TermField, NameField]
    case CreateQWordField => [TermField, TermField, NameField]
    case Return => [TermField]
    case Release => [TermField]
    case Increment => [TermField]
    case Decrement => [TermField]
    case LNot => [TermField]
    case SizeOf => [TermField]
    case DeRefOf => [TermField]
    case Store => [TermField, TermField]
    case Notify => [TermField, TermField]
    case Equal => [TermField, TermField]
    case LGreater => [TermField, TermField]
    case LLess => [TermField, TermField]
    case LAnd => [TermField, TermField]
    case LOr => [TermField, TermField]
    case _ => [TermField, TermField, TermField]
  }

  // ---- What the builders emit ----

  function IntBytes(n: nat): (b: seq<Byte>)
    ensures |b| >= 1
  {
    if n == 0 then [0x00]
    else if n == 1 then [0x01]
    else if n <= 0xFF then [0x0A] + ToLe(n, 1)
    else if n <= 0xFFFF then [0x0B] + ToLe(n, 2)
    else if n <= 0xFFFF_FFFF then [0x0C] + ToLe(n, 4)
    else [0x0E] + ToLe(n, 8)
  }

  /** A package length that counts itself, then the payload. */
  function Enclosed(payload: seq<Byte>): seq<Byte> {
    BuildPkgLength(|payload|, true) + payload
  }

  function UnitBytes(unit: Unit): seq<Byte>
    requires ValidUnit(unit)
  {
    (if unit.name.Some? then unit.name.value else [0x00]) + BuildPkgLength(unit.length, false)
  }

  function UnitsBytes(units: seq<Unit>): seq<Byte>
    requires forall i :: 0 <= i < |units| ==> ValidUnit(units[i])
  {
    if units == [] then [] else UnitBytes(units[0]) + UnitsBytes(units[1..])
  }

  function Encode(t: Term): (b: seq<Byte>)
    requires Shaped(t)
    decreases t, 1
  {
    match t
    case Integer(n) => IntBytes(n)
    case Ones => [0xFF]
    case Str(text) => [0x0D] + text + [0x00]
    case Name(path) => PathBytes(path)
    case Local(i) => [0x60 + i]
    case Arg(i) => [0x68 + i]
    case Buffer(data) => [0x11] + Enclosed(IntBytes(|data|) + data)
    case FieldList(region, flags, units) => [0x5B, 0x81] + Enclosed(PathBytes(region) + [flags] + UnitsBytes(units))
    case Node(kind, head, body) =>
      var payload := EncodeItems(head) + EncodeAll(body);
      Opcode(kind) + (if Encloses(kind) then Enclosed(payload) else payload)
  }

  function EncodeItem(item: Item): seq<Byte>
    requires ShapedItem(item)
    decreases item, 2
  {
    match item
    case NameItem(path) => PathBytes(path)
    case ByteItem(b) => [b]
    case TermItem(t) => Encode(t)
  }

  function EncodeItems(items: seq<Item>): seq<Byte>
    requires ShapedItems(items)
    decreases items, 0
  {
    if items == [] then [] else EncodeItem(items[0]) + EncodeItems(items[1..])
  }

  function EncodeAll(terms: seq<Term>): seq<Byte>
    requires ShapedAll(terms)
    decreases terms, 0
  {
    if terms == [] then [] else Encode(terms[0]) + EncodeAll(terms[1..])
  }

  /** Names, numbers and indices in the ranges the language gives them, and fields as
      their kind wants them: the terms that no builder refuses. */
  predicate Shaped(t: Term)
    decreases t, 1
  {
    match t
    case Integer(n) => n < MAX_INT
    case Ones => true
    case Str(text) => 0x00 !in text
    case Name(path) => ValidPath(path) && path != NamePath([], [])
    case Local(i) => i < 8
    case Arg(i) => i < 7
    case Buffer(data) => |data| < MAX_INT
    case FieldList(region, flags, units) =>
      ValidPath(region) && forall i :: 0 <= i < |units| ==> ValidUnit(units[i])
    case Node(kind, head, body) =>
      ShapedItems(head) && Matches(head, Fields(kind)) && Accepted(kind, head)
      && ShapedAll(body) && (!Encloses(kind) ==> body == [])
  }

  predicate ShapedItem(item: Item)
    decreases item, 2
  {
    match item
    case NameItem(path) => ValidPath(path)
    case ByteItem(_) => true
    case TermItem(t) => Shaped(t)
  }

  predicate ShapedItems(items: seq<Item>)
    decreases items, 0
  {
    items != [] ==> ShapedItem(items[0]) && ShapedItems(items[1..])
  }

  predicate ShapedAll(terms: seq<Term>)
    decreases terms, 0
  {
    terms != [] ==> Shaped(terms[0]) && ShapedAll(terms[1..])
  }

  /** Every package and every field unit in the term is below the 28-bit limit. */
  predicate InLimits(t: Term)
    requires Shaped(t)
    decreases t, 1
  {
    match t
    case Buffer(data) => Bounded(IntBytes(|data|) + data)
    case FieldList(region, flags, units) =>
      UnitsInLimits(units) && Bounded(PathBytes(region) + [flags] + UnitsBytes(units))
    case Node(kind, head, body) =>
      ItemsInLimits(head) && AllInLimits(body)
      && (Encloses(kind) ==> Bounded(EncodeItems(head) + EncodeAll(body)))
    case _ => true
  }

  predicate ItemsInLimits(items: seq<Item>)
    requires ShapedItems(items)
    decreases items, 0
  {
    items != [] ==> ItemInLimits(items[0]) && ItemsInLimits(items[1..])
  }

  predicate ItemInLimits(item: Item)
    requires ShapedItem(item)
    decreases item, 2
  {
    item.TermItem? ==> InLimits(item.term)
  }

  predicate AllInLimits(terms: seq<Term>)
    requires ShapedAll(terms)
    decreases terms, 0
  {
    terms != [] ==> InLimits(terms[0]) && AllInLimits(terms[1..])
  }

  predicate Bounded(payload: seq<Byte>) {
    Total(|payload|, true) < PKG_LIMIT
  }

  predicate UnitsInLimits(units: seq<Unit>) {
    forall i :: 0 <= i < |units| ==> units[i].length < PKG_LIMIT
  }

  predicate ValidUnit(unit: Unit) {
    unit.name.Some? ==> ValidSeg(unit.name.value)
  }

  predicate Matches(items: seq<Item>, fields: seq<Field>) {
    |items| == |fields| && forall i :: 0 <= i < |items| ==> Suits(items[i], fields[i])
  }

  /** A method takes at most seven arguments and one more flag; a mutex has a level below 16. */
  predicate Accepted(kind: Kind, head: seq<Item>)
    requires Matches(head, Fields(kind))
  {
    kind == Method || kind == Mutex ==> head[1].value < 16
  }

  predicate Suits(item: Item, field: Field) {
    match field
    case NameField => item.NameItem?
    case ByteField => item.ByteItem?
    case TermField => item.TermItem?
  }

  // ---- The parser ----

  datatype Opened = Opened(payload: seq<Byte>, rest: seq<Byte>)

  /** Split at a package length: the payload it delimits and what follows. */
  function Open(bs: seq<Byte>): (r: Option<Opened>)
    ensures r.Some? ==> |r.value.payload| < |bs| && |r.value.rest| < |bs|
  {
    var d := DecodePkgLength(bs);
    if d.None? || d.value.value < d.value.width || |bs| < d.value.value || d.value.width == 0 then None
    else Some(Opened(bs[d.value.width..d.value.value], bs[d.value.value..]))
  }

  function ParseInt(bs: seq<Byte>): (r: Option<Read<nat>>)
    ensures r.Some? ==> |r.value.rest| < |bs|
  {
    if bs == [] then None
    else if bs[0] <= 0x01 then Some(Read(bs[0], bs[1..]))
    else
      var width :=
        if bs[0] == 0x0A then 1 else if bs[0] == 0x0B then 2
        else if bs[0] == 0x0C then 4 else if bs[0] == 0x0E then 8 else 0;
      if width == 0 || |bs| < 1 + width then None
      else Some(Read(FromLe(bs[1..1 + width]), bs[1 + width..]))
  }

  function ParseBuffer(payload: seq<Byte>): Option<Term> {
    var size := ParseInt(payload);
    if size.None? || size.value.value != |size.value.rest| then None
    else Some(Buffer(size.value.rest))
  }

  function ParseUnits(bs: seq<Byte>): Option<seq<Unit>>
    decreases |bs|
  {
    if bs == [] then Some([])
    else
      var skip := if bs[0] == 0x00 then 1 else SEG_MAX;
      if |bs| < skip || (skip == SEG_MAX && !ValidSeg(bs[..SEG_MAX])) then None
      else
        var d := DecodePkgLength(bs[skip..]);
        if d.None? then None
        else
          var more := ParseUnits(bs[skip + d.value.width..]);
          if more.None? then None
          else
            var name := if skip == 1 then Option.None else Some(bs[..SEG_MAX]);
            Some([Unit(name, d.value.value)] + more.value)
  }

  function ParseField(payload: seq<Byte>): Option<Term> {
    var region := ParseName(payload);
    if region.None? || region.value.rest == [] then None
    else
      var units := ParseUnits(region.value.rest[1..]);
      if units.None? then None
      else Some(FieldList(region.value.path, region.value.rest[0], units.value))
  }

  function KindOf(bs: seq<Byte>): Option<Kind> {
    if bs == [] then None
    else if bs[0] != 0x5B then ShortKind(bs[0])
    else if |bs| < 2 then None
    else LongKind(bs[1])
  }

  function LongKind(b: Byte): Option<Kind> {
    match b
    case 0x82 => Some(Device)
    case 0x01 => Some(Mutex)
    case 0x23 => Some(Acquire)
    case 0x27 => Some(Release)
    case 0x80 => Some(OpRegion)
    case _ => None
  }

  function ShortKind(b: Byte): Option<Kind> {
    match b
    case 0x08 => Some(NameDecl)
    case 0x10 => Some(Scope)
    case 0x12 => Some(Package)
    case 0x14 => Some(Method)
    case 0xA0 => Some(If)
    case 0xA1 => Some(Else)
    case 0xA2 => Some(While)
    case 0xA4 => Some(Return)
    case 0x8B => Some(CreateWordField)
    case 0x8A => Some(CreateDWordField)
    case 0x8F => Some(CreateQWordField)
    case 0x70 => Some(Store)
    case 0x72 => Some(Add)
    case 0x73 => Some(Concat)
    case 0x74 => Some(Subtract)
    case 0x75 => Some(Increment)
    case 0x76 => Some(Decrement)
    case 0x79 => Some(ShiftLeft)
    case 0x7A => Some(ShiftRight)
    case 0x7B => Some(And)
    case 0x7D => Some(Or)
    case 0x83 => Some(DeRefOf)
    case 0x86 => Some(Notify)
    case 0x87 => Some(SizeOf)
    case 0x88 => Some(Index)
    case 0x90 => Some(LAnd)
    case 0x91 => Some(LOr)
    case 0x92 => Some(LNot)
    case 0x93 => Some(Equal)
    case 0x94 => Some(LGreater)
    case 0x95 => Some(LLess)
    case _ => None
  }

  predicate StartsName(b: Byte) {
    IsPrefixChar(b) || LeadNameChar(b) || b == DUAL_PREFIX || b == MULTI_PREFIX
  }

  /** Terms that hold no other term. */
  function ParseLeaf(bs: seq<Byte>): (r: Option<Read<Term>>)
    requires bs != []
    ensures r.Some? ==> |r.value.rest| < |bs|
  {
    if bs[0] == 0xFF then Some(Read(Ones, bs[1..]))
    else if 0x60 <= bs[0] <= 0x67 then Some(Read(Local(bs[0] - 0x60), bs[1..]))
    else if 0x68 <= bs[0] <= 0x6E then Some(Read(Arg(bs[0] - 0x68), bs[1..]))
    else if bs[0] == 0x0D then
      var text := ReadText(bs[1..]);
      if text.None? then None else Some(Read(Str(text.value.value), text.value.rest))
    else if StartsName(bs[0]) then
      var name := ParseName(bs);
      if name.None? then None else Some(Read(Name(name.value.path), name.value.rest))
    else if bs[0] == 0x11 then
      var inner := Open(bs[1..]);
      var term := if inner.None? then None else ParseBuffer(inner.value.payload);
      if term.None? then None else Some(Read(term.value, inner.value.rest))
    else if |bs| >= 2 && bs[0] == 0x5B && bs[1] == 0x81 then
      var inner := Open(bs[2..]);
      var term := if inner.None? then None else ParseField(inner.value.payload);
      if term.None? then None else Some(Read(term.value, inner.value.rest))
    else
      var n := ParseInt(bs);
      if n.None? then None else Some(Read(Integer(n.value.value), n.value.rest))
  }

  /** What the grammar puts between the opcode, or the package length, and the term list:
      sections 20.2.5.1 and 20.2.5.2 for names and named objects, 20.2.5.3 for statements,
      20.2.5.4 for expressions. */
  function Grammar(kind: Kind): seq<Field> {
    if kind in {Scope, Device} then [NameField]
    else if kind == NameDecl then [NameField, TermField]
    else if kind in {Method, Mutex} then [NameField, ByteField]
    else if kind == OpRegion then [NameField, ByteField, TermField, TermField]
    else if kind in {CreateWordField, CreateDWordField, CreateQWordField} then [TermField, TermField, NameField]
    else if kind == Else then []
    else if kind in {If, While, Return, Release} then [TermField]
    else if kind == Acquire then [TermField, ByteField, ByteField]
    else if kind == Package then [ByteField]
    else if kind in {Increment, Decrement, DeRefOf, SizeOf, LNot} then [TermField]
    else if kind in {Store, Notify, LAnd, LOr, Equal, LGreater, LLess} then [TermField, TermField]
    else [TermField, TermField, TermField]
  }

  /** The objects with a term list or an element list carry a package length. */
  predicate HasPkgLength(kind: Kind) {
    match kind
    case Scope => true
    case Method => true
    case Device => true
    case Package => true
    case If => true
    case Else => true
    case While => true
    case _ => false
  }

  /** The builders keep to the grammar. */
  lemma {:induction false} KeepsToGrammar(kind: Kind)
    ensures Grammar(kind) == Fields(kind) && (HasPkgLength(kind) <==> Encloses(kind))
  {
  }

  function ParseTerm(bs: seq<Byte>): (r: Option<Read<Term>>)
    ensures r.Some? ==> |r.value.rest| < |bs|
    decreases |bs|, 0, 0
  {
    var kind := KindOf(bs);
    if bs == [] then None
    else if kind.None? then ParseLeaf(bs)
    else
      var after := bs[if bs[0] == 0x5B then 2 else 1..];
      if HasPkgLength(kind.value) then
        var inner := Open(after);
        if inner.None? then None
        else
          var head := ParseItems(inner.value.payload, Grammar(kind.value));
          var body := if head.None? then None else ParseAll(head.value.rest);
          if body.None? then None
          else Some(Read(Node(kind.value, head.value.value, body.value), inner.value.rest))
      else
        var head := ParseItems(after, Grammar(kind.value));
        if head.None? then None
        else Some(Read(Node(kind.value, head.value.value, []), head.value.rest))
  }

  function ParseItems(bs: seq<Byte>, fields: seq<Field>): (r: Option<Read<seq<Item>>>)
    ensures r.Some? ==> |r.value.rest| <= |bs|
    decreases |bs|, 1, |fields|
  {
    if fields == [] then Some(Read([], bs))
    else
      var item := ParseItem(bs, fields[0]);
      if item.None? then None
      else
        var more := ParseItems(item.value.rest, fields[1..]);
        if more.None? then None
        else Some(Read([item.value.value] + more.value.value, more.value.rest))
  }

  function ParseItem(bs: seq<Byte>, field: Field): (r: Option<Read<Item>>)
    ensures r.Some? ==> |r.value.rest| < |bs|
    decreases |bs|, 0, 1
  {
    match field
    case NameField =>
      var name := ParseName(bs);
      if name.None? then None else Some(Read(NameItem(name.value.path), name.value.rest))
    case ByteField =>
      if bs == [] then None else Some(Read(ByteItem(bs[0]), bs[1..]))
    case TermField =>
      var term := ParseTerm(bs);
      if term.None? then None else Some(Read(TermItem(term.value.value), term.value.rest))
  }

  /** Terms up to the end of the bytes. */
  function ParseAll(bs: seq<Byte>): Option<seq<Term>>
    decreases |bs|, 1, 0
  {
    if bs == [] then Some([])
    else
      var term := ParseTerm(bs);
      if term.None? then None
      else
        var more := ParseAll(term.value.rest);
        if more.None? then None else Some([term.value.value] + more.value)
  }

  // ---- Reading back ----

  /** A package is cut out of the bytes around it exactly if it is below the limit. */
  lemma {:induction false} OpenEnclosed(payload: seq<Byte>, rest: seq<Byte>)
    ensures Open(Enclosed(payload) + rest) == Some(Opened(payload, rest)) <==> Bounded(payload)
  {
    hide DecodePkgLength, Packed;
    var width := BuildPkgLength(|payload|, true);
    var bs := Enclosed(payload) + rest;
    assert bs == width + (payload + rest);
    PkgLengthRoundTrip(|payload|, true, payload + rest);
    PackedDecodes(Total(|payload|, true), |width|, payload + rest);
    assert bs[|width|..|width| + |payload|] == payload;
    assert bs[|width| + |payload|..] == rest;
  }

  lemma {:induction false} Widths()
    ensures Pow256(1) == 0x100 && Pow256(2) == 0x1_0000
    ensures Pow256(4) == 0x1_0000_0000 && Pow256(8) == MAX_INT
  {
    assert Pow256(0) == 1;
    assert Pow256(3) == 0x100_0000;
    assert Pow256(5) == 0x100_0000_0000;
    assert Pow256(6) == 0x1_0000_0000_0000;
  }

  lemma {:induction false} IntRoundTrip(n: nat, rest: seq<Byte>)
    requires n < MAX_INT
    ensures ParseInt(IntBytes(n) + rest) == Some(Read(n, rest))
  {
    hide ToLe, FromLe, Pow256;
    var bs := IntBytes(n) + rest;
    if n <= 1 {
      assert bs[1..] == rest;
    } else {
      Widths();
      var width := |IntBytes(n)| - 1;
      LeRoundTrip(n, width);
      assert bs[1..1 + width] == ToLe(n, width) && bs[1 + width..] == rest;
    }
  }

  lemma {:induction false} FromLeBound(b: seq<Byte>)
    ensures FromLe(b) < Pow256(|b|)
  {
    if b != [] {
      FromLeBound(b[1..]);
    }
  }

  /** No bytes that are read as the integer are fewer than those the builders write. */
  lemma {:induction false} IntIsShortest(n: nat, bs: seq<Byte>)
    requires n < MAX_INT && ParseInt(bs) == Some(Read(n, []))
    ensures |IntBytes(n)| <= |bs|
  {
    hide ToLe, FromLe, Pow256;
    Widths();
    if bs[0] > 0x01 {
      FromLeBound(bs[1..]);
      assert bs[1..|bs|] == bs[1..];
    }
  }

  /** A field unit is read back with what 28 bits keep of its length. */
  lemma {:induction false} UnitRoundTrip(unit: Unit, rest: seq<Byte>)
    requires ValidUnit(unit)
    ensures var bs := UnitBytes(unit) + rest;
            var skip := if unit.name.None? then 1 else SEG_MAX;
            |bs| > skip && (bs[0] == 0x00 <==> unit.name.None?)
            && (unit.name.Some? ==> bs[..SEG_MAX] == unit.name.value)
            && DecodePkgLength(bs[skip..]) == Some(Decoded(unit.length % PKG_LIMIT, WidthFor(unit.length)))
            && bs[skip + WidthFor(unit.length)..] == rest
  {
    hide DecodePkgLength, Packed;
    var width := BuildPkgLength(unit.length, false);
    var name := if unit.name.Some? then unit.name.value else [0x00];
    var bs := UnitBytes(unit) + rest;
    assert bs == name + (width + rest);
    PackedDecodes(unit.length, WidthFor(unit.length), rest);
    assert bs[|name|..] == width + rest && bs[..|name|] == name;
    assert bs[0] == name[0];
  }

  /** What is read of a list of units: the lengths lose what is beyond 28 bits. */
  function Narrowed(units: seq<Unit>): (r: seq<Unit>)
    ensures |r| == |units|
    ensures forall i :: 0 <= i < |units| ==> r[i] == Unit(units[i].name, units[i].length % PKG_LIMIT)
  {
    seq(|units|, i requires 0 <= i < |units| => Unit(units[i].name, units[i].length % PKG_LIMIT))
  }

  lemma {:induction false} UnitsRead(units: seq<Unit>)
    requires forall i :: 0 <= i < |units| ==> ValidUnit(units[i])
    ensures ParseUnits(UnitsBytes(units)) == Some(Narrowed(units))
  {
    hide DecodePkgLength, UnitBytes, WidthFor;
    if units == [] {
      assert Narrowed(units) == [];
    } else {
      UnitsRead(units[1..]);
      UnitRoundTrip(units[0], UnitsBytes(units[1..]));
      assert Narrowed(units) == [Unit(units[0].name, units[0].length % PKG_LIMIT)] + Narrowed(units[1..]);
    }
  }

  lemma {:induction false} UnitsRoundTrip(units: seq<Unit>)
    requires forall i :: 0 <= i < |units| ==> ValidUnit(units[i])
    ensures ParseUnits(UnitsBytes(units)) == Some(units) <==> UnitsInLimits(units)
  {
    hide ParseUnits, UnitsBytes;
    UnitsRead(units);
    if Narrowed(units) == units {
      forall i | 0 <= i < |units| ensures units[i].length < PKG_LIMIT {
        assert units[i] == Narrowed(units)[i];
      }
    }
  }

  /** A field list is read back if and only if the length of every unit fits in 28 bits. */
  lemma {:induction false} FieldRoundTrip(t: Term)
    requires t.FieldList? && Shaped(t)
    ensures ParseField(PathBytes(t.region) + [t.flags] + UnitsBytes(t.units)) == Some(t) <==> UnitsInLimits(t.units)
  {
    hide ParseName, PathBytes, ParseUnits, UnitsBytes, UnitsInLimits;
    var after := [t.flags] + UnitsBytes(t.units);
    PathRoundTrip(t.region, after);
    UnitsRoundTrip(t.units);
    assert PathBytes(t.region) + [t.flags] + UnitsBytes(t.units) == PathBytes(t.region) + after;
    assert after[1..] == UnitsBytes(t.units);
  }

  lemma {:induction false} BufferRoundTrip(data: seq<Byte>)
    requires Bounded(IntBytes(|data|) + data)
    ensures ParseBuffer(IntBytes(|data|) + data) == Some(Buffer(data))
  {
    assert |data| < MAX_INT;
    IntRoundTrip(|data|, data);
  }

  lemma {:induction false} KindRoundTrip(kind: Kind, rest: seq<Byte>)
    ensures var bs := Opcode(kind) + rest;
            KindOf(bs) == Some(kind) && bs[if bs[0] == 0x5B then 2 else 1..] == rest
  {
    var op := Opcode(kind);
    var bs := op + rest;
    OpcodeRead(kind);
    assert bs[0] == op[0] && bs[|op|..] == rest;
    if |op| == 2 {
      assert bs[1] == op[1];
    }
  }

  lemma {:induction false} OpcodeRead(kind: Kind)
    ensures var op := Opcode(kind);
            |op| == (if op[0] == 0x5B then 2 else 1)
            && Some(kind) == if |op| == 2 then LongKind(op[1]) else ShortKind(op[0])
  {
  }

  /** A name that is not empty does not start like any other term. */
  lemma {:induction false} NameStart(path: NamePath, rest: seq<Byte>)
    requires ValidPath(path) && path != NamePath([], [])
    ensures var bs := PathBytes(path) + rest; bs != [] && StartsName(bs[0])
  {
    var bs := PathBytes(path) + rest;
    AfterPrefix(path, rest);
    var tail := Marker(|path.segs|) + AmlNames.Concat(path.segs) + rest;
    assert bs == path.prefix + tail;
    if path.prefix == [] {
      assert bs[0] == tail[0];
    } else {
      assert bs[0] == path.prefix[0];
    }
  }

  /** The bytes a term without an opcode of the table starts with. */
  predicate LeafByte(b: Byte) {
    b <= 0x01 || 0x0A <= b <= 0x0E || b == 0x11 || b == 0xFF || 0x60 <= b <= 0x6E || StartsName(b)
  }

  lemma {:induction false} LeafIsNoKind(bs: seq<Byte>)
    requires bs != [] && (LeafByte(bs[0]) || (|bs| >= 2 && bs[0] == 0x5B && bs[1] == 0x81))
    ensures KindOf(bs) == None && ParseTerm(bs) == ParseLeaf(bs)
  {
    hide ParseLeaf;
  }

  lemma {:induction false} PlainRoundTrip(t: Term, rest: seq<Byte>)
    requires !t.Node? && !t.Buffer? && !t.FieldList? && Shaped(t)
    ensures var bs := Encode(t) + rest;
            bs != [] && LeafByte(bs[0]) && ParseLeaf(bs) == Some(Read(t, rest))
  {
    hide ParseName, PathBytes, ReadText, ValidPath, FromLe, ToLe;
    var bs := Encode(t) + rest;
    match t
    case Integer(n) =>
      IntRoundTrip(n, rest);
      assert bs[0] == IntBytes(n)[0];
    case Ones =>
      assert bs[0] == 0xFF && bs[1..] == rest;
    case Str(text) =>
      ReadTextBack(text, rest);
      assert bs[0] == 0x0D && bs[1..] == text + [0x00] + rest;
    case Name(path) =>
      NameStart(path, rest);
      PathRoundTrip(path, rest);
    case Local(i) =>
      assert bs[0] == 0x60 + i && bs[1..] == rest;
    case Arg(i) =>
      assert bs[0] == 0x68 + i && bs[1..] == rest;
  }

  lemma {:induction false} LeafRoundTrip(t: Term, rest: seq<Byte>)
    requires !t.Node? && Shaped(t) && InLimits(t)
    ensures ParseTerm(Encode(t) + rest) == Some(Read(t, rest))
  {
    hide ParseTerm, PathBytes, ParseField, ParseBuffer, ReadText, ParseInt, IntBytes, UnitsBytes, Open, Enclosed,
      KindOf;
    var bs := Encode(t) + rest;
    match t
    case Buffer(data) =>
      var payload := IntBytes(|data|) + data;
      OpenEnclosed(payload, rest);
      BufferRoundTrip(data);
      assert bs[0] == 0x11 && bs[1..] == Enclosed(payload) + rest;
      LeafIsNoKind(bs);
    case FieldList(region, flags, units) =>
      var payload := PathBytes(region) + [flags] + UnitsBytes(units);
      OpenEnclosed(payload, rest);
      FieldRoundTrip(t);
      assert bs[0] == 0x5B && bs[1] == 0x81 && bs[2..] == Enclosed(payload) + rest;
      LeafIsNoKind(bs);
    case _ =>
      PlainRoundTrip(t, rest);
      LeafIsNoKind(bs);
  }

  /** Every well-shaped term below the limits is read back from its bytes, however deeply
      it nests and whatever follows it, and exactly its bytes are consumed. */
  lemma {:induction false} TermRoundTrip(t: Term, rest: seq<Byte>)
    requires Shaped(t) && InLimits(t)
    ensures ParseTerm(Encode(t) + rest) == Some(Read(t, rest))
    decreases t, 1
  {
    hide ParseItems, ParseAll, EncodeItems, EncodeAll, KindOf, Opcode, Fields, Matches, Accepted, Open, Enclosed;
    hide Grammar, HasPkgLength;
    if !t.Node? {
      LeafRoundTrip(t, rest);
    } else {
      var items, terms := EncodeItems(t.head), EncodeAll(t.body);
      var bs := Encode(t) + rest;
      KeepsToGrammar(t.kind);
      if Encloses(t.kind) {
        KindRoundTrip(t.kind, Enclosed(items + terms) + rest);
        assert bs == Opcode(t.kind) + (Enclosed(items + terms) + rest);
        OpenEnclosed(items + terms, rest);
        ItemsRoundTrip(t.head, Fields(t.kind), terms);
        AllRoundTrip(t.body);
      } else {
        KindRoundTrip(t.kind, items + rest);
        assert terms == [] by { NoBytes(); }
        assert bs == Opcode(t.kind) + (items + rest);
        ItemsRoundTrip(t.head, Fields(t.kind), rest);
      }
    }
  }

  lemma {:induction false} NoBytes()
    ensures EncodeAll([]) == []
  {
  }

  lemma {:induction false} ItemsRoundTrip(items: seq<Item>, fields: seq<Field>, rest: seq<Byte>)
    requires ShapedItems(items) && ItemsInLimits(items) && Matches(items, fields)
    ensures ParseItems(EncodeItems(items) + rest, fields) == Some(Read(items, rest))
    decreases items, 0
  {
    hide ParseItem, EncodeItem;
    if items == [] {
      assert EncodeItems(items) + rest == rest;
    } else {
      var more := EncodeItems(items[1..]);
      assert EncodeItems(items) + rest == EncodeItem(items[0]) + (more + rest);
      ItemRoundTrip(items[0], fields[0], more + rest);
      ItemsRoundTrip(items[1..], fields[1..], rest);
      assert [items[0]] + items[1..] == items;
    }
  }

  lemma {:induction false} ItemRoundTrip(item: Item, field: Field, rest: seq<Byte>)
    requires ShapedItem(item) && ItemInLimits(item) && Suits(item, field)
    ensures ParseItem(EncodeItem(item) + rest, field) == Some(Read(item, rest))
    decreases item, 2
  {
    hide ParseTerm, Encode, Shaped, InLimits, ParseName, PathBytes, ValidPath;
    match item
    case NameItem(path) => PathRoundTrip(path, rest);
    case ByteItem(b) => assert ([b] + rest)[1..] == rest;
    case TermItem(t) => TermRoundTrip(t, rest);
  }

  lemma {:induction false} AllRoundTrip(terms: seq<Term>)
    requires ShapedAll(terms) && AllInLimits(terms)
    ensures ParseAll(EncodeAll(terms)) == Some(terms)
    decreases terms, 0
  {
    hide ParseTerm, Encode, Shaped, InLimits;
    if terms != [] {
      TermRoundTrip(terms[0], EncodeAll(terms[1..]));
      AllRoundTrip(terms[1..]);
      assert [terms[0]] + terms[1..] == terms;
    }
  }

  // ---- Builders with children ----

  lemma {:induction false} EncodeAllSnoc(terms: seq<Term>, t: Term)
    requires ShapedAll(terms) && Shaped(t)
    ensures ShapedAll(terms + [t]) && EncodeAll(terms + [t]) == EncodeAll(terms) + Encode(t)
  {
    hide Shaped, Encode;
    if terms == [] {
      assert [t][1..] == [];
      assert terms + [t] == [t];
    } else {
      assert (terms + [t])[1..] == terms[1..] + [t];
      EncodeAllSnoc(terms[1..], t);
    }
  }

  /** A scope under construction: the bytes of its fixed fields and of the children so far. */
  class ScopeBuilder {
    const kind: Kind
    var buf: seq<Byte>
    ghost const head: seq<Item>
    ghost var body: seq<Term>

    ghost predicate Valid()
      reads this
    {
      Encloses(kind) && ShapedItems(head) && Matches(head, Fields(kind)) && Accepted(kind, head)
      && ShapedAll(body)
      && buf == EncodeItems(head) + EncodeAll(body)
    }

    ghost function Built(): (t: Term)
      requires Valid()
      reads this
      ensures Shaped(t)
    {
      Node(kind, head, body)
    }

    constructor (kind: Kind, head: seq<Item>)
      requires Encloses(kind) && ShapedItems(head) && Matches(head, Fields(kind)) && Accepted(kind, head)
      ensures Valid() && this.kind == kind && this.head == head && body == []
    {
      this.kind := kind;
      this.head := head;
      body := [];
      buf := EncodeItems(head);
    }

    method AppendChild(child: Term)
      requires Valid() && Shaped(child)
      modifies this
      ensures Valid() && body == old(body) + [child] && buf == old(buf) + Encode(child)
    {
      hide EncodeItems, EncodeAll, Encode, Shaped, ShapedAll, ShapedItems, Matches, Accepted;
      EncodeAllSnoc(body, child);
      buf := buf + Encode(child);
      body := body + [child];
    }

    /** The finished bytes: read back, they give the children in the order of their appending. */
    method AmlBytes() returns (bytes: seq<Byte>)
      requires Valid()
      ensures bytes == Encode(Built())
      ensures InLimits(Built()) ==> ParseTerm(bytes) == Some(Read(Built(), []))
    {
      hide EncodeItems, EncodeAll, ParseTerm, ShapedAll, ShapedItems, Matches, Accepted, InLimits;
      bytes := Opcode(kind) + BuildPkgLength(|buf|, true) + buf;
      assert bytes == Opcode(kind) + Enclosed(buf);
      if InLimits(Built()) {
        TermRoundTrip(Built(), []);
        assert Encode(Built()) + [] == bytes;
      }
    }
  }
}
