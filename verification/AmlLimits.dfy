/** The 28-bit limit is exactly what it takes: a term with a longer package, however
    deeply nested, is not read back.

  The encoder drops the high bits of the package length, so the parser sees a shorter
  package, a prefix of the real one.  The lemmas say that a parser that is given any
  prefix of a term's bytes, followed by anything, can answer with the very term only if
  it has consumed all its bytes; a cut package is too short for that. */
module AmlLimits {
  import opened Addresses
  import opened Bytes
  import opened CStrings
  import opened AmlPkgLength
  import opened AmlNames
  import opened AmlTerms

  /** `rest` is what is left of `bs` behind `n` bytes. */
  ghost predicate Behind(bs: seq<Byte>, n: nat, rest: seq<Byte>) {
    n <= |bs| && rest == bs[n..]
  }

  lemma {:induction false} PrefixAt(bs: seq<Byte>, all: seq<Byte>, n: nat)
    requires bs <= all && n <= |bs|
    ensures bs[n..] <= all[n..] && bs[..n] == all[..n]
  {
  }

  /** Behind the first part, a prefix of a concatenation is a prefix of the second. */
  lemma {:induction false} PrefixBehind(bs: seq<Byte>, a: seq<Byte>, b: seq<Byte>)
    requires bs <= a + b && |a| <= |bs|
    ensures bs[|a|..] <= b
  {
    assert (a + b)[|a|..] == b;
  }

  // ---- Numbers, texts, names ----

  lemma {:induction false} DecodeOnPrefix(bs: seq<Byte>, all: seq<Byte>)
    requires bs <= all && DecodePkgLength(bs).Some?
    ensures DecodePkgLength(all) == DecodePkgLength(bs) && DecodePkgLength(bs).value.width <= |bs|
  {
    assert forall i :: 0 <= i < |bs| ==> bs[i] == all[i];
  }

  lemma {:induction false} IntExact(n: nat, bs: seq<Byte>, x: seq<Byte>)
    requires n < MAX_INT && bs <= IntBytes(n) + x && bs != [] && ParseInt(bs).Some?
    ensures Behind(bs, |IntBytes(n)|, ParseInt(bs).value.rest)
  {
    hide ToLe, FromLe;
    assert bs[0] == (IntBytes(n) + x)[0] == IntBytes(n)[0];
  }

  lemma {:induction false} TextExact(bs: seq<Byte>)
    requires ReadText(bs).Some?
    ensures var r := ReadText(bs).value; Behind(bs, |r.value| + 1, r.rest)
  {
    if bs[0] != 0x00 {
      TextExact(bs[1..]);
    }
  }

  lemma {:induction false} TakeExact(bs: seq<Byte>, count: nat)
    requires TakeSegs(bs, count).Some?
    ensures Behind(bs, 4 * count, TakeSegs(bs, count).value.rest)
  {
    hide ValidSeg;
    if count > 0 {
      TakeExact(bs[SEG_MAX..], count - 1);
    }
  }

  lemma {:induction false} ConcatLength(segs: seq<Text>)
    requires forall i :: 0 <= i < |segs| ==> |segs[i]| == SEG_MAX
    ensures |AmlNames.Concat(segs)| == 4 * |segs|
  {
    if segs != [] {
      ConcatLength(segs[1..]);
    }
  }

  lemma {:induction false} NameExact(path: NamePath, bs: seq<Byte>, x: seq<Byte>)
    requires ValidPath(path) && bs <= PathBytes(path) + x
    requires ParseName(bs).Some? && ParseName(bs).value.path == path
    ensures Behind(bs, |PathBytes(path)|, ParseName(bs).value.rest)
  {
    hide ValidSeg, TakeSegs, PrefixLen, AmlNames.Concat;
    var p := |path.prefix|;
    assert PrefixLen(bs) == p;
    var rest := bs[p..];
    var tail := Marker(|path.segs|) + AmlNames.Concat(path.segs) + x;
    assert PathBytes(path) + x == path.prefix + tail;
    PrefixBehind(bs, path.prefix, tail);
    assert rest[0] == tail[0];
    AfterPrefix(path, x);
    SegLengths(path);
    if |path.segs| > 0 {
      TakeExact(if |path.segs| == 1 then rest else if |path.segs| == 2 then rest[1..] else rest[2..], |path.segs|);
    }
  }

  lemma {:induction false} SegLengths(path: NamePath)
    requires ValidPath(path)
    ensures |AmlNames.Concat(path.segs)| == 4 * |path.segs|
  {
    forall i | 0 <= i < |path.segs| ensures |path.segs[i]| == SEG_MAX {
      assert ValidSeg(path.segs[i]);
    }
    ConcatLength(path.segs);
  }

  // ---- Packages ----

  /** Opening a prefix of a package gives a prefix of its payload, and all of it only
      below the limit. */
  lemma {:induction false} OpenExact(payload: seq<Byte>, bs: seq<Byte>, x: seq<Byte>)
    requires bs <= Enclosed(payload) + x && Open(bs).Some?
    ensures Open(bs).value.payload <= payload
    ensures |Open(bs).value.payload| == |payload| ==>
              Bounded(payload) && Behind(bs, |Enclosed(payload)|, Open(bs).value.rest)
  {
    hide DecodePkgLength, Packed;
    var all := Enclosed(payload) + x;
    var w := WidthFor(|payload|);
    var n := Total(|payload|, true);
    assert all == BuildPkgLength(|payload|, true) + (payload + x);
    PackedDecodes(n, w, payload + x);
    DecodeOnPrefix(bs, all);
    var value := n % PKG_LIMIT;
    assert value <= n;
    CutOut(BuildPkgLength(|payload|, true), payload, x, bs, value);
  }

  lemma {:induction false} CutOut(width: seq<Byte>, payload: seq<Byte>, x: seq<Byte>, bs: seq<Byte>, value: nat)
    requires |width| <= value <= |bs| && value <= |width| + |payload| && bs <= width + (payload + x)
    ensures bs[|width|..value] == payload[..value - |width|]
  {
    var all := width + (payload + x);
    assert bs[|width|..value] == all[|width|..value];
  }

  lemma {:induction false} UnitsExact(units: seq<Unit>, bs: seq<Byte>)
    requires forall i :: 0 <= i < |units| ==> ValidUnit(units[i])
    requires bs <= UnitsBytes(units) && ParseUnits(bs) == Some(units)
    ensures |bs| == |UnitsBytes(units)| && UnitsInLimits(units)
  {
    hide DecodePkgLength, UnitBytes, WidthFor, ValidSeg;
    if units != [] {
      var others := UnitsBytes(units[1..]);
      UnitRoundTrip(units[0], others);
      var skip := if bs[0] == 0x00 then 1 else SEG_MAX;
      assert bs[0] == UnitsBytes(units)[0];
      PrefixAt(bs, UnitsBytes(units), skip);
      DecodeOnPrefix(bs[skip..], UnitsBytes(units)[skip..]);
      var next := skip + WidthFor(units[0].length);
      PrefixAt(bs, UnitsBytes(units), next);
      var more := ParseUnits(bs[next..]);
      assert more.Some? && ParseUnits(bs).value[1..] == more.value;
      assert ParseUnits(bs).value[0].length == units[0].length % PKG_LIMIT;
      UnitsExact(units[1..], bs[next..]);
      assert forall i :: 1 <= i < |units| ==> units[i] == units[1..][i - 1];
    }
  }

  lemma {:induction false} FieldExact(t: Term, payload: seq<Byte>)
    requires t.FieldList? && Shaped(t)
    requires payload <= PathBytes(t.region) + [t.flags] + UnitsBytes(t.units) && ParseField(payload) == Some(t)
    ensures |payload| == |PathBytes(t.region) + [t.flags] + UnitsBytes(t.units)| && UnitsInLimits(t.units)
  {
    hide ParseName, PathBytes, ParseUnits, UnitsBytes;
    var after := [t.flags] + UnitsBytes(t.units);
    assert PathBytes(t.region) + [t.flags] + UnitsBytes(t.units) == PathBytes(t.region) + after;
    NameExact(t.region, payload, after);
    var rest := ParseName(payload).value.rest;
    PrefixBehind(payload, PathBytes(t.region), after);
    PrefixBehind(rest, [t.flags], UnitsBytes(t.units));
    UnitsExact(t.units, rest[1..]);
  }

  lemma {:induction false} BufferExact(data: seq<Byte>, payload: seq<Byte>)
    requires |data| < MAX_INT && payload <= IntBytes(|data|) + data && ParseBuffer(payload) == Some(Buffer(data))
    ensures |payload| == |IntBytes(|data|) + data|
  {
    IntExact(|data|, payload, data);
  }

  // ---- Terms ----

  lemma {:induction false} LeafParsed(bs: seq<Byte>)
    requires ParseTerm(bs).Some? && !ParseTerm(bs).value.value.Node?
    ensures bs != [] && ParseTerm(bs) == ParseLeaf(bs)
  {
    hide ParseLeaf, ParseItems, ParseAll, Open, Fields, KindOf;
  }

  lemma {:induction false} NodeParsed(bs: seq<Byte>)
    requires ParseTerm(bs).Some? && ParseTerm(bs).value.value.Node?
    ensures KindOf(bs) == Some(ParseTerm(bs).value.value.kind)
  {
    hide ParseItems, ParseAll, Open, Fields, KindOf, ParseInt, ParseName, ReadText;
  }

  lemma {:induction false} LeafKinds(bs: seq<Byte>)
    requires bs != [] && ParseLeaf(bs).Some?
    ensures var r := ParseLeaf(bs).value;
            && (r.value.Integer? ==> ParseInt(bs) == Some(Read(r.value.n, r.rest)))
            && (r.value.Name? ==> ParseName(bs) == Some(ParsedName(r.value.path, r.rest)))
  {
    hide ParseInt, ParseName, ReadText, Open, ParseUnits;
  }

  lemma {:induction false} LeafExact(t: Term, bs: seq<Byte>, x: seq<Byte>)
    requires !t.Node? && Shaped(t) && bs <= Encode(t) + x
    requires ParseTerm(bs).Some? && ParseTerm(bs).value.value == t
    ensures InLimits(t) && Behind(bs, |Encode(t)|, ParseTerm(bs).value.rest)
  {
    hide ParseTerm, KindOf, ParseName, PathBytes, ParseInt, IntBytes, ReadText, ParseField, ParseBuffer, Open, Enclosed;
    hide UnitsBytes;
    LeafParsed(bs);
    LeafKinds(bs);
    match t
    case Integer(n) => IntExact(n, bs, x);
    case Str(text) => TextExact(bs[1..]);
    case Name(path) => NameExact(path, bs, x);
    case Buffer(data) =>
      var payload := IntBytes(|data|) + data;
      assert Encode(t) + x == [0x11] + (Enclosed(payload) + x);
      PrefixBehind(bs, [0x11], Enclosed(payload) + x);
      OpenExact(payload, bs[1..], x);
      BufferExact(data, Open(bs[1..]).value.payload);
    case FieldList(region, flags, units) =>
      var payload := PathBytes(region) + [flags] + UnitsBytes(units);
      assert Encode(t) + x == [0x5B, 0x81] + (Enclosed(payload) + x);
      PrefixBehind(bs, [0x5B, 0x81], Enclosed(payload) + x);
      OpenExact(payload, bs[2..], x);
      FieldExact(t, Open(bs[2..]).value.payload);
    case _ =>
  }

  /** Read from a prefix of its own bytes and whatever follows them, a term is read only
      whole, and only if all its packages are below the limit. */
  lemma {:induction false} TermExact(t: Term, bs: seq<Byte>, x: seq<Byte>)
    requires Shaped(t) && bs <= Encode(t) + x
    requires ParseTerm(bs).Some? && ParseTerm(bs).value.value == t
    ensures InLimits(t) && Behind(bs, |Encode(t)|, ParseTerm(bs).value.rest)
    decreases t, 1
  {
    hide ParseItems, ParseAll, EncodeItems, EncodeAll, KindOf, Opcode, Fields, Matches, Accepted, Open, Enclosed;
    hide ParseLeaf, Grammar, HasPkgLength;
    if !t.Node? {
      LeafExact(t, bs, x);
    } else {
      var items, terms := EncodeItems(t.head), EncodeAll(t.body);
      NodeParsed(bs);
      var tail := (if Encloses(t.kind) then Enclosed(items + terms) else items + terms) + x;
      assert Encode(t) + x == Opcode(t.kind) + tail;
      OpcodeBehind(t.kind, bs, tail);
      var after := bs[|Opcode(t.kind)|..];
      KeepsToGrammar(t.kind);
      if Encloses(t.kind) {
        OpenExact(items + terms, after, x);
        var payload := Open(after).value.payload;
        ItemsExact(t.head, Fields(t.kind), payload, terms);
        PrefixBehind(payload, items, terms);
        AllExact(t.body, payload[|items|..]);
      } else {
        assert terms == [] by { NoBytes(); }
        assert items + terms == items;
        ItemsExact(t.head, Fields(t.kind), after, x);
      }
    }
  }

  lemma {:induction false} OpcodeBehind(kind: Kind, bs: seq<Byte>, tail: seq<Byte>)
    requires bs <= Opcode(kind) + tail && KindOf(bs) == Some(kind)
    ensures bs != [] && |Opcode(kind)| == (if bs[0] == 0x5B then 2 else 1) <= |bs|
    ensures bs[|Opcode(kind)|..] <= tail
  {
    hide ShortKind, LongKind, Opcode;
    OpcodeRead(kind);
    assert bs[0] == (Opcode(kind) + tail)[0] == Opcode(kind)[0];
    PrefixBehind(bs, Opcode(kind), tail);
  }

  lemma {:induction false} ItemsExact(items: seq<Item>, fields: seq<Field>, bs: seq<Byte>, x: seq<Byte>)
    requires ShapedItems(items) && Matches(items, fields) && bs <= EncodeItems(items) + x
    requires ParseItems(bs, fields).Some? && ParseItems(bs, fields).value.value == items
    ensures ItemsInLimits(items) && Behind(bs, |EncodeItems(items)|, ParseItems(bs, fields).value.rest)
    decreases items, 0
  {
    hide ParseItem, EncodeItem, ShapedItem, ItemInLimits;
    if items != [] {
      var more := EncodeItems(items[1..]);
      assert EncodeItems(items) + x == EncodeItem(items[0]) + (more + x);
      var parsed := ParseItem(bs, fields[0]);
      assert parsed.value.value == ParseItems(bs, fields).value.value[0] == items[0];
      ItemExact(items[0], fields[0], bs, more + x);
      var rest := parsed.value.rest;
      PrefixBehind(bs, EncodeItem(items[0]), more + x);
      assert ParseItems(bs, fields).value.value[1..] == ParseItems(rest, fields[1..]).value.value;
      ItemsExact(items[1..], fields[1..], rest, x);
    }
  }

  lemma {:induction false} ItemExact(item: Item, field: Field, bs: seq<Byte>, x: seq<Byte>)
    requires ShapedItem(item) && Suits(item, field) && bs <= EncodeItem(item) + x
    requires ParseItem(bs, field).Some? && ParseItem(bs, field).value.value == item
    ensures ItemInLimits(item) && Behind(bs, |EncodeItem(item)|, ParseItem(bs, field).value.rest)
    decreases item, 2
  {
    hide ParseTerm, Encode, Shaped, InLimits, ParseName, PathBytes, ValidPath;
    match item
    case NameItem(path) => NameExact(path, bs, x);
    case ByteItem(b) =>
    case TermItem(t) => TermExact(t, bs, x);
  }

  lemma {:induction false} AllExact(terms: seq<Term>, bs: seq<Byte>)
    requires ShapedAll(terms) && bs <= EncodeAll(terms) && ParseAll(bs) == Some(terms)
    ensures AllInLimits(terms) && |bs| == |EncodeAll(terms)|
    decreases terms, 0
  {
    hide ParseTerm, Encode, Shaped, InLimits;
    if terms != [] {
      var more := EncodeAll(terms[1..]);
      var parsed := ParseTerm(bs);
      assert parsed.value.value == ParseAll(bs).value[0] == terms[0];
      TermExact(terms[0], bs, more);
      PrefixBehind(bs, Encode(terms[0]), more);
      assert ParseAll(bs).value[1..] == ParseAll(parsed.value.rest).value;
      AllExact(terms[1..], parsed.value.rest);
    }
  }

  /** A well-shaped term is read back, with exactly its bytes consumed, if and only if every
      package in it is below the 28-bit limit. */
  lemma {:induction false} RoundTripExact(t: Term, rest: seq<Byte>)
    requires Shaped(t)
    ensures ParseTerm(Encode(t) + rest) == Some(Read(t, rest)) <==> InLimits(t)
  {
    hide ParseTerm, Encode, Shaped, InLimits;
    if InLimits(t) {
      TermRoundTrip(t, rest);
    } else if ParseTerm(Encode(t) + rest) == Some(Read(t, rest)) {
      TermExact(t, Encode(t) + rest, rest);
      assert false;
    }
  }
}
