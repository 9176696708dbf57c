/** Structures of an SMBIOS table and how a reader walks them (System Management BIOS
    Reference Specification, DMTF DSP0134, sections 6.1.2 and 6.1.3). */
module SmbiosStructures {
  import opened Addresses
  import opened Bytes
  import opened CStrings

  const HEADER_LEN: nat := 4

  /** The fields that follow the four-byte header, and the strings that follow the fields. */
  datatype Structure = Structure(kind: Byte, handle: nat, fields: seq<Byte>, strings: seq<Text>)

  /** What the header can say: a 16-bit handle and an 8-bit length; no string holds a zero byte. */
  predicate Wellformed(s: Structure) {
    s.handle < 0x1_0000 && HEADER_LEN + |s.fields| < 256 && NulFree(s.strings)
  }

  predicate NulFree(strings: seq<Text>) {
    forall i :: 0 <= i < |strings| ==> 0 !in strings[i]
  }

  predicate NoneEmpty(strings: seq<Text>) {
    forall i :: 0 <= i < |strings| ==> strings[i] != []
  }

  /** Each string with its closing zero byte. */
  function Texts(strings: seq<Text>): seq<Byte> {
    if strings == [] then [] else strings[0] + [0] + Texts(strings[1..])
  }

  lemma {:induction false} TextsSnoc(strings: seq<Text>, text: Text)
    ensures Texts(strings + [text]) == Texts(strings) + text + [0]
  {
    if strings == [] {
      assert ([] + [text])[1..] == [];
      assert strings + [text] == [text];
      assert Texts([text]) == text + [0] + Texts([text][1..]);
    } else {
      assert (strings + [text])[1..] == strings[1..] + [text];
      TextsSnoc(strings[1..], text);
      assert Texts(strings + [text]) == strings[0] + [0] + (Texts(strings[1..]) + text + [0]);
    }
  }

  /** The strings, closed by one more zero byte, or two zero bytes if there is none. */
  function StringSet(strings: seq<Text>): seq<Byte> {
    Texts(strings) + if strings == [] then [0, 0] else [0]
  }

  function StructureBytes(s: Structure): seq<Byte>
    requires Wellformed(s)
  {
    [s.kind, HEADER_LEN + |s.fields|] + ToLe(s.handle, 2) + s.fields + StringSet(s.strings)
  }

  ghost predicate AllWellformed(structures: seq<Structure>) {
    forall i :: 0 <= i < |structures| ==> Wellformed(structures[i])
  }

  ghost function TableBytes(structures: seq<Structure>): seq<Byte>
    requires AllWellformed(structures)
  {
    if structures == [] then [] else StructureBytes(structures[0]) + TableBytes(structures[1..])
  }

  lemma {:induction false} TableSnoc(structures: seq<Structure>, s: Structure)
    requires AllWellformed(structures) && Wellformed(s)
    ensures AllWellformed(structures + [s])
    ensures TableBytes(structures + [s]) == TableBytes(structures) + StructureBytes(s)
  {
    hide StructureBytes, Wellformed;
    if structures == [] {
      assert structures + [s] == [s] && [s][1..] == [];
      assert TableBytes([s]) == StructureBytes(s) + TableBytes([s][1..]);
    } else {
      assert (structures + [s])[1..] == structures[1..] + [s];
      TableSnoc(structures[1..], s);
      assert TableBytes(structures + [s])
          == StructureBytes(structures[0]) + (TableBytes(structures[1..]) + StructureBytes(s));
    }
  }

  // ---- The walk ----

  /** Texts up to an empty one, which closes the set. */
  function ReadTexts(bs: seq<Byte>): (r: Option<Read<seq<Text>>>)
    ensures r.Some? ==> |r.value.rest| < |bs|
    decreases |bs|
  {
    var text := ReadText(bs);
    if text.None? then None
    else if text.value.value == [] then Some(Read([], text.value.rest))
    else
      var more := ReadTexts(text.value.rest);
      if more.None? then None else Some(Read([text.value.value] + more.value.value, more.value.rest))
  }

  function ReadSet(bs: seq<Byte>): (r: Option<Read<seq<Text>>>)
    ensures r.Some? ==> |r.value.rest| < |bs|
  {
    if |bs| >= 2 && bs[0] == 0 && bs[1] == 0 then Some(Read([], bs[2..])) else ReadTexts(bs)
  }

  function WalkOne(bs: seq<Byte>): (r: Option<Read<Structure>>)
    ensures r.Some? ==> |r.value.rest| < |bs|
  {
    if |bs| < HEADER_LEN || bs[1] < HEADER_LEN || |bs| < bs[1] then None
    else
      var strings := ReadSet(bs[bs[1]..]);
      if strings.None? then None
      else Some(Read(Structure(bs[0], FromLe(bs[2..4]), bs[4..bs[1]], strings.value.value), strings.value.rest))
  }

  function Walk(bs: seq<Byte>): Option<seq<Structure>>
    decreases |bs|
  {
    if bs == [] then Some([])
    else
      var one := WalkOne(bs);
      if one.None? then None
      else
        var more := Walk(one.value.rest);
        if more.None? then None else Some([one.value.value] + more.value)
  }

  // ---- What the walk finds ----

  /** The strings before the first empty one. */
  function Visible(strings: seq<Text>): (v: seq<Text>)
    ensures v <= strings
    ensures v == strings <==> NoneEmpty(strings)
  {
    if strings == [] || strings[0] == [] then []
    else
      var more := Visible(strings[1..]);
      assert strings == [strings[0]] + strings[1..];
      assert NoneEmpty(strings) <==> NoneEmpty(strings[1..]) by {
        assert forall i :: 1 <= i < |strings| ==> strings[i] == strings[1..][i - 1];
        assert forall i :: 0 <= i < |strings| - 1 ==> strings[1..][i] == strings[i + 1];
      }
      [strings[0]] + more
  }

  lemma {:induction false} ReadTextsBack(strings: seq<Text>, rest: seq<Byte>)
    requires NulFree(strings)
    ensures var r := ReadTexts(Texts(strings) + [0] + rest);
            r.Some? && r.value.value == Visible(strings)
            && (NoneEmpty(strings) ==> r.value.rest == rest)
  {
    hide ReadText;
    var bs := Texts(strings) + [0] + rest;
    if strings == [] {
      ReadTextBack([], rest);
      assert bs == [] + [0] + rest;
    } else {
      var more := Texts(strings[1..]) + [0] + rest;
      assert bs == strings[0] + [0] + more;
      ReadTextBack(strings[0], more);
      if strings[0] != [] {
        ReadTextsBack(strings[1..], rest);
        assert Visible(strings) == [strings[0]] + Visible(strings[1..]);
      }
    }
  }

  lemma {:induction false} ReadSetBack(strings: seq<Text>, rest: seq<Byte>)
    requires NulFree(strings)
    ensures var r := ReadSet(StringSet(strings) + rest);
            r.Some? && r.value.value == Visible(strings)
            && (NoneEmpty(strings) ==> r.value.rest == rest)
  {
    hide ReadTexts, Texts, NoneEmpty;
    var bs := StringSet(strings) + rest;
    if strings == [] {
      assert Texts([]) == [] by { NoTexts(); }
      assert bs == [0, 0] + rest;
      assert bs[2..] == rest;
      assert NoneEmpty([]) && Visible([]) == [] by { NoTexts(); }
    } else {
      assert bs == Texts(strings) + [0] + rest;
      ReadTextsBack(strings, rest);
      StartOf(strings, [0] + rest);
      assert bs == Texts(strings) + ([0] + rest);
    }
  }

  lemma {:induction false} NoTexts()
    ensures Texts([]) == [] && NoneEmpty([]) && Visible([]) == []
  {
  }

  /** The bytes start with a zero exactly if the first string is empty, and then nothing is visible. */
  lemma {:induction false} StartOf(strings: seq<Text>, rest: seq<Byte>)
    requires strings != [] && NulFree(strings)
    ensures var bs := Texts(strings) + rest;
            bs != [] && (bs[0] == 0 ==> Visible(strings) == [] && !NoneEmpty(strings))
  {
    assert Texts(strings) == strings[0] + ([0] + Texts(strings[1..]));
    if strings[0] != [] {
      assert (Texts(strings) + rest)[0] == strings[0][0] && strings[0][0] in strings[0];
    }
  }

  /** A structure is found with all its strings, and what follows is left for the next,
      exactly if none of its strings is empty. */
  lemma {:induction false} WalkOneBack(s: Structure, rest: seq<Byte>)
    requires Wellformed(s)
    ensures var r := WalkOne(StructureBytes(s) + rest);
            r.Some? && r.value.value == s.(strings := Visible(s.strings))
            && (NoneEmpty(s.strings) ==> r.value.rest == rest)
  {
    hide ReadSet, StringSet, ToLe, FromLe, Visible, NulFree, NoneEmpty;
    var bs := StructureBytes(s) + rest;
    var header := [s.kind, HEADER_LEN + |s.fields|] + ToLe(s.handle, 2);
    assert bs == header + s.fields + (StringSet(s.strings) + rest);
    assert bs[0] == header[0] && bs[1] == header[1];
    assert bs[2..4] == ToLe(s.handle, 2);
    assert bs[4..bs[1]] == s.fields;
    assert bs[bs[1]..] == StringSet(s.strings) + rest;
    ReadSetBack(s.strings, rest);
    assert FromLe(ToLe(s.handle, 2)) == s.handle by { TwoBytes(s.handle); }
  }

  lemma {:induction false} TwoBytes(n: nat)
    requires n < 0x1_0000
    ensures FromLe(ToLe(n, 2)) == n
  {
    assert Pow256(0) == 1;
    assert Pow256(2) == 0x1_0000;
    LeRoundTrip(n, 2);
  }

  ghost predicate AllVisible(structures: seq<Structure>) {
    forall i :: 0 <= i < |structures| ==> NoneEmpty(structures[i].strings)
  }

  /** Walking a table finds its structures, in order, exactly if no string is empty. */
  lemma {:induction false} WalkBack(structures: seq<Structure>)
    requires AllWellformed(structures)
    ensures Walk(TableBytes(structures)) == Some(structures) <==> AllVisible(structures)
  {
    hide WalkOne, StructureBytes, Wellformed, NoneEmpty;
    if structures != [] {
      var s, others := structures[0], structures[1..];
      WalkOneBack(s, TableBytes(others));
      var one := WalkOne(TableBytes(structures));
      if NoneEmpty(s.strings) {
        WalkBack(others);
        assert structures == [s] + others;
        assert AllVisible(structures) <==> AllVisible(others) by {
          assert forall i :: 1 <= i < |structures| ==> structures[i] == others[i - 1];
          assert forall i :: 0 <= i < |others| ==> others[i] == structures[i + 1];
        }
        if Walk(TableBytes(others)).Some? {
          var found := Walk(TableBytes(others)).value;
          assert ([s] + found)[1..] == found;
        }
      } else {
        assert one.value.value.strings != s.strings;
        assert !AllVisible(structures);
      }
    }
  }
}
