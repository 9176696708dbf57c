/** Names of the ACPI Machine Language (ACPI Specification 6.4, section 20.2.2). */
module AmlNames {
  import opened Addresses
  import opened Bytes
  import opened CStrings

  const DOT: Byte := 0x2E
  const ROOT_CHAR: Byte := 0x5C
  const PARENT_CHAR: Byte := 0x5E
  const UNDERSCORE: Byte := 0x5F
  const NULL_NAME: Byte := 0x00
  const DUAL_PREFIX: Byte := 0x2E
  const MULTI_PREFIX: Byte := 0x2F
  const SEG_MAX: nat := 4

  /** A place in the namespace: prefix characters, then segments of four bytes each;
      no segment at all is the null name. */
  datatype NamePath = NamePath(prefix: Text, segs: seq<Text>)

  predicate IsPrefixChar(c: Byte) {
    c == ROOT_CHAR || c == PARENT_CHAR
  }

  predicate LeadNameChar(c: Byte) {
    0x41 <= c <= 0x5A || c == UNDERSCORE
  }

  predicate NameChar(c: Byte) {
    LeadNameChar(c) || 0x30 <= c <= 0x39
  }

  predicate ValidSeg(seg: Text) {
    |seg| == SEG_MAX && LeadNameChar(seg[0]) && NameChar(seg[1]) && NameChar(seg[2]) && NameChar(seg[3])
  }

  predicate ValidPath(path: NamePath) {
    (forall i :: 0 <= i < |path.prefix| ==> IsPrefixChar(path.prefix[i]))
    && |path.segs| <= 255
    && forall i :: 0 <= i < |path.segs| ==> ValidSeg(path.segs[i])
  }

  /** The pieces of a text between its dots; never none. */
  function Split(text: Text): (parts: seq<Text>)
    ensures |parts| >= 1
  {
    if text == [] then [[]]
    else
      var rest := Split(text[1..]);
      if text[0] == DOT then [[]] + rest else [[text[0]] + rest[0]] + rest[1..]
  }

  /** The pieces with a dot between neighbours: what `Split` undoes. */
  function Join(parts: seq<Text>): Text
    requires |parts| >= 1
  {
    if |parts| == 1 then parts[0] else parts[0] + [DOT] + Join(parts[1..])
  }

  lemma {:induction false} JoinSplit(text: Text)
    ensures Join(Split(text)) == text
    ensures forall part :: part in Split(text) ==> DOT !in part
  {
    if text != [] {
      var rest := Split(text[1..]);
      JoinSplit(text[1..]);
      if text[0] == DOT {
        assert ([[]] + rest)[1..] == rest;
      } else {
        var parts := [[text[0]] + rest[0]] + rest[1..];
        assert parts[1..] == rest[1..];
        assert Split(text) == parts;
        forall part | part in parts ensures DOT !in part {
          assert part == [text[0]] + rest[0] || part in rest[1..];
        }
        if |rest| > 1 {
          assert Join(parts) == [text[0]] + (rest[0] + [DOT] + Join(rest[1..]));
        }
        assert text == [text[0]] + text[1..];
      }
    }
  }

  /** Number of prefix characters a text starts with. */
  function PrefixLen(text: Text): (p: nat)
    ensures p <= |text|
    ensures forall i :: 0 <= i < p ==> IsPrefixChar(text[i])
    ensures p < |text| ==> !IsPrefixChar(text[p])
  {
    if text == [] || !IsPrefixChar(text[0]) then 0 else 1 + PrefixLen(text[1..])
  }

  /** What the encoder drops from the first piece before it writes the segment: the
      prefix, but nothing if the piece has no other character. */
  function Dropped(first: Text): (n: nat)
    ensures n <= |first|
  {
    if PrefixLen(first) < |first| then PrefixLen(first) else 0
  }

  function Padded(seg: Text): (s: Text)
    requires |seg| <= SEG_MAX
    ensures |s| == SEG_MAX && s[..|seg|] == seg
    ensures forall i :: |seg| <= i < SEG_MAX ==> s[i] == UNDERSCORE
  {
    seg + seq(SEG_MAX - |seg|, _ => UNDERSCORE)
  }

  function PadAll(segs: seq<Text>): (r: seq<Text>)
    requires forall i :: 0 <= i < |segs| ==> |segs[i]| <= SEG_MAX
    ensures |r| == |segs|
    ensures forall i :: 0 <= i < |segs| ==> r[i] == Padded(segs[i])
  {
    seq(|segs|, i requires 0 <= i < |segs| => Padded(segs[i]))
  }

  function Concat(segs: seq<Text>): Text {
    if segs == [] then [] else segs[0] + Concat(segs[1..])
  }

  lemma {:induction false} ConcatSnoc(segs: seq<Text>, seg: Text)
    ensures Concat(segs + [seg]) == Concat(segs) + seg
  {
    if segs == [] {
      assert ([] + [seg])[1..] == [];
    } else {
      assert (segs + [seg])[1..] == segs[1..] + [seg];
      ConcatSnoc(segs[1..], seg);
    }
  }

  /** The marker that tells how many segments follow. */
  function Marker(count: nat): Text
    requires count <= 255
  {
    if count == 0 then [NULL_NAME]
    else if count == 1 then []
    else if count == 2 then [DUAL_PREFIX]
    else [MULTI_PREFIX, count]
  }

  function PathBytes(path: NamePath): Text
    requires |path.segs| <= 255
  {
    path.prefix + Marker(|path.segs|) + Concat(path.segs)
  }

  // ---- The meaning of a written name and the encoder ----

  /** A written name as a path: the prefix characters of the first piece are the prefix,
      what remains of it and the other pieces, padded, are the segments. */
  function Pieces(text: Text): (segs: seq<Text>)
    ensures |segs| == |Split(text)|
  {
    var parts := Split(text);
    [parts[0][PrefixLen(parts[0])..]] + parts[1..]
  }

  predicate Fits(segs: seq<Text>) {
    1 <= |segs| <= 255 && forall i :: 0 <= i < |segs| ==> |segs[i]| <= SEG_MAX
  }

  function PathOf(text: Text): NamePath
    requires Fits(Pieces(text))
  {
    var first := Split(text)[0];
    var segs := Pieces(text);
    NamePath(first[..PrefixLen(first)], if segs == [[]] then [] else PadAll(segs))
  }

  /** The first piece is one or more prefix characters and nothing else. */
  predicate PrefixOnly(text: Text) {
    var first := Split(text)[0];
    first != [] && PrefixLen(first) == |first|
  }

  /** The segments the encoder writes. */
  function Written(text: Text): (segs: seq<Text>)
    ensures |segs| == |Split(text)|
  {
    var parts := Split(text);
    [parts[0][Dropped(parts[0])..]] + parts[1..]
  }

  /** Exactly the bytes the encoder produces; none where it panics. */
  function NameBytes(text: Text): Option<Text> {
    var first := Split(text)[0];
    var segs := Written(text);
    if !Fits(segs) then None
    else Some(PathBytes(NamePath(first[..PrefixLen(first)], if segs == [[]] then [] else PadAll(segs))))
  }

  /** One segment; more than four bytes panic. */
  function BuildNameSeg(seg: Text): (r: Option<Text>) {
    if |seg| > SEG_MAX then None else Some(Padded(seg))
  }

  ghost predicate PrefixScanned(first: Text, i: nat, bytes: Text) {
    i <= PrefixLen(first) && bytes == first[..i]
  }

  method BuildNameString(text: Text) returns (r: Option<Text>)
    ensures r == NameBytes(text)
  {
    var parts := Split(text);
    if |parts| > 255 {
      return None;
    }
    var first := parts[0];
    var bytes: Text := [];
    var index := 0;
    var i := 0;
    while i < |first|
      invariant i <= |first| && index == 0 && PrefixScanned(first, i, bytes)
    {
      if IsPrefixChar(first[i]) {
        assert i != PrefixLen(first);
        bytes := bytes + [first[i]];
        i := i + 1;
      } else {
        index := i;
        break;
      }
    }
    assert i == PrefixLen(first) && bytes == first[..i] && index == Dropped(first);
    var segs := Written(text);
    assert segs == [first[index..]] + parts[1..];
    if |parts| == 1 && first[index..] == [] {
      assert segs == [[]];
      assert Fits(segs) && Concat([]) == [];
      assert PathBytes(NamePath(bytes, [])) == bytes + [NULL_NAME];
      return Some(bytes + [NULL_NAME]);
    }
    bytes := bytes + Marker(|parts|);
    r := AppendSegs(bytes, segs);
    if r.Some? {
      assert segs[0] == first[index..] && segs != [[]];
      assert r.value == PathBytes(NamePath(first[..PrefixLen(first)], PadAll(segs)));
    }
  }

  method AppendSegs(bytes: Text, segs: seq<Text>) returns (r: Option<Text>)
    requires 1 <= |segs| <= 255
    ensures r == if Fits(segs) then Some(bytes + Concat(PadAll(segs))) else None
  {
    var acc := bytes;
    var i := 0;
    ghost var done: seq<Text> := [];
    while i < |segs|
      invariant i <= |segs| == |segs|
      invariant forall k :: 0 <= k < i ==> |segs[k]| <= SEG_MAX
      invariant |done| == i && forall k :: 0 <= k < i ==> done[k] == Padded(segs[k])
      invariant acc == bytes + Concat(done)
    {
      var seg := BuildNameSeg(segs[i]);
      if seg.None? {
        return None;
      }
      ConcatSnoc(done, seg.value);
      done := done + [seg.value];
      acc := acc + seg.value;
      i := i + 1;
    }
    assert done == PadAll(segs);
    return Some(acc);
  }

  /** The encoder writes the path a name stands for exactly if the first piece is not
      made of prefix characters alone: then they are written a second time, as a segment. */
  lemma {:induction false} NameBytesExact(text: Text)
    requires Fits(Pieces(text))
    ensures NameBytes(text) == Some(PathBytes(PathOf(text))) <==> !PrefixOnly(text)
  {
    hide Split, PathBytes, PadAll, PrefixLen;
    var first := Split(text)[0];
    var p := PrefixLen(first);
    if PrefixOnly(text) {
      assert Written(text)[0] == first && Pieces(text)[0] == [];
      if NameBytes(text).Some? {
        WrittenTwice(text);
      }
    } else {
      assert first == [] || Dropped(first) == p;
      assert Written(text) == Pieces(text);
    }
  }

  lemma {:induction false} WrittenTwice(text: Text)
    requires Fits(Pieces(text)) && PrefixOnly(text) && Fits(Written(text))
    ensures NameBytes(text) != Some(PathBytes(PathOf(text)))
  {
    var first := Split(text)[0];
    var segs := Written(text);
    assert segs[0] == first && segs != [[]];
    var was := NamePath(first, PadAll(segs));
    assert first[..PrefixLen(first)] == first;
    assert NameBytes(text) == Some(PathBytes(was));
    if |segs| == 1 {
      assert Pieces(text) == [[]];
      ShorterPath(was, NamePath(first, []));
    } else {
      assert Pieces(text)[0] == [] && Pieces(text) != [[]];
      OtherPath(was, NamePath(first, PadAll(Pieces(text))));
    }
  }

  lemma {:induction false} ShorterPath(was: NamePath, should: NamePath)
    requires was.prefix == should.prefix && |was.segs| == 1 && should.segs == []
    requires |was.segs[0]| == SEG_MAX
    ensures PathBytes(was) != PathBytes(should)
  {
    assert |Concat(was.segs)| >= SEG_MAX;
  }

  lemma {:induction false} OtherPath(was: NamePath, should: NamePath)
    requires was.prefix == should.prefix && |was.segs| == |should.segs| && 1 <= |was.segs| <= 255
    requires |was.segs[0]| == |should.segs[0]| == SEG_MAX && was.segs[0][0] != should.segs[0][0]
    ensures PathBytes(was) != PathBytes(should)
  {
    var head := |was.prefix + Marker(|was.segs|)|;
    assert PathBytes(was)[head] == Concat(was.segs)[0] == was.segs[0][0];
    assert PathBytes(should)[head] == Concat(should.segs)[0] == should.segs[0][0];
  }

  // ---- Parsing ----

  datatype ParsedName = ParsedName(path: NamePath, rest: Text)

  datatype Taken = Taken(segs: seq<Text>, rest: Text)

  function TakeSegs(bytes: Text, count: nat): (r: Option<Taken>)
    ensures r.Some? ==> |r.value.segs| == count && |r.value.rest| + 4 * count == |bytes|
  {
    if count == 0 then Some(Taken([], bytes))
    else if |bytes| < SEG_MAX || !ValidSeg(bytes[..SEG_MAX]) then None
    else
      var more := TakeSegs(bytes[SEG_MAX..], count - 1);
      if more.None? then None else Some(Taken([bytes[..SEG_MAX]] + more.value.segs, more.value.rest))
  }

  /** Read the segments after a prefix. */
  function ParseAfter(prefix: Text, rest: Text): (r: Option<ParsedName>)
    ensures r.Some? ==> |r.value.rest| < |rest|
  {
    if rest == [] then None
    else if rest[0] == NULL_NAME then Some(ParsedName(NamePath(prefix, []), rest[1..]))
    else
      var taken :=
        if rest[0] == DUAL_PREFIX then TakeSegs(rest[1..], 2)
        else if rest[0] == MULTI_PREFIX then
          if |rest| < 2 then None else TakeSegs(rest[2..], rest[1])
        else TakeSegs(rest, 1);
      if taken.None? then None
      else Some(ParsedName(NamePath(prefix, taken.value.segs), taken.value.rest))
  }

  function ParseName(bytes: Text): (r: Option<ParsedName>)
    ensures r.Some? ==> |r.value.rest| < |bytes|
  {
    ParseAfter(bytes[..PrefixLen(bytes)], bytes[PrefixLen(bytes)..])
  }

  lemma {:induction false} TakeFirst(seg: Text, bytes: Text, count: nat)
    requires ValidSeg(seg) && TakeSegs(bytes, count).Some?
    ensures TakeSegs(seg + bytes, count + 1) ==
            Some(Taken([seg] + TakeSegs(bytes, count).value.segs, TakeSegs(bytes, count).value.rest))
  {
    assert |seg| == SEG_MAX;
    hide ValidSeg;
    assert (seg + bytes)[..SEG_MAX] == seg && (seg + bytes)[SEG_MAX..] == bytes;
  }

  lemma {:induction false} TakeSegsConcat(segs: seq<Text>, rest: Text)
    requires forall i :: 0 <= i < |segs| ==> ValidSeg(segs[i])
    ensures TakeSegs(Concat(segs) + rest, |segs|) == Some(Taken(segs, rest))
  {
    hide ValidSeg;
    if segs == [] {
      assert Concat(segs) + rest == rest;
    } else {
      TakeSegsConcat(segs[1..], rest);
      hide TakeSegs;
      TakeFirst(segs[0], Concat(segs[1..]) + rest, |segs| - 1);
      assert Concat(segs) + rest == segs[0] + (Concat(segs[1..]) + rest);
      assert [segs[0]] + segs[1..] == segs;
    }
  }

  /** What follows the prefix starts with the marker or with a lead character. */
  lemma {:induction false} AfterPrefix(path: NamePath, rest: Text)
    requires ValidPath(path)
    ensures var tail := Marker(|path.segs|) + Concat(path.segs) + rest;
            tail != [] && !IsPrefixChar(tail[0])
            && (|path.segs| == 1 ==> LeadNameChar(tail[0]))
            && (|path.segs| != 1 ==> tail[0] == Marker(|path.segs|)[0])
  {
    if |path.segs| == 1 {
      var seg := path.segs[0];
      assert ValidSeg(seg);
      assert Concat(path.segs) == seg + Concat(path.segs[1..]);
      assert (Marker(1) + Concat(path.segs) + rest)[0] == seg[0];
    }
  }

  /** The bytes of a path after its prefix. */
  function AfterPrefixBytes(path: NamePath): Text
    requires |path.segs| <= 255
  {
    Marker(|path.segs|) + Concat(path.segs)
  }

  /** The segments are read back after any prefix. */
  lemma {:induction false} SegmentsRoundTrip(path: NamePath, rest: Text)
    requires ValidPath(path)
    ensures ParseAfter(path.prefix, AfterPrefixBytes(path) + rest) == Some(ParsedName(path, rest))
  {
    hide ValidSeg, TakeSegs, Concat;
    AfterPrefix(path, rest);
    TakeSegsConcat(path.segs, rest);
    var n, segments := |path.segs|, Concat(path.segs) + rest;
    var tail := AfterPrefixBytes(path) + rest;
    assert tail == Marker(n) + segments;
    if n == 0 {
      assert tail[1..] == segments;
    } else if n == 1 {
      assert tail == segments;
    } else if n == 2 {
      assert tail[1..] == segments;
    } else {
      assert tail[2..] == segments;
    }
  }

  /** The prefix of a path ends where its segments begin. */
  lemma {:induction false} PrefixEnds(prefix: Text, tail: Text)
    requires forall c :: c in prefix ==> IsPrefixChar(c)
    requires tail != [] && !IsPrefixChar(tail[0])
    ensures PrefixLen(prefix + tail) == |prefix|
  {
    assert (prefix + tail)[|prefix|] == tail[0];
    assert forall i :: 0 <= i < |prefix| ==> (prefix + tail)[i] in prefix;
  }

  lemma {:induction false} ParsedAfterPrefix(prefix: Text, tail: Text)
    requires PrefixLen(prefix + tail) == |prefix|
    ensures ParseName(prefix + tail) == ParseAfter(prefix, tail)
  {
    hide ParseAfter, PrefixLen;
    assert (prefix + tail)[..|prefix|] == prefix && (prefix + tail)[|prefix|..] == tail;
  }

  lemma {:induction false} PathBytesSplit(path: NamePath, rest: Text)
    requires |path.segs| <= 255
    ensures PathBytes(path) + rest == path.prefix + (AfterPrefixBytes(path) + rest)
  {
    hide Marker, Concat;
  }

  /** A valid path is read back from its bytes, and nothing after them is touched. */
  lemma {:induction false} PathRoundTrip(path: NamePath, rest: Text)
    requires ValidPath(path)
    ensures ParseName(PathBytes(path) + rest) == Some(ParsedName(path, rest))
  {
    hide ValidSeg, TakeSegs, Concat, PrefixLen, ParseAfter, ParseName, PathBytes, IsPrefixChar;
    PathBytesSplit(path, rest);
    AfterPrefix(path, rest);
    SegmentsRoundTrip(path, rest);
    PrefixEnds(path.prefix, AfterPrefixBytes(path) + rest);
    ParsedAfterPrefix(path.prefix, AfterPrefixBytes(path) + rest);
  }
}
