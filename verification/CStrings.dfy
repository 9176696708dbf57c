/** Texts that a zero byte closes. */
module CStrings {
  import opened Addresses
  import opened Bytes

  type Text = seq<Byte>

  /** A value read from the front of some bytes, and the bytes that follow it. */
  datatype Read<T> = Read(value: T, rest: seq<Byte>)

  /** A text up to its zero byte. */
  function ReadText(bs: seq<Byte>): (r: Option<Read<Text>>)
    ensures r.Some? ==> |r.value.rest| < |bs|
  {
    if bs == [] then None
    else if bs[0] == 0 then Some(Read([], bs[1..]))
    else
      var more := ReadText(bs[1..]);
      if more.None? then None else Some(Read([bs[0]] + more.value.value, more.value.rest))
  }

  /** A text without a zero byte is read back, and what follows it is left alone. */
  lemma {:induction false} ReadTextBack(text: Text, rest: seq<Byte>)
    requires 0 !in text
    ensures ReadText(text + [0] + rest) == Some(Read(text, rest))
  {
    var bs := text + [0] + rest;
    if text == [] {
      assert bs[1..] == rest;
    } else {
      ReadTextBack(text[1..], rest);
      assert bs[1..] == text[1..] + [0] + rest;
      assert [text[0]] + text[1..] == text;
    }
  }
}
