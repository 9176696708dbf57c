/** Package lengths of the ACPI Machine Language (ACPI Specification 6.4, section 20.2.4). */
module AmlPkgLength {
  import opened Addresses
  import opened Bytes

  const PKG_LIMIT: nat := 0x1000_0000

  /** The largest value that an encoding of `width` bytes can hold. */
  function Capacity(width: nat): nat {
    match width
    case 1 => 0x3F
    case 2 => 0xFFF
    case 3 => 0xF_FFFF
    case _ => 0xFFF_FFFF
  }

  /** Number of bytes the encoder uses for a payload of `length` bytes. */
  function WidthFor(length: nat): (w: nat)
    ensures 1 <= w <= 4
  {
    if length + 1 < 0x40 then 1
    else if length + 2 < 0x1000 then 2
    else if length + 3 < 0x10_0000 then 3
    else 4
  }

  /** The number that is written for a payload of `length` bytes. */
  function Total(length: nat, includeSelf: bool): nat {
    if includeSelf then length + WidthFor(length) else length
  }

  /** The lead byte followed by ever higher bytes of `n`; narrowing drops what is beyond 28 bits. */
  function Packed(n: nat, width: nat): (b: seq<Byte>)
    requires 1 <= width <= 4
    ensures |b| == width
  {
    var low: Byte := n % 16;
    var mid: Byte := (n / 0x10) % 256;
    var high: Byte := (n / 0x1000) % 256;
    var top: Byte := (n / 0x10_0000) % 256;
    match width
    case 1 => [n % 256]
    case 2 => [0x40 + low, mid]
    case 3 => [0x80 + low, mid, high]
    case _ => [0xC0 + low, mid, high, top]
  }

  function BuildPkgLength(length: nat, includeSelf: bool): (b: seq<Byte>)
    ensures |b| == WidthFor(length)
  {
    Packed(Total(length, includeSelf), WidthFor(length))
  }

  datatype Decoded = Decoded(value: nat, width: nat)

  /** The two high bits of the lead byte give the number of bytes that follow; with
      none, its low six bits are the length, else its low four bits are the lowest
      nibble and each following byte adds eight higher bits. */
  function DecodePkgLength(b: seq<Byte>): Option<Decoded> {
    if b == [] || |b| <= b[0] / 64 then None
    else if b[0] < 0x40 then Some(Decoded(b[0] % 64, 1))
    else Some(Decoded(b[0] % 16 + Higher(b, b[0] / 64), 1 + b[0] / 64))
  }

  function Higher(b: seq<Byte>, more: nat): nat
    requires 1 <= more <= 3 && more < |b|
  {
    var mid := b[1] as int * 0x10;
    if more == 1 then mid
    else
      var high := mid + b[2] as int * 0x1000;
      if more == 2 then high else high + b[3] as int * 0x10_0000
  }

  /** What 28 bits keep of a number, put together again. */
  lemma {:induction false} Digits(n: nat)
    ensures n % 16 + ((n / 0x10) % 256) * 0x10 + ((n / 0x1000) % 256) * 0x1000
            + ((n / 0x10_0000) % 256) * 0x10_0000 == n % PKG_LIMIT
    ensures n < 0x1000 ==> (n / 0x1000) % 256 == 0
    ensures n < 0x10_0000 ==> (n / 0x10_0000) % 256 == 0
    ensures n % PKG_LIMIT == n <==> n < PKG_LIMIT
  {
    assert (n / 0x10) / 256 == n / 0x1000;
    assert (n / 0x1000) / 256 == n / 0x10_0000;
    assert (n / 0x10_0000) / 256 == n / PKG_LIMIT;
  }

  /** What the decoder makes of a lead byte and the bytes behind it. */
  lemma {:induction false} LeadDecodes(bs: seq<Byte>, more: nat, low: nat)
    requires 1 <= more <= 3 && more < |bs| && low < 16 && bs[0] == 64 * more + low
    ensures DecodePkgLength(bs) == Some(Decoded(low + Higher(bs, more), 1 + more))
  {
    hide Higher;
    assert bs[0] / 64 == more && bs[0] % 16 == low;
  }

  lemma {:induction false} PackedDecodes(n: nat, width: nat, rest: seq<Byte>)
    requires 1 <= width <= 4
    requires width < 4 ==> n <= Capacity(width)
    ensures DecodePkgLength(Packed(n, width) + rest) == Some(Decoded(n % PKG_LIMIT, width))
  {
    hide DecodePkgLength;
    var bs := Packed(n, width) + rest;
    assert forall i {:trigger bs[i]} :: 0 <= i < width ==> bs[i] == Packed(n, width)[i];
    Digits(n);
    if width == 1 {
      assert bs[0] == n;
      ShortDecodes(bs);
    } else {
      LeadDecodes(bs, width - 1, n % 16);
    }
  }

  lemma {:induction false} ShortDecodes(bs: seq<Byte>)
    requires bs != [] && bs[0] < 0x40
    ensures DecodePkgLength(bs) == Some(Decoded(bs[0], 1))
  {
  }

  /** Decoding inverts encoding, whatever follows, exactly for the lengths that fit in 28 bits. */
  lemma {:induction false} PkgLengthRoundTrip(length: nat, includeSelf: bool, rest: seq<Byte>)
    ensures DecodePkgLength(BuildPkgLength(length, includeSelf) + rest)
            == Some(Decoded(Total(length, includeSelf), WidthFor(length)))
            <==> Total(length, includeSelf) < PKG_LIMIT
  {
    PackedDecodes(Total(length, includeSelf), WidthFor(length), rest);
    Digits(Total(length, includeSelf));
  }

  /** The encoder chooses the narrowest encoding that holds the payload and itself. */
  lemma {:induction false} WidthIsLeast(length: nat, width: nat)
    requires 1 <= width <= 4 && length + width <= Capacity(width)
    ensures Total(length, true) <= Capacity(WidthFor(length)) && WidthFor(length) <= width
  {
  }
}
