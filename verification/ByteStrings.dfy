/** Bytes and their hexadecimal form. */
module ByteStrings {
  import opened Orders

  type Byte = x: int | 0 <= x < 256
  type Bytes = seq<Byte>

  function HexDigit(c: Byte): Option<Byte> {
    if 48 <= c <= 57 then Some(c - 48)
    else if 97 <= c <= 102 then Some(c - 87)
    else if 65 <= c <= 70 then Some(c - 55)
    else None
  }

  function DecodePairs(hex: Bytes): Option<Bytes>
    requires |hex| % 2 == 0
    decreases |hex|
  {
    if hex == [] then Some([])
    else match (HexDigit(hex[0]), HexDigit(hex[1]), DecodePairs(hex[2..]))
      case (Some(hi), Some(lo), Some(rest)) => Some([(hi * 16 + lo) % 256] + rest)
      case _ => None
  }

  function DecodeHex(hex: Bytes): Option<Bytes> {
    if |hex| != 64 then None else DecodePairs(hex)
  }

  function LowerDigit(d: Byte): Byte requires d < 16 { if d < 10 then 48 + d else 87 + d }

  function EncodeHex(tag: Bytes): Bytes
    decreases |tag|
  {
    if tag == [] then [] else [LowerDigit(tag[0] / 16), LowerDigit(tag[0] % 16)] + EncodeHex(tag[1..])
  }

  lemma DigitRoundTrip(d: Byte)
    requires d < 16
    ensures HexDigit(LowerDigit(d)) == Some(d)
  {
  }

  lemma {:induction false} HexRoundTrip(tag: Bytes)
    ensures |EncodeHex(tag)| == 2 * |tag| && DecodePairs(EncodeHex(tag)) == Some(tag)
    decreases |tag|
  {
    if tag != [] {
      var hex, rest := EncodeHex(tag), EncodeHex(tag[1..]);
      var hi, lo := tag[0] / 16, tag[0] % 16;
      HexRoundTrip(tag[1..]);
      DigitRoundTrip(hi);
      DigitRoundTrip(lo);
      assert hex[0] == LowerDigit(hi) && hex[1] == LowerDigit(lo) && hex[2..] == rest;
      assert (hi * 16 + lo) % 256 == tag[0];
      assert [tag[0]] + tag[1..] == tag;
    }
  }

  /** Letters of hexadecimal digits in lower case. */
  function FoldDigit(c: Byte): Byte { if 65 <= c <= 70 then c + 32 else c }

  function FoldCase(hex: Bytes): Bytes { seq(|hex|, i requires 0 <= i < |hex| => FoldDigit(hex[i])) }

  lemma DigitExactly(c: Byte, d: Byte)
    requires d < 16
    ensures HexDigit(c) == Some(d) <==> FoldDigit(c) == LowerDigit(d)
  {
  }

  lemma {:induction false} EncodedLength(tag: Bytes)
    ensures |EncodeHex(tag)| == 2 * |tag|
    decreases |tag|
  {
    if tag != [] {
      EncodedLength(tag[1..]);
    }
  }

  /** Decoding yields `tag` exactly from its hexadecimal form in either letter case. */
  lemma {:induction false} DecodesExactly(hex: Bytes, tag: Bytes)
    requires |hex| % 2 == 0
    ensures DecodePairs(hex) == Some(tag) <==> FoldCase(hex) == EncodeHex(tag)
    decreases |hex|
  {
    EncodedLength(tag);
    if hex == [] {
      assert FoldCase(hex) == [];
    } else if tag == [] {
      assert DecodePairs(hex) != Some([]);
    } else {
      DecodesExactly(hex[2..], tag[1..]);
      PairExactly(hex, tag);
    }
  }

  lemma PairExactly(hex: Bytes, tag: Bytes)
    requires |hex| % 2 == 0 && hex != [] && tag != []
    requires DecodePairs(hex[2..]) == Some(tag[1..]) <==> FoldCase(hex[2..]) == EncodeHex(tag[1..])
    ensures DecodePairs(hex) == Some(tag) <==> FoldCase(hex) == EncodeHex(tag)
  {
    DigitExactly(hex[0], tag[0] / 16);
    DigitExactly(hex[1], tag[0] % 16);
    PairEncodes(hex, tag);
    PairDecodes(hex, tag);
  }

  lemma PairEncodes(hex: Bytes, tag: Bytes)
    requires |hex| >= 2 && tag != []
    ensures FoldCase(hex) == EncodeHex(tag) <==>
            && FoldDigit(hex[0]) == LowerDigit(tag[0] / 16) && FoldDigit(hex[1]) == LowerDigit(tag[0] % 16)
            && FoldCase(hex[2..]) == EncodeHex(tag[1..])
  {
    var rest := EncodeHex(tag[1..]);
    assert FoldCase(hex) == [FoldDigit(hex[0]), FoldDigit(hex[1])] + FoldCase(hex[2..]);
    assert EncodeHex(tag) == [LowerDigit(tag[0] / 16), LowerDigit(tag[0] % 16)] + rest;
    assert FoldCase(hex)[2..] == FoldCase(hex[2..]) && EncodeHex(tag)[2..] == rest;
  }

  lemma Nibbles(hi: int, lo: int, x: int)
    requires 0 <= hi < 16 && 0 <= lo < 16
    ensures (hi * 16 + lo) % 256 == hi * 16 + lo
    ensures hi * 16 + lo == x <==> hi == x / 16 && lo == x % 16
  {
  }

  lemma ConsExactly(x: Byte, rest: Bytes, tag: Bytes)
    requires tag != []
    ensures [x] + rest == tag <==> x == tag[0] && rest == tag[1..]
  {
    assert tag == [tag[0]] + tag[1..] && ([x] + rest)[1..] == rest;
  }

  lemma PairDecodes(hex: Bytes, tag: Bytes)
    requires |hex| % 2 == 0 && hex != [] && tag != []
    ensures DecodePairs(hex) == Some(tag) <==>
            && HexDigit(hex[0]) == Some(tag[0] / 16) && HexDigit(hex[1]) == Some(tag[0] % 16)
            && DecodePairs(hex[2..]) == Some(tag[1..])
  {
    var rest := DecodePairs(hex[2..]);
    if HexDigit(hex[0]).Some? && HexDigit(hex[1]).Some? && rest.Some? {
      var hi, lo := HexDigit(hex[0]).value, HexDigit(hex[1]).value;
      Nibbles(hi, lo, tag[0]);
      ConsExactly(hi * 16 + lo, rest.value, tag);
    }
  }
}
