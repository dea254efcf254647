/** The texts of a delivery: which are blank, and which spell a signature. */
module WebhookForms {
  import opened Orders
  import opened ByteStrings
  import opened WebhookMessages
  import opened Webhook

  // -------- blank text --------

  /** The code points with the Unicode property White_Space. */
  predicate WhiteSpace(c: nat) {
    || 0x09 <= c <= 0x0D || c == 0x20 || c == 0x85 || c == 0xA0 || c == 0x1680 || 0x2000 <= c <= 0x200A
    || c == 0x2028 || c == 0x2029 || c == 0x202F || c == 0x205F || c == 0x3000
  }

  /** The UTF-8 form of a code point below 0x10000. */
  function Utf8(c: nat): Bytes
    requires c < 0x10000
  {
    if c < 0x80 then [c]
    else if c < 0x800 then [0xC0 + c / 64, 0x80 + c % 64]
    else [0xE0 + c / 4096, 0x80 + c / 64 % 64, 0x80 + c % 64]
  }

  predicate AllWhite(text: seq<nat>) { forall c :: c in text ==> WhiteSpace(c) }

  function Encoded(text: seq<nat>): Bytes
    requires AllWhite(text)
  {
    if text == [] then []
    else
      assert text[0] in text;
      Utf8(text[0]) + Encoded(text[1..])
  }

  /** The text consists of white space only. */
  ghost predicate SpellsWhite(b: Bytes) { exists text: seq<nat> :: AllWhite(text) && b == Encoded(text) }

  lemma BlankBefore(c: nat, rest: Bytes)
    requires WhiteSpace(c) && Blank(rest)
    ensures Blank(Utf8(c) + rest)
  {
    var b, u := Utf8(c) + rest, Utf8(c);
    assert b[|u|..] == rest && b[..|u|] == u;
    if c < 0x80 {
      assert b[0] == c;
    } else if c < 0x800 {
      assert b[0] == u[0] && b[1] == u[1];
    } else {
      assert b[0] == u[0] && b[1] == u[1] && b[2] == u[2];
      assert WideSpace(u[0], u[1], u[2]);
    }
  }

  lemma {:induction false} EncodedIsBlank(text: seq<nat>)
    requires AllWhite(text)
    ensures Blank(Encoded(text))
    decreases |text|
  {
    if text != [] {
      EncodedIsBlank(text[1..]);
      BlankBefore(text[0], Encoded(text[1..]));
    }
  }

  lemma WideDecodes(x: Byte, y: Byte, z: Byte) returns (c: nat)
    requires WideSpace(x, y, z)
    ensures WhiteSpace(c) && Utf8(c) == [x, y, z]
  {
    c := (x - 0xE0) * 4096 + (y - 0x80) * 64 + (z - 0x80);
  }

  lemma WhiteBefore(c: nat, b: Bytes)
    requires WhiteSpace(c) && |Utf8(c)| <= |b| && b[..|Utf8(c)|] == Utf8(c) && SpellsWhite(b[|Utf8(c)|..])
    ensures SpellsWhite(b)
  {
    var text: seq<nat> :| AllWhite(text) && b[|Utf8(c)|..] == Encoded(text);
    var longer := [c] + text;
    assert longer[1..] == text && AllWhite(longer);
    assert Encoded(longer) == Utf8(c) + Encoded(text) == b;
  }

  lemma {:induction false} BlankSpellsWhite(b: Bytes)
    requires Blank(b)
    ensures SpellsWhite(b)
    decreases |b|
  {
    if b == [] {
      assert Encoded([]) == b;
    } else if (9 <= b[0] <= 13 || b[0] == 32) && Blank(b[1..]) {
      BlankSpellsWhite(b[1..]);
      WhiteBefore(b[0], b);
    } else if |b| >= 2 && b[0] == 0xC2 && (b[1] == 0x85 || b[1] == 0xA0) && Blank(b[2..]) {
      BlankSpellsWhite(b[2..]);
      assert Utf8(b[1]) == [b[0], b[1]];
      WhiteBefore(b[1], b);
    } else {
      BlankSpellsWhite(b[3..]);
      var c := WideDecodes(b[0], b[1], b[2]);
      assert b[..3] == Utf8(c);
      WhiteBefore(c, b);
    }
  }

  /** Blank bytes are exactly the UTF-8 texts of white space. */
  lemma BlankExactly(b: Bytes)
    ensures Blank(b) <==> SpellsWhite(b)
  {
    if Blank(b) {
      BlankSpellsWhite(b);
    }
    if SpellsWhite(b) {
      var text: seq<nat> :| AllWhite(text) && b == Encoded(text);
      EncodedIsBlank(text);
    }
  }

  // -------- signatures --------

  /** The tag in hexadecimal of either letter case. */
  ghost predicate SpellsTag(text: Bytes, tag: Bytes) { |tag| == 32 && FoldCase(text) == EncodeHex(tag) }

  lemma TextExactly(text: Bytes, tag: Bytes)
    ensures DecodeHex(text) == Some(tag) <==> SpellsTag(text, tag)
  {
    EncodedLength(tag);
    assert |FoldCase(text)| == |text|;
    if |text| == 64 {
      DecodesExactly(text, tag);
      assert DecodePairs(text) == Some(tag) ==> |tag| == 32;
    }
  }

  lemma HexIsNotPrefix(text: Bytes, tag: Bytes)
    requires SpellsTag(text, tag)
    ensures text != [] && text[0] != SIGNATURE_PREFIX[0]
  {
    EncodedLength(tag);
    assert |FoldCase(text)| == |text| == 64;
    assert FoldCase(text)[0] == FoldDigit(text[0]) == LowerDigit(tag[0] / 16);
  }

  /** What is read from a signature is `tag` exactly if it spells it, bare or after `sha256=`. */
  lemma SignatureExactly(signature: Bytes, tag: Bytes)
    ensures DecodeHex(Supplied(signature)) == Some(tag) <==>
            || SpellsTag(signature, tag)
            || (SIGNATURE_PREFIX <= signature && SpellsTag(signature[|SIGNATURE_PREFIX|..], tag))
  {
    TextExactly(Supplied(signature), tag);
    if SpellsTag(signature, tag) {
      HexIsNotPrefix(signature, tag);
    }
  }
}
