/** The character code forwarded for a text-input event. The engine delivers
    the typed text as UTF-8 bytes; the handler as written forwards the first
    byte read through a signed `char`, while the toolkit expects the typed
    character's code point. Both readings are defined here: the input model's
    handler uses the first, its corrected counterpart the second. */
module Utf8 {
  import opened Common

  type Byte = x: int | 0 <= x < 0x100

  /** A Unicode scalar value: a code point that is not a surrogate. */
  predicate IsScalar(c: int) {
    0 <= c <= 0x10FFFF && !(0xD800 <= c <= 0xDFFF)
  }

  /** The UTF-8 encoding of one scalar value (section 3 of RFC 3629). */
  function Encode(c: int): (bs: seq<Byte>)
    requires IsScalar(c)
    ensures 1 <= |bs| <= 4
    ensures (|bs| == 1) <==> c < 0x80
  {
    if c < 0x80 then [c]
    else if c < 0x800 then [0xC0 + c / 0x40, 0x80 + c % 0x40]
    else if c < 0x10000 then [0xE0 + c / 0x1000, 0x80 + (c / 0x40) % 0x40, 0x80 + c % 0x40]
    else [0xF0 + c / 0x40000, 0x80 + (c / 0x1000) % 0x40, 0x80 + (c / 0x40) % 0x40, 0x80 + c % 0x40]
  }

  predicate IsContinuation(b: Byte) {
    0x80 <= b < 0xC0
  }

  /** The first character of `text` and the number of bytes it takes, when
      `text` starts with a well-formed (shortest-form, non-surrogate) encoding. */
  function DecodeFirst(text: seq<Byte>): Option<(int, nat)> {
    if |text| == 0 then None
    else
      var b0 := text[0] as int;
      if b0 < 0x80 then Some((b0, 1))
      else if 0xC0 <= b0 < 0xE0 then
        if |text| < 2 || !IsContinuation(text[1]) then None
        else
          var c := (b0 - 0xC0) * 0x40 + (text[1] as int - 0x80);
          if c < 0x80 then None else Some((c, 2))
      else if 0xE0 <= b0 < 0xF0 then
        if |text| < 3 || !IsContinuation(text[1]) || !IsContinuation(text[2]) then None
        else
          var c := (b0 - 0xE0) * 0x1000 + (text[1] as int - 0x80) * 0x40 + (text[2] as int - 0x80);
          if c < 0x800 || (0xD800 <= c <= 0xDFFF) then None else Some((c, 3))
      else if 0xF0 <= b0 < 0xF8 then
        if |text| < 4 || !IsContinuation(text[1]) || !IsContinuation(text[2]) || !IsContinuation(text[3]) then None
        else
          var c := (b0 - 0xF0) * 0x40000 + (text[1] as int - 0x80) * 0x1000 + (text[2] as int - 0x80) * 0x40 + (text[3] as int - 0x80);
          if c < 0x10000 || c > 0x10FFFF then None else Some((c, 4))
      else None
  }

  /** Splitting a value into 6-bit groups, most significant first. */
  lemma SixBitGroups(c: int)
    requires 0 <= c
    ensures c == (c / 0x40) * 0x40 + c % 0x40
    ensures c / 0x40 == (c / 0x1000) * 0x40 + (c / 0x40) % 0x40
    ensures c / 0x1000 == (c / 0x40000) * 0x40 + (c / 0x1000) % 0x40
  {
    var q := c / 0x40;
    assert q / 0x40 == c / 0x1000;
    var q2 := c / 0x1000;
    assert q2 / 0x40 == c / 0x40000;
  }

  /** Decoding reads back the first encoded character, whatever follows it. */
  lemma DecodeEncode(c: int, rest: seq<Byte>)
    requires IsScalar(c)
    ensures DecodeFirst(Encode(c) + rest) == Some((c, |Encode(c)|))
  {
    if c < 0x80 {
      assert (Encode(c) + rest)[0] == c;
    } else if c < 0x800 {
      DecodeTwo(c, rest);
    } else if c < 0x10000 {
      DecodeThree(c, rest);
    } else {
      DecodeFour(c, rest);
    }
  }

  /** The two-byte case of `DecodeEncode`. */
  lemma DecodeTwo(c: int, rest: seq<Byte>)
    requires 0x80 <= c < 0x800
    ensures DecodeFirst(Encode(c) + rest) == Some((c, 2))
  {
    var text := Encode(c) + rest;
    assert text[0] == 0xC0 + c / 0x40 && text[1] == 0x80 + c % 0x40;
  }

  /** The three-byte case. */
  lemma DecodeThree(c: int, rest: seq<Byte>)
    requires 0x800 <= c < 0x10000 && !(0xD800 <= c <= 0xDFFF)
    ensures DecodeFirst(Encode(c) + rest) == Some((c, 3))
  {
    SixBitGroups(c);
    var text := Encode(c) + rest;
    var g0, g1 := c % 0x40, (c / 0x40) % 0x40;
    assert text[0] == 0xE0 + c / 0x1000 && text[1] == 0x80 + g1 && text[2] == 0x80 + g0;
    assert c == (c / 0x1000) * 0x1000 + g1 * 0x40 + g0;
  }

  /** The four-byte case. */
  lemma DecodeFour(c: int, rest: seq<Byte>)
    requires 0x10000 <= c <= 0x10FFFF
    ensures DecodeFirst(Encode(c) + rest) == Some((c, 4))
  {
    SixBitGroups(c);
    var text := Encode(c) + rest;
    var g0, g1, g2 := c % 0x40, (c / 0x40) % 0x40, (c / 0x1000) % 0x40;
    assert text[0] == 0xF0 + c / 0x40000 && text[1] == 0x80 + g2;
    assert text[2] == 0x80 + g1 && text[3] == 0x80 + g0;
    assert c == (c / 0x40000) * 0x40000 + g2 * 0x1000 + g1 * 0x40 + g0;
  }

  /** A two-byte sequence decodes to the value it encodes. */
  lemma EncodeDecode2(b0: int, x1: int, c: int)
    requires 0xC0 <= b0 < 0xE0 && 0 <= x1 < 0x40
    requires c == (b0 - 0xC0) * 0x40 + x1 && 0x80 <= c
    ensures c < 0x800 && Encode(c) == [b0, 0x80 + x1]
  {
    assert c / 0x40 == b0 - 0xC0 && c % 0x40 == x1;
  }

  /** A three-byte sequence decodes to the value it encodes. */
  lemma EncodeDecode3(b0: int, x1: int, x2: int, c: int)
    requires 0xE0 <= b0 < 0xF0 && 0 <= x1 < 0x40 && 0 <= x2 < 0x40
    requires c == (b0 - 0xE0) * 0x1000 + x1 * 0x40 + x2
    requires 0x800 <= c && !(0xD800 <= c <= 0xDFFF)
    ensures c < 0x10000 && Encode(c) == [b0, 0x80 + x1, 0x80 + x2]
  {
    assert c / 0x40 == (b0 - 0xE0) * 0x40 + x1 && c % 0x40 == x2;
    assert c / 0x1000 == b0 - 0xE0 && (c / 0x40) % 0x40 == x1;
  }

  /** A four-byte sequence decodes to the value it encodes. */
  lemma EncodeDecode4(b0: int, x1: int, x2: int, x3: int, c: int)
    requires 0xF0 <= b0 < 0xF8 && 0 <= x1 < 0x40 && 0 <= x2 < 0x40 && 0 <= x3 < 0x40
    requires c == (b0 - 0xF0) * 0x40000 + x1 * 0x1000 + x2 * 0x40 + x3
    requires 0x10000 <= c <= 0x10FFFF
    ensures Encode(c) == [b0, 0x80 + x1, 0x80 + x2, 0x80 + x3]
  {
    assert c / 0x40 == (b0 - 0xF0) * 0x1000 + x1 * 0x40 + x2 && c % 0x40 == x3;
    assert c / 0x1000 == (b0 - 0xF0) * 0x40 + x1 && (c / 0x40) % 0x40 == x2;
    assert c / 0x40000 == b0 - 0xF0 && (c / 0x1000) % 0x40 == x1;
  }

  /** ... and whatever decodes is a scalar value whose encoding is exactly the
      bytes consumed. */
  lemma EncodeDecode(text: seq<Byte>, c: int, n: nat)
    requires DecodeFirst(text) == Some((c, n))
    ensures IsScalar(c) && n <= |text| && text[..n] == Encode(c)
  {
    var b0 := text[0] as int;
    if b0 < 0x80 {
    } else if b0 < 0xE0 {
      EncodeDecode2(b0, text[1] as int - 0x80, c);
      assert text[..n] == [b0, text[1]];
    } else if b0 < 0xF0 {
      EncodeDecode3(b0, text[1] as int - 0x80, text[2] as int - 0x80, c);
      assert text[..n] == [b0, text[1], text[2]];
    } else {
      EncodeDecode4(b0, text[1] as int - 0x80, text[2] as int - 0x80, text[3] as int - 0x80, c);
      assert text[..n] == [b0, text[1], text[2], text[3]];
    }
  }

  /** The key the text-input handler forwards as written: the first byte of
      the text read through a signed `char`, or the terminating NUL (0) of an
      empty text. */
  function FirstByteKey(text: seq<Byte>): (k: int)
    ensures |text| == 0 ==> k == 0
    ensures |text| > 0 ==> -0x80 <= k < 0x80 && (k - text[0]) % 0x100 == 0
  {
    if |text| == 0 then 0
    else if text[0] < 0x80 then text[0] as int
    else text[0] as int - 0x100
  }

  /** U+FFFD, the usual stand-in for bytes that are not well-formed UTF-8. */
  const REPLACEMENT_CHARACTER: int := 0xFFFD

  /** The key the handler evidently means to forward: the code point of the
      first typed character (0 for an empty text). */
  function FirstCharKey(text: seq<Byte>): (k: int)
    ensures |text| == 0 ==> k == 0
    ensures |text| > 0 ==> IsScalar(k)
  {
    if |text| == 0 then 0
    else match DecodeFirst(text)
      case Some((c, n)) => EncodeDecode(text, c, n); c
      case None => REPLACEMENT_CHARACTER
  }

  /** The corrected key is the code point of the first typed character. */
  lemma FirstCharKeyOfEncoded(c: int, rest: seq<Byte>)
    requires IsScalar(c)
    ensures FirstCharKey(Encode(c) + rest) == c
  {
    DecodeEncode(c, rest);
  }

  /** Both readings agree on ASCII text ... */
  lemma FirstByteKeyAsciiAgrees(c: int, rest: seq<Byte>)
    requires 0 <= c < 0x80
    ensures FirstByteKey(Encode(c) + rest) == c == FirstCharKey(Encode(c) + rest)
  {
    DecodeEncode(c, rest);
  }

  /** ... but as written, every character beyond ASCII is forwarded as a
      negative key, which is never its code point. */
  lemma FirstByteKeyNegativeBeyondAscii(c: int, rest: seq<Byte>)
    requires IsScalar(c) && 0x80 <= c
    ensures FirstByteKey(Encode(c) + rest) < 0
    ensures FirstByteKey(Encode(c) + rest) != FirstCharKey(Encode(c) + rest)
  {
    FirstCharKeyOfEncoded(c, rest);
  }

  /** A concrete case: typing "é" (U+00E9, bytes C3 A9) forwards -61 instead of 233. */
  lemma FirstByteKeyMisreadsEAcute()
    ensures Encode(0xE9) == [0xC3, 0xA9]
    ensures FirstByteKey([0xC3, 0xA9]) == -61
    ensures FirstCharKey([0xC3, 0xA9]) == 0xE9
  {
    FirstCharKeyOfEncoded(0xE9, []);
    assert Encode(0xE9) + [] == [0xC3, 0xA9];
  }
}
