/** UTF-8 and percent encoding of index terms.  A `char` is a Unicode scalar value. */
module Uri {
  import opened Common
  import opened Hexadecimal

  /** The UTF-8 form of one scalar value (section 3 of RFC 3629). */
  function Utf8Char(c: char): (bytes: seq<Byte>)
    ensures 1 <= |bytes| == Utf8Length(bytes[0]) <= 4
  {
    var n := c as int;
    if n < 0x80 then [n]
    else if n < 0x800 then [0xC0 + n / 0x40, 0x80 + n % 0x40]
    else if n < 0x10000 then [0xE0 + n / 0x1000, 0x80 + n / 0x40 % 0x40, 0x80 + n % 0x40]
    else [0xF0 + n / 0x40000, 0x80 + n / 0x1000 % 0x40, 0x80 + n / 0x40 % 0x40, 0x80 + n % 0x40]
  }

  /** The length of a UTF-8 sequence, read off its first byte. */
  function Utf8Length(first: Byte): nat {
    if first < 0x80 then 1 else if first < 0xE0 then 2 else if first < 0xF0 then 3 else 4
  }

  function Utf8(text: string): seq<Byte> {
    if text == "" then [] else Utf8Char(text[0]) + Utf8(text[1..])
  }

  /** The length of a text in bytes. */
  function ByteLength(text: string): nat {
    |Utf8(text)|
  }

  predicate Unreserved(b: Byte) {
    || ('0' as int <= b <= '9' as int)
    || ('A' as int <= b <= 'Z' as int)
    || ('a' as int <= b <= 'z' as int)
    || (b < 0x80 && b as char in "-_.!~*'()")
  }

  /** One encoded byte: itself when unreserved, `%XX` otherwise. */
  function EncodeByte(b: Byte): (encoded: string)
    ensures |encoded| == if Unreserved(b) then 1 else 3
    ensures encoded[0] == '%' <==> !Unreserved(b)
  {
    if Unreserved(b) then [b as char] else ['%', UpperHexDigit(b / 16), UpperHexDigit(b % 16)]
  }

  function EncodeBytes(bytes: seq<Byte>): string {
    if bytes == [] then "" else EncodeByte(bytes[0]) + EncodeBytes(bytes[1..])
  }

  function Encode(text: string): string {
    EncodeBytes(Utf8(text))
  }

  /** The encoder, byte by byte into a buffer. */
  method EncodeUriComponent(value: string) returns (encoded: string)
    ensures encoded == Encode(value)
  {
    encoded := "";
    var bytes := Utf8(value);
    for i := 0 to |bytes|
      invariant encoded == EncodeBytes(bytes[..i])
    {
      var byte := bytes[i];
      EncodeBytesAppend(bytes[..i], [byte]);
      assert bytes[..i + 1] == bytes[..i] + [byte];
      if Unreserved(byte) {
        encoded := encoded + [byte as char];
      } else {
        encoded := encoded + ['%', UpperHexDigit(byte / 16), UpperHexDigit(byte % 16)];
      }
    }
    assert bytes[..|bytes|] == bytes;
  }

  // ---------- both encodings are prefix codes ----------

  lemma {:induction false} Utf8Append(a: string, b: string)
    ensures Utf8(a + b) == Utf8(a) + Utf8(b)
  {
    if a == "" {
      assert a + b == b;
    } else {
      assert (a + b)[1..] == a[1..] + b;
      Utf8Append(a[1..], b);
    }
  }

  lemma {:induction false} EncodeBytesAppend(a: seq<Byte>, b: seq<Byte>)
    ensures EncodeBytes(a + b) == EncodeBytes(a) + EncodeBytes(b)
  {
    if a == [] {
      assert a + b == b;
    } else {
      assert (a + b)[1..] == a[1..] + b;
      EncodeBytesAppend(a[1..], b);
    }
  }

  lemma EncodeAppend(a: string, b: string)
    ensures Encode(a + b) == Encode(a) + Encode(b)
  {
    Utf8Append(a, b);
    EncodeBytesAppend(Utf8(a), Utf8(b));
  }

  lemma HexDigitInjective(m: nat, n: nat)
    requires m < 16 && n < 16 && UpperHexDigit(m) == UpperHexDigit(n)
    ensures m == n
  {
  }

  lemma EncodeByteIsPrefixCode(a: Byte, b: Byte, x: string, y: string)
    requires EncodeByte(a) + x <= EncodeByte(b) + y
    ensures a == b && x <= y
  {
    var l, r := EncodeByte(a) + x, EncodeByte(b) + y;
    assert l[0] == r[0];
    if !Unreserved(a) {
      assert l[1] == r[1] && l[2] == r[2];
      HexDigitInjective(a / 16, b / 16);
      HexDigitInjective(a % 16, b % 16);
    }
    assert x == l[|EncodeByte(a)|..] && y == r[|EncodeByte(a)|..];
  }

  lemma {:induction false} EncodeBytesIsPrefixCode(a: seq<Byte>, b: seq<Byte>)
    requires EncodeBytes(a) <= EncodeBytes(b)
    ensures a <= b
  {
    if a != [] {
      EncodeByteIsPrefixCode(a[0], b[0], EncodeBytes(a[1..]), EncodeBytes(b[1..]));
      EncodeBytesIsPrefixCode(a[1..], b[1..]);
    }
  }

  /** The scalar value of a UTF-8 sequence. */
  function Utf8Value(bytes: seq<int>): int
    requires 1 <= |bytes| <= 4
  {
    if |bytes| == 1 then bytes[0]
    else if |bytes| == 2 then (bytes[0] - 0xC0) * 0x40 + (bytes[1] - 0x80)
    else if |bytes| == 3 then
      (bytes[0] - 0xE0) * 0x1000 + (bytes[1] - 0x80) * 0x40 + (bytes[2] - 0x80)
    else
      (bytes[0] - 0xF0) * 0x40000 + (bytes[1] - 0x80) * 0x1000 + (bytes[2] - 0x80) * 0x40 + (bytes[3] - 0x80)
  }

  lemma SixBits(n: nat)
    ensures n == n / 0x40 * 0x40 + n % 0x40
    ensures n / 0x40 / 0x40 == n / 0x1000 && n / 0x1000 / 0x40 == n / 0x40000
  {
  }

  lemma Utf8Decodes(c: char)
    ensures Utf8Value(Utf8Char(c)) == c as int
  {
    var n := c as int;
    SixBits(n);
    if 0x800 <= n < 0x10000 {
      SixBits(n / 0x40);
    } else if 0x10000 <= n {
      SixBits(n / 0x40);
      SixBits(n / 0x1000);
    }
  }

  lemma Utf8CharInjective(c: char, d: char)
    requires Utf8Char(c) == Utf8Char(d)
    ensures c == d
  {
    Utf8Decodes(c);
    Utf8Decodes(d);
  }

  lemma Utf8CharIsPrefixCode(c: char, d: char, x: seq<Byte>, y: seq<Byte>)
    requires Utf8Char(c) + x <= Utf8Char(d) + y
    ensures c == d && x <= y
  {
    var l, r := Utf8Char(c) + x, Utf8Char(d) + y;
    assert l[0] == r[0];
    var n := |Utf8Char(c)|;
    assert l[..n] == r[..n];
    Utf8CharInjective(c, d);
    assert x == l[n..] && y == r[n..];
  }

  lemma {:induction false} Utf8IsPrefixCode(a: string, b: string)
    requires Utf8(a) <= Utf8(b)
    ensures a <= b
  {
    if a != "" {
      Utf8CharIsPrefixCode(a[0], b[0], Utf8(a[1..]), Utf8(b[1..]));
      Utf8IsPrefixCode(a[1..], b[1..]);
    }
  }

  /** An encoded term is a prefix of another exactly when the terms are. */
  lemma EncodeIsPrefixCode(a: string, b: string)
    ensures Encode(a) <= Encode(b) <==> a <= b
  {
    if a <= b {
      assert b == a + b[|a|..];
      EncodeAppend(a, b[|a|..]);
    }
    if Encode(a) <= Encode(b) {
      EncodeBytesIsPrefixCode(Utf8(a), Utf8(b));
      Utf8IsPrefixCode(a, b);
    }
  }

  // ---------- the alphabet of encoded terms ----------

  lemma {:induction false} EncodeBytesAlphabet(bytes: seq<Byte>)
    ensures '/' !in EncodeBytes(bytes) && |bytes| <= |EncodeBytes(bytes)|
  {
    hide EncodeByte;
    if bytes != [] {
      EncodeBytesAlphabet(bytes[1..]);
      EncodeByteAlphabet(bytes[0]);
    }
  }

  lemma EncodeByteAlphabet(b: Byte)
    ensures '/' !in EncodeByte(b)
  {
  }

  lemma {:induction false} Utf8AtLeast(text: string)
    ensures |text| <= |Utf8(text)|
  {
    if text != "" {
      Utf8AtLeast(text[1..]);
    }
  }

  lemma EncodeAlphabet(text: string)
    ensures '/' !in Encode(text) && |text| <= |Encode(text)|
  {
    EncodeBytesAlphabet(Utf8(text));
    Utf8AtLeast(text);
  }

  predicate IdentifierChar(c: char) {
    c == '-' || '0' <= c <= '9' || 'A' <= c <= 'Z' || 'a' <= c <= 'z'
  }

  /** Identifiers (letters, digits and `-`) are their own encoding. */
  predicate IdentifierText(text: string) {
    forall c :: c in text ==> IdentifierChar(c)
  }

  lemma {:induction false} IdentifierEncodesToItself(text: string)
    requires IdentifierText(text)
    ensures Encode(text) == text
  {
    if text != "" {
      IdentifierEncodesToItself(text[1..]);
      var c := text[0];
      assert IdentifierChar(c);
      assert Utf8(text) == [c as int] + Utf8(text[1..]);
      assert EncodeByte(c as int) == [c];
    }
  }

  predicate Ascii(text: string) {
    forall c :: c in text ==> c < (0x80 as char)
  }

  lemma ByteLengthAppend(a: string, b: string)
    ensures ByteLength(a + b) == ByteLength(a) + ByteLength(b)
  {
    Utf8Append(a, b);
  }

  lemma {:induction false} AsciiByteLength(text: string)
    requires Ascii(text)
    ensures ByteLength(text) == |text|
  {
    if text != "" {
      assert text[0] in text && forall c :: c in text[1..] ==> c in text;
      AsciiByteLength(text[1..]);
    }
  }

  lemma {:induction false} EncodeAsciiAtMost(text: string)
    requires Ascii(text)
    ensures |Encode(text)| <= 3 * |text|
  {
    if text != "" {
      assert text[0] in text && forall c :: c in text[1..] ==> c in text;
      EncodeAsciiAtMost(text[1..]);
      assert Utf8(text) == [text[0] as int] + Utf8(text[1..]);
    }
  }

  /** Different terms have different encodings. */
  lemma EncodeInjective(a: string, b: string)
    ensures Encode(a) == Encode(b) <==> a == b
  {
    EncodeIsPrefixCode(a, b);
    EncodeIsPrefixCode(b, a);
  }
}
