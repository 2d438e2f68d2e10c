/** The hand-written base64url codec of ciphertext envelopes. */
module Base64 {
  import opened Common

  type Sextet = v: int | 0 <= v < 64

  datatype Base64Error = InvalidLength | InvalidPadding | InvalidSymbol

  const PAD: Byte := 61

  /** `ALPHABET`, the URL-safe one of section 5 of RFC 4648: letters, digits, `-`, `_`. */
  function Symbol(v: Sextet): Byte {
    (if v < 26 then 'A' as int + v
     else if v < 52 then 'a' as int + (v - 26)
     else if v < 62 then '0' as int + (v - 52)
     else if v == 62 then '-' as int
     else '_' as int) as Byte
  }

  /** `base64_value`, over the standard alphabet. */
  function SymbolValue(byte: Byte): Result<Sextet, Base64Error> {
    var n := byte;
    if 'A' as int <= n <= 'Z' as int then Ok(n - 'A' as int)
    else if 'a' as int <= n <= 'z' as int then Ok(n - 'a' as int + 26)
    else if '0' as int <= n <= '9' as int then Ok(n - '0' as int + 52)
    else if n == '+' as int then Ok(62)
    else if n == '/' as int then Ok(63)
    else Err(InvalidSymbol)
  }

  /** The URL-safe symbols rewritten to the standard ones. */
  function Standard(byte: Byte): Byte {
    if byte == 45 then 43 else if byte == 95 then 47 else byte
  }

  lemma SymbolBack(v: Sextet)
    ensures SymbolValue(Standard(Symbol(v))) == Ok(v)
    ensures Symbol(v) != PAD && Standard(Symbol(v)) != PAD
  {
  }

  // ---------- encoding ----------

  // The four sextets of three bytes: a shift right is a division, a mask a remainder.
  function Sextet0(first: Byte): Sextet { first / 4 }
  function Sextet1(first: Byte, second: Byte): Sextet { first % 4 * 16 + second / 16 }
  function Sextet2(second: Byte, third: Byte): Sextet { second % 16 * 4 + third / 64 }
  function Sextet3(third: Byte): Sextet { third % 64 }

  /** The symbols of one chunk of one to three bytes. */
  function EncodeChunk(chunk: seq<Byte>): (symbols: seq<Byte>)
    requires 1 <= |chunk| <= 3
    ensures |symbols| == |chunk| + 1
  {
    var first := chunk[0];
    var second: Byte := if |chunk| > 1 then chunk[1] else 0;
    var third: Byte := if |chunk| > 2 then chunk[2] else 0;
    [Symbol(Sextet0(first)), Symbol(Sextet1(first, second))]
    + (if |chunk| > 1 then [Symbol(Sextet2(second, third))] else [])
    + (if |chunk| > 2 then [Symbol(Sextet3(third))] else [])
  }

  function ChunkLength(bytes: seq<Byte>): nat {
    if |bytes| < 3 then |bytes| else 3
  }

  function Encode(bytes: seq<Byte>): seq<Byte> {
    if bytes == [] then []
    else EncodeChunk(bytes[..ChunkLength(bytes)]) + Encode(bytes[ChunkLength(bytes)..])
  }

  lemma EncodeNothing()
    ensures Encode([]) == []
  {
  }

  lemma EncodeStep(output: seq<Byte>, rest: seq<Byte>)
    requires rest != []
    ensures
      var n := ChunkLength(rest);
      output + Encode(rest) == output + EncodeChunk(rest[..n]) + Encode(rest[n..])
  {
    hide EncodeChunk;
    var n := ChunkLength(rest);
    assert Encode(rest) == EncodeChunk(rest[..n]) + Encode(rest[n..]);
    assert output + (EncodeChunk(rest[..n]) + Encode(rest[n..])) == output + EncodeChunk(rest[..n]) + Encode(rest[n..]);
  }

  method EncodeBase64Url(bytes: seq<Byte>) returns (output: seq<Byte>)
    ensures output == Encode(bytes)
  {
    hide Encode, Symbol, Sextet0, Sextet1, Sextet2, Sextet3;
    output := [];
    var i := 0;
    assert bytes[0..] == bytes;
    assert [] + Encode(bytes) == Encode(bytes);
    EncodeNothing();
    while i < |bytes|
      invariant i <= |bytes| && output + Encode(bytes[i..]) == Encode(bytes)
    {
      ghost var was, rest := output, bytes[i..];
      var n := if |bytes| - i < 3 then |bytes| - i else 3;
      var first := bytes[i];
      var second: Byte := if n > 1 then bytes[i + 1] else 0;
      var third: Byte := if n > 2 then bytes[i + 2] else 0;
      output := output + [Symbol(Sextet0(first)), Symbol(Sextet1(first, second))];
      if n > 1 {
        output := output + [Symbol(Sextet2(second, third))];
      }
      if n > 2 {
        output := output + [Symbol(Sextet3(third))];
      }
      ghost var chunk := rest[..n];
      assert chunk[0] == first && (n > 1 ==> chunk[1] == second) && (n > 2 ==> chunk[2] == third);
      assert output == was + EncodeChunk(chunk);
      assert rest[n..] == bytes[i + n..];
      EncodeStep(was, rest);
      i := i + n;
    }
    assert bytes[i..] == [] && output + [] == output;
  }

  // ---------- decoding ----------

  /** Whether a quartet's padding is misplaced: allowed only at the end of the last one. */
  predicate BadPadding(q: seq<Byte>, last: bool)
    requires |q| == 4
  {
    (!last && PAD in q) || q[0] == PAD || q[1] == PAD || (q[2] == PAD && q[3] != PAD)
  }

  function PaddedValue(byte: Byte): Result<Sextet, Base64Error> {
    if byte == PAD then Ok(0) else SymbolValue(byte)
  }

  // The three bytes of four sextets: a shift left is a product, dropping the bits above.
  function Byte0(a: Sextet, b: Sextet): Byte { a * 4 + b / 16 }
  function Byte1(b: Sextet, c: Sextet): Byte { b % 16 * 16 + c / 4 }
  function Byte2(c: Sextet, d: Sextet): Byte { c % 4 * 64 + d }

  function DecodeQuartet(q: seq<Byte>, last: bool): Result<seq<Byte>, Base64Error>
    requires |q| == 4
  {
    if BadPadding(q, last) then Err(InvalidPadding)
    else
      var (a, b, c, d) := (SymbolValue(q[0]), SymbolValue(q[1]), PaddedValue(q[2]), PaddedValue(q[3]));
      if a.Err? then Err(a.error)
      else if b.Err? then Err(b.error)
      else if c.Err? then Err(c.error)
      else if d.Err? then Err(d.error)
      else
        Ok([Byte0(a.value, b.value)]
           + (if q[2] != PAD then [Byte1(b.value, c.value)] else [])
           + (if q[3] != PAD then [Byte2(c.value, d.value)] else []))
  }

  /** A multiple of four. */
  predicate Whole(n: nat) {
    n % 4 == 0
  }

  lemma FourFewer(n: nat)
    requires n > 0 && Whole(n)
    ensures n >= 4 && Whole(n - 4)
  {
  }

  function DecodeQuartets(source: seq<Byte>): Result<seq<Byte>, Base64Error>
    requires Whole(|source|)
  {
    hide Whole;
    if source == [] then Ok([])
    else
      FourFewer(|source|);
      var head := DecodeQuartet(source[..4], |source| == 4);
      if head.Err? then head
      else
        var rest := DecodeQuartets(source[4..]);
        if rest.Err? then rest else Ok(head.value + rest.value)
  }

  function StandardText(encoded: seq<Byte>): seq<Byte> {
    seq(|encoded|, i requires 0 <= i < |encoded| => Standard(encoded[i]))
  }

  function Padding(n: nat): nat { (4 - n % 4) % 4 }

  function Pad(n: nat): seq<Byte> {
    if n == 0 then [] else [PAD] + Pad(n - 1)
  }

  function Padded(encoded: seq<Byte>): (source: seq<Byte>)
    ensures Whole(|source|)
  {
    PadLength(Padding(|encoded|));
    StandardText(encoded) + Pad(Padding(|encoded|))
  }

  lemma {:induction false} PadLength(n: nat)
    ensures |Pad(n)| == n && forall i :: 0 <= i < n ==> Pad(n)[i] == PAD
  {
    if n > 0 {
      PadLength(n - 1);
    }
  }

  function Decode(encoded: seq<Byte>): Result<seq<Byte>, Base64Error> {
    DecodeQuartets(Padded(encoded))
  }

  /** `head` decoded already, `rest` still to come. */
  function After(head: seq<Byte>, rest: Result<seq<Byte>, Base64Error>): Result<seq<Byte>, Base64Error> {
    if rest.Ok? then Ok(head + rest.value) else rest
  }

  lemma DecodeNothing(output: seq<Byte>)
    ensures After(output, DecodeQuartets([])) == Ok(output) && After([], DecodeQuartets([])) == Ok([])
  {
    assert output + [] == output;
    var nothing: seq<Byte> := [];
    assert nothing + nothing == nothing;
  }

  lemma AfterNothing(rest: Result<seq<Byte>, Base64Error>)
    ensures After([], rest) == rest
  {
    if rest.Ok? {
      assert [] + rest.value == rest.value;
    }
  }

  lemma DecodeStep(output: seq<Byte>, rest: seq<Byte>)
    requires rest != [] && Whole(|rest|)
    ensures |rest| >= 4 && Whole(|rest| - 4)
    ensures
      var head := DecodeQuartet(rest[..4], |rest| == 4);
      After(output, DecodeQuartets(rest)) ==
        if head.Err? then head else After(output + head.value, DecodeQuartets(rest[4..]))
  {
    hide DecodeQuartet, Whole;
    FourFewer(|rest|);
    var head, after := DecodeQuartet(rest[..4], |rest| == 4), DecodeQuartets(rest[4..]);
    if head.Ok? && after.Ok? {
      JoinThree(output, head.value, after.value);
    }
  }

  lemma JoinThree<T>(a: seq<T>, b: seq<T>, c: seq<T>)
    ensures a + (b + c) == a + b + c
  {
  }

  method DecodeBase64(encoded: seq<Byte>) returns (result: Result<seq<Byte>, Base64Error>)
    ensures result == if |encoded| % 4 != 0 then Err(InvalidLength) else DecodeQuartets(encoded)
  {
    hide DecodeQuartet, DecodeQuartets, After;
    if |encoded| % 4 != 0 {
      return Err(InvalidLength);
    }
    var output: seq<Byte> := [];
    var i := 0;
    assert encoded[0..] == encoded;
    AfterNothing(DecodeQuartets(encoded));
    while i < |encoded|
      invariant i <= |encoded| && i % 4 == 0
      invariant After(output, DecodeQuartets(encoded[i..])) == DecodeQuartets(encoded)
      decreases |encoded| - i
    {
      ghost var rest := encoded[i..];
      var quartet := encoded[i..i + 4];
      var last := i + 4 == |encoded|;
      assert rest[..4] == quartet && rest[4..] == encoded[i + 4..];
      DecodeStep(output, rest);
      var decoded := DecodeQuartet(quartet, last);
      if decoded.Err? {
        return decoded;
      }
      output := output + decoded.value;
      i := i + 4;
    }
    assert encoded[i..] == [];
    DecodeNothing(output);
    return Ok(output);
  }

  method DecodeBase64Url(encoded: seq<Byte>) returns (result: Result<seq<Byte>, Base64Error>)
    ensures result == Decode(encoded)
  {
    var source: seq<Byte> := [];
    var i := 0;
    while i < |encoded|
      invariant i <= |encoded| == |encoded| && |source| == i
      invariant forall k :: 0 <= k < i ==> source[k] == Standard(encoded[k])
    {
      source := source + [Standard(encoded[i])];
      i := i + 1;
    }
    assert source == StandardText(encoded);
    var padding := (4 - |source| % 4) % 4;
    PadLength(padding);
    result := DecodeBase64(source + Pad(padding));
  }

  // ---------- the round trip ----------

  /** What the shifts of a chunk take apart, those of a quartet put together. */
  lemma ChunkBits(first: Byte, second: Byte, third: Byte)
    ensures Byte0(Sextet0(first), Sextet1(first, second)) == first
    ensures Byte1(Sextet1(first, second), Sextet2(second, third)) == second
    ensures Byte2(Sextet2(second, third), Sextet3(third)) == third
  {
  }

  /** One chunk's symbols, standardised and padded, decode to the chunk. */
  lemma ChunkBack(chunk: seq<Byte>)
    requires 1 <= |chunk| <= 3
    ensures |StandardText(EncodeChunk(chunk)) + Pad(3 - |chunk|)| == 4
    ensures DecodeQuartet(StandardText(EncodeChunk(chunk)) + Pad(3 - |chunk|), true) == Ok(chunk)
    ensures |chunk| == 3 ==> DecodeQuartet(StandardText(EncodeChunk(chunk)), false) == Ok(chunk)
  {
    hide Symbol, SymbolValue, Standard, Sextet0, Sextet1, Sextet2, Sextet3, Byte0, Byte1, Byte2;
    var first := chunk[0];
    var second: Byte := if |chunk| > 1 then chunk[1] else 0;
    var third: Byte := if |chunk| > 2 then chunk[2] else 0;
    PadLength(3 - |chunk|);
    var symbols := EncodeChunk(chunk);
    var q := StandardText(symbols) + Pad(3 - |chunk|);
    ChunkBits(first, second, third);
    SymbolBack(Sextet0(first));
    SymbolBack(Sextet1(first, second));
    SymbolBack(Sextet2(second, third));
    SymbolBack(Sextet3(third));
    assert q[0] == Standard(symbols[0]) && q[1] == Standard(symbols[1]);
    if |chunk| == 1 {
      assert q[2] == PAD && q[3] == PAD;
      PaddedByte(first);
      assert DecodeQuartet(q, true).value == chunk;
    } else if |chunk| == 2 {
      assert q[2] == Standard(symbols[2]) && q[3] == PAD;
      assert DecodeQuartet(q, true).value == chunk;
    } else {
      assert q[2] == Standard(symbols[2]) && q[3] == Standard(symbols[3]);
      assert q == StandardText(symbols);
      assert DecodeQuartet(q, true).value == chunk;
    }
  }

  lemma PaddedByte(first: Byte)
    ensures Byte0(Sextet0(first), Sextet1(first, 0)) == first
  {
  }

  /** The encoded length: four symbols for every three bytes, and for a rest of one or two
      bytes one symbol more than its bytes (section 5 of RFC 4648, padding omitted). */
  lemma {:induction false} EncodedLength(bytes: seq<Byte>)
    ensures |Encode(bytes)| == |bytes| / 3 * 4 + (if |bytes| % 3 == 0 then 0 else |bytes| % 3 + 1)
    decreases |bytes|
  {
    if bytes != [] {
      hide EncodeChunk;
      var n := ChunkLength(bytes);
      EncodedLength(bytes[n..]);
      assert |bytes| == n + |bytes[n..]|;
    }
  }

  lemma PadNext(symbols: seq<Byte>, tail: seq<Byte>)
    requires |symbols| == 4
    ensures Padded(symbols + tail) == StandardText(symbols) + Padded(tail)
  {
    assert StandardText(symbols + tail) == StandardText(symbols) + StandardText(tail);
  }

  lemma DecodeFull(chunk: seq<Byte>, tail: seq<Byte>)
    requires |chunk| == 3
    ensures Decode(EncodeChunk(chunk) + tail) == After(chunk, Decode(tail))
  {
    hide EncodeChunk, StandardText, Padded;
    ChunkBack(chunk);
    PadNext(EncodeChunk(chunk), tail);
    var head := StandardText(EncodeChunk(chunk));
    var source := head + Padded(tail);
    StandardLength(EncodeChunk(chunk));
    assert source[..4] == head && source[4..] == Padded(tail);
    assert head + Pad(0) == head;
    DecodeStep([], source);
    AfterNothing(DecodeQuartets(source));
    assert [] + chunk == chunk;
  }

  lemma StandardLength(encoded: seq<Byte>)
    ensures |StandardText(encoded)| == |encoded|
  {
  }

  lemma DecodeLast(chunk: seq<Byte>)
    requires 1 <= |chunk| <= 2
    ensures Decode(EncodeChunk(chunk)) == Ok(chunk)
  {
    hide EncodeChunk, DecodeQuartet;
    ChunkBack(chunk);
    var source := Padded(EncodeChunk(chunk));
    PadLength(3 - |chunk|);
    assert source == StandardText(EncodeChunk(chunk)) + Pad(3 - |chunk|);
    assert source[..4] == source && source[4..] == [];
    DecodeStep([], source);
    AfterNothing(DecodeQuartets(source));
    DecodeNothing(chunk);
    assert [] + chunk == chunk;
  }

  /** Decoding undoes encoding, for every byte sequence. */
  lemma {:induction false} RoundTrip(bytes: seq<Byte>)
    ensures Decode(Encode(bytes)) == Ok(bytes)
    decreases |bytes|
  {
    if bytes == [] {
      assert Padded([]) == [];
    } else {
      hide EncodeChunk, Decode;
      var n := ChunkLength(bytes);
      var chunk, rest := bytes[..n], bytes[n..];
      RoundTrip(rest);
      assert bytes == chunk + rest;
      if n == 3 {
        DecodeFull(chunk, Encode(rest));
      } else {
        assert rest == [] && Encode(rest) == [] && chunk + rest == chunk;
        assert EncodeChunk(chunk) + [] == EncodeChunk(chunk);
        DecodeLast(chunk);
      }
    }
  }

  // ---------- what the decoder accepts ----------

  predicate InAlphabet(byte: Byte) {
    SymbolValue(Standard(byte)).Ok?
  }

  /** Every symbol has a value. */
  predicate Valued(source: seq<Byte>) {
    forall i :: 0 <= i < |source| ==> SymbolValue(source[i]).Ok?
  }

  lemma ValuedAppend(a: seq<Byte>, b: seq<Byte>)
    ensures Valued(a + b) <==> Valued(a) && Valued(b)
  {
    hide SymbolValue;
    assert forall i :: 0 <= i < |a| ==> (a + b)[i] == a[i];
    assert forall i :: 0 <= i < |b| ==> (a + b)[|a| + i] == b[i];
  }

  lemma SumWhole(m: nat, n: nat)
    ensures Whole(m) && Whole(n) ==> Whole(m + n)
  {
  }

  lemma PlainQuartet(q: seq<Byte>, last: bool)
    requires |q| == 4 && PAD !in q
    ensures DecodeQuartet(q, last).Ok? <==> Valued(q)
  {
    hide SymbolValue, Byte0, Byte1, Byte2;
    assert q[0] in q && q[1] in q && q[2] in q && q[3] in q;
  }

  /** Quartets without padding are accepted exactly when every symbol has a value. */
  lemma {:induction false} PlainQuartets(source: seq<Byte>, padded: seq<Byte>)
    requires Whole(|source|) && Whole(|padded|) && PAD !in source
    ensures Whole(|source + padded|)
    ensures DecodeQuartets(source + padded).Ok? <==> Valued(source) && DecodeQuartets(padded).Ok?
    decreases |source|
  {
    if source == [] {
      assert source + padded == padded;
    } else {
      hide Valued, DecodeQuartet, Whole;
      FourFewer(|source|);
      SumWhole(|source|, |padded|);
      var q, rest := source[..4], source[4..];
      var all := source + padded;
      assert all[..4] == q && all[4..] == rest + padded;
      assert PAD !in q && PAD !in rest;
      PlainQuartet(q, |all| == 4);
      PlainQuartets(rest, padded);
      ValuedAppend(q, rest);
      assert source == q + rest;
    }
  }

  lemma LastQuartet(tail: seq<Byte>)
    requires 1 <= |tail| <= 3 && PAD !in tail
    ensures |tail + Pad(4 - |tail|)| == 4
    ensures DecodeQuartets(tail + Pad(4 - |tail|)).Ok? <==>
      |tail| != 1 && Valued(tail)
  {
    PadLength(4 - |tail|);
    var q := tail + Pad(4 - |tail|);
    assert q[..4] == q && q[4..] == [];
    assert forall i :: 0 <= i < |tail| ==> q[i] == tail[i] && tail[i] in tail;
    assert forall i :: |tail| <= i < 4 ==> q[i] == PAD;
  }

  /** Exactly which unpadded texts decode: those over the two alphabets, of a length that
      some byte sequence has.  A length of 1 modulo 4 is always an error. */
  lemma UnpaddedAcceptedExactly(encoded: seq<Byte>)
    requires PAD !in encoded
    ensures Decode(encoded).Ok? <==>
      |encoded| % 4 != 1 && forall i :: 0 <= i < |encoded| ==> InAlphabet(encoded[i])
  {
    hide DecodeQuartets, SymbolValue;
    var text := StandardText(encoded);
    assert PAD !in text;
    var n := |text| - |text| % 4;
    var front, tail := text[..n], text[n..];
    assert text == front + tail && PAD !in front && PAD !in tail;
    if tail == [] {
      PlainQuartets(front, []);
      DecodeNothing([]);
      assert Padded(encoded) == front + [];
    } else {
      LastQuartet(tail);
      assert Padding(|encoded|) == 4 - |tail|;
      PlainQuartets(front, tail + Pad(4 - |tail|));
      assert Padded(encoded) == front + (tail + Pad(4 - |tail|));
    }
    ValuedAppend(front, tail);
    assert forall i :: 0 <= i < |text| ==> text[i] == Standard(encoded[i]);
  }
}
