/** Decoding of JSON strings, against every spelling section 7 of RFC 8259 allows. */
module JsonDecode {
  import opened Common
  import opened Hexadecimal
  import opened JsonText

  /** The four hexadecimal digits at `i`. */
  function Hex4(t: string, i: nat): Option<nat> {
    if i + 4 <= |t| then FromHex(t[i..i + 4]) else None
  }

  predicate Scalar(code: nat) {
    code < 0xD800 || 0xE000 <= code < 0x11_0000
  }

  function ShortEscape(c: char): Option<char> {
    if c == '"' || c == '\\' || c == '/' then Some(c)
    else if c == 'b' then Some('\U{08}')
    else if c == 'f' then Some('\U{0C}')
    else if c == 'n' then Some('\n')
    else if c == 'r' then Some('\r')
    else if c == 't' then Some('\t')
    else None
  }

  /** One character of an escaped text and how many units it takes. */
  datatype Unit = Unit(c: char, length: nat)

  function UnicodeEscape(t: string): (r: Result<Unit, JsonError>)
    ensures r.Ok? ==> 6 <= r.value.length <= |t|
  {
    var high := Hex4(t, 2);
    if high.None? then Err(BadEscape)
    else if 0xD800 <= high.value <= 0xDBFF then
      var low := Hex4(t, 8);
      if |t| < 8 || t[6] != '\\' || t[7] != 'u' || low.None? || !(0xDC00 <= low.value <= 0xDFFF)
      then Err(BadEscape)
      else
        var code := 0x1_0000 + (high.value - 0xD800) * 0x400 + (low.value - 0xDC00);
        Ok(Unit(code as char, 12))
    else if !Scalar(high.value) then Err(BadEscape)
    else Ok(Unit(high.value as char, 6))
  }

  function FirstUnit(t: string): (r: Result<Unit, JsonError>)
    requires t != ""
    ensures r.Ok? ==> 1 <= r.value.length <= |t|
  {
    if t[0] != '\\' then Ok(Unit(t[0], 1))
    else if |t| < 2 then Err(BadEscape)
    else if t[1] == 'u' then UnicodeEscape(t)
    else if ShortEscape(t[1]).Some? then Ok(Unit(ShortEscape(t[1]).value, 2))
    else Err(BadEscape)
  }

  function Unescape(t: string): Result<string, JsonError> {
    if t == "" then Ok("")
    else
      var unit := FirstUnit(t);
      if unit.Err? then Err(unit.error)
      else
        var rest := Unescape(t[unit.value.length..]);
        if rest.Err? then rest else Ok([unit.value.c] + rest.value)
  }

  function DecodeString(value: string): Result<string, JsonError> {
    if |value| < 2 || value[0] != '"' || value[|value| - 1] != '"' then Err(ExpectedString)
    else Unescape(value[1..|value| - 1])
  }

  method DecodeJsonString(value: string) returns (result: Result<string, JsonError>)
    ensures result == DecodeString(value)
  {
    if |value| < 2 || value[0] != '"' || value[|value| - 1] != '"' {
      return Err(ExpectedString);
    }
    var chars := value[1..|value| - 1];
    var decoded := "";
    ghost var all := chars;
    assert Unescape(all).Ok? ==> "" + Unescape(all).value == Unescape(all).value;
    while chars != ""
      invariant Unescape(all) == Prepend(decoded, Unescape(chars))
      decreases |chars|
    {
      var unit := FirstUnit(chars);
      if unit.Err? {
        return Err(unit.error);
      }
      PrependMore(decoded, unit.value.c, Unescape(chars[unit.value.length..]));
      decoded := decoded + [unit.value.c];
      chars := chars[unit.value.length..];
    }
    assert decoded + "" == decoded;
    return Ok(decoded);
  }

  function Prepend(head: string, tail: Result<string, JsonError>): Result<string, JsonError> {
    if tail.Ok? then Ok(head + tail.value) else tail
  }

  lemma PrependMore(head: string, c: char, tail: Result<string, JsonError>)
    ensures Prepend(head + [c], tail) == Prepend(head, Prepend([c], tail))
  {
    if tail.Ok? {
      assert head + [c] + tail.value == head + ([c] + tail.value);
    }
  }

  // ---------- every spelling of a string decodes to it ----------

  function CasedHex(n: nat, width: nat, upper: bool): (text: string)
    ensures |text| == width
  {
    if width == 0 then ""
    else CasedHex(n / 16, width - 1, upper) + [if upper then UpperHexDigit(n % 16) else HexDigit(n % 16)]
  }

  lemma {:induction false} CasedHexReads(n: nat, width: nat, upper: bool)
    requires n < Pow(16, width)
    ensures FromHex(CasedHex(n, width, upper)) == Some(n)
  {
    hide HexValue, HexDigit, UpperHexDigit;
    if width > 0 {
      CasedHexReads(n / 16, width - 1, upper);
      CasedDigitReads(n % 16, upper);
      var text := CasedHex(n, width, upper);
      assert text[..width - 1] == CasedHex(n / 16, width - 1, upper);
    }
  }

  lemma CasedDigitReads(n: nat, upper: bool)
    requires n < 16
    ensures HexValue(if upper then UpperHexDigit(n) else HexDigit(n)) == Some(n)
  {
  }

  lemma {:induction false} LowerHex(n: nat, width: nat)
    ensures CasedHex(n, width, false) == Hex(n, width)
  {
    if width > 0 { LowerHex(n / 16, width - 1); }
  }

  datatype Form = Raw | Short(letter: char) | Unicode(upperHigh: bool, upperLow: bool)

  /** Whether section 7 of RFC 8259 lets a string spell `c` this way. */
  predicate Allowed(c: char, form: Form) {
    match form
    case Raw => c >= '\U{20}' && c != '"' && c != '\\'
    case Short(letter) => ShortEscape(letter) == Some(c)
    case Unicode(_, _) => true
  }

  function Spell(c: char, form: Form): (text: string)
    ensures text != ""
  {
    match form
    case Raw => [c]
    case Short(letter) => ['\\', letter]
    case Unicode(upperHigh, upperLow) =>
      var n := c as nat;
      if n < 0x1_0000 then "\\u" + CasedHex(n, 4, upperHigh)
      else
        "\\u" + CasedHex(0xD800 + (n - 0x1_0000) / 0x400, 4, upperHigh)
        + "\\u" + CasedHex(0xDC00 + (n - 0x1_0000) % 0x400, 4, upperLow)
  }

  datatype Spelled = Spelled(c: char, form: Form)

  function Text(spelled: seq<Spelled>): string {
    if spelled == [] then "" else Spell(spelled[0].c, spelled[0].form) + Text(spelled[1..])
  }

  function Plain(spelled: seq<Spelled>): string {
    seq(|spelled|, i requires 0 <= i < |spelled| => spelled[i].c)
  }

  lemma FourDigits(n: nat)
    requires n < 0x1_0000
    ensures n < Pow(16, 4)
  {
  }

  lemma HexReadAt(t: string, i: nat, n: nat, upper: bool)
    requires n < 0x1_0000 && i + 4 <= |t| && t[i..i + 4] == CasedHex(n, 4, upper)
    ensures Hex4(t, i) == Some(n)
  {
    FourDigits(n);
    CasedHexReads(n, 4, upper);
  }

  lemma BasicPlaneDecodes(c: char, upper: bool, rest: string)
    requires c < '\U{10000}'
    ensures FirstUnit("\\u" + CasedHex(c as nat, 4, upper) + rest) == Ok(Unit(c, 6))
  {
    var t := "\\u" + CasedHex(c as nat, 4, upper) + rest;
    assert t[0] == '\\' && t[1] == 'u';
    assert t[2..6] == CasedHex(c as nat, 4, upper);
    HexReadAt(t, 2, c as nat, upper);
  }

  lemma SurrogatesDecode(c: char, a: string, b: string, rest: string, upperHigh: bool, upperLow: bool)
    requires c >= '\U{10000}'
    requires a == CasedHex(0xD800 + (c as nat - 0x1_0000) / 0x400, 4, upperHigh)
    requires b == CasedHex(0xDC00 + (c as nat - 0x1_0000) % 0x400, 4, upperLow)
    ensures FirstUnit("\\u" + a + "\\u" + b + rest) == Ok(Unit(c, 12))
  {
    hide CasedHex, Hex4;
    var n := c as nat;
    var high, low := 0xD800 + (n - 0x1_0000) / 0x400, 0xDC00 + (n - 0x1_0000) % 0x400;
    var t := "\\u" + a + "\\u" + b + rest;
    TwoEscapes(a, b, rest);
    HexReadAt(t, 2, high, upperHigh);
    HexReadAt(t, 8, low, upperLow);
    assert 0x1_0000 + (high - 0xD800) * 0x400 + (low - 0xDC00) == n;
  }

  lemma TwoEscapes(a: string, b: string, rest: string)
    requires |a| == |b| == 4
    ensures
      var t := "\\u" + a + "\\u" + b + rest;
      && t[0] == '\\' && t[1] == 'u' && t[6] == '\\' && t[7] == 'u'
      && t[2..6] == a && t[8..12] == b
  {
  }

  lemma SpellingDecodes(c: char, form: Form, rest: string)
    requires Allowed(c, form)
    ensures FirstUnit(Spell(c, form) + rest) == Ok(Unit(c, |Spell(c, form)|))
  {
    match form
    case Raw =>
    case Short(letter) =>
    case Unicode(upperHigh, upperLow) =>
      var n := c as nat;
      if n < 0x1_0000 {
        BasicPlaneDecodes(c, upperHigh, rest);
      } else {
        SurrogatesDecode(c,
          CasedHex(0xD800 + (n - 0x1_0000) / 0x400, 4, upperHigh),
          CasedHex(0xDC00 + (n - 0x1_0000) % 0x400, 4, upperLow), rest, upperHigh, upperLow);
      }
  }

  /** Any mixture of raw characters, short escapes and `\u` escapes in either case, with
      surrogate pairs above the basic plane, decodes to the string it spells. */
  lemma {:induction false} EverySpellingDecodes(spelled: seq<Spelled>)
    requires forall x :: x in spelled ==> Allowed(x.c, x.form)
    ensures Unescape(Text(spelled)) == Ok(Plain(spelled))
  {
    if spelled != [] {
      var x, rest := spelled[0], Text(spelled[1..]);
      EverySpellingDecodes(spelled[1..]);
      SpellingDecodes(x.c, x.form, rest);
      assert Text(spelled)[|Spell(x.c, x.form)|..] == rest;
      assert Plain(spelled) == [x.c] + Plain(spelled[1..]);
    }
  }

  /** The form the printer chooses. */
  function PrintedForm(c: char): Form {
    if c == '"' || c == '\\' then Short(c)
    else if c == '\n' then Short('n')
    else if c == '\r' then Short('r')
    else if c == '\t' then Short('t')
    else if c == '\U{08}' then Short('b')
    else if c == '\U{0C}' then Short('f')
    else if c < '\U{20}' then Unicode(false, false)
    else Raw
  }

  function Printed(s: string): seq<Spelled> {
    seq(|s|, i requires 0 <= i < |s| => Spelled(s[i], PrintedForm(s[i])))
  }

  lemma EscCharIsSpelled(c: char)
    ensures EscChar(c) == Spell(c, PrintedForm(c)) && Allowed(c, PrintedForm(c))
  {
    LowerHex(c as nat, 4);
  }

  lemma {:induction false} EscIsASpelling(s: string)
    ensures Esc(s) == Text(Printed(s)) && Plain(Printed(s)) == s
    ensures forall x :: x in Printed(s) ==> Allowed(x.c, x.form)
  {
    if s != "" {
      EscIsASpelling(s[1..]);
      assert Printed(s)[1..] == Printed(s[1..]);
      EscCharIsSpelled(s[0]);
      forall x | x in Printed(s)
        ensures Allowed(x.c, x.form)
      {
        EscCharIsSpelled(x.c);
      }
    }
  }

  /** Decoding undoes the printer's escaping. */
  lemma DecodeUndoesQuote(s: string)
    ensures DecodeString(Quote(s)) == Ok(s)
  {
    EscIsASpelling(s);
    EverySpellingDecodes(Printed(s));
    assert Quote(s)[1..|Quote(s)| - 1] == Esc(s);
  }
}
