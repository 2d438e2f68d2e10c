/** Decimal text of natural numbers. */
module Decimal {
  import opened Common

  function Digit(n: nat): char
    requires n < 10
  {
    "0123456789"[n]
  }

  function Text(n: nat): (text: string)
    ensures text != ""
  {
    if n < 10 then [Digit(n)] else Text(n / 10) + [Digit(n % 10)]
  }

  function DigitValue(c: char): nat {
    if '0' <= c <= '9' then c as nat - '0' as nat else 0
  }

  function Value(text: string): nat {
    if text == "" then 0 else 10 * Value(text[..|text| - 1]) + DigitValue(text[|text| - 1])
  }

  lemma {:induction false} RoundTrip(n: nat)
    ensures Value(Text(n)) == n && forall c :: c in Text(n) ==> '0' <= c <= '9'
  {
    var text := Text(n);
    if n < 10 {
      assert text[..0] == "" && text[0] == Digit(n);
    } else {
      RoundTrip(n / 10);
      assert text[..|text| - 1] == Text(n / 10) && text[|text| - 1] == Digit(n % 10);
      assert 10 * (n / 10) + n % 10 == n;
    }
  }

  lemma Injective(m: nat, n: nat)
    requires Text(m) == Text(n)
    ensures m == n
  {
    RoundTrip(m);
    RoundTrip(n);
  }

  lemma {:induction false} LengthGrows(m: nat, n: nat)
    requires m <= n
    ensures |Text(m)| <= |Text(n)|
    decreases n
  {
    if 10 <= m {
      LengthGrows(m / 10, n / 10);
    }
  }

  function Ten(width: nat): nat {
    if width == 0 then 1 else 10 * Ten(width - 1)
  }

  lemma {:induction false} LengthAtMost(n: nat, width: nat)
    requires n < Ten(width) && width > 0
    ensures |Text(n)| <= width
  {
    if n >= 10 {
      assert Ten(width) == 10 * Ten(width - 1);
      assert width > 1 by { assert Ten(1) == 10 * Ten(0); }
      LengthAtMost(n / 10, width - 1);
    }
  }

  // ---------- signed numbers ----------

  predicate AllDigits(text: string) {
    text != "" && forall i :: 0 <= i < |text| ==> '0' <= text[i] <= '9'
  }

  function SignedText(n: int): string {
    if n < 0 then "-" + Text(-n) else Text(n)
  }

  function SignedValue(text: string): Option<int> {
    if AllDigits(text) then Some(Value(text))
    else if text != "" && text[0] == '-' && AllDigits(text[1..]) then Some(0 - Value(text[1..]))
    else None
  }

  lemma SignedRoundTrip(n: int)
    ensures SignedValue(SignedText(n)) == Some(n)
    ensures forall c :: c in SignedText(n) ==> '0' <= c <= '9' || c == '-'
  {
    hide Text, Value;
    var m := if n < 0 then -n else n;
    RoundTrip(m);
    DigitsOnly(Text(m));
    if n < 0 {
      assert SignedText(n)[1..] == Text(m) && SignedText(n)[0] == '-';
    }
  }

  lemma DigitsOnly(text: string)
    requires text != "" && forall c :: c in text ==> '0' <= c <= '9'
    ensures AllDigits(text)
  {
    assert forall i :: 0 <= i < |text| ==> text[i] in text;
  }
}
