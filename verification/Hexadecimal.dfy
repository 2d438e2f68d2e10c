/** Hexadecimal digits and fixed-width lower-case hexadecimal. */
module Hexadecimal {
  import opened Common
  import opened Ordering

  function HexDigit(n: nat): char
    requires n < 16
  {
    "0123456789abcdef"[n]
  }

  function UpperHexDigit(n: nat): char
    requires n < 16
  {
    "0123456789ABCDEF"[n]
  }

  function HexValue(c: char): Option<nat> {
    if '0' <= c <= '9' then Some(c as nat - '0' as nat)
    else if 'a' <= c <= 'f' then Some(c as nat - 'a' as nat + 10)
    else if 'A' <= c <= 'F' then Some(c as nat - 'A' as nat + 10)
    else None
  }

  function Pow(b: nat, e: nat): nat {
    if e == 0 then 1 else b * Pow(b, e - 1)
  }

  /** `n` in exactly `width` hexadecimal digits. */
  function Hex(n: nat, width: nat): (text: string)
    ensures |text| == width
  {
    if width == 0 then "" else Hex(n / 16, width - 1) + [HexDigit(n % 16)]
  }

  function FromHex(text: string): Option<nat> {
    if text == "" then Some(0)
    else
      var rest, digit := FromHex(text[..|text| - 1]), HexValue(text[|text| - 1]);
      if rest.Some? && digit.Some? then Some(16 * rest.value + digit.value) else None
  }

  lemma {:induction false} LexLessLast(a: string, b: string, c: char, d: char)
    requires |a| == |b|
    ensures LexLess(a + [c], b + [d]) <==> LexLess(a, b) || (a == b && c < d)
  {
    if a == "" {
      assert a + [c] == [c] && b + [d] == [d];
    } else {
      assert (a + [c])[1..] == a[1..] + [c] && (b + [d])[1..] == b[1..] + [d];
      LexLessLast(a[1..], b[1..], c, d);
      assert a == b <==> a[0] == b[0] && a[1..] == b[1..] by {
        assert a == [a[0]] + a[1..] && b == [b[0]] + b[1..];
      }
    }
  }

  /** Fixed-width hexadecimal orders as the numbers do. */
  lemma {:induction false} HexOrder(m: nat, n: nat, width: nat)
    requires m < Pow(16, width) && n < Pow(16, width)
    ensures LexLess(Hex(m, width), Hex(n, width)) <==> m < n
    ensures Hex(m, width) == Hex(n, width) <==> m == n
  {
    if width > 0 {
      HexOrder(m / 16, n / 16, width - 1);
      var a, b := Hex(m / 16, width - 1), Hex(n / 16, width - 1);
      LexLessLast(a, b, HexDigit(m % 16), HexDigit(n % 16));
      assert (a + [HexDigit(m % 16)])[..width - 1] == a;
      assert (b + [HexDigit(n % 16)])[..width - 1] == b;
      assert (a + [HexDigit(m % 16)])[width - 1] == HexDigit(m % 16);
      assert (b + [HexDigit(n % 16)])[width - 1] == HexDigit(n % 16);
    }
  }

  lemma {:induction false} HexRoundTrip(n: nat, width: nat)
    requires n < Pow(16, width)
    ensures FromHex(Hex(n, width)) == Some(n)
  {
    if width > 0 {
      HexRoundTrip(n / 16, width - 1);
      var text := Hex(n, width);
      assert text[..width - 1] == Hex(n / 16, width - 1);
      assert text[width - 1] == HexDigit(n % 16);
    }
  }

  lemma {:induction false} HexAlphabet(n: nat, width: nat)
    ensures '/' !in Hex(n, width)
  {
    if width > 0 {
      HexAlphabet(n / 16, width - 1);
    }
  }
}
