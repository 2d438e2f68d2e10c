/** Order-preserving index keys for numbers: 16 hexadecimal digits derived from the bits
    of an IEEE 754 double, and their reversed form for descending scans. */
module SortKeys {
  import opened Common
  import opened Hexadecimal
  import opened Ordering

  const SIGN_MASK: nat := 0x8000_0000_0000_0000
  const U64_MAX: nat := 0xFFFF_FFFF_FFFF_FFFF

  const KEY_DIGITS: nat := 16

  type U64 = n: nat | n <= U64_MAX

  /** Positive numbers get their sign bit set; negative ones have every bit flipped. */
  function Sortable(bits: U64): U64 {
    if bits < SIGN_MASK then bits + SIGN_MASK else U64_MAX - bits
  }

  function SortableFloat64(bits: U64): string {
    Hex(Sortable(bits), KEY_DIGITS)
  }

  function ReverseSortable(sortable: string): string {
    var value := FromHex(sortable);
    if value.Some? && value.value <= U64_MAX then Hex(U64_MAX - value.value, KEY_DIGITS) else ""
  }

  lemma Hex16Covers(n: U64)
    ensures n < Pow(16, KEY_DIGITS)
  {
    assert Pow(16, 4) == 0x1_0000;
    assert Pow(16, 8) == 0x1_0000_0000;
    assert Pow(16, 12) == 0x1_0000_0000_0000;
  }

  // ---------- the doubles behind the bits ----------

  const FRACTION: nat := 0x10_0000_0000_0000

  function Magnitude(bits: U64): nat { bits % SIGN_MASK }
  function Exponent(bits: U64): nat { Magnitude(bits) / FRACTION }
  predicate Negative(bits: U64) { bits >= SIGN_MASK }
  predicate Finite(bits: U64) { Exponent(bits) < 0x7FF }

  /** The absolute value of a finite double in units of the least positive double,
      2^-1074; subnormals have exponent field 0 (section 3.4 of IEEE 754-2019). */
  function AbsValue(magnitude: nat): nat {
    var e, f := magnitude / FRACTION, magnitude % FRACTION;
    if e == 0 then f else (FRACTION + f) * Pow(2, e - 1)
  }

  function DoubleValue(bits: U64): int {
    if Negative(bits) then 0 - AbsValue(Magnitude(bits)) else AbsValue(Magnitude(bits))
  }

  lemma {:induction false} PowPositive(e: nat)
    ensures Pow(2, e) > 0
  {
    if e > 0 { PowPositive(e - 1); }
  }

  lemma {:induction false} PowGrows(d: nat, e: nat)
    requires d <= e
    ensures Pow(2, d) <= Pow(2, e)
    decreases e - d
  {
    if d < e {
      PowGrows(d, e - 1);
      PowPositive(e - 1);
    }
  }

  lemma ScaledLess(a: nat, b: nat, scale: nat)
    requires a < b && scale > 0
    ensures a * scale < b * scale
  {
  }

  lemma ScaledAtMost(a: nat, p: nat, q: nat)
    requires p <= q
    ensures a * p <= a * q
  {
  }

  /** A larger exponent outweighs every fraction. */
  lemma ExponentGrows(d: nat, f: nat, e: nat, g: nat)
    requires d < e && f < FRACTION
    ensures (if d == 0 then f else (FRACTION + f) * Pow(2, d - 1)) < (FRACTION + g) * Pow(2, e - 1)
  {
    PowPositive(e - 1);
    var scale := Pow(2, e - 1);
    ScaledAtMost(FRACTION, 1, scale);
    assert FRACTION * scale <= (FRACTION + g) * scale by {
      assert (FRACTION + g) * scale == FRACTION * scale + g * scale;
    }
    if d > 0 {
      PowPositive(d - 1);
      ScaledLess(FRACTION + f, 2 * FRACTION, Pow(2, d - 1));
      assert 2 * FRACTION * Pow(2, d - 1) == FRACTION * Pow(2, d);
      PowGrows(d, e - 1);
      ScaledAtMost(FRACTION, Pow(2, d), scale);
    }
  }

  /** Larger magnitude bits mean a larger absolute value, across exponents. */
  lemma AbsValueGrows(m: nat, n: nat)
    requires m < n
    ensures AbsValue(m) < AbsValue(n)
  {
    var d, e := m / FRACTION, n / FRACTION;
    var f, g := m % FRACTION, n % FRACTION;
    if d == e {
      if d > 0 {
        PowPositive(d - 1);
        ScaledLess(FRACTION + f, FRACTION + g, Pow(2, d - 1));
      }
    } else {
      ExponentGrows(d, f, e, g);
    }
  }

  lemma AbsValueOrder(m: nat, n: nat)
    ensures AbsValue(m) < AbsValue(n) <==> m < n
  {
    if m < n {
      AbsValueGrows(m, n);
    } else if n < m {
      AbsValueGrows(n, m);
    }
  }

  predicate NegativeZeroThenZero(x: U64, y: U64) {
    x == SIGN_MASK && y == 0
  }

  lemma MagnitudeIs(bits: U64)
    ensures Magnitude(bits) == if Negative(bits) then bits - SIGN_MASK else bits
  {
  }

  lemma SortableOrder(x: U64, y: U64)
    ensures Sortable(x) < Sortable(y) <==> DoubleValue(x) < DoubleValue(y) || NegativeZeroThenZero(x, y)
    ensures Sortable(x) == Sortable(y) <==> x == y
  {
    var zero := 0;
    var m, n := Magnitude(x), Magnitude(y);
    MagnitudeIs(x);
    MagnitudeIs(y);
    AbsValueOrder(m, n);
    AbsValueOrder(n, m);
    AbsValueOrder(zero, m);
    AbsValueOrder(zero, n);
    assert AbsValue(zero) == 0;
    SignedOrder(x, y, m, n, AbsValue(m), AbsValue(n));
  }

  /** The order of signed values, from that of magnitudes and of absolute values. */
  lemma SignedOrder(x: U64, y: U64, m: nat, n: nat, a: nat, b: nat)
    requires m == if Negative(x) then x - SIGN_MASK else x
    requires n == if Negative(y) then y - SIGN_MASK else y
    requires (a < b <==> m < n) && (b < a <==> n < m) && (0 < a <==> 0 < m) && (0 < b <==> 0 < n)
    ensures
      var v := if Negative(x) then 0 - a else a;
      var w := if Negative(y) then 0 - b else b;
      Sortable(x) < Sortable(y) <==> v < w || NegativeZeroThenZero(x, y)
  {
  }

  lemma KeyOrder(a: U64, b: U64)
    ensures LexLess(Hex(a, KEY_DIGITS), Hex(b, KEY_DIGITS)) <==> a < b
    ensures Hex(a, KEY_DIGITS) == Hex(b, KEY_DIGITS) <==> a == b
  {
    Hex16Covers(a);
    Hex16Covers(b);
    HexOrder(a, b, KEY_DIGITS);
  }

  lemma ReversedKey(a: U64)
    ensures ReverseSortable(Hex(a, KEY_DIGITS)) == Hex(U64_MAX - a, KEY_DIGITS)
  {
    Hex16Covers(a);
    HexRoundTrip(a, KEY_DIGITS);
  }

  /** The key order is the numeric order, with -0 just below +0, and the reversed keys
      order the other way round; equal keys come from equal bits only. */
  lemma NumericKeysOrder(x: U64, y: U64)
    requires Finite(x) && Finite(y)
    ensures
      var kx, ky := SortableFloat64(x), SortableFloat64(y);
      && (LexLess(kx, ky) <==> DoubleValue(x) < DoubleValue(y) || NegativeZeroThenZero(x, y))
      && (LexLess(ReverseSortable(ky), ReverseSortable(kx)) <==> LexLess(kx, ky))
      && (kx == ky <==> x == y) && (ReverseSortable(kx) == ReverseSortable(ky) <==> x == y)
  {
    hide LexLess, Hex, FromHex, Sortable, DoubleValue, ReverseSortable;
    SortableOrder(x, y);
    KeyOrder(Sortable(x), Sortable(y));
    ReversedKey(Sortable(x));
    ReversedKey(Sortable(y));
    KeyOrder(U64_MAX - Sortable(y), U64_MAX - Sortable(x));
  }

  lemma KeyAlphabet(sortable: string)
    ensures '/' !in ReverseSortable(sortable)
    ensures forall bits :: '/' !in SortableFloat64(bits)
  {
    forall n: nat, width: nat
      ensures '/' !in Hex(n, width)
    {
      HexAlphabet(n, width);
    }
  }
}
