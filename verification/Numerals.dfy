/** Positional numerals, most significant digit first, in the two radices of the source:
    64 (base64 digits) and 256 (bytes).  Base64 and the allocator's hidden offset slot are
    both stated in these terms. */
module Numerals {

  type byte = x: nat | x < 256

  type sextet = x: nat | x < 64

  /** The largest std::size_t, and the largest uint64_t. */
  const SIZE_MAX: nat := 0xFFFF_FFFF_FFFF_FFFF

  datatype Radix = R64 | R256 {

    function Base(): nat {
      if R64? then 64 else 256
    }

    function Times(v: nat): nat {
      if R64? then v * 64 else v * 256
    }

    function Quotient(v: nat): nat {
      if R64? then v / 64 else v / 256
    }

    function Remainder(v: nat): nat {
      if R64? then v % 64 else v % 256
    }

    /** How many numbers n digits can tell apart. */
    function Range(n: nat): (p: nat)
      ensures p > 0
    {
      if n == 0 then 1 else Times(Range(n - 1))
    }

    /** v followed by n zero digits. */
    function Scale(v: nat, n: nat): nat {
      if n == 0 then v else Times(Scale(v, n - 1))
    }

    /** The number that the digits s denote. */
    function Value(s: seq<nat>): nat {
      if s == [] then 0 else Times(Value(s[..|s| - 1])) + s[|s| - 1]
    }

    /** The n low-order digits of v. */
    function Digits(v: nat, n: nat): (s: seq<nat>)
      ensures |s| == n
      ensures IsNumeral(s)
    {
      if n == 0 then [] else Digits(Quotient(v), n - 1) + [Remainder(v)]
    }

    predicate IsNumeral(s: seq<nat>) {
      forall i :: 0 <= i < |s| ==> s[i] < Base()
    }
  }

  function Bytes(v: nat, n: nat): (s: seq<byte>)
    ensures |s| == n
  {
    R256.Digits(v, n)
  }

  function Sextets(v: nat, n: nat): (s: seq<sextet>)
    ensures |s| == n
  {
    R64.Digits(v, n)
  }

  /** v << n */
  function ShiftLeft(v: nat, n: nat): nat {
    if n == 0 then v else 2 * ShiftLeft(v, n - 1)
  }

  /** v >> n */
  function ShiftRight(v: nat, n: nat): nat {
    if n == 0 then v else ShiftRight(v, n - 1) / 2
  }

  /** The shifts that Base64 needs. */
  lemma ShiftsByFactors(v: nat)
    ensures ShiftLeft(v, 0) == v && ShiftLeft(v, 2) == 4 * v && ShiftLeft(v, 4) == 16 * v
    ensures ShiftRight(v, 0) == v && ShiftRight(v, 2) == v / 4
    ensures ShiftRight(v, 4) == v / 16 && ShiftRight(v, 6) == v / 64
  {
  }

  /** Four digits of one radix have the range of three of the other. */
  lemma {:induction false} GroupRange(m: nat)
    ensures R64.Range(4 * m) == R256.Range(3 * m)
  {
    if m > 0 {
      GroupRange(m - 1);
      GroupSteps(0, m - 1);
    }
  }

  lemma GroupSteps(v: nat, m: nat)
    ensures R64.Range(4 * m + 4) == 0x100_0000 * R64.Range(4 * m)
    ensures R256.Range(3 * m + 3) == 0x100_0000 * R256.Range(3 * m)
    ensures R64.Scale(v, 4 * m + 4) == 0x100_0000 * R64.Scale(v, 4 * m)
    ensures R256.Scale(v, 3 * m + 3) == 0x100_0000 * R256.Scale(v, 3 * m)
  {
    assert R64.Range(4 * m + 4) == 64 * R64.Range(4 * m + 3) == 0x1000 * R64.Range(4 * m + 2)
        == 0x4_0000 * R64.Range(4 * m + 1);
    assert R256.Range(3 * m + 3) == 256 * R256.Range(3 * m + 2) == 0x1_0000 * R256.Range(3 * m + 1);
    assert R64.Scale(v, 4 * m + 4) == 64 * R64.Scale(v, 4 * m + 3) == 0x1000 * R64.Scale(v, 4 * m + 2)
        == 0x4_0000 * R64.Scale(v, 4 * m + 1);
    assert R256.Scale(v, 3 * m + 3) == 256 * R256.Scale(v, 3 * m + 2) == 0x1_0000 * R256.Scale(v, 3 * m + 1);
  }

  lemma {:induction false} GroupScale(v: nat, m: nat)
    ensures R64.Scale(v, 4 * m) == R256.Scale(v, 3 * m)
  {
    if m > 0 {
      GroupScale(v, m - 1);
      GroupSteps(v, m - 1);
    }
  }

  lemma EightBytes()
    ensures R256.Range(8) == 0x1_0000_0000_0000_0000
  {
  }

  /** The last digit and the rest can be told apart again. */
  lemma LastDigit(r: Radix, v: nat, d: nat)
    requires d < r.Base()
    ensures r.Quotient(r.Times(v) + d) == v && r.Remainder(r.Times(v) + d) == d
  {
  }

  /** A numeral of known length is determined by its value. */
  lemma {:induction false} DigitsOfValue(r: Radix, s: seq<nat>)
    requires r.IsNumeral(s)
    ensures r.Digits(r.Value(s), |s|) == s
  {
    if s != [] {
      DigitsOfValue(r, s[..|s| - 1]);
      hide Radix.Times, Radix.Quotient, Radix.Remainder;
      LastDigit(r, r.Value(s[..|s| - 1]), s[|s| - 1]);
      assert s == s[..|s| - 1] + [s[|s| - 1]];
    }
  }

  /** Reading n digits back gives the number, as long as it fits in n digits. */
  lemma {:induction false} ValueOfDigits(r: Radix, v: nat, n: nat)
    requires v < r.Range(n)
    ensures r.Value(r.Digits(v, n)) == v
  {
    if n > 0 {
      ValueOfDigits(r, r.Quotient(v), n - 1);
      assert r.Digits(v, n)[..n - 1] == r.Digits(r.Quotient(v), n - 1);
    }
  }

  lemma {:induction false} ValueInRange(r: Radix, s: seq<nat>)
    requires r.IsNumeral(s)
    ensures r.Value(s) < r.Range(|s|)
  {
    if s != [] {
      ValueInRange(r, s[..|s| - 1]);
    }
  }

  lemma ValueSnoc(r: Radix, s: seq<nat>, d: nat)
    ensures r.Value(s + [d]) == r.Times(r.Value(s)) + d
  {
  }

  lemma {:induction false} ValueAppend(r: Radix, s: seq<nat>, t: seq<nat>)
    ensures r.Value(s + t) == r.Scale(r.Value(s), |t|) + r.Value(t)
  {
    if t == [] {
      assert s + t == s;
    } else {
      var init, last := t[..|t| - 1], t[|t| - 1];
      ValueAppend(r, s, init);
      ValueSnoc(r, s + init, last);
      assert s + t == (s + init) + [last];
    }
  }

  /** The low m digits and the digits above them can be written separately. */
  lemma {:induction false} DigitsAppend(r: Radix, high: nat, low: nat, n: nat, m: nat)
    requires low < r.Range(m)
    ensures r.Digits(r.Scale(high, m) + low, n + m) == r.Digits(high, n) + r.Digits(low, m)
  {
    if m > 0 {
      var v, above := r.Scale(high, m) + low, r.Scale(high, m - 1);
      assert r.Quotient(v) == above + r.Quotient(low) && r.Remainder(v) == r.Remainder(low);
      DigitsAppend(r, high, r.Quotient(low), n, m - 1);
    }
  }

  lemma ProductMonotone(a: nat, b: nat, c: nat)
    ensures a < b ==> (a + 1) * c <= b * c
  {
  }

  lemma QuotientIs(v: nat, q: nat, r: nat, b: nat)
    requires r < b && v == q * b + r
    ensures v / b == q && v % b == r
  {
    var q' := v / b;
    assert v == q' * b + v % b;
    ProductMonotone(q, q', b);
    ProductMonotone(q', q, b);
  }
}
