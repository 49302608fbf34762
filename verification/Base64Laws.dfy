/** What the codec of incl/base64.hpp is for: values, round trips, canonical strings. */
module Base64Laws {
  import opened Numerals
  import opened Base64

  lemma DigitOfLetter(d: sextet)
    ensures Digit(Letter(d)) == d
  {
  }

  /** How many numbers k digits tell apart, in terms of the bytes that they hold. */
  lemma RangesApart(m: nat)
    ensures R64.Range(4 * m) == R256.Range(3 * m)
    ensures R64.Range(4 * m + 1) == 64 * R256.Range(3 * m)
    ensures R64.Range(4 * m + 2) == 16 * R256.Range(3 * m + 1)
    ensures R64.Range(4 * m + 3) == 4 * R256.Range(3 * m + 2)
  {
    GroupRange(m);
    assert R64.Range(4 * m + 1) == 64 * R64.Range(4 * m);
    assert R64.Range(4 * m + 2) == 64 * R64.Range(4 * m + 1);
    assert R64.Range(4 * m + 3) == 64 * R64.Range(4 * m + 2);
    assert R256.Range(3 * m + 1) == 256 * R256.Range(3 * m);
    assert R256.Range(3 * m + 2) == 256 * R256.Range(3 * m + 1);
  }

  lemma ShiftedLeftFits(v: nat, n: nat)
    requires v < R256.Range(n)
    ensures ShiftLeft(v, SpareBits(n)) < R64.Range(DigitCount(n))
  {
    hide Radix.Range, ShiftLeft, DigitCount, SpareBits;
    TailCounts(n);
    RangesApart(n / 3);
    ShiftsByFactors(v);
  }

  lemma ShiftedRightFits(v: nat, k: nat)
    requires v < R64.Range(k)
    ensures ShiftRight(v, 6 * k % 8) < R256.Range(3 * k / 4)
  {
    hide Radix.Range, ShiftRight;
    DecodeCounts(k);
    RangesApart(k / 4);
    ShiftsByFactors(v);
  }

  /** The digits of n bytes denote the number of the bytes, shifted left by 6k - 8n. */
  lemma EncodedValue(bytes: seq<byte>)
    ensures R64.Value(EncodedDigits(bytes)) == ShiftLeft(R256.Value(bytes), SpareBits(|bytes|))
  {
    hide Radix.Digits, Radix.Value, Radix.Range, ShiftLeft;
    ValueInRange(R256, bytes);
    ShiftedLeftFits(R256.Value(bytes), |bytes|);
    ValueOfDigits(R64, ShiftLeft(R256.Value(bytes), SpareBits(|bytes|)), DigitCount(|bytes|));
  }

  /** The bytes of k digits denote the number of the digits, shifted right by 6k mod 8. */
  lemma DecodedValue(ds: seq<sextet>)
    ensures R256.Value(DecodedDigits(ds)) == ShiftRight(R64.Value(ds), 6 * |ds| % 8)
  {
    hide Radix.Digits, Radix.Value, Radix.Range, ShiftRight;
    ValueInRange(R64, ds);
    ShiftedRightFits(R64.Value(ds), |ds|);
    ValueOfDigits(R256, ShiftRight(R64.Value(ds), 6 * |ds| % 8), 3 * |ds| / 4);
  }

  lemma PrefixOfEncoding(bytes: seq<byte>)
    ensures PrefixDigits(Encoding(bytes)) == EncodedDigits(bytes)
  {
    var ds := EncodedDigits(bytes);
    var s := Encoding(bytes);
    PadIsNoLetter();
    PrefixIs(s, |ds|);
    forall i | 0 <= i < |ds|
      ensures PrefixDigits(s)[i] == ds[i]
    {
      DigitOfLetter(ds[i]);
    }
  }

  lemma PrefixIs(s: seq<byte>, k: nat)
    requires k <= |s| && (k < |s| ==> !IsBase64(s[k]))
    requires forall i :: 0 <= i < k ==> IsBase64(s[i])
    ensures PrefixLength(s) == k
  {
  }

  /** What encoding shifts in, decoding shifts out, and the counts fit. */
  lemma ShiftBack(v: nat, n: nat)
    ensures 3 * DigitCount(n) / 4 == n
    ensures ShiftRight(ShiftLeft(v, SpareBits(n)), 6 * DigitCount(n) % 8) == v
  {
    hide ShiftLeft, ShiftRight;
    TailCounts(n);
    DecodeCounts(DigitCount(n));
    ShiftsByFactors(v);
    ShiftsByFactors(ShiftLeft(v, SpareBits(n)));
  }

  /** decode(encode(b)) == b for every byte sequence. */
  lemma RoundTrip(bytes: seq<byte>)
    ensures Decoding(Encoding(bytes)) == bytes
  {
    hide Radix.Digits, Radix.Value, ShiftLeft, ShiftRight, Encoding, DigitCount, SpareBits;
    PrefixOfEncoding(bytes);
    EncodedValue(bytes);
    ShiftBack(R256.Value(bytes), |bytes|);
    DigitsOfValue(R256, bytes);
  }

  /** Whether the low bits that no byte takes are zero. */
  predicate SpareBitsZero(ds: seq<sextet>) {
    && |ds| % 4 != 1
    && (|ds| % 4 == 2 ==> ds[|ds| - 1] % 16 == 0)
    && (|ds| % 4 == 3 ==> ds[|ds| - 1] % 4 == 0)
  }

  /** Canonical in the sense of section 3.5 of RFC 4648: letters, then just enough '=' to
      reach a multiple of four, and no spare bit set. */
  predicate Canonical(s: seq<byte>) {
    var k := PrefixLength(s);
    s[k..] == Padding((4 - k % 4) % 4) && SpareBitsZero(PrefixDigits(s))
  }

  lemma LowBits(v: nat, last: sextet)
    ensures (v * 64 + last) / 16 * 16 == v * 64 + last <==> last % 16 == 0
    ensures (v * 64 + last) / 4 * 4 == v * 64 + last <==> last % 4 == 0
  {
    QuotientIs(v * 64 + last, 4 * v + last / 16, last % 16, 16);
    QuotientIs(v * 64 + last, 16 * v + last / 4, last % 4, 4);
  }

  /** The spare bits are zero exactly when shifting them out and back loses nothing. */
  lemma SpareBitsShiftedOut(ds: seq<sextet>)
    requires |ds| % 4 != 1
    ensures SpareBitsZero(ds) <==>
            ShiftLeft(ShiftRight(R64.Value(ds), 6 * |ds| % 8), 6 * |ds| % 8) == R64.Value(ds)
  {
    hide Radix.Value, ShiftLeft, ShiftRight;
    DecodeCounts(|ds|);
    ShiftsByFactors(R64.Value(ds));
    ShiftsByFactors(ShiftRight(R64.Value(ds), 6 * |ds| % 8));
    if |ds| % 4 != 0 {
      var init, last := ds[..|ds| - 1], ds[|ds| - 1];
      assert ds == init + [last];
      ValueSnoc(R64, init, last);
      LowBits(R64.Value(init), last);
    }
  }

  lemma CountsBack(k: nat)
    requires k % 4 != 1
    ensures DigitCount(3 * k / 4) == k && SpareBits(3 * k / 4) == 6 * k % 8
  {
  }

  /** Re-encoding decoded digits gives the same digits exactly when no spare bit is set. */
  lemma ReencodedDigits(ds: seq<sextet>)
    ensures EncodedDigits(DecodedDigits(ds)) == ds <==> SpareBitsZero(ds)
  {
    hide Radix.Digits, Radix.Value, ShiftLeft, ShiftRight, SpareBitsZero, DigitCount, SpareBits;
    if |ds| % 4 == 1 {
      OneLetterIsNeverCanonical(ds);
    } else {
      CountsBack(|ds|);
      EncodedValue(DecodedDigits(ds));
      DecodedValue(ds);
      SameValueSameDigits(EncodedDigits(DecodedDigits(ds)), ds);
      SpareBitsShiftedOut(ds);
    }
  }

  lemma OneLetterIsNeverCanonical(ds: seq<sextet>)
    requires |ds| % 4 == 1
    ensures EncodedDigits(DecodedDigits(ds)) != ds && !SpareBitsZero(ds)
  {
  }

  lemma SameValueSameDigits(a: seq<sextet>, b: seq<sextet>)
    requires |a| == |b|
    ensures R64.Value(a) == R64.Value(b) <==> a == b
  {
  }

  lemma PrefixLetters(s: seq<byte>)
    ensures Letters(PrefixDigits(s)) == s[..PrefixLength(s)]
  {
  }

  /** encode(decode(s)) == s exactly for the canonical strings. */
  lemma CanonicalInverse(s: seq<byte>)
    ensures Encoding(Decoding(s)) == s <==> Canonical(s)
  {
    hide EncodedDigits, DecodedDigits, SpareBitsZero, Letters;
    var k, ds := PrefixLength(s), PrefixDigits(s);
    var es := EncodedDigits(Decoding(s));
    PrefixLetters(s);
    ReencodedDigits(ds);
    assert s == s[..k] + s[k..];
    if Encoding(Decoding(s)) == s {
      PrefixOfEncoding(Decoding(s));
      assert es == ds;
    }
  }

  /** The decoder is total, reads nothing past the first character outside the alphabet,
      and gives floor(3k / 4) bytes for k letters. */
  lemma DecodeReadsOnlyThePrefix(s: seq<byte>, t: seq<byte>)
    requires t == [] || !IsBase64(t[0])
    ensures Decoding(s[..PrefixLength(s)] + t) == Decoding(s)
    ensures |Decoding(s)| == 3 * PrefixLength(s) / 4
  {
    hide IsBase64;
    var k := PrefixLength(s);
    PrefixIs(s[..k] + t, k);
    assert (s[..k] + t)[..k] == s[..k];
  }

  /** Whole groups decode on their own. */
  lemma DecodeConcatenates(s: seq<byte>, t: seq<byte>)
    requires |s| % 4 == 0 && forall i :: 0 <= i < |s| ==> IsBase64(s[i])
    ensures Decoding(s + t) == Decoding(s) + Decoding(t)
  {
    hide IsBase64, DecodedDigits, Digit;
    PrefixIs(s, |s|);
    PrefixIs(s + t, |s| + PrefixLength(t));
    assert PrefixDigits(s + t) == PrefixDigits(s) + PrefixDigits(t);
    DigitsConcatenate(PrefixDigits(s), PrefixDigits(t));
  }

  /** Four characters for every three bytes or part of three: letters as long as six bits begin
      within the bytes, and '=' after that. */
  lemma EncodingShape(bytes: seq<byte>, i: nat)
    ensures |Encoding(bytes)| == 4 * ((|bytes| + 2) / 3)
    ensures i < |Encoding(bytes)| ==>
              if 6 * i < 8 * |bytes| then IsBase64(Encoding(bytes)[i]) else Encoding(bytes)[i] == '=' as int
  {
    hide EncodedDigits, IsBase64;
    TailCounts(|bytes|);
    var r := |bytes| % 3;
    assert |bytes| == 3 * (|bytes| / 3) + r;
    assert |EncodedDigits(bytes)| == DigitCount(|bytes|) by { DigitsAsCounted(bytes); }
  }

  lemma DigitsAsCounted(bytes: seq<byte>)
    ensures |EncodedDigits(bytes)| == DigitCount(|bytes|)
  {
  }

  lemma EncodingOfOne(a: byte)
    ensures Encoding([a]) == [Letter(a / 4), Letter(a % 4 * 16), PAD, PAD]
  {
    hide Encoding, EncodedGroups, Letter;
    EncodeNoTail([a]);
    EncodeTail([a], 1);
    assert Split(a, 0, 0)[..2] == [a / 4, a % 4 * 16];
  }

  lemma EncodingOfTwo(a: byte, b: byte)
    ensures Encoding([a, b]) == [Letter(a / 4), Letter(a % 4 * 16 + b / 16), Letter(b % 16 * 4), PAD]
  {
    hide Encoding, EncodedGroups, Letter;
    EncodeNoTail([a, b]);
    EncodeTail([a, b], 2);
    assert Split(a, b, 0)[..3] == [a / 4, a % 4 * 16 + b / 16, b % 16 * 4];
  }

  lemma EncodingOfThree(a: byte, b: byte, c: byte)
    ensures Encoding([a, b, c]) == [Letter(a / 4), Letter(a % 4 * 16 + b / 16), Letter(b % 16 * 4 + c / 64), Letter(c % 64)]
  {
    hide Encoding, EncodedGroups, Letter;
    EncodeNoTail([a, b, c]);
    EncodeGroup([a, b, c], 0);
  }

  /** Three of the test vectors in section 10 of RFC 4648, "f", "fo" and "foo", and one with the
      last two letters of the alphabet. */
  lemma TestVectors()
    ensures Encoding([0x66]) == ['Z' as int, 'g' as int, '=' as int, '=' as int]
    ensures Encoding([0x66, 0x6f]) == ['Z' as int, 'm' as int, '8' as int, '=' as int]
    ensures Encoding([0x66, 0x6f, 0x6f]) == ['Z' as int, 'm' as int, '9' as int, 'v' as int]
    ensures Encoding([0xfb, 0xf0]) == ['+' as int, '/' as int, 'A' as int, '=' as int]
  {
    hide Encoding;
    EncodingOfOne(0x66);
    EncodingOfTwo(0x66, 0x6f);
    EncodingOfThree(0x66, 0x6f, 0x6f);
    EncodingOfTwo(0xfb, 0xf0);
  }

  /** A number followed by k zero digits, in terms of the bytes that they hold. */
  lemma ScaledApart(v: nat, j: nat)
    ensures R64.Scale(v, 4 * j) == R256.Scale(v, 3 * j)
    ensures R64.Scale(v, 4 * j + 1) == 64 * R256.Scale(v, 3 * j)
    ensures R64.Scale(v, 4 * j + 2) == 16 * R256.Scale(v, 3 * j + 1)
    ensures R64.Scale(v, 4 * j + 3) == 4 * R256.Scale(v, 3 * j + 2)
  {
    GroupScale(v, j);
    assert R64.Scale(v, 4 * j + 1) == 64 * R64.Scale(v, 4 * j);
    assert R64.Scale(v, 4 * j + 2) == 64 * R64.Scale(v, 4 * j + 1);
    assert R64.Scale(v, 4 * j + 3) == 64 * R64.Scale(v, 4 * j + 2);
    assert R256.Scale(v, 3 * j + 1) == 256 * R256.Scale(v, 3 * j);
    assert R256.Scale(v, 3 * j + 2) == 256 * R256.Scale(v, 3 * j + 1);
  }

  lemma ShiftPastWholeBytes(v: nat, w: nat, k: nat)
    ensures ShiftRight(R64.Scale(v, k) + w, 6 * k % 8)
         == R256.Scale(v, 3 * k / 4) + ShiftRight(w, 6 * k % 8)
  {
    hide Radix.Scale, ShiftRight;
    DecodeCounts(k);
    ScaledApart(v, k / 4);
    ShiftsByFactors(R64.Scale(v, k) + w);
    ShiftsByFactors(w);
  }

  lemma GroupCounts(j: nat, k: nat)
    requires j % 4 == 0
    ensures 6 * (j + k) % 8 == 6 * k % 8 && 3 * (j + k) / 4 == 3 * j / 4 + 3 * k / 4
  {
    var q := j / 4;
    QuotientIs(6 * (j + k), 3 * q + 6 * k / 8, 6 * k % 8, 8);
    QuotientIs(3 * (j + k), 3 * q + 3 * k / 4, 3 * k % 4, 4);
    QuotientIs(3 * j, 3 * q, 0, 4);
  }

  lemma DigitsConcatenate(ds: seq<sextet>, es: seq<sextet>)
    requires |ds| % 4 == 0
    ensures DecodedDigits(ds + es) == DecodedDigits(ds) + DecodedDigits(es)
  {
    hide Radix.Digits, Radix.Value, Radix.Range, Radix.Scale, ShiftRight;
    GroupCounts(|ds|, |es|);
    DecodeCounts(|ds|);
    ShiftsByFactors(R64.Value(ds));
    ValueAppend(R64, ds, es);
    ShiftPastWholeBytes(R64.Value(ds), R64.Value(es), |es|);
    ValueInRange(R64, es);
    ShiftedRightFits(R64.Value(es), |es|);
    DigitsAppend(R256, R64.Value(ds), ShiftRight(R64.Value(es), 6 * |es| % 8), 3 * |ds| / 4, 3 * |es| / 4);
  }
}
