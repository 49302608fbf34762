/** The codec of incl/base64.hpp.  Strings are sequences of unsigned char values. */
module Base64 {
  import opened Numerals
  import opened BitMasks

  const UPPER := "ABCDEFGHIJKLMNOPQRSTUVWXYZ"
  const LOWER := "abcdefghijklmnopqrstuvwxyz"
  const OTHER := "0123456789+/"
  const CHARS := UPPER + LOWER + OTHER

  /** std::string::npos */
  const NPOS: nat := 0xFFFF_FFFF_FFFF_FFFF

  /** '=' */
  const PAD: byte := 61

  /** isalnum in the "C" locale */
  predicate IsAlnum(c: byte) {
    || '0' as int <= c <= '9' as int
    || 'A' as int <= c <= 'Z' as int
    || 'a' as int <= c <= 'z' as int
  }

  predicate IsBase64(c: byte) {
    IsAlnum(c) || c == '+' as int || c == '/' as int
  }

  /** The alphabet of table 1 in section 4 of RFC 4648. */
  function Letter(d: sextet): (c: byte)
    ensures IsBase64(c)
  {
    if d < 26 then 'A' as int + d
    else if d < 52 then 'a' as int + (d - 26)
    else if d < 62 then '0' as int + (d - 52)
    else if d == 62 then '+' as int
    else '/' as int
  }

  /** The digit that a letter of the alphabet stands for. */
  function Digit(c: byte): (d: sextet)
    requires IsBase64(c)
    ensures Letter(d) == c
  {
    if 'A' as int <= c <= 'Z' as int then c - 'A' as int
    else if 'a' as int <= c <= 'z' as int then c - 'a' as int + 26
    else if '0' as int <= c <= '9' as int then c - '0' as int + 52
    else if c == '+' as int then 62
    else 63
  }

  lemma CharsIsTheAlphabet(d: sextet)
    ensures |CHARS| == 64 && CHARS[d] as int == Letter(d)
  {
    if d < 26 {
      assert UPPER[d] as int == 'A' as int + d;
    } else if d < 52 {
      assert LOWER[d - 26] as int == 'a' as int + (d - 26);
    } else {
      assert OTHER[d - 52] as int == Letter(d);
    }
  }

  /** chars.find(c), searching from position i */
  function Find(c: byte, i: nat): nat
    requires i <= 64
    decreases 64 - i
  {
    CharsIsTheAlphabet(0);
    if i == 64 then NPOS else if CHARS[i] as int == c then i else Find(c, i + 1)
  }

  /** The position of c in the table, cast to a byte. */
  function FindByte(c: byte): byte {
    Find(c, 0) % 256
  }

  lemma {:induction false} FindFinds(c: byte, i: nat)
    requires i <= 64
    requires forall d: sextet :: d < i ==> Letter(d) != c
    ensures Find(c, i) == if IsBase64(c) then Digit(c) else NPOS
    decreases 64 - i
  {
    if i < 64 {
      CharsIsTheAlphabet(i);
      if Letter(i) != c {
        FindFinds(c, i + 1);
      }
    }
  }

  /** A letter is found at its own digit; anything else, and in particular the '\0' that
      fills unused slots, becomes the sentinel 255. */
  lemma FindByteIsDigitOr255(c: byte)
    ensures FindByte(c) == if IsBase64(c) then Digit(c) else 255
  {
    FindFinds(c, 0);
  }

  function Letters(ds: seq<sextet>): (s: seq<byte>)
    ensures |s| == |ds|
    ensures forall i :: 0 <= i < |s| ==> s[i] == Letter(ds[i])
  {
    seq(|ds|, i requires 0 <= i < |ds| => Letter(ds[i]))
  }

  lemma LettersAppend(a: seq<sextet>, b: seq<sextet>)
    ensures Letters(a + b) == Letters(a) + Letters(b)
  {
  }

  function DigitsOf(s: seq<byte>): (ds: seq<sextet>)
    requires forall i :: 0 <= i < |s| ==> IsBase64(s[i])
    ensures |ds| == |s|
    ensures forall i :: 0 <= i < |s| ==> ds[i] == Digit(s[i])
  {
    seq(|s|, i requires 0 <= i < |s| => Digit(s[i]))
  }

  function Padding(n: nat): (s: seq<byte>)
    ensures |s| == n
  {
    seq(n, i => PAD)
  }

  // ---------------------------------------------------------------- specification

  /** How many digits n bytes need: the least k with 6k >= 8n. */
  function DigitCount(n: nat): nat {
    (4 * n + 2) / 3
  }

  /** Spare low bits in the last of those digits. */
  function SpareBits(n: nat): nat {
    6 * DigitCount(n) - 8 * n
  }

  /** The digits of the big-endian number that the bytes denote, shifted left to fill whole
      digits. */
  function EncodedDigits(bytes: seq<byte>): seq<sextet> {
    Sextets(ShiftLeft(R256.Value(bytes), SpareBits(|bytes|)), DigitCount(|bytes|))
  }

  /** Section 4 of RFC 4648: the digits as letters, padded to a multiple of four. */
  function Encoding(bytes: seq<byte>): seq<byte> {
    var ds := EncodedDigits(bytes);
    Letters(ds) + Padding((4 - |ds| % 4) % 4)
  }

  /** Length of the longest prefix of alphabet letters. */
  function PrefixLength(s: seq<byte>): (k: nat)
    ensures k <= |s|
    ensures forall i :: 0 <= i < k ==> IsBase64(s[i])
    ensures k < |s| ==> !IsBase64(s[k])
  {
    if s != [] && IsBase64(s[0]) then 1 + PrefixLength(s[1..]) else 0
  }

  function PrefixDigits(s: seq<byte>): seq<sextet> {
    DigitsOf(s[..PrefixLength(s)])
  }

  /** The whole bytes of the number that k digits denote, dropping 6k mod 8 spare bits. */
  function DecodedDigits(ds: seq<sextet>): seq<byte> {
    Bytes(ShiftRight(R64.Value(ds), 6 * |ds| % 8), 3 * |ds| / 4)
  }

  function Decoding(s: seq<byte>): seq<byte> {
    DecodedDigits(PrefixDigits(s))
  }

  // ---------------------------------------------------------------- encoder

  /** The four digits of three bytes. */
  function Split(a: byte, b: byte, c: byte): (ds: seq<sextet>)
    ensures |ds| == 4
  {
    [a / 4, a % 4 * 16 + b / 16, b % 16 * 4 + c / 64, c % 64]
  }

  lemma SplitAppends(bytes: seq<byte>, n: nat, a: byte, b: byte, c: byte)
    ensures Sextets(R256.Value(bytes + [a, b, c]), n + 4)
         == Sextets(R256.Value(bytes), n) + Split(a, b, c)
  {
    var v := R256.Value(bytes);
    var w := R256.Value(bytes + [a, b, c]);
    assert w == ((v * 256 + a) * 256 + b) * 256 + c by {
      ValueSnoc(R256, bytes, a);
      ValueSnoc(R256, bytes + [a], b);
      ValueSnoc(R256, bytes + [a] + [b], c);
      assert bytes + [a, b, c] == bytes + [a] + [b] + [c];
    }
    FourDigits(v, w, n, Split(a, b, c));
  }

  lemma FourDigits(v: nat, w: nat, n: nat, ds: seq<sextet>)
    requires |ds| == 4 && w == (((v * 64 + ds[0]) * 64 + ds[1]) * 64 + ds[2]) * 64 + ds[3]
    ensures Sextets(w, n + 4) == Sextets(v, n) + ds
  {
    OneDigit(((v * 64 + ds[0]) * 64 + ds[1]) * 64 + ds[2], ds[3], n + 3);
    OneDigit((v * 64 + ds[0]) * 64 + ds[1], ds[2], n + 2);
    OneDigit(v * 64 + ds[0], ds[1], n + 1);
    OneDigit(v, ds[0], n);
    assert [ds[0]] + [ds[1]] + [ds[2]] + [ds[3]] == ds;
  }

  lemma OneDigit(v: nat, d: sextet, n: nat)
    ensures Sextets(v * 64 + d, n + 1) == Sextets(v, n) + [d]
  {
  }

  lemma SplitByMasks(a: byte, b: byte, c: byte)
    ensures BitAnd(a, 0xfc) / 4 == Split(a, b, c)[0]
    ensures BitAnd(a, 0x03) * 16 + BitAnd(b, 0xf0) / 16 == Split(a, b, c)[1]
    ensures BitAnd(b, 0x0f) * 4 + BitAnd(c, 0xc0) / 64 == Split(a, b, c)[2]
    ensures BitAnd(c, 0x3f) == Split(a, b, c)[3]
  {
    hide BitAnd;
    TopSix(a);
    And03(a);
    TopFour(b);
    And0f(b);
    TopTwo(c);
    And3f(c);
  }

  /** Three bytes to four digits, with the masks and shifts of the source. */
  method ThreeToFour(charArray3: array<byte>, charArray4: array<byte>)
    requires charArray3.Length == 3 && charArray4.Length == 4 && charArray3 != charArray4
    modifies charArray4
    ensures charArray4[..] == Split(charArray3[0], charArray3[1], charArray3[2])
  {
    hide *;
    SplitByMasks(charArray3[0], charArray3[1], charArray3[2]);
    charArray4[0] := BitAnd(charArray3[0], 0xfc) / 4;
    charArray4[1] := BitAnd(charArray3[0], 0x03) * 16 + BitAnd(charArray3[1], 0xf0) / 16;
    charArray4[2] := BitAnd(charArray3[1], 0x0f) * 4 + BitAnd(charArray3[2], 0xc0) / 64;
    charArray4[3] := BitAnd(charArray3[2], 0x3f);
  }

  /** The letters of the first p bytes, a multiple of three. */
  function EncodedGroups(bytes: seq<byte>, p: nat): seq<byte>
    requires p <= |bytes|
  {
    Letters(Sextets(R256.Value(bytes[..p]), p / 3 * 4))
  }

  lemma EncodeGroup(bytes: seq<byte>, p: nat)
    requires p + 3 <= |bytes| && p % 3 == 0
    ensures EncodedGroups(bytes, p + 3)
         == EncodedGroups(bytes, p) + Letters(Split(bytes[p], bytes[p + 1], bytes[p + 2]))
  {
    SplitAppends(bytes[..p], p / 3 * 4, bytes[p], bytes[p + 1], bytes[p + 2]);
    assert bytes[..p + 3] == bytes[..p] + [bytes[p], bytes[p + 1], bytes[p + 2]];
  }

  lemma TailCounts(n: nat)
    ensures n % 3 == 0 ==> DigitCount(n) == n / 3 * 4 && SpareBits(n) == 0
    ensures n % 3 == 1 ==> DigitCount(n) == n / 3 * 4 + 2 && SpareBits(n) == 4
    ensures n % 3 == 2 ==> DigitCount(n) == n / 3 * 4 + 3 && SpareBits(n) == 2
  {
  }

  lemma TwoDigits(v: nat, a: byte, n: nat)
    ensures Sextets((v * 256 + a) * 16, n + 2) == Sextets(v, n) + [a / 4, a % 4 * 16]
  {
    OneDigit(v * 64 + a / 4, a % 4 * 16, n + 1);
    OneDigit(v, a / 4, n);
  }

  lemma ThreeDigits(v: nat, a: byte, b: byte, n: nat)
    ensures Sextets(((v * 256 + a) * 256 + b) * 4, n + 3)
         == Sextets(v, n) + [a / 4, a % 4 * 16 + b / 16, b % 16 * 4]
  {
    var d0, d1, d2 := a / 4, a % 4 * 16 + b / 16, b % 16 * 4;
    OneDigit((v * 64 + d0) * 64 + d1, d2, n + 2);
    OneDigit(v * 64 + d0, d1, n + 1);
    OneDigit(v, d0, n);
  }

  lemma EncodeTailOfOne(full: seq<byte>, a: byte)
    requires |full| % 3 == 0
    ensures EncodedDigits(full + [a]) == Sextets(R256.Value(full), |full| / 3 * 4) + [a / 4, a % 4 * 16]
  {
    hide Radix.Digits, Radix.Value, ShiftLeft, DigitCount, SpareBits;
    ValueSnoc(R256, full, a);
    TailCounts(|full| + 1);
    ShiftsByFactors(R256.Value(full + [a]));
    TwoDigits(R256.Value(full), a, |full| / 3 * 4);
  }

  lemma EncodeTailOfTwo(full: seq<byte>, a: byte, b: byte)
    requires |full| % 3 == 0
    ensures EncodedDigits(full + [a] + [b])
         == Sextets(R256.Value(full), |full| / 3 * 4) + [a / 4, a % 4 * 16 + b / 16, b % 16 * 4]
  {
    hide Radix.Digits, Radix.Value, ShiftLeft, DigitCount, SpareBits;
    ValueSnoc(R256, full, a);
    ValueSnoc(R256, full + [a], b);
    TailCounts(|full| + 2);
    ShiftsByFactors(R256.Value(full + [a] + [b]));
    ThreeDigits(R256.Value(full), a, b, |full| / 3 * 4);
  }

  /** Two digits and four spare bits for a rest of one byte, three digits and two spare bits
      for a rest of two: the leading digits of the group filled up with zero bytes. */
  lemma EncodeTail(bytes: seq<byte>, rest: nat)
    requires rest == |bytes| % 3 && rest > 0
    ensures var p := |bytes| - rest;
            Encoding(bytes) == EncodedGroups(bytes, p)
                             + Letters(Split(bytes[p], if rest == 2 then bytes[p + 1] else 0, 0)[..rest + 1])
                             + Padding(3 - rest)
  {
    hide EncodedDigits, Radix.Digits, Radix.Value, Letters;
    var p := |bytes| - rest;
    var groups := Sextets(R256.Value(bytes[..p]), p / 3 * 4);
    var ds := EncodedDigits(bytes);
    if rest == 1 {
      EncodeTailOfOne(bytes[..p], bytes[p]);
      assert bytes == bytes[..p] + [bytes[p]];
      assert ds == groups + Split(bytes[p], 0, 0)[..2];
    } else {
      EncodeTailOfTwo(bytes[..p], bytes[p], bytes[p + 1]);
      assert bytes == bytes[..p] + [bytes[p]] + [bytes[p + 1]];
      assert ds == groups + Split(bytes[p], bytes[p + 1], 0)[..3];
    }
    LettersAppend(groups, ds[|groups|..]);
    assert ds == groups + ds[|groups|..];
  }

  lemma EncodeNoTail(bytes: seq<byte>)
    ensures EncodedGroups(bytes, 0) == []
    ensures |bytes| % 3 == 0 ==> Encoding(bytes) == EncodedGroups(bytes, |bytes|)
  {
    TailCounts(|bytes|);
    ShiftsByFactors(R256.Value(bytes));
    assert bytes[..|bytes|] == bytes;
  }

  /** Appends the letters of the first n digits of the group. */
  method AppendLetters(ret0: seq<byte>, charArray4: array<byte>, n: nat) returns (ret: seq<byte>)
    requires n <= charArray4.Length
    requires forall t :: 0 <= t < charArray4.Length ==> charArray4[t] < 64
    ensures ret == ret0 + Letters(charArray4[..n])
  {
    ret := ret0;
    var j := 0;
    while j < n
      invariant 0 <= j <= n
      invariant ret == ret0 + Letters(charArray4[..j])
    {
      CharsIsTheAlphabet(charArray4[j]);
      ret := ret + [CHARS[charArray4[j]] as int];
      j := j + 1;
    }
  }

  /** The group of i < 3 bytes left over at the end. */
  method EncodeRest(ret0: seq<byte>, charArray3: array<byte>, rest: nat) returns (ret: seq<byte>)
    requires charArray3.Length == 3 && 0 < rest < 3
    modifies charArray3
    ensures ret == ret0
                 + Letters(Split(old(charArray3[0]), if rest == 2 then old(charArray3[1]) else 0, 0)[..rest + 1])
                 + Padding(3 - rest)
  {
    var charArray4 := new byte[4];
    var j := rest;
    while j < 3
      invariant rest <= j <= 3
      invariant forall t :: 0 <= t < rest ==> charArray3[t] == old(charArray3[t])
      invariant forall t :: rest <= t < j ==> charArray3[t] == 0
    {
      charArray3[j] := 0;
      j := j + 1;
    }
    ThreeToFour(charArray3, charArray4);
    ret := AppendLetters(ret0, charArray4, rest + 1);
    assert charArray4[..rest + 1] == charArray4[..][..rest + 1];
    ghost var letters := ret;
    var i := rest;
    while i < 3
      invariant rest <= i <= 3
      invariant ret == letters + Padding(i - rest)
    {
      ret := ret + [PAD];
      i := i + 1;
    }
  }

  method Encode(bytes: seq<byte>) returns (ret: seq<byte>)
    ensures ret == Encoding(bytes)
  {
    hide *;
    EncodeNoTail(bytes);
    ret := [];
    var i := 0;
    var charArray3 := new byte[3];
    var charArray4 := new byte[4];
    var inLen, next := |bytes|, 0;
    ghost var groups := 0;
    while inLen > 0
      invariant next + inLen == |bytes| && 0 <= inLen && 0 <= groups && 0 <= i < 3 && next == 3 * groups + i
      invariant forall t :: 0 <= t < i ==> charArray3[t] == bytes[next - i + t]
      invariant ret == EncodedGroups(bytes, next - i)
    {
      inLen := inLen - 1;
      charArray3[i] := bytes[next];
      i, next := i + 1, next + 1;
      if i == 3 {
        ThreeToFour(charArray3, charArray4);
        ret := AppendLetters(ret, charArray4, 4);
        EncodeGroup(bytes, next - 3);
        i, groups := 0, groups + 1;
      }
    }
    if i != 0 {
      ret := EncodeRest(ret, charArray3, i);
      EncodeTail(bytes, i);
    }
  }

  // ---------------------------------------------------------------- decoder

  /** The three bytes of four digits.  A slot holding the sentinel 255 still gives some
      byte; DecodeTail shows that such a byte is never kept. */
  function Join(a: byte, b: byte, c: byte, d: byte): (bytes: seq<byte>)
    ensures |bytes| == 3
  {
    [(a * 4 + b / 16 % 4) % 256, (b % 16 * 16 + c / 4 % 16) % 256, (c % 4 * 64 + d) % 256]
  }

  lemma OneByte(v: nat, b: byte, n: nat)
    ensures Bytes(v * 256 + b, n + 1) == Bytes(v, n) + [b]
  {
  }

  lemma ThreeBytes(v: nat, x: byte, y: byte, z: byte, n: nat)
    ensures Bytes(((v * 256 + x) * 256 + y) * 256 + z, n + 3) == Bytes(v, n) + [x, y, z]
  {
    hide Radix.Digits;
    OneByte((v * 256 + x) * 256 + y, z, n + 2);
    OneByte(v * 256 + x, y, n + 1);
    OneByte(v, x, n);
  }

  lemma JoinAppends(ds: seq<sextet>, n: nat, a: sextet, b: sextet, c: sextet, d: sextet)
    ensures Bytes(R64.Value(ds + [a, b, c, d]), n + 3) == Bytes(R64.Value(ds), n) + Join(a, b, c, d)
  {
    hide Radix.Digits, Radix.Value, Bytes, ShiftRight, Join;
    ValueSnoc(R64, ds, a);
    ValueSnoc(R64, ds + [a], b);
    ValueSnoc(R64, ds + [a] + [b], c);
    ValueSnoc(R64, ds + [a] + [b] + [c], d);
    assert ds + [a, b, c, d] == ds + [a] + [b] + [c] + [d];
    JoinOfDigits(a, b, c, d);
    RegroupValue(R64.Value(ds), a, b, c, d);
    ThreeBytes(R64.Value(ds), a * 4 + b / 16, b % 16 * 16 + c / 4, c % 4 * 64 + d, n);
  }

  /** Of two digits the first byte, of three the first two, whatever follows them. */
  lemma JoinOfDigits(a: sextet, b: sextet, c: byte, d: byte)
    ensures Join(a, b, c, d)[0] == a * 4 + b / 16
    ensures c < 64 ==> Join(a, b, c, d)[1] == b % 16 * 16 + c / 4
    ensures d < 64 ==> Join(a, b, c, d)[2] == c % 4 * 64 + d
  {
    assert b / 16 < 4 && b / 16 % 4 == b / 16;
    if c < 64 {
      assert c / 4 < 16 && c / 4 % 16 == c / 4;
    }
  }

  lemma RegroupValue(v: nat, a: sextet, b: sextet, c: sextet, d: sextet)
    ensures (((v * 64 + a) * 64 + b) * 64 + c) * 64 + d
         == ((v * 256 + (a * 4 + b / 16)) * 256 + (b % 16 * 16 + c / 4)) * 256 + (c % 4 * 64 + d)
  {
  }

  /** The bytes of the first q digits, a multiple of four. */
  function DecodedGroups(ds: seq<sextet>, q: nat): seq<byte>
    requires q <= |ds|
  {
    Bytes(R64.Value(ds[..q]), q / 4 * 3)
  }

  lemma DecodeGroup(ds: seq<sextet>, q: nat)
    requires q + 4 <= |ds| && q % 4 == 0
    ensures DecodedGroups(ds, q + 4)
         == DecodedGroups(ds, q) + Join(ds[q], ds[q + 1], ds[q + 2], ds[q + 3])
  {
    hide Radix.Digits, Radix.Value, Join, Bytes;
    JoinAppends(ds[..q], q / 4 * 3, ds[q], ds[q + 1], ds[q + 2], ds[q + 3]);
    assert ds[..q + 4] == ds[..q] + [ds[q], ds[q + 1], ds[q + 2], ds[q + 3]];
  }

  lemma DecodeCounts(k: nat)
    ensures k % 4 == 0 ==> 3 * k / 4 == k / 4 * 3 && 6 * k % 8 == 0
    ensures k % 4 == 1 ==> 3 * k / 4 == k / 4 * 3 && 6 * k % 8 == 6
    ensures k % 4 == 2 ==> 3 * k / 4 == k / 4 * 3 + 1 && 6 * k % 8 == 4
    ensures k % 4 == 3 ==> 3 * k / 4 == k / 4 * 3 + 2 && 6 * k % 8 == 2
  {
  }

  lemma DecodeTailOfOne(full: seq<sextet>, a: sextet)
    requires |full| % 4 == 0
    ensures DecodedDigits(full + [a]) == Bytes(R64.Value(full), |full| / 4 * 3)
  {
    hide Radix.Digits, Radix.Value, Bytes, ShiftRight;
    DecodeCounts(|full| + 1);
    ShiftsByFactors(R64.Value(full + [a]));
    ValueSnoc(R64, full, a);
  }

  lemma DecodeTailOfTwo(full: seq<sextet>, a: sextet, b: sextet)
    requires |full| % 4 == 0
    ensures DecodedDigits(full + [a] + [b]) == Bytes(R64.Value(full), |full| / 4 * 3) + [a * 4 + b / 16]
  {
    hide Radix.Digits, Radix.Value, Bytes, ShiftRight;
    DecodeCounts(|full| + 2);
    ShiftsByFactors(R64.Value(full + [a] + [b]));
    ValueSnoc(R64, full, a);
    ValueSnoc(R64, full + [a], b);
    var v := R64.Value(full);
    assert ((v * 64 + a) * 64 + b) / 16 == v * 256 + (a * 4 + b / 16);
    OneByte(v, a * 4 + b / 16, |full| / 4 * 3);
  }

  lemma ThreeMoreDigits(g: nat)
    ensures 3 * (4 * g + 3) / 4 == 3 * g + 2 && 6 * (4 * g + 3) % 8 == 2
  {
  }

  lemma TwoBytes(v: nat, x: byte, y: byte, n: nat)
    ensures Bytes((v * 256 + x) * 256 + y, n + 2) == Bytes(v, n) + [x, y]
  {
    hide Bytes;
    OneByte(v * 256 + x, y, n + 1);
    OneByte(v, x, n);
  }

  lemma TopBitsOfThree(v: nat, a: sextet, b: sextet, c: sextet)
    ensures (((v * 64 + a) * 64 + b) * 64 + c) / 4
         == (v * 256 + (a * 4 + b / 16)) * 256 + (b % 16 * 16 + c / 4)
  {
    QuotientIs(((v * 64 + a) * 64 + b) * 64 + c,
               (v * 256 + (a * 4 + b / 16)) * 256 + (b % 16 * 16 + c / 4), c % 4, 4);
  }

  lemma DecodeTailOfThree(full: seq<sextet>, a: sextet, b: sextet, c: sextet)
    requires |full| % 4 == 0
    ensures DecodedDigits(full + [a] + [b] + [c])
         == Bytes(R64.Value(full), |full| / 4 * 3) + [a * 4 + b / 16, b % 16 * 16 + c / 4]
  {
    hide Radix.Digits, Radix.Value, Bytes, ShiftRight;
    var g := |full| / 4;
    ThreeMoreDigits(g);
    assert |full + [a] + [b] + [c]| == 4 * g + 3;
    ShiftsByFactors(R64.Value(full + [a] + [b] + [c]));
    ValueSnoc(R64, full, a);
    ValueSnoc(R64, full + [a], b);
    ValueSnoc(R64, full + [a] + [b], c);
    var v := R64.Value(full);
    var x: byte, y: byte := a * 4 + b / 16, b % 16 * 16 + c / 4;
    TopBitsOfThree(v, a, b, c);
    TwoBytes(v, x, y, 3 * g);
  }

  /** The tail: of the three bytes that the last, incomplete group gives once its unused
      slots hold 255, the first rest - 1 are kept, and they do not depend on those slots. */
  lemma DecodeTail(ds: seq<sextet>, rest: nat, b: byte, c: byte)
    requires rest == |ds| % 4 && rest > 0
    requires b == if rest >= 2 then ds[|ds| - rest + 1] else 255
    requires c == if rest >= 3 then ds[|ds| - rest + 2] else 255
    ensures var q := |ds| - rest;
            DecodedDigits(ds) == DecodedGroups(ds, q) + Join(ds[q], b, c, 255)[..rest - 1]
  {
    hide Radix.Digits, Radix.Value, Bytes, DecodedDigits, Join;
    var q := |ds| - rest;
    var a := ds[q];
    if rest == 1 {
      DecodeTailOfOne(ds[..q], a);
      assert ds == ds[..q] + [a];
    } else if rest == 2 {
      DecodeTailOfTwo(ds[..q], a, b);
      JoinOfDigits(a, b, c, 255);
      assert ds == ds[..q] + [a] + [b];
    } else {
      DecodeTailOfThree(ds[..q], a, b, c);
      JoinOfDigits(a, b, c, 255);
      assert ds == ds[..q] + [a] + [b] + [c];
    }
  }

  lemma DecodeNoTail(ds: seq<sextet>)
    ensures DecodedGroups(ds, 0) == []
    ensures |ds| % 4 == 0 ==> DecodedDigits(ds) == DecodedGroups(ds, |ds|)
  {
    DecodeCounts(|ds|);
    ShiftsByFactors(R64.Value(ds));
    assert ds[..|ds|] == ds;
  }

  lemma JoinByMasks(a: byte, b: byte, c: byte, d: byte)
    ensures (a * 4 + BitAnd(b, 0x30) / 16) % 256 == Join(a, b, c, d)[0]
    ensures (BitAnd(b, 0x0f) * 16 + BitAnd(c, 0x3c) / 4) % 256 == Join(a, b, c, d)[1]
    ensures (BitAnd(c, 0x03) * 64 + d) % 256 == Join(a, b, c, d)[2]
  {
    hide BitAnd;
    MiddleTwo(b);
    And0f(b);
    MiddleFour(c);
    And03(c);
  }

  /** Four digits to three bytes, with the masks, shifts and truncations of the source. */
  method FourToThree(charArray4: array<byte>, charArray3: array<byte>)
    requires charArray3.Length == 3 && charArray4.Length == 4 && charArray3 != charArray4
    modifies charArray3
    ensures charArray3[..] == Join(charArray4[0], charArray4[1], charArray4[2], charArray4[3])
  {
    hide *;
    JoinByMasks(charArray4[0], charArray4[1], charArray4[2], charArray4[3]);
    charArray3[0] := (charArray4[0] * 4 + BitAnd(charArray4[1], 0x30) / 16) % 256;
    charArray3[1] := (BitAnd(charArray4[1], 0x0f) * 16 + BitAnd(charArray4[2], 0x3c) / 4) % 256;
    charArray3[2] := (BitAnd(charArray4[2], 0x03) * 64 + charArray4[3]) % 256;
  }

  /** Replaces each character of the group by its digit, in place. */
  method FindAll(charArray4: array<byte>)
    requires charArray4.Length == 4
    modifies charArray4
    ensures forall t :: 0 <= t < 4 ==> charArray4[t] == FindByte(old(charArray4[t]))
  {
    hide FindByte;
    var i := 0;
    while i < 4
      invariant 0 <= i <= 4
      invariant forall t :: 0 <= t < i ==> charArray4[t] == FindByte(old(charArray4[t]))
      invariant forall t :: i <= t < 4 ==> charArray4[t] == old(charArray4[t])
    {
      charArray4[i] := FindByte(charArray4[i]);
      i := i + 1;
    }
  }

  /** Appends the first n bytes of the group. */
  method AppendBytes(ret0: seq<byte>, charArray3: array<byte>, n: nat) returns (ret: seq<byte>)
    requires n <= charArray3.Length
    ensures ret == ret0 + charArray3[..n]
  {
    ret := ret0;
    var j := 0;
    while j < n
      invariant 0 <= j <= n
      invariant ret == ret0 + charArray3[..j]
    {
      ret := ret + [charArray3[j]];
      j := j + 1;
    }
  }

  /** A full group of four letters. */
  method DecodeFour(ret0: seq<byte>, charArray4: array<byte>, charArray3: array<byte>) returns (ret: seq<byte>)
    requires charArray4.Length == 4 && charArray3.Length == 3 && charArray3 != charArray4
    requires forall t :: 0 <= t < 4 ==> IsBase64(charArray4[t])
    modifies charArray4, charArray3
    ensures ret == ret0 + Join(Digit(old(charArray4[0])), Digit(old(charArray4[1])),
                               Digit(old(charArray4[2])), Digit(old(charArray4[3])))
  {
    hide Digit, Join, FindByte;
    forall t | 0 <= t < 4
      ensures FindByte(charArray4[t]) == Digit(old(charArray4[t]))
    {
      FindByteIsDigitOr255(charArray4[t]);
    }
    FindAll(charArray4);
    FourToThree(charArray4, charArray3);
    ret := AppendBytes(ret0, charArray3, 3);
    assert charArray3[..3] == charArray3[..];
  }

  /** The group of 0 < rest < 4 letters left over at the end. */
  method DecodeRest(ret0: seq<byte>, charArray4: array<byte>, rest: nat) returns (ret: seq<byte>)
    requires charArray4.Length == 4 && 0 < rest < 4
    requires forall t :: 0 <= t < rest ==> IsBase64(charArray4[t])
    modifies charArray4
    ensures ret == ret0 + Join(Digit(old(charArray4[0])),
                               if rest >= 2 then Digit(old(charArray4[1])) else 255,
                               if rest >= 3 then Digit(old(charArray4[2])) else 255,
                               255)[..rest - 1]
  {
    hide Digit, Join, FindByte;
    var charArray3 := new byte[3];
    var j := rest;
    while j < 4
      invariant rest <= j <= 4
      invariant forall t :: 0 <= t < rest ==> charArray4[t] == old(charArray4[t])
      invariant forall t :: rest <= t < j ==> charArray4[t] == 0
    {
      charArray4[j] := 0;
      j := j + 1;
    }
    forall t | 0 <= t < 4
      ensures FindByte(charArray4[t]) == if t < rest then Digit(old(charArray4[t])) else 255
    {
      FindByteIsDigitOr255(charArray4[t]);
    }
    FindAll(charArray4);
    FourToThree(charArray4, charArray3);
    ret := AppendBytes(ret0, charArray3, rest - 1);
    assert charArray3[..rest - 1] == charArray3[..][..rest - 1];
  }

  lemma PadIsNoLetter()
    ensures !IsBase64(PAD)
  {
  }

  lemma PrefixFacts(s: seq<byte>)
    ensures var ds := PrefixDigits(s);
            && |ds| <= |s|
            && (forall t :: 0 <= t < |ds| ==> IsBase64(s[t]) && ds[t] == Digit(s[t]))
            && (|ds| < |s| ==> !IsBase64(s[|ds|]))
            && Decoding(s) == DecodedDigits(ds)
  {
  }

  method Decode(encodedString: seq<byte>) returns (ret: seq<byte>)
    ensures ret == Decoding(encodedString)
  {
    hide *;
    PadIsNoLetter();
    PrefixFacts(encodedString);
    ghost var ds := PrefixDigits(encodedString);
    DecodeNoTail(ds);
    var inLen, i, next := |encodedString|, 0, 0;
    var charArray4 := new byte[4];
    var charArray3 := new byte[3];
    ghost var groups := 0;
    ret := [];
    while inLen > 0 && encodedString[next] != PAD && IsBase64(encodedString[next])
      invariant next + inLen == |encodedString| && 0 <= inLen
      invariant 0 <= groups && 0 <= i < 4 && next == 4 * groups + i <= |ds|
      invariant forall t :: 0 <= t < i ==> charArray4[t] == encodedString[next - i + t]
      invariant ret == DecodedGroups(ds, next - i)
      decreases inLen
    {
      inLen := inLen - 1;
      charArray4[i] := encodedString[next];
      i, next := i + 1, next + 1;
      if i == 4 {
        ret := DecodeFour(ret, charArray4, charArray3);
        DecodeGroup(ds, next - 4);
        i, groups := 0, groups + 1;
      }
    }
    if i != 0 {
      DecodeTail(ds, i, if i >= 2 then Digit(charArray4[1]) else 255, if i >= 3 then Digit(charArray4[2]) else 255);
      ret := DecodeRest(ret, charArray4, i);
    }
  }
}
