/** Bitwise AND of naturals, and what the masks of the two regrouping steps of Base64
    select: a quotient, a remainder, or both. */
module BitMasks {
  import opened Numerals

  /** Bitwise AND, bit by bit. */
  function BitAnd(a: nat, b: nat): nat {
    if a == 0 || b == 0 then 0 else 2 * BitAnd(a / 2, b / 2) + (if a % 2 == 1 && b % 2 == 1 then 1 else 0)
  }

  lemma OneBit(a: nat, mask: nat)
    ensures BitAnd(a, 2 * mask + 1) == 2 * BitAnd(a / 2, mask) + a % 2
  {
  }

  lemma ZeroBit(a: nat, mask: nat)
    ensures BitAnd(a, 2 * mask) == 2 * BitAnd(a / 2, mask)
  {
    if a > 0 && mask > 0 {
      assert 2 * mask / 2 == mask && 2 * mask % 2 == 0;
    }
  }

  lemma And01(a: nat)
    ensures BitAnd(a, 0x01) == a % 2
  {
  }

  lemma And03(a: nat)
    ensures BitAnd(a, 0x03) == a % 4
  {
    hide BitAnd;
    OneBit(a, 0x01);
    And01(a / 2);
    QuotientIs(a / 2, a / 4, a % 4 / 2, 2);
  }

  lemma And07(a: nat)
    ensures BitAnd(a, 0x07) == a % 8
  {
    hide BitAnd;
    OneBit(a, 0x03);
    And03(a / 2);
    QuotientIs(a / 2, a / 8, a % 8 / 2, 4);
  }

  lemma And0f(a: nat)
    ensures BitAnd(a, 0x0f) == a % 16
  {
    hide BitAnd;
    OneBit(a, 0x07);
    And07(a / 2);
    QuotientIs(a / 2, a / 16, a % 16 / 2, 8);
  }

  lemma And1f(a: nat)
    ensures BitAnd(a, 0x1f) == a % 32
  {
    hide BitAnd;
    OneBit(a, 0x0f);
    And0f(a / 2);
    QuotientIs(a / 2, a / 32, a % 32 / 2, 16);
  }

  lemma And3f(a: nat)
    ensures BitAnd(a, 0x3f) == a % 64
  {
    hide BitAnd;
    OneBit(a, 0x1f);
    And1f(a / 2);
    QuotientIs(a / 2, a / 64, a % 64 / 2, 32);
  }

  lemma And06(a: nat)
    ensures BitAnd(a, 0x06) == a / 2 % 4 * 2
  {
    hide BitAnd;
    ZeroBit(a, 0x03);
    And03(a / 2);
  }

  lemma And0c(a: nat)
    ensures BitAnd(a, 0x0c) == a / 4 % 4 * 4
  {
    hide BitAnd;
    ZeroBit(a, 0x06);
    And06(a / 2);
  }

  lemma And18(a: nat)
    ensures BitAnd(a, 0x18) == a / 8 % 4 * 8
  {
    hide BitAnd;
    ZeroBit(a, 0x0c);
    And0c(a / 2);
  }

  lemma And30(a: nat)
    ensures BitAnd(a, 0x30) == a / 16 % 4 * 16
  {
    hide BitAnd;
    ZeroBit(a, 0x18);
    And18(a / 2);
  }

  lemma And60(a: nat)
    ensures BitAnd(a, 0x60) == a / 32 % 4 * 32
  {
    hide BitAnd;
    ZeroBit(a, 0x30);
    And30(a / 2);
  }

  lemma Andc0(a: nat)
    ensures BitAnd(a, 0xc0) == a / 64 % 4 * 64
  {
    hide BitAnd;
    ZeroBit(a, 0x60);
    And60(a / 2);
  }

  lemma And1e(a: nat)
    ensures BitAnd(a, 0x1e) == a / 2 % 16 * 2
  {
    hide BitAnd;
    ZeroBit(a, 0x0f);
    And0f(a / 2);
  }

  lemma And3c(a: nat)
    ensures BitAnd(a, 0x3c) == a / 4 % 16 * 4
  {
    hide BitAnd;
    ZeroBit(a, 0x1e);
    And1e(a / 2);
  }

  lemma And78(a: nat)
    ensures BitAnd(a, 0x78) == a / 8 % 16 * 8
  {
    hide BitAnd;
    ZeroBit(a, 0x3c);
    And3c(a / 2);
  }

  lemma Andf0(a: nat)
    ensures BitAnd(a, 0xf0) == a / 16 % 16 * 16
  {
    hide BitAnd;
    ZeroBit(a, 0x78);
    And78(a / 2);
  }

  lemma And7e(a: nat)
    ensures BitAnd(a, 0x7e) == a / 2 % 64 * 2
  {
    hide BitAnd;
    ZeroBit(a, 0x3f);
    And3f(a / 2);
  }

  lemma Andfc(a: nat)
    ensures BitAnd(a, 0xfc) == a / 4 % 64 * 4
  {
    hide BitAnd;
    ZeroBit(a, 0x7e);
    And7e(a / 2);
  }

  /** The masked fields of a byte, shifted down. */
  lemma TopSix(a: byte)
    ensures BitAnd(a, 0xfc) / 4 == a / 4
  {
    hide BitAnd;
    Andfc(a);
  }

  lemma TopFour(a: byte)
    ensures BitAnd(a, 0xf0) / 16 == a / 16
  {
    hide BitAnd;
    Andf0(a);
  }

  lemma TopTwo(a: byte)
    ensures BitAnd(a, 0xc0) / 64 == a / 64
  {
    hide BitAnd;
    Andc0(a);
  }

  lemma MiddleTwo(a: byte)
    ensures BitAnd(a, 0x30) / 16 == a / 16 % 4
  {
    hide BitAnd;
    And30(a);
  }

  lemma MiddleFour(a: byte)
    ensures BitAnd(a, 0x3c) / 4 == a / 4 % 16
  {
    hide BitAnd;
    And3c(a);
  }
}
