/** Identities between 64-bit patterns, for numbers kept in the range of a half word. */
module LabBits {
  import opened Numbers

  const LOW: bv64 := 0xffff_ffff
  const HIGH: bv64 := 0xffff_ffff_0000_0000
  const SIGN: bv64 := 0x8000_0000
  const TOP: bv64 := 0xffff_ffff_8000_0000
  const SEVEN: bv64 := 0x7fff_ffff
  const ONES: bv64 := 0xffff_ffff_ffff_ffff

  /** Sign extension of the low half. */
  function Extended(x: bv64): bv64 {
    if x & 0x8000_0000 != 0 then x | 0xffff_ffff_0000_0000 else x & 0xffff_ffff
  }

  /** The upper 33 bits are all clear, or all set. */
  predicate Clear(x: bv64) {
    x & TOP == 0
  }

  predicate Full(x: bv64) {
    x & TOP == TOP
  }

  predicate Half(x: bv64) {
    Clear(x) || Full(x)
  }

  lemma SignClear(x: bv64)
    requires x & SIGN == 0
    ensures Clear(x & LOW) && Extended(x) == x & LOW
  {
    assert (x & LOW) & TOP == x & SIGN;
  }

  lemma SignSet(x: bv64)
    requires x & SIGN != 0
    ensures Full(x | HIGH) && Extended(x) == x | HIGH
  {
    SignBit(x);
    HighTop(x);
  }

  lemma SignBit(x: bv64)
    ensures x & SIGN == 0 || x & SIGN == SIGN
  {
  }

  lemma HighTop(x: bv64)
    ensures (x | HIGH) & TOP == HIGH | (x & SIGN)
    ensures HIGH | SIGN == TOP
  {
  }

  lemma ClearParts(x: bv64)
    requires Clear(x)
    ensures x & SIGN == 0 && x & LOW == x && x & SEVEN == x
  {
    ClearSign(x);
    ClearHigh(x);
    ClearSeven(x);
  }

  lemma ClearSign(x: bv64)
    requires x & TOP == 0
    ensures x & SIGN == 0
  {
  }

  lemma ClearHigh(x: bv64)
    requires x & TOP == 0
    ensures x & LOW == x
  {
  }

  lemma ClearSeven(x: bv64)
    requires x & TOP == 0
    ensures x & SEVEN == x
  {
  }

  lemma FullParts(x: bv64)
    requires Full(x)
    ensures x & SIGN != 0 && x | HIGH == x
  {
    FullSign(x);
    FullHigh(x);
  }

  lemma FullSign(x: bv64)
    requires x & TOP == TOP
    ensures x & SIGN != 0
  {
  }

  lemma FullHigh(x: bv64)
    requires x & TOP == TOP
    ensures x | HIGH == x
  {
  }

  /** Sign extension leaves exactly the numbers of this form alone, and makes nothing else. */
  lemma ExtendedHalf(x: bv64)
    ensures Half(Extended(x)) && (Extended(x) == x <==> Half(x))
  {
    if x & SIGN == 0 {
      SignClear(x);
      if Half(x) {
        if Clear(x) {
          ClearParts(x);
        } else {
          FullSign(x);
        }
      }
    } else {
      SignSet(x);
      if Half(x) {
        if Clear(x) {
          ClearSign(x);
        } else {
          FullParts(x);
        }
      }
    }
  }

  lemma HalfAnd(x: bv64, y: bv64)
    requires Half(x) && Half(y)
    ensures Half(x & y)
  {
    hide Half, Clear, Full;
    HalfCases(x);
    HalfCases(y);
    if Clear(x) {
      ClearAnd(x, y);
    } else if Clear(y) {
      ClearAnd(y, x);
      Swapped(x, y);
    } else {
      FullAnd(x, y);
    }
    HalfCases(x & y);
  }

  lemma HalfOr(x: bv64, y: bv64)
    requires Half(x) && Half(y)
    ensures Half(x | y)
  {
    hide Half, Clear, Full;
    HalfCases(x);
    HalfCases(y);
    if Full(x) {
      FullOr(x, y);
    } else if Full(y) {
      FullOr(y, x);
      Swapped(x, y);
    } else {
      ClearOr(x, y);
    }
    HalfCases(x | y);
  }

  lemma HalfCases(x: bv64)
    ensures Half(x) <==> Clear(x) || Full(x)
  {
  }

  lemma Swapped(x: bv64, y: bv64)
    ensures x & y == y & x && x | y == y | x
  {
  }

  lemma ClearAnd(x: bv64, y: bv64)
    requires Clear(x)
    ensures Clear(x & y)
  {
  }

  lemma FullAnd(x: bv64, y: bv64)
    requires Full(x) && Full(y)
    ensures Full(x & y)
  {
  }

  lemma ClearOr(x: bv64, y: bv64)
    requires Clear(x) && Clear(y)
    ensures Clear(x | y)
  {
  }

  lemma FullOr(x: bv64, y: bv64)
    requires Full(x)
    ensures Full(x | y)
  {
  }

  lemma HalfXor(x: bv64, y: bv64)
    requires Half(x) && Half(y)
    ensures Half(x ^ y)
  {
    assert (x ^ y) & TOP == (x & TOP) ^ (y & TOP);
  }

  /** The low half. */
  function Low(x: bv64): bv64 {
    x & LOW
  }

  lemma LowAnd(x: bv64, y: bv64)
    ensures Low(x & y) == Low(x) & Low(y)
  {
  }

  lemma LowOr(x: bv64, y: bv64)
    ensures Low(x | y) == Low(x) | Low(y)
  {
  }

  lemma LowXor(x: bv64, y: bv64)
    ensures Low(x ^ y) == Low(x) ^ Low(y)
  {
  }

  lemma LowTwice(x: bv64)
    ensures Low(Low(x)) == Low(x)
  {
  }

  function Right(x: bv64, n: bv64): bv64
    requires n < 64
  {
    x >> n
  }

  lemma LowRight(x: bv64, n: bv64)
    requires Low(x) == x && n < 64
    ensures Low(Right(x, n)) == Right(x, n)
  {
    hide Low, Right;
    LowShift(x, n);
  }

  lemma LowShift(x: bv64, n: bv64)
    requires n < 64
    ensures Low(Right(Low(x), n)) == Right(Low(x), n)
  {
    hide Low, Right;
    RightIs(x & LOW, n);
    LowShifted(x, n);
    LowIs(x);
    LowIs((x & LOW) >> n);
  }

  lemma RightIs(x: bv64, n: bv64)
    requires n < 64
    ensures Right(x, n) == x >> n
  {
  }

  lemma LowIs(x: bv64)
    ensures Low(x) == x & LOW
  {
  }

  lemma LowShifted(x: bv64, n: bv64)
    requires n < 64
    ensures ((x & LOW) >> n) & LOW == (x & LOW) >> n
  {
  }

  function Seven(x: bv64): bv64 {
    x & SEVEN
  }

  lemma ClearRight(x: bv64, n: bv64)
    requires Clear(x) && n < 64
    ensures Clear(Right(x, n)) && (31 <= n ==> Right(x, n) == 0)
  {
    hide Clear, Right, Seven;
    ClearIsSeven(x);
    SevenShift(x, n);
    if 31 <= n {
      SevenGone(x, n);
    }
  }

  lemma ClearIsSeven(x: bv64)
    requires Clear(x)
    ensures Seven(x) == x
  {
    ClearSeven(x);
  }

  lemma SevenShift(x: bv64, n: bv64)
    requires n < 64
    ensures Clear(Right(Seven(x), n))
  {
  }

  lemma SevenGone(x: bv64, n: bv64)
    requires 31 <= n < 64
    ensures Right(Seven(x), n) == 0
  {
  }

  function Flip(x: bv64): bv64 {
    ONES ^ x
  }

  lemma FlipClear(x: bv64)
    requires Clear(x)
    ensures Full(Flip(x))
  {
  }

  lemma FlipFull(x: bv64)
    requires Full(x)
    ensures Clear(Flip(x))
  {
  }

  lemma SignOfHalf(x: bv64)
    requires Half(x)
    ensures x & 0x8000_0000_0000_0000 != 0 <==> Full(x)
    ensures Clear(x) <==> !Full(x)
  {
    if Clear(x) {
      TopClear(x);
    } else {
      TopFull(x);
    }
  }

  lemma TopClear(x: bv64)
    requires x & TOP == 0
    ensures x & 0x8000_0000_0000_0000 == 0
  {
  }

  lemma TopFull(x: bv64)
    requires x & TOP == TOP
    ensures x & 0x8000_0000_0000_0000 != 0
  {
  }

  lemma HighLow(x: bv64)
    ensures Low(x | HIGH) == Low(x)
  {
  }

  /** Sign extension keeps the low half. */
  lemma LowExtended(x: bv64)
    ensures Low(Extended(x)) == Low(x)
  {
    hide Low, Extended;
    ExtendedIs(x);
    HighLow(x);
    LowTwice(x);
    LowIs(x);
  }

  lemma ExtendedIs(x: bv64)
    ensures Extended(x) == x | HIGH || Extended(x) == x & LOW
  {
    hide Extended, Clear, Full;
    if x & SIGN == 0 {
      SignClear(x);
    } else {
      SignSet(x);
    }
  }

  /** The complement of a number in range is in range. */
  lemma HalfFlip(x: bv64)
    requires Half(x)
    ensures Half(Flip(x))
  {
    hide Half, Clear, Full, Flip;
    HalfCases(x);
    HalfCases(Flip(x));
    if Clear(x) {
      FlipClear(x);
    } else {
      FlipFull(x);
    }
  }

  // ----- ranges as numbers -----

  lemma LowHigh(x: bv64)
    ensures Low(x) == x <==> HighPart(x) == 0
  {
    hide LowPart, HighPart, Low;
    if HighPart(x) == 0 {
      NoHighPart(x);
    }
    if Low(x) == x {
      OnlyLow(x);
    }
  }

  lemma NoHighPart(x: bv64)
    requires HighPart(x) == 0
    ensures Low(x) == x
  {
  }

  lemma OnlyLow(x: bv64)
    requires Low(x) == x
    ensures HighPart(x) == 0
  {
  }

  lemma ClearHighPart(x: bv64)
    ensures Clear(x) <==> HighPart(x) == 0 && LowPart(x) & 0x8000_0000 == 0
  {
  }

  lemma FullHighPart(x: bv64)
    ensures Full(x) <==> HighPart(x) == 0xffff_ffff && LowPart(x) & 0x8000_0000 != 0
  {
  }

  /** The three ranges as numbers. */
  lemma Ranges(x: bv64)
    ensures Low(x) == x <==> ValueOf(x) < HALF
    ensures Clear(x) <==> ValueOf(x) < 0x8000_0000
    ensures Full(x) <==> ValueOf(x) >= WORD - 0x8000_0000
  {
    hide HalfValue, LowPart, HighPart, Low, Clear, Full;
    LowHigh(x);
    ClearHighPart(x);
    FullHighPart(x);
    HalfZero(HighPart(x));
    HalfBound(HighPart(x));
    HalfBound(LowPart(x));
    HalfSign(LowPart(x));
  }
}
