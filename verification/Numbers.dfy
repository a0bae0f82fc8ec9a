/** 64-bit patterns as numbers, a byte at a time, and whole-number division. */
module Numbers {
  const WORD: nat := 0x1_0000_0000_0000_0000
  const HALF: nat := 0x1_0000_0000

  function Pow2(k: nat): (r: nat)
    ensures r > 0
  {
    if k == 0 then 1 else 2 * Pow2(k - 1)
  }

  // ----- bytes -----

  function Glued(h: bv4, l: bv4): bv8 {
    ((h as bv8) << 4) | (l as bv8)
  }

  function LowNibble(b: bv8): bv4 {
    (b & 0xf) as bv4
  }

  function HighNibble(b: bv8): bv4 {
    (b >> 4) as bv4
  }

  lemma GluedNibbles(h: bv4, l: bv4)
    ensures HighNibble(Glued(h, l)) == h && LowNibble(Glued(h, l)) == l
  {
  }

  lemma NibblesGlued(b: bv8)
    ensures Glued(HighNibble(b), LowNibble(b)) == b
  {
  }

  lemma NibbleRound(d: nat)
    requires d < 16
    ensures (d as bv4) as nat == d
  {
  }

  lemma NibbleBound(b: bv4)
    ensures b as nat < 16
  {
  }

  lemma OneNibble(a: bv4, b: bv4)
    requires a as nat == b as nat
    ensures a == b
  {
  }

  function ByteValue(b: bv8): nat {
    16 * (HighNibble(b) as nat) + LowNibble(b) as nat
  }

  /** The last byte of a number. */
  function Digit(n: nat): bv8 {
    Glued((n / 16 % 16) as bv4, (n % 16) as bv4)
  }

  lemma DigitValue(n: nat)
    ensures ByteValue(Digit(n)) == n % 256
  {
    hide Glued, HighNibble, LowNibble;
    var h, l := n / 16 % 16, n % 16;
    GluedNibbles(h as bv4, l as bv4);
    NibbleRound(h);
    NibbleRound(l);
    Nibbles(n);
  }

  lemma Nibbles(n: nat)
    ensures n % 256 == 16 * (n / 16 % 16) + n % 16
  {
    var p := n / 16;
    assert n == 16 * p + n % 16 && p == 16 * (p / 16) + p % 16;
    assert n == 256 * (p / 16) + (16 * (p % 16) + n % 16);
  }

  // ----- half words -----

  function Joined(a: bv8, b: bv8, c: bv8, d: bv8): bv32 {
    ((d as bv32) << 24) | ((c as bv32) << 16) | ((b as bv32) << 8) | (a as bv32)
  }

  function Byte(x: bv32, k: nat): bv8
    requires k < 4
  {
    if k == 0 then (x & 0xff) as bv8
    else if k == 1 then ((x >> 8) & 0xff) as bv8
    else if k == 2 then ((x >> 16) & 0xff) as bv8
    else ((x >> 24) & 0xff) as bv8
  }

  lemma JoinedBytes(a: bv8, b: bv8, c: bv8, d: bv8)
    ensures var x := Joined(a, b, c, d);
      Byte(x, 0) == a && Byte(x, 1) == b && Byte(x, 2) == c && Byte(x, 3) == d
  {
  }

  lemma Rejoined(x: bv32)
    ensures Joined(Byte(x, 0), Byte(x, 1), Byte(x, 2), Byte(x, 3)) == x
  {
  }

  function FromDigits(a: nat, b: nat, c: nat, d: nat): nat {
    a + 256 * b + 0x1_0000 * c + 0x100_0000 * d
  }

  /** The number a half word stands for. */
  function HalfValue(x: bv32): nat {
    FromDigits(ByteValue(Byte(x, 0)), ByteValue(Byte(x, 1)), ByteValue(Byte(x, 2)), ByteValue(Byte(x, 3)))
  }

  /** The half word that stands for a number, modulo 2 to the power 32. */
  function HalfOf(n: nat): bv32 {
    Joined(Digit(n), Digit(n / 256), Digit(n / 0x1_0000), Digit(n / 0x100_0000))
  }

  lemma ByteBound(b: bv8)
    ensures ByteValue(b) < 256
  {
    NibbleBound(HighNibble(b));
    NibbleBound(LowNibble(b));
  }

  lemma HalfBound(x: bv32)
    ensures HalfValue(x) < HALF
  {
    hide Byte, ByteValue;
    ByteBound(Byte(x, 0));
    ByteBound(Byte(x, 1));
    ByteBound(Byte(x, 2));
    ByteBound(Byte(x, 3));
  }

  lemma DigitsOf(n: nat)
    requires n < HALF
    ensures n == FromDigits(n % 256, n / 256 % 256, n / 0x1_0000 % 256, n / 0x100_0000 % 256)
  {
    var p := n / 256;
    var q := p / 256;
    var r := q / 256;
    assert n == 256 * p + n % 256 && p == 256 * q + p % 256 && q == 256 * r + q % 256;
    Place(n, 0x1_0000, q, n - 0x1_0000 * q);
    Place(n, 0x100_0000, r, n - 0x100_0000 * r);
    assert r % 256 == r;
  }

  lemma Place(n: nat, b: nat, q: nat, r: nat)
    requires n == b * q + r && r < b && (b == 0x1_0000 || b == 0x100_0000)
    ensures n / b == q
  {
  }

  lemma HalfValueOf(n: nat)
    requires n < HALF
    ensures HalfValue(HalfOf(n)) == n
  {
    hide Joined, Digit, Byte, FromDigits, ByteValue;
    JoinedBytes(Digit(n), Digit(n / 256), Digit(n / 0x1_0000), Digit(n / 0x100_0000));
    DigitValue(n);
    DigitValue(n / 256);
    DigitValue(n / 0x1_0000);
    DigitValue(n / 0x100_0000);
    DigitsOf(n);
  }

  // ----- whole words -----

  function LowPart(x: bv64): bv32 {
    (x & 0xffff_ffff) as bv32
  }

  function HighPart(x: bv64): bv32 {
    (x >> 32) as bv32
  }

  function Whole(high: bv32, low: bv32): bv64 {
    ((high as bv64) << 32) | (low as bv64)
  }

  lemma WholeParts(high: bv32, low: bv32)
    ensures LowPart(Whole(high, low)) == low && HighPart(Whole(high, low)) == high
  {
  }

  lemma PartsWhole(x: bv64)
    ensures Whole(HighPart(x), LowPart(x)) == x
  {
  }

  /** The number a word stands for. */
  function ValueOf(x: bv64): nat {
    HalfValue(LowPart(x)) + HALF * HalfValue(HighPart(x))
  }

  /** The word that stands for a number. */
  function CellOf(n: nat): bv64
    requires n < WORD
  {
    Whole(HalfOf(n / HALF), HalfOf(n % HALF))
  }

  lemma ValueBound(x: bv64)
    ensures ValueOf(x) < WORD
  {
    hide HalfValue;
    HalfBound(LowPart(x));
    HalfBound(HighPart(x));
  }

  /** Every number below 2 to the power 64 is some word's. */
  lemma CellValue(n: nat)
    requires n < WORD
    ensures ValueOf(CellOf(n)) == n
  {
    hide HalfValue, HalfOf, LowPart, HighPart, Whole;
    WholeParts(HalfOf(n / HALF), HalfOf(n % HALF));
    HalfValueOf(n / HALF);
    HalfValueOf(n % HALF);
  }

  lemma HalfOne(x: bv32, y: bv32)
    requires HalfValue(x) == HalfValue(y)
    ensures x == y
  {
    hide Joined, Byte, FromDigits;
    Rejoined(x);
    Rejoined(y);
    SameDigits(x, y);
  }

  lemma SameDigits(x: bv32, y: bv32)
    requires HalfValue(x) == HalfValue(y)
    ensures Byte(x, 0) == Byte(y, 0) && Byte(x, 1) == Byte(y, 1) && Byte(x, 2) == Byte(y, 2) && Byte(x, 3) == Byte(y, 3)
  {
    hide Byte, FromDigits, ByteValue;
    var a, b, c, d := Byte(x, 0), Byte(x, 1), Byte(x, 2), Byte(x, 3);
    var e, f, g, h := Byte(y, 0), Byte(y, 1), Byte(y, 2), Byte(y, 3);
    ByteBound(a);
    ByteBound(b);
    ByteBound(c);
    ByteBound(d);
    ByteBound(e);
    ByteBound(f);
    ByteBound(g);
    ByteBound(h);
    OneDigits(ByteValue(a), ByteValue(b), ByteValue(c), ByteValue(d),
      ByteValue(e), ByteValue(f), ByteValue(g), ByteValue(h));
    OneByte(a, e);
    OneByte(b, f);
    OneByte(c, g);
    OneByte(d, h);
  }

  lemma OneDigits(a: nat, b: nat, c: nat, d: nat, e: nat, f: nat, g: nat, h: nat)
    requires FromDigits(a, b, c, d) == FromDigits(e, f, g, h)
    requires a < 256 && b < 256 && c < 256 && d < 256 && e < 256 && f < 256 && g < 256 && h < 256
    ensures a == e && b == f && c == g && d == h
  {
    OneDigit(a, b + 256 * c + 0x1_0000 * d, e, f + 256 * g + 0x1_0000 * h);
    OneDigit(b, c + 256 * d, f, g + 256 * h);
    OneDigit(c, d, g, h);
  }

  lemma OneDigit(a: nat, p: nat, e: nat, q: nat)
    requires a + 256 * p == e + 256 * q && a < 256 && e < 256
    ensures a == e && p == q
  {
  }

  lemma OneByte(a: bv8, b: bv8)
    requires ByteValue(a) == ByteValue(b)
    ensures a == b
  {
    hide Glued, HighNibble, LowNibble;
    NibbleBound(LowNibble(a));
    NibbleBound(LowNibble(b));
    OneNibble(HighNibble(a), HighNibble(b));
    OneNibble(LowNibble(a), LowNibble(b));
    NibblesGlued(a);
    NibblesGlued(b);
  }

  /** A word is its number. */
  lemma ValueOne(x: bv64, y: bv64)
    requires ValueOf(x) == ValueOf(y)
    ensures x == y
  {
    hide HalfValue, LowPart, HighPart, Whole;
    HalfBound(LowPart(x));
    HalfBound(LowPart(y));
    HalfOne(LowPart(x), LowPart(y));
    HalfOne(HighPart(x), HighPart(y));
    PartsWhole(x);
    PartsWhole(y);
  }

  lemma ValueCell(x: bv64)
    ensures ValueOf(x) < WORD && CellOf(ValueOf(x)) == x
  {
    hide ValueOf, CellOf;
    ValueBound(x);
    CellValue(ValueOf(x));
    ValueOne(CellOf(ValueOf(x)), x);
  }

  // ----- signs -----

  lemma ByteSign(b: bv8)
    ensures b & 0x80 == 0 <==> ByteValue(b) < 128
  {
    hide HighNibble, LowNibble;
    SignNibble(b);
    NibbleSign(HighNibble(b));
    NibbleBound(LowNibble(b));
  }

  lemma SignNibble(b: bv8)
    ensures b & 0x80 == 0 <==> HighNibble(b) & 8 == 0
  {
  }

  lemma NibbleSign(b: bv4)
    ensures b & 8 == 0 <==> b as nat < 8
  {
  }

  lemma TopByte(x: bv32)
    ensures x & 0x8000_0000 == 0 <==> Byte(x, 3) & 0x80 == 0
  {
  }

  lemma HalfSign(x: bv32)
    ensures x & 0x8000_0000 == 0 <==> HalfValue(x) < 0x8000_0000
  {
    hide Byte, ByteValue;
    TopByte(x);
    ByteSign(Byte(x, 3));
    ByteBound(Byte(x, 0));
    ByteBound(Byte(x, 1));
    ByteBound(Byte(x, 2));
    ByteBound(Byte(x, 3));
  }

  lemma HalfEnds()
    ensures HalfValue(0) == 0 && HalfValue(0xffff_ffff) == HALF - 1
  {
  }

  lemma HalfZero(x: bv32)
    ensures x == 0 <==> HalfValue(x) == 0
    ensures x == 0xffff_ffff <==> HalfValue(x) == HALF - 1
  {
    hide HalfValue;
    HalfEnds();
    if HalfValue(x) == 0 {
      HalfOne(x, 0);
    }
    if HalfValue(x) == HALF - 1 {
      HalfOne(x, 0xffff_ffff);
    }
  }

  // ----- division -----

  function QuotientOf(a: nat, b: nat): (q: nat)
    requires b > 0
    ensures q <= a
  {
    if a < b then 0 else QuotientOf(a - b, b) + 1
  }

  function RemainderOf(a: nat, b: nat): (r: nat)
    requires b > 0
    ensures r < b && r <= a
  {
    if a < b then a else RemainderOf(a - b, b)
  }

  lemma {:induction false} DivisionIs(a: nat, b: nat)
    requires b > 0
    ensures a == QuotientOf(a, b) * b + RemainderOf(a, b)
  {
    if a >= b {
      DivisionIs(a - b, b);
    }
  }
}
