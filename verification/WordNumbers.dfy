/** Every scalar operation as arithmetic on the numbers cells stand for. */
module WordNumbers {
  import opened Numbers
  import opened Words

  // ----- counting -----

  function Next(x: Cell): Cell {
    x + 1
  }

  function Before(x: Cell): Cell {
    x - 1
  }

  function HalfAfter(x: bv32): bv32 {
    x + 1
  }

  function ByteAfter(x: bv8): bv8 {
    x + 1
  }

  lemma NibbleNext(b: bv4)
    ensures (b + 1) as nat == if b == 15 then 0 else b as nat + 1
  {
  }

  lemma NibbleCarries(b: bv8)
    ensures if LowNibble(b) == 15 then HighNibble(ByteAfter(b)) == HighNibble(b) + 1 && LowNibble(ByteAfter(b)) == 0
      else HighNibble(ByteAfter(b)) == HighNibble(b) && LowNibble(ByteAfter(b)) == LowNibble(b) + 1
    ensures b == 0xff <==> HighNibble(b) == 15 && LowNibble(b) == 15
  {
  }

  predicate LastByte(b: bv8) {
    b == 0xff
  }

  predicate LastHalf(x: bv32) {
    x == 0xffff_ffff
  }

  predicate Last(x: Cell) {
    x == ALL_ONES
  }

  lemma ByteCarries(x: bv32)
    ensures Byte(HalfAfter(x), 0) == ByteAfter(Byte(x, 0))
    ensures Byte(HalfAfter(x), 1) == if LastByte(Byte(x, 0)) then ByteAfter(Byte(x, 1)) else Byte(x, 1)
    ensures Byte(HalfAfter(x), 2) ==
      if LastByte(Byte(x, 0)) && LastByte(Byte(x, 1)) then ByteAfter(Byte(x, 2)) else Byte(x, 2)
    ensures Byte(HalfAfter(x), 3) ==
      if LastByte(Byte(x, 0)) && LastByte(Byte(x, 1)) && LastByte(Byte(x, 2)) then ByteAfter(Byte(x, 3)) else Byte(x, 3)
    ensures LastHalf(x) <==>
      LastByte(Byte(x, 0)) && LastByte(Byte(x, 1)) && LastByte(Byte(x, 2)) && LastByte(Byte(x, 3))
  {
  }

  lemma ByteCounts(b: bv8)
    ensures ByteValue(ByteAfter(b)) == if LastByte(b) then 0 else ByteValue(b) + 1
    ensures LastByte(b) ==> ByteValue(b) == 255
  {
    hide HighNibble, LowNibble, ByteAfter;
    NibbleCarries(b);
    NibbleNext(HighNibble(b));
    NibbleNext(LowNibble(b));
  }

  /** The digits of the half word that follows. */
  lemma DigitsCarry(x: bv32)
    ensures var y, c := HalfAfter(x), LastByte;
      && ByteValue(Byte(y, 0)) == ByteValue(ByteAfter(Byte(x, 0)))
      && ByteValue(Byte(y, 1)) == ByteValue(if c(Byte(x, 0)) then ByteAfter(Byte(x, 1)) else Byte(x, 1))
      && ByteValue(Byte(y, 2)) ==
        ByteValue(if c(Byte(x, 0)) && c(Byte(x, 1)) then ByteAfter(Byte(x, 2)) else Byte(x, 2))
      && ByteValue(Byte(y, 3)) ==
        ByteValue(if c(Byte(x, 0)) && c(Byte(x, 1)) && c(Byte(x, 2)) then ByteAfter(Byte(x, 3)) else Byte(x, 3))
  {
    hide Byte, ByteValue, HalfAfter, ByteAfter, LastByte, LastHalf;
    ByteCarries(x);
  }

  lemma DigitCounts(b: bv8, carried: bool)
    ensures ByteValue(if carried then ByteAfter(b) else b) ==
      if carried then (if LastByte(b) then 0 else ByteValue(b) + 1) else ByteValue(b)
    ensures ByteValue(b) < 256 && (LastByte(b) ==> ByteValue(b) == 255)
  {
    hide ByteValue, ByteAfter, LastByte;
    ByteCounts(b);
    ByteBound(b);
  }

  lemma LastDigits(x: bv32)
    ensures LastHalf(x) <==>
      LastByte(Byte(x, 0)) && LastByte(Byte(x, 1)) && LastByte(Byte(x, 2)) && LastByte(Byte(x, 3))
  {
    hide Byte, LastByte, LastHalf;
    ByteCarries(x);
  }

  function Counted(digit: nat, carried: bool): nat {
    if !carried then digit else if digit == 255 then 0 else digit + 1
  }

  lemma FollowingDigits(a: nat, b: nat, c: nat, d: nat)
    requires a < 256 && b < 256 && c < 256 && d < 256
    ensures
      FromDigits(Counted(a, true), Counted(b, a == 255), Counted(c, a == 255 && b == 255),
        Counted(d, a == 255 && b == 255 && c == 255))
      == if a == 255 && b == 255 && c == 255 && d == 255 then 0 else FromDigits(a, b, c, d) + 1
  {
  }

  lemma DigitFollows(b: bv8, carried: bool)
    ensures ByteValue(if carried then ByteAfter(b) else b) == Counted(ByteValue(b), carried)
    ensures ByteValue(b) < 256 && (LastByte(b) <==> ByteValue(b) == 255)
  {
    hide ByteValue, ByteAfter, LastByte;
    DigitCounts(b, carried);
    ByteBound(ByteAfter(b));
    ByteCounts(b);
  }

  lemma HalfNext(x: bv32)
    ensures HalfValue(HalfAfter(x)) == if LastHalf(x) then 0 else HalfValue(x) + 1
    ensures LastHalf(x) ==> HalfValue(x) == HALF - 1
  {
    hide Byte, ByteValue, HalfAfter, ByteAfter, LastByte, LastHalf, Counted;
    var a, b, c, d := Byte(x, 0), Byte(x, 1), Byte(x, 2), Byte(x, 3);
    DigitsCarry(x);
    LastDigits(x);
    DigitFollows(a, true);
    DigitFollows(b, LastByte(a));
    DigitFollows(c, LastByte(a) && LastByte(b));
    DigitFollows(d, LastByte(a) && LastByte(b) && LastByte(c));
    FollowingDigits(ByteValue(a), ByteValue(b), ByteValue(c), ByteValue(d));
  }

  lemma PartCarries(x: Cell)
    ensures LowPart(Next(x)) == HalfAfter(LowPart(x))
    ensures HighPart(Next(x)) == if LastHalf(LowPart(x)) then HalfAfter(HighPart(x)) else HighPart(x)
    ensures Last(x) <==> LastHalf(LowPart(x)) && LastHalf(HighPart(x))
  {
  }

  /** Adding one is counting. */
  lemma ValueNext(x: Cell)
    ensures ValueOf(Next(x)) == if Last(x) then 0 else ValueOf(x) + 1
    ensures Last(x) <==> ValueOf(x) == WORD - 1
  {
    hide LowPart, HighPart, HalfValue, Next, HalfAfter, LastHalf, Last;
    PartCarries(x);
    HalfNext(LowPart(x));
    HalfNext(HighPart(x));
    HalfBound(HalfAfter(LowPart(x)));
    HalfBound(LowPart(x));
    HalfBound(HalfAfter(HighPart(x)));
  }

  lemma BeforeNext(y: Cell)
    ensures Next(Before(y)) == y && (y != 0 ==> !Last(Before(y)))
  {
  }

  /** The cell before a cell that is not zero. */
  lemma ValueBefore(y: Cell)
    requires y != 0
    ensures ValueOf(y) == ValueOf(Before(y)) + 1
  {
    hide ValueOf, Next, Before, Last;
    BeforeNext(y);
    ValueNext(Before(y));
  }

  lemma ZeroIs(x: Cell)
    ensures x == 0 <==> ValueOf(x) == 0
  {
    hide ValueOf;
    ZeroValue();
    if x != 0 {
      NonzeroValue(x);
    }
  }

  // ----- sums and differences -----

  lemma SumNext(x: Cell, z: Cell)
    ensures Sum(x, Next(z)) == Next(Sum(x, z))
  {
    assert Next(z) == z + 1;
    assert Sum(x, z) == x + z;
    assert Sum(x, z + 1) == x + (z + 1);
    assert Next(x + z) == x + z + 1;
    AddNext(x, z);
  }

  lemma AddNext(x: Cell, z: Cell)
    ensures x + (z + 1) == (x + z) + 1
  {
  }

  lemma SumNone(x: Cell)
    ensures Sum(x, 0) == x
  {
  }

  lemma {:induction false} SumIs(x: Cell, y: Cell)
    ensures ValueOf(Sum(x, y)) == (ValueOf(x) + ValueOf(y)) % WORD
    decreases ValueOf(y)
  {
    hide ValueOf, Sum, Next, Before, Last;
    ValueBound(x);
    ZeroIs(y);
    if y == 0 {
      SumNone(x);
    } else {
      var z := Before(y);
      ValueBefore(y);
      SumIs(x, z);
      BeforeNext(y);
      SumNext(x, z);
      ValueNext(Sum(x, z));
      ModNext(ValueOf(x) + ValueOf(z));
    }
  }

  lemma ModNext(n: nat)
    ensures (n + 1) % WORD == if n % WORD == WORD - 1 then 0 else n % WORD + 1
  {
    var q, r := n / WORD, n % WORD;
    assert n == WORD * q + r;
    if r == WORD - 1 {
      ModIs(n + 1, q + 1, 0);
    } else {
      ModIs(n + 1, q, r + 1);
    }
  }

  lemma ModIs(n: int, q: int, r: nat)
    requires n == WORD * q + r && r < WORD
    ensures n % WORD == r && n / WORD == q
  {
  }

  lemma DifferenceSum(x: Cell, y: Cell)
    ensures Sum(Difference(x, y), y) == x
  {
    assert Difference(x, y) == x - y;
    assert Sum(x - y, y) == x - y + y;
    AddBack(x, y);
  }

  lemma AddBack(x: Cell, y: Cell)
    ensures x - y + y == x
  {
  }

  lemma DifferenceIs(x: Cell, y: Cell)
    ensures ValueOf(Difference(x, y)) == (ValueOf(x) - ValueOf(y)) % WORD
  {
    hide ValueOf, Sum, Difference;
    DifferenceSum(x, y);
    SumIs(Difference(x, y), y);
    var d, a, b := ValueOf(Difference(x, y)), ValueOf(x), ValueOf(y);
    ValueBound(Difference(x, y));
    ModIs(a - b, -((d + b) / WORD), d);
  }

  // ----- products -----

  lemma ProductNext(x: Cell, z: Cell)
    ensures Product(x, Next(z)) == Sum(Product(x, z), x)
  {
    assert Next(z) == z + 1;
    assert Product(x, z) == x * z;
    assert Product(x, z + 1) == x * (z + 1);
    assert Sum(x * z, x) == x * z + x;
    TimesNext(x, z);
  }

  lemma TimesNext(x: Cell, z: Cell)
    ensures x * (z + 1) == x * z + x
  {
  }

  lemma ProductNone(x: Cell)
    ensures Product(x, 0) == 0
  {
  }

  lemma ModAdd(a: int, b: int)
    ensures (a % WORD + b) % WORD == (a + b) % WORD
  {
    var q, r := a / WORD, a % WORD;
    var n := r + b;
    ModIs(a + b, q + n / WORD, n % WORD);
  }

  lemma {:induction false} ProductIs(x: Cell, y: Cell)
    ensures ValueOf(Product(x, y)) == (ValueOf(x) * ValueOf(y)) % WORD
    decreases ValueOf(y)
  {
    hide ValueOf, Sum, Product, Next, Before, Last;
    ZeroIs(y);
    if y == 0 {
      ProductNone(x);
    } else {
      var z := Before(y);
      ValueBefore(y);
      ProductIs(x, z);
      BeforeNext(y);
      ProductNext(x, z);
      SumIs(Product(x, z), x);
      ProductStep(ValueOf(x), ValueOf(z));
    }
  }

  lemma ProductStep(a: nat, b: nat)
    ensures (a * b % WORD + a) % WORD == a * (b + 1) % WORD
  {
    ModAdd(a * b, a);
    assert a * b + a == a * (b + 1);
  }

  // ----- signs -----

  lemma TopBit(x: Cell)
    ensures Negative(x) <==> HighPart(x) & 0x8000_0000 != 0
  {
  }

  lemma NegativeIs(x: Cell)
    ensures Negative(x) <==> ValueOf(x) >= WORD / 2
    ensures SignedOf(x) == AsSigned(ValueOf(x))
  {
    hide LowPart, HighPart, HalfValue, Negative;
    TopBit(x);
    HalfSign(HighPart(x));
    HalfBound(LowPart(x));
    HalfBound(HighPart(x));
  }

  /** The signed reading of a number of 64 bits. */
  function AsSigned(n: nat): int {
    if n < WORD / 2 then n else n - WORD
  }

  lemma SignedBack(n: nat)
    requires n < WORD
    ensures AsSigned(n) % WORD == n && -(WORD / 2) <= AsSigned(n) < WORD / 2
  {
    if n >= WORD / 2 {
      ModIs(n - WORD, -1, n);
    }
  }

  // ----- halving -----

  function Halve(x: Cell): Cell {
    x >> 1
  }

  predicate Odd(x: Cell) {
    x & 1 == 1
  }

  function LastBit(x: Cell): Cell {
    x & 1
  }

  lemma TwoHalves(x: Cell)
    ensures (x >> 1) + (x >> 1) + (x & 1) == x
  {
  }

  function HalvesNumber(x: Cell): nat {
    ValueOf((x >> 1) + (x >> 1) + (x & 1))
  }

  lemma HalvesWhole(x: Cell)
    ensures HalvesNumber(x) == ValueOf(x)
  {
    hide ValueOf;
    TwoHalves(x);
  }

  lemma HalvesSum(x: Cell)
    ensures HalvesNumber(x) == ValueOf(Sum(Sum(Halve(x), Halve(x)), LastBit(x)))
  {
    hide ValueOf;
  }

  lemma HalfPositive(x: Cell)
    ensures !Negative(Halve(x))
  {
  }

  lemma LastBitIs(x: Cell)
    ensures LastBit(x) == if Odd(x) then 1 else 0
  {
  }

  lemma OneValue()
    ensures ValueOf(0) == 0 && ValueOf(1) == 1
  {
    hide ValueOf, Next, Last;
    ZeroValue();
    ValueNext(0);
    NextOne();
  }

  lemma NextOne()
    ensures Next(0) == 1 && !Last(0)
  {
  }

  /** Shifting right by one halves, and the last bit is the parity. */
  lemma HalveIs(x: Cell)
    ensures ValueOf(Halve(x)) == ValueOf(x) / 2 && (Odd(x) <==> ValueOf(x) % 2 == 1)
  {
    hide ValueOf, Sum, Halve, Odd, LastBit, Negative, HalvesNumber;
    HalvesWhole(x);
    HalvesSum(x);
    HalfPositive(x);
    NegativeIs(Halve(x));
    LastBitIs(x);
    OneValue();
    SumIs(Halve(x), Halve(x));
    SumIs(Sum(Halve(x), Halve(x)), LastBit(x));
  }

  function Twice(x: Cell): Cell {
    x << 1
  }

  lemma TwiceSum(x: Cell)
    ensures Twice(x) == Sum(x, x)
  {
    assert Twice(x) == x << 1;
    assert Sum(x, x) == x + x;
    LeftOnce(x);
  }

  lemma LeftOnce(x: Cell)
    ensures x << 1 == x + x
  {
  }

  /** Shifting left by one doubles. */
  lemma TwiceIs(x: Cell)
    ensures ValueOf(Twice(x)) == 2 * ValueOf(x) % WORD
  {
    hide ValueOf, Sum, Twice;
    TwiceSum(x);
    SumIs(x, x);
  }

  // ----- shifts -----

  lemma RightOnce(x: Cell, y: Cell)
    requires y < 64 && y != 0
    ensures x >> y == (x >> (y - 1)) >> 1
  {
  }

  lemma LeftBefore(x: Cell, y: Cell)
    requires y < 64 && y != 0
    ensures x << y == (x << (y - 1)) << 1
  {
  }

  function RightNumber(x: Cell, y: Cell): nat
    requires y < 64
  {
    ValueOf(x >> y)
  }

  function RightOnceMore(x: Cell, y: Cell): nat
    requires y < 64 && y != 0
  {
    ValueOf((x >> (y - 1)) >> 1)
  }

  function LeftNumber(x: Cell, y: Cell): nat
    requires y < 64
  {
    ValueOf(x << y)
  }

  function LeftOnceMore(x: Cell, y: Cell): nat
    requires y < 64 && y != 0
  {
    ValueOf((x << (y - 1)) << 1)
  }

  lemma RightTwice(x: Cell, y: Cell)
    requires y < 64 && y != 0
    ensures RightNumber(x, y) == RightOnceMore(x, y)
  {
    hide ValueOf;
    RightOnce(x, y);
  }

  lemma LeftTwice(x: Cell, y: Cell)
    requires y < 64 && y != 0
    ensures LeftNumber(x, y) == LeftOnceMore(x, y)
  {
    hide ValueOf;
    LeftBefore(x, y);
  }

  lemma RightHalves(x: Cell, y: Cell)
    requires y < 64 && y != 0
    ensures RightOnceMore(x, y) == RightNumber(x, y - 1) / 2
  {
    hide ValueOf;
    HalveIs(x >> (y - 1));
  }

  lemma LeftDoubles(x: Cell, y: Cell)
    requires y < 64 && y != 0
    ensures LeftOnceMore(x, y) == 2 * LeftNumber(x, y - 1) % WORD
  {
    hide ValueOf;
    TwiceIs(x << (y - 1));
  }

  lemma ShiftValue(x: Cell, y: Cell)
    requires y < 64
    ensures ValueOf(ShiftRight(x, y)) == RightNumber(x, y) && ValueOf(ShiftLeft(x, y)) == LeftNumber(x, y)
  {
    hide ValueOf;
  }

  lemma BelowBefore(y: Cell)
    requires y < 64 && y != 0
    ensures Before(y) == y - 1 && Before(y) < 64
  {
  }

  lemma RightNext(x: Cell, y: Cell)
    requires y < 64 && y != 0
    ensures ValueOf(ShiftRight(x, y)) == ValueOf(ShiftRight(x, Before(y))) / 2
  {
    hide ValueOf, ShiftRight, ShiftLeft, Before, RightNumber, RightOnceMore, LeftNumber;
    BelowBefore(y);
    ShiftValue(x, y);
    RightTwice(x, y);
    RightHalves(x, y);
    ShiftValue(x, y - 1);
  }

  lemma LeftNext(x: Cell, y: Cell)
    requires y < 64 && y != 0
    ensures ValueOf(ShiftLeft(x, y)) == 2 * ValueOf(ShiftLeft(x, Before(y))) % WORD
  {
    hide ValueOf, ShiftRight, ShiftLeft, Before, RightNumber, LeftOnceMore, LeftNumber;
    BelowBefore(y);
    ShiftValue(x, y);
    LeftTwice(x, y);
    LeftDoubles(x, y);
    ShiftValue(x, y - 1);
  }

  lemma SmallCount(y: Cell)
    ensures y < 64 <==> Halve(Halve(Halve(Halve(Halve(Halve(y)))))) == 0
  {
  }

  lemma CountIs(y: Cell)
    ensures y < 64 <==> ValueOf(y) < 64
  {
    hide ValueOf, Halve;
    SmallCount(y);
    HalveIs(y);
    HalveIs(Halve(y));
    HalveIs(Halve(Halve(y)));
    HalveIs(Halve(Halve(Halve(y))));
    HalveIs(Halve(Halve(Halve(Halve(y)))));
    HalveIs(Halve(Halve(Halve(Halve(Halve(y))))));
    ZeroIs(Halve(Halve(Halve(Halve(Halve(Halve(y)))))));
  }

  lemma SmallBits(y: Cell)
    ensures y <= 127 <==> Halve(Halve(Halve(Halve(Halve(Halve(Halve(y))))))) == 0
    ensures y >= 0xffff_ffff_ffff_ff80 <==> Complement(y) <= 127
  {
  }

  lemma SmallIs(y: Cell)
    ensures y <= 127 <==> ValueOf(y) <= 127
  {
    hide ValueOf, Halve, Complement;
    SmallBits(y);
    HalveIs(y);
    HalveIs(Halve(y));
    HalveIs(Halve(Halve(y)));
    HalveIs(Halve(Halve(Halve(y))));
    HalveIs(Halve(Halve(Halve(Halve(y)))));
    HalveIs(Halve(Halve(Halve(Halve(Halve(y))))));
    HalveIs(Halve(Halve(Halve(Halve(Halve(Halve(y)))))));
    ZeroIs(Halve(Halve(Halve(Halve(Halve(Halve(Halve(y))))))));
  }

  /** The cells that fit in a signed byte. */
  lemma SignedByte(y: Cell)
    ensures y <= 127 || y >= 0xffff_ffff_ffff_ff80 <==> -128 <= SignedOf(y) <= 127
  {
    hide ValueOf, Halve, Complement, SignedOf, Negative;
    SmallBits(y);
    SmallIs(y);
    SmallIs(Complement(y));
    ComplementIs(y);
    ValueBound(y);
    NegativeIs(y);
  }

  lemma ShiftNone(x: Cell)
    ensures ShiftRight(x, 0) == x && ShiftLeft(x, 0) == x
  {
  }

  lemma ShiftOut(x: Cell, y: Cell)
    requires y >= 64
    ensures ShiftRight(x, y) == 0 && ShiftLeft(x, y) == 0
  {
  }

  lemma DivideTwice(a: nat, b: nat)
    requires b > 0
    ensures a / b / 2 == a / (2 * b)
  {
    var q, r := a / b, a % b;
    assert a == b * q + r && q == 2 * (q / 2) + q % 2;
    assert b * q == 2 * b * (q / 2) + b * (q % 2) by {
      assert b * q == b * (2 * (q / 2) + q % 2);
    }
    assert b * (q % 2) + r < 2 * b by {
      if q % 2 == 1 {
        assert b * (q % 2) == b;
      }
    }
    DivideIs(a, 2 * b, q / 2, b * (q % 2) + r);
  }

  lemma DivideIs(a: int, b: nat, q: int, r: int)
    requires b > 0 && a == b * q + r && 0 <= r < b
    ensures a / b == q && a % b == r
  {
    var p, s := a / b, a % b;
    assert a == b * p + s;
    TimesMore(b, q, p);
    TimesMore(b, p, q);
  }

  lemma TimesMore(b: nat, q: int, p: int)
    ensures p > q ==> b * p >= b * q + b
  {
    if p > q {
      TimesOne(b, p - q);
      assert b * p == b * q + b * (p - q);
    }
  }

  lemma TimesOne(b: nat, d: int)
    requires d >= 1
    ensures b * d >= b
  {
    assert b * d == b * (d - 1) + b;
  }

  lemma {:induction false} SmallRight(x: Cell, y: Cell)
    requires y < 64
    ensures ValueOf(ShiftRight(x, y)) == ValueOf(x) / Pow2(ValueOf(y))
    decreases ValueOf(y)
  {
    hide ValueOf, ShiftRight, Before, Pow2;
    ZeroIs(y);
    PowerNext(ValueOf(y));
    if y == 0 {
      ShiftNone(x);
    } else {
      ValueBefore(y);
      BelowBefore(y);
      SmallRight(x, Before(y));
      RightNext(x, y);
      DivideTwice(ValueOf(x), Pow2(ValueOf(Before(y))));
    }
  }

  lemma PowerNext(k: nat)
    ensures Pow2(k) == if k == 0 then 1 else 2 * Pow2(k - 1)
  {
  }

  lemma DoubleMod(n: nat)
    ensures 2 * (n % WORD) % WORD == 2 * n % WORD
  {
    var q, r := n / WORD, n % WORD;
    assert n == WORD * q + r;
    if 2 * r < WORD {
      ModIs(2 * n, 2 * q, 2 * r);
    } else {
      ModIs(2 * n, 2 * q + 1, 2 * r - WORD);
      ModIs(2 * r, 1, 2 * r - WORD);
    }
  }

  lemma {:induction false} SmallLeft(x: Cell, y: Cell)
    requires y < 64
    ensures ValueOf(ShiftLeft(x, y)) == ValueOf(x) * Pow2(ValueOf(y)) % WORD
    decreases ValueOf(y)
  {
    hide ValueOf, ShiftLeft, Before, Pow2;
    ZeroIs(y);
    PowerNext(ValueOf(y));
    if y == 0 {
      ShiftNone(x);
      ValueBound(x);
    } else {
      var z := Before(y);
      ValueBefore(y);
      BelowBefore(y);
      SmallLeft(x, z);
      LeftNext(x, y);
      DoubleMod(ValueOf(x) * Pow2(ValueOf(z)));
      assert ValueOf(x) * Pow2(ValueOf(y)) == 2 * (ValueOf(x) * Pow2(ValueOf(z)));
    }
  }

  lemma {:induction false} PowerWhole(k: nat)
    requires k >= 64
    ensures Pow2(k) % WORD == 0 && Pow2(k) >= WORD
  {
    if k == 64 {
      PowerWord();
    } else {
      PowerWhole(k - 1);
      var q := Pow2(k - 1) / WORD;
      assert Pow2(k - 1) == WORD * q;
      ModIs(Pow2(k), 2 * q, 0);
    }
  }

  lemma PowerWord()
    ensures Pow2(64) == WORD
  {
    hide Pow2;
    PowerEight(0);
    PowerEight(8);
    PowerEight(16);
    PowerEight(24);
    PowerEight(32);
    PowerEight(40);
    PowerEight(48);
    PowerEight(56);
    PowerNext(0);
  }

  lemma PowerEight(k: nat)
    ensures Pow2(k + 8) == 256 * Pow2(k)
  {
    assert Pow2(k + 8) == 2 * Pow2(k + 7) == 4 * Pow2(k + 6) == 8 * Pow2(k + 5) == 16 * Pow2(k + 4);
    assert Pow2(k + 4) == 2 * Pow2(k + 3) == 4 * Pow2(k + 2) == 8 * Pow2(k + 1) == 16 * Pow2(k);
  }

  lemma TimesWhole(n: nat, p: nat)
    requires p % WORD == 0
    ensures n * p % WORD == 0
  {
    var q := p / WORD;
    assert n * p == WORD * (n * q) by {
      assert p == WORD * q;
    }
    ModIs(n * p, n * q, 0);
  }

  /** A right shift divides, and a left shift multiplies, by a power of two, whatever the count. */
  lemma ShiftIs(x: Cell, y: Cell)
    ensures ValueOf(ShiftRight(x, y)) == ValueOf(x) / Pow2(ValueOf(y))
    ensures ValueOf(ShiftLeft(x, y)) == ValueOf(x) * Pow2(ValueOf(y)) % WORD
  {
    hide ValueOf, ShiftLeft, ShiftRight, Pow2;
    CountIs(y);
    ValueBound(x);
    if y < 64 {
      SmallRight(x, y);
      SmallLeft(x, y);
    } else {
      ShiftOut(x, y);
      ZeroValue();
      PowerWhole(ValueOf(y));
      TimesWhole(ValueOf(x), Pow2(ValueOf(y)));
      DivideIs(ValueOf(x), Pow2(ValueOf(y)), 0, ValueOf(x));
    }
  }

  // ----- complements -----

  function Complement(x: Cell): Cell {
    ALL_ONES ^ x
  }

  function ComplementNumber(x: Cell): nat {
    ValueOf((ALL_ONES ^ x) + x)
  }

  lemma OnesAdd(x: Cell)
    ensures (0xffff_ffff_ffff_ffff ^ x) + x == 0xffff_ffff_ffff_ffff
  {
  }

  lemma ComplementWhole(x: Cell)
    ensures ComplementNumber(x) == ValueOf(ALL_ONES)
  {
    hide ValueOf;
    OnesAdd(x);
  }

  lemma ComplementSum(x: Cell)
    ensures ComplementNumber(x) == ValueOf(Sum(Complement(x), x))
  {
    hide ValueOf;
  }

  lemma OnesValue()
    ensures ValueOf(ALL_ONES) == WORD - 1
  {
    hide ValueOf, Next;
    ValueNext(ALL_ONES);
  }

  lemma ComplementIs(x: Cell)
    ensures ValueOf(Complement(x)) == WORD - 1 - ValueOf(x)
  {
    hide ValueOf, Sum, Complement, ComplementNumber;
    ComplementWhole(x);
    ComplementSum(x);
    OnesValue();
    SumIs(Complement(x), x);
    ValueBound(x);
    ValueBound(Complement(x));
  }

  lemma ArithmeticCases(x: Cell, y: Cell)
    ensures var n: Cell := if y >= 64 then 63 else y;
      ShiftArithmetic(x, y) == if Negative(x) then Complement(ShiftRight(Complement(x), n)) else ShiftRight(x, n)
  {
    hide Negative, ShiftRight;
  }

  lemma CappedCount(y: Cell)
    ensures ValueOf(if y >= 64 then 63 else y) == if ValueOf(y) >= 64 then 63 else ValueOf(y)
  {
    hide ValueOf;
    CountIs(y);
    CountMost();
  }

  lemma CountMost()
    ensures ValueOf(63) == 63
  {
    hide ValueOf, Halve, Odd;
    CountHalves();
    HalveIs(63);
    HalveIs(31);
    HalveIs(15);
    HalveIs(7);
    HalveIs(3);
    OneValue();
  }

  lemma CountHalves()
    ensures Halve(63) == 31 && Halve(31) == 15 && Halve(15) == 7 && Halve(7) == 3 && Halve(3) == 1
    ensures Odd(63) && Odd(31) && Odd(15) && Odd(7) && Odd(3)
  {
  }

  lemma {:induction false} PowerMost(k: nat)
    requires k >= 63
    ensures Pow2(k) >= WORD / 2
  {
    if k > 63 {
      PowerMost(k - 1);
    } else {
      PowerWord();
      assert Pow2(64) == 2 * Pow2(63);
    }
  }

  /** A number of 63 bits shifted by 63 or more leaves nothing. */
  lemma CappedDivides(a: nat, k: nat)
    requires a < WORD / 2
    ensures a / Pow2(if k >= 64 then 63 else k) == a / Pow2(k)
  {
    hide Pow2;
    if k >= 64 {
      PowerMost(63);
      PowerMost(k);
      DivideIs(a, Pow2(63), 0, a);
      DivideIs(a, Pow2(k), 0, a);
    }
  }

  lemma FloorNegative(a: nat, b: nat)
    requires b > 0
    ensures -(a + 1) / b == -(a / b) - 1
  {
    var q, r := a / b, a % b;
    assert a == b * q + r;
    assert -(a + 1) == b * (-q - 1) + (b - 1 - r) by {
      assert b * (-q - 1) == -(b * q) - b;
    }
    DivideIs(-(a + 1), b, -q - 1, b - 1 - r);
  }

  /** An arithmetic shift divides the signed number by a power of two, rounding down. */
  lemma ArithmeticIs(x: Cell, y: Cell)
    ensures SignedOf(ShiftArithmetic(x, y)) == SignedOf(x) / Pow2(ValueOf(y))
  {
    hide ValueOf, ShiftArithmetic, ShiftRight, Negative, SignedOf, Complement, Pow2;
    var n: Cell := if y >= 64 then 63 else y;
    var k := ValueOf(y);
    ArithmeticCases(x, y);
    CappedCount(y);
    NegativeIs(x);
    NegativeIs(ShiftArithmetic(x, y));
    ValueBound(x);
    if Negative(x) {
      ComplementIs(x);
      ShiftIs(Complement(x), n);
      ComplementIs(ShiftRight(Complement(x), n));
      CappedDivides(ValueOf(Complement(x)), k);
      FloorNegative(ValueOf(Complement(x)), Pow2(k));
      DivideLess(ValueOf(Complement(x)), Pow2(k));
    } else {
      ShiftIs(x, n);
      CappedDivides(ValueOf(x), k);
      DivideLess(ValueOf(x), Pow2(k));
    }
  }

  lemma DivideLess(a: nat, b: nat)
    requires b > 0
    ensures a / b == QuotientOf(a, b) <= a && a % b == RemainderOf(a, b)
  {
    DivisionIs(a, b);
    DivideIs(a, b, QuotientOf(a, b), RemainderOf(a, b));
  }

  // ----- bits -----

  /** Bit `k` of a number. */
  predicate Bit(n: nat, k: nat) {
    if k == 0 then n % 2 == 1 else Bit(n / 2, k - 1)
  }

  /** Combine two numbers a bit at a time. */
  function Bitwise(f: (bool, bool) -> bool, x: nat, y: nat, digits: nat): nat {
    if digits == 0 then 0
    else 2 * Bitwise(f, x / 2, y / 2, digits - 1) + if f(x % 2 == 1, y % 2 == 1) then 1 else 0
  }

  /** Each of the low bits is the combination of the operands' bits, and there are no others. */
  lemma {:induction false} BitwiseIs(f: (bool, bool) -> bool, x: nat, y: nat, digits: nat, k: nat)
    ensures Bit(Bitwise(f, x, y, digits), k) <==> k < digits && f(Bit(x, k), Bit(y, k))
    decreases digits
  {
    var n := Bitwise(f, x, y, digits);
    if digits == 0 {
      NoBit(k);
    } else if k > 0 {
      BitwiseIs(f, x / 2, y / 2, digits - 1, k - 1);
      assert n / 2 == Bitwise(f, x / 2, y / 2, digits - 1);
    }
  }

  lemma {:induction false} NoBit(k: nat)
    ensures !Bit(0, k)
  {
    if k > 0 {
      NoBit(k - 1);
    }
  }

  lemma HalveBoth(x: Cell, y: Cell)
    ensures Halve(BothBits(x, y)) == BothBits(Halve(x), Halve(y)) && (Odd(BothBits(x, y)) <==> Odd(x) && Odd(y))
  {
  }

  lemma HalveEither(x: Cell, y: Cell)
    ensures Halve(EitherBits(x, y)) == EitherBits(Halve(x), Halve(y)) && (Odd(EitherBits(x, y)) <==> Odd(x) || Odd(y))
  {
  }

  lemma HalveUnlike(x: Cell, y: Cell)
    ensures Halve(UnlikeBits(x, y)) == UnlikeBits(Halve(x), Halve(y)) && (Odd(UnlikeBits(x, y)) <==> Odd(x) != Odd(y))
  {
  }

  lemma ZeroBits()
    ensures BothBits(0, 0) == 0 && EitherBits(0, 0) == 0 && UnlikeBits(0, 0) == 0
  {
  }

  function Conjunction(): (bool, bool) -> bool {
    (a, b) => a && b
  }

  function Disjunction(): (bool, bool) -> bool {
    (a, b) => a || b
  }

  function Exclusion(): (bool, bool) -> bool {
    (a, b) => a != b
  }

  /** A cell whose halves and last bit are combinations of others'. */
  lemma BitNext(f: (bool, bool) -> bool, x: Cell, y: Cell, r: Cell, digits: nat)
    requires ValueOf(Halve(r)) == Bitwise(f, ValueOf(Halve(x)), ValueOf(Halve(y)), digits)
    requires Odd(r) <==> f(Odd(x), Odd(y))
    ensures ValueOf(r) == Bitwise(f, ValueOf(x), ValueOf(y), digits + 1)
  {
    hide ValueOf, Halve, Odd;
    HalveIs(x);
    HalveIs(y);
    HalveIs(r);
  }

  lemma HalveBound(x: Cell, digits: nat)
    requires digits > 0 && ValueOf(x) < Pow2(digits)
    ensures ValueOf(Halve(x)) < Pow2(digits - 1)
  {
    hide ValueOf, Halve, Odd, Pow2;
    HalveIs(x);
    PowerNext(digits);
  }

  lemma {:induction false} BothAre(x: Cell, y: Cell, digits: nat)
    requires ValueOf(x) < Pow2(digits) && ValueOf(y) < Pow2(digits)
    ensures ValueOf(BothBits(x, y)) == Bitwise(Conjunction(), ValueOf(x), ValueOf(y), digits)
    decreases digits
  {
    hide ValueOf, BothBits, Halve, Odd, Pow2, Bitwise;
    if digits == 0 {
      NoDigits(x, y, Conjunction());
    } else {
      HalveBound(x, digits);
      HalveBound(y, digits);
      BothAre(Halve(x), Halve(y), digits - 1);
      HalveBoth(x, y);
      BitNext(Conjunction(), x, y, BothBits(x, y), digits - 1);
    }
  }

  lemma {:induction false} EitherAre(x: Cell, y: Cell, digits: nat)
    requires ValueOf(x) < Pow2(digits) && ValueOf(y) < Pow2(digits)
    ensures ValueOf(EitherBits(x, y)) == Bitwise(Disjunction(), ValueOf(x), ValueOf(y), digits)
    decreases digits
  {
    hide ValueOf, EitherBits, Halve, Odd, Pow2, Bitwise;
    if digits == 0 {
      NoDigits(x, y, Disjunction());
    } else {
      HalveBound(x, digits);
      HalveBound(y, digits);
      EitherAre(Halve(x), Halve(y), digits - 1);
      HalveEither(x, y);
      BitNext(Disjunction(), x, y, EitherBits(x, y), digits - 1);
    }
  }

  lemma {:induction false} UnlikeAre(x: Cell, y: Cell, digits: nat)
    requires ValueOf(x) < Pow2(digits) && ValueOf(y) < Pow2(digits)
    ensures ValueOf(UnlikeBits(x, y)) == Bitwise(Exclusion(), ValueOf(x), ValueOf(y), digits)
    decreases digits
  {
    hide ValueOf, UnlikeBits, Halve, Odd, Pow2, Bitwise;
    if digits == 0 {
      NoDigits(x, y, Exclusion());
    } else {
      HalveBound(x, digits);
      HalveBound(y, digits);
      UnlikeAre(Halve(x), Halve(y), digits - 1);
      HalveUnlike(x, y);
      BitNext(Exclusion(), x, y, UnlikeBits(x, y), digits - 1);
    }
  }

  lemma NoDigits(x: Cell, y: Cell, f: (bool, bool) -> bool)
    requires ValueOf(x) < Pow2(0) && ValueOf(y) < Pow2(0)
    ensures x == 0 && y == 0
    ensures ValueOf(BothBits(x, y)) == ValueOf(EitherBits(x, y)) == ValueOf(UnlikeBits(x, y)) == 0
    ensures Bitwise(f, ValueOf(x), ValueOf(y), 0) == 0
  {
    hide ValueOf, BothBits, EitherBits, UnlikeBits;
    ZeroIs(x);
    ZeroIs(y);
    ZeroBits();
  }

  // ----- division -----

  function Distance(a: int): nat {
    if a < 0 then -a else a
  }

  /** The quotient, rounded towards zero. */
  function Truncated(a: int, b: int): int
    requires b != 0
  {
    var q := Distance(a) / Distance(b);
    if (a < 0) != (b < 0) then -q else q
  }

  /** The remainder that goes with it. */
  function Remaining(a: int, b: int): int
    requires b != 0
  {
    var r := Distance(a) % Distance(b);
    if a < 0 then -r else r
  }

  /** Quotient and remainder make up the dividend; the remainder is smaller than the divisor and has the
      dividend's sign. */
  lemma TruncatedLaw(a: int, b: int)
    requires b != 0
    ensures a == Truncated(a, b) * b + Remaining(a, b)
    ensures Distance(Remaining(a, b)) < Distance(b)
    ensures (a >= 0 ==> Remaining(a, b) >= 0) && (a <= 0 ==> Remaining(a, b) <= 0)
  {
    var q, r := Distance(a) / Distance(b), Distance(a) % Distance(b);
    assert Distance(a) == Distance(b) * q + r;
    Negated(b, q);
    Negated(-b, q);
  }

  lemma Negated(b: int, q: int)
    ensures (0 - q) * b == -(b * q) && q * b == b * q && (0 - b) * q == -(b * q)
  {
  }

  lemma MagnitudeIs(x: Cell)
    ensures Magnitude(x) == Distance(SignedOf(x)) && (Negative(x) <==> SignedOf(x) < 0)
  {
    hide ValueOf, Negative;
    ValueBound(x);
    NegativeIs(x);
    NegativeNonzero(x);
    ZeroIs(x);
  }

  function Oriented(negative: bool, n: nat): int {
    if negative then 0 - n else n
  }

  lemma FromMagnitudeIs(negative: bool, n: nat)
    requires n < WORD
    ensures ValueOf(FromMagnitude(negative, n)) == Oriented(negative, n) % WORD
  {
    hide ValueOf, CellOf;
    if negative && n > 0 {
      CellValue(WORD - n);
      ModIs(0 - n, -1, WORD - n);
    } else {
      CellValue(n);
    }
  }

  lemma OnesSigned()
    ensures SignedOf(ALL_ONES) == -1
  {
    hide ValueOf, Negative;
    OnesValue();
    NegativeIs(ALL_ONES);
  }

  lemma DivideOne(a: nat)
    ensures a / 1 == a && a % 1 == 0
  {
  }

  /** Signed division truncates the signed numbers' quotient, and wraps round where that is too large. */
  lemma SignedDivideIs(x: Cell, y: Cell)
    requires y != 0
    ensures SignedOf(y) != 0
    ensures ValueOf(SignedDivide(x, y)) == Truncated(SignedOf(x), SignedOf(y)) % WORD
  {
    hide ValueOf, CellOf, Negative, Magnitude, FromMagnitude, Difference, SignedOf, QuotientOf;
    MagnitudeIs(x);
    MagnitudeIs(y);
    NonzeroSigned(y);
    if y == ALL_ONES {
      OnesSigned();
      DifferenceIs(0, x);
      ZeroValue();
      SignedMod(x);
      ModNegate(ValueOf(x), SignedOf(x));
      DivideOne(Distance(SignedOf(x)));
    } else {
      DivideLess(Magnitude(x), Magnitude(y));
      FromMagnitudeIs(Negative(x) != Negative(y), QuotientOf(Magnitude(x), Magnitude(y)));
    }
  }

  lemma SignedRemainderIs(x: Cell, y: Cell)
    requires y != 0
    ensures SignedOf(y) != 0
    ensures ValueOf(SignedRemainder(x, y)) == Remaining(SignedOf(x), SignedOf(y)) % WORD
  {
    hide ValueOf, CellOf, Negative, Magnitude, FromMagnitude, SignedOf, RemainderOf;
    MagnitudeIs(x);
    MagnitudeIs(y);
    NonzeroSigned(y);
    if y == ALL_ONES {
      OnesSigned();
      ZeroValue();
      DivideOne(Distance(SignedOf(x)));
    } else {
      DivideLess(Magnitude(x), Magnitude(y));
      FromMagnitudeIs(Negative(x), RemainderOf(Magnitude(x), Magnitude(y)));
    }
  }

  lemma NonzeroSigned(y: Cell)
    ensures y != 0 <==> SignedOf(y) != 0
  {
    hide ValueOf, Negative;
    ZeroIs(y);
    NegativeIs(y);
    ValueBound(y);
  }

  lemma SignedMod(x: Cell)
    ensures SignedOf(x) % WORD == ValueOf(x)
  {
    hide ValueOf, Negative;
    NegativeIs(x);
    ValueBound(x);
    SignedBack(ValueOf(x));
  }

  lemma ModNegate(n: int, a: int)
    requires a % WORD == n
    ensures (0 - n) % WORD == -a % WORD
  {
    var q := a / WORD;
    assert a == WORD * q + n;
    ModAdd(-n, 0);
    ModShift(-n, -q);
  }

  lemma ModShift(a: int, q: int)
    ensures (a + WORD * q) % WORD == a % WORD
  {
    ModIs(a + WORD * q, a / WORD + q, a % WORD);
  }

  lemma UnsignedDivideIs(x: Cell, y: Cell)
    requires y != 0
    ensures ValueOf(y) > 0
    ensures ValueOf(Quotient(x, y)) == ValueOf(x) / ValueOf(y) && ValueOf(Remainder(x, y)) == ValueOf(x) % ValueOf(y)
  {
    hide ValueOf, CellOf, QuotientOf, RemainderOf;
    ValueBound(x);
    NonzeroValue(y);
    DivideLess(ValueOf(x), ValueOf(y));
    CellValue(QuotientOf(ValueOf(x), ValueOf(y)));
    CellValue(RemainderOf(ValueOf(x), ValueOf(y)));
  }

  // ----- every operation -----

  /** The number that stands for a truth value. */
  function Holding(b: bool): nat {
    if b then 1 else 0
  }

  /** What each operation makes of two numbers of 64 bits. */
  function Meant(op: BinaryOp, x: nat, y: nat): int
    requires op in {DIVU, DIVS, REMU, REMS} ==> y != 0 && AsSigned(y) != 0
  {
    match op
    case ADD => (x + y) % WORD
    case SUB => (x - y) % WORD
    case MUL => x * y % WORD
    case DIVU => x / y
    case DIVS => Truncated(AsSigned(x), AsSigned(y)) % WORD
    case REMU => x % y
    case REMS => Remaining(AsSigned(x), AsSigned(y)) % WORD
    case AND => Bitwise(Conjunction(), x, y, 64)
    case OR => Bitwise(Disjunction(), x, y, 64)
    case XOR => Bitwise(Exclusion(), x, y, 64)
    case SHL => x * Pow2(y) % WORD
    case SHR => x / Pow2(y)
    case SAR => (AsSigned(x) / Pow2(y)) % WORD
    case EQ => Holding(x == y)
    case NE => Holding(x != y)
    case LT => Holding(AsSigned(x) < AsSigned(y))
    case LE => Holding(AsSigned(x) <= AsSigned(y))
    case LTU => Holding(x < y)
    case LEU => Holding(x <= y)
  }

  lemma EqualIs(x: Cell, y: Cell)
    ensures x == y <==> ValueOf(x) == ValueOf(y)
  {
    hide ValueOf;
    if ValueOf(x) == ValueOf(y) {
      ValueOne(x, y);
    }
  }

  lemma TruthValue(b: bool)
    ensures ValueOf(Truth(b)) == Holding(b)
  {
    hide ValueOf;
    OneValue();
  }

  lemma AddsIs(op: BinaryOp, x: Cell, y: Cell)
    requires op in {ADD, SUB, MUL}
    ensures ValueOf(Apply(op, x, y)) == Meant(op, ValueOf(x), ValueOf(y))
  {
    hide ValueOf, Sum, Difference, Product;
    SumIs(x, y);
    DifferenceIs(x, y);
    ProductIs(x, y);
  }

  lemma BitsIs(op: BinaryOp, x: Cell, y: Cell)
    requires op in {AND, OR, XOR}
    ensures ValueOf(Apply(op, x, y)) == Meant(op, ValueOf(x), ValueOf(y))
  {
    hide ValueOf, BothBits, EitherBits, UnlikeBits, Bitwise, Conjunction, Disjunction, Exclusion, Pow2;
    ValueBound(x);
    ValueBound(y);
    PowerWord();
    BothAre(x, y, 64);
    EitherAre(x, y, 64);
    UnlikeAre(x, y, 64);
  }

  lemma DividesIs(op: BinaryOp, x: Cell, y: Cell)
    requires op in {DIVU, DIVS, REMU, REMS} && y != 0
    ensures ValueOf(y) != 0 && AsSigned(ValueOf(y)) != 0
    ensures ValueOf(Apply(op, x, y)) == Meant(op, ValueOf(x), ValueOf(y))
  {
    hide ValueOf, Quotient, Remainder, SignedDivide, SignedRemainder, SignedOf, AsSigned, Truncated, Remaining;
    hide Negative;
    NegativeIs(x);
    NegativeIs(y);
    UnsignedDivideIs(x, y);
    SignedDivideIs(x, y);
    SignedRemainderIs(x, y);
  }

  lemma ShiftsIs(op: BinaryOp, x: Cell, y: Cell)
    requires op in {SHL, SHR, SAR}
    ensures ValueOf(Apply(op, x, y)) == Meant(op, ValueOf(x), ValueOf(y))
  {
    hide ValueOf, ShiftLeft, ShiftRight, ShiftArithmetic, SignedOf, AsSigned, Pow2, Negative;
    ShiftIs(x, y);
    ArithmeticIs(x, y);
    NegativeIs(x);
    SignedMod(ShiftArithmetic(x, y));
  }

  lemma EqualsIs(op: BinaryOp, x: Cell, y: Cell)
    requires op == EQ || op == NE
    ensures ValueOf(Apply(op, x, y)) == Meant(op, ValueOf(x), ValueOf(y))
  {
    hide ValueOf, Truth, Holding;
    EqualIs(x, y);
    TruthValue(x == y);
    TruthValue(x != y);
  }

  lemma OrderTruth(op: BinaryOp, x: Cell, y: Cell)
    requires op in {LT, LE, LTU, LEU}
    ensures Apply(op, x, y) == Truth(
      match op
      case LT => SignedLess(x, y)
      case LE => SignedLessEqual(x, y)
      case LTU => UnsignedLess(x, y)
      case _ => !UnsignedLess(y, x))
  {
    hide SignedLess, SignedLessEqual, UnsignedLess, Truth;
  }

  lemma OrdersIs(op: BinaryOp, x: Cell, y: Cell)
    requires op in {LT, LE, LTU, LEU}
    ensures ValueOf(Apply(op, x, y)) == Meant(op, ValueOf(x), ValueOf(y))
  {
    hide ValueOf, SignedOf, AsSigned, Truth, Holding, Negative, Apply;
    OrderTruth(op, x, y);
    NegativeIs(x);
    NegativeIs(y);
    match op
    case LT => TruthValue(SignedLess(x, y));
    case LE => TruthValue(SignedLessEqual(x, y));
    case LTU => TruthValue(UnsignedLess(x, y));
    case LEU => TruthValue(!UnsignedLess(y, x));
  }

  /** Every operation computes what its name says of the numbers its operands stand for. */
  lemma ApplyIs(op: BinaryOp, x: Cell, y: Cell)
    requires !Traps(op, y)
    ensures op in {DIVU, DIVS, REMU, REMS} ==> ValueOf(y) != 0 && AsSigned(ValueOf(y)) != 0
    ensures ValueOf(Apply(op, x, y)) == Meant(op, ValueOf(x), ValueOf(y))
  {
    hide ValueOf, Apply, AsSigned, Meant;
    if op in {ADD, SUB, MUL} {
      AddsIs(op, x, y);
    } else if op in {AND, OR, XOR} {
      BitsIs(op, x, y);
    } else if op in {DIVU, DIVS, REMU, REMS} {
      DividesIs(op, x, y);
    } else if op in {SHL, SHR, SAR} {
      ShiftsIs(op, x, y);
    } else if op == EQ || op == NE {
      EqualsIs(op, x, y);
    } else {
      OrdersIs(op, x, y);
    }
  }

  lemma TrapsIs(op: BinaryOp, y: Cell)
    ensures Traps(op, y) <==> op in {DIVU, DIVS, REMU, REMS} && ValueOf(y) == 0
  {
    hide ValueOf;
    ZeroIs(y);
  }

  // ----- unary operations -----

  lemma LowParts(x: Cell)
    ensures LowPart(Low32(x)) == LowPart(x) && HighPart(Low32(x)) == 0
  {
  }

  /** The low half is the remainder of the number. */
  lemma LowIs(x: Cell)
    ensures ValueOf(Low32(x)) == ValueOf(x) % HALF == HalfValue(LowPart(x))
  {
    hide HalfValue, LowPart, HighPart, Low32;
    LowParts(x);
    HalfEnds();
    HalfBound(LowPart(x));
    assert ValueOf(x) == HALF * HalfValue(HighPart(x)) + HalfValue(LowPart(x));
    DivideIs(ValueOf(x), HALF, HalfValue(HighPart(x)), HalfValue(LowPart(x)));
  }

  lemma ExtendParts(x: Cell)
    ensures LowPart(SignExtend(x)) == LowPart(x)
    ensures HighPart(SignExtend(x)) == if LowPart(x) & 0x8000_0000 == 0 then 0 else 0xffff_ffff
  {
  }

  /** Sign extension keeps the low half's signed number. */
  lemma ExtendIs(x: Cell)
    ensures var low := ValueOf(x) % HALF;
      ValueOf(SignExtend(x)) == (if low < HALF / 2 then low else low - HALF) % WORD
  {
    hide HalfValue, LowPart, HighPart, SignExtend;
    ExtendParts(x);
    HalfEnds();
    HalfSign(LowPart(x));
    HalfBound(LowPart(x));
    var low := HalfValue(LowPart(x));
    assert ValueOf(x) == HALF * HalfValue(HighPart(x)) + low;
    DivideIs(ValueOf(x), HALF, HalfValue(HighPart(x)), low);
    if low >= HALF / 2 {
      ModIs(low - HALF, -1, WORD + low - HALF);
    }
  }

  function Masked(x: Cell): Cell {
    x & 0xff
  }

  function MaskedTwice(x: Cell): Cell {
    x & 0xffff
  }

  lemma MaskedHigh(x: Cell)
    ensures HighPart(Masked(x)) == 0 && HighPart(MaskedTwice(x)) == 0
  {
  }

  lemma MaskedOnce(x: Cell)
    ensures var y := LowPart(Masked(x));
      Byte(y, 0) == Byte(LowPart(x), 0) && Byte(y, 1) == 0 && Byte(y, 2) == 0 && Byte(y, 3) == 0
  {
  }

  lemma MaskedBoth(x: Cell)
    ensures var y := LowPart(MaskedTwice(x));
      Byte(y, 0) == Byte(LowPart(x), 0) && Byte(y, 1) == Byte(LowPart(x), 1) && Byte(y, 2) == 0 && Byte(y, 3) == 0
  {
  }

  lemma MaskedHalves(x: Cell)
    ensures HalfValue(HighPart(Masked(x))) == HalfValue(HighPart(MaskedTwice(x))) == 0
  {
    hide HalfValue, HighPart, Masked, MaskedTwice;
    MaskedHigh(x);
    HalfEnds();
  }

  lemma MaskedDigit(x: Cell)
    ensures HalfValue(LowPart(Masked(x))) == ByteValue(Byte(LowPart(x), 0))
  {
    hide LowPart, Byte, ByteValue, Masked;
    MaskedOnce(x);
    ZeroByte();
  }

  lemma MaskedDigits(x: Cell)
    ensures HalfValue(LowPart(MaskedTwice(x))) ==
      ByteValue(Byte(LowPart(x), 0)) + 256 * ByteValue(Byte(LowPart(x), 1))
  {
    hide LowPart, Byte, ByteValue, MaskedTwice;
    MaskedBoth(x);
    ZeroByte();
  }

  lemma ZeroByte()
    ensures ByteValue(0) == 0
  {
  }

  lemma ByteParts(n: nat, a: nat, b: nat, c: nat, d: nat, h: nat)
    requires n == FromDigits(a, b, c, d) + HALF * h && a < 256 && b < 256
    ensures n % 256 == a && n % 0x1_0000 == a + 256 * b
  {
    DivideIs(n, 256, b + 256 * c + 0x1_0000 * d + 0x100_0000 * h, a);
    DivideIs(n, 0x1_0000, c + 256 * d + 0x1_0000 * h, a + 256 * b);
  }

  lemma MaskedIs(x: Cell)
    ensures ValueOf(Masked(x)) == ValueOf(x) % 256 && ValueOf(MaskedTwice(x)) == ValueOf(x) % 0x1_0000
  {
    hide Byte, ByteValue, LowPart, HighPart, Masked, MaskedTwice, HalfValue;
    MaskedHalves(x);
    MaskedDigit(x);
    MaskedDigits(x);
    LowDigits(x);
  }

  lemma LowDigits(x: Cell)
    ensures var a, b := ByteValue(Byte(LowPart(x), 0)), ByteValue(Byte(LowPart(x), 1));
      ValueOf(x) % 256 == a && ValueOf(x) % 0x1_0000 == a + 256 * b
  {
    hide Byte, ByteValue, LowPart, HighPart;
    var y := LowPart(x);
    ByteBound(Byte(y, 0));
    ByteBound(Byte(y, 1));
    ByteParts(ValueOf(x), ByteValue(Byte(y, 0)), ByteValue(Byte(y, 1)), ByteValue(Byte(y, 2)), ByteValue(Byte(y, 3)),
      HalfValue(HighPart(x)));
  }

  function Flipped(x: Cell): Cell {
    x ^ 1
  }

  lemma FlippedParts(x: Cell)
    ensures Halve(Flipped(x)) == Halve(x) && (Odd(Flipped(x)) <==> !Odd(x))
  {
  }

  lemma FlippedIs(x: Cell)
    ensures ValueOf(Flipped(x)) == if ValueOf(x) % 2 == 0 then ValueOf(x) + 1 else ValueOf(x) - 1
  {
    hide ValueOf, Halve, Odd, Flipped;
    FlippedParts(x);
    HalveIs(x);
    HalveIs(Flipped(x));
  }

  /** What each unary operation makes of a number of 64 bits. */
  function MeantUnary(op: UnaryOp, x: nat): int {
    match op
    case NEG => (0 - x) % WORD
    case NOT => WORD - 1 - x
    case LNOT => if x % 2 == 0 then x + 1 else x - 1
    case ZX32 => x % HALF
    case SX32 => (if x % HALF < HALF / 2 then x % HALF else x % HALF - HALF) % WORD
    case ZX8 => x % 256
    case ZX16 => x % 0x1_0000
  }

  lemma UnaryForms(op: UnaryOp, x: Cell)
    ensures ApplyUnary(op, x) ==
      match op
      case NEG => Difference(0, x)
      case NOT => Complement(x)
      case LNOT => Flipped(x)
      case ZX32 => Low32(x)
      case SX32 => SignExtend(x)
      case ZX8 => Masked(x)
      case ZX16 => MaskedTwice(x)
  {
    hide Low32, SignExtend;
  }

  /** So does every unary operation. */
  lemma UnaryIs(op: UnaryOp, x: Cell)
    ensures ValueOf(ApplyUnary(op, x)) == MeantUnary(op, ValueOf(x))
  {
    hide ValueOf, ApplyUnary, Difference, Complement, Flipped, Low32, SignExtend, Masked, MaskedTwice;
    UnaryForms(op, x);
    match op
    case NEG =>
      DifferenceIs(0, x);
      ZeroValue();
    case NOT => ComplementIs(x);
    case LNOT => FlippedIs(x);
    case ZX32 => LowIs(x);
    case SX32 => ExtendIs(x);
    case ZX8 => MaskedIs(x);
    case ZX16 => MaskedIs(x);
  }

  // ----- relations and range checks -----

  /** A relation of the numbers. */
  predicate Compared(r: Relation, x: nat, y: nat) {
    match r
    case RelEQ => x == y
    case RelNE => x != y
    case RelLT => AsSigned(x) < AsSigned(y)
    case RelLE => AsSigned(x) <= AsSigned(y)
    case RelLTU => x < y
    case RelLEU => x <= y
  }

  lemma RelatedIs(r: Relation, x: Cell, y: Cell)
    ensures Related(r, x, y) <==> Compared(r, ValueOf(x), ValueOf(y))
  {
    hide ValueOf, SignedOf, AsSigned, Negative;
    EqualIs(x, y);
    NegativeIs(x);
    NegativeIs(y);
  }

  /** The numbers a check accepts. */
  predicate Accepted(op: CheckOp, x: nat) {
    match op
    case CHKU8 => x < 0x100
    case CHKU16 => x < 0x1_0000
    case CHKU32 => x < HALF
    case CHKI32 => -(HALF / 2) <= AsSigned(x) < HALF / 2
    case CHKNN => AsSigned(x) >= 0
  }

  lemma FailsIs(op: CheckOp, x: Cell)
    ensures Fails(op, x) <==> !Accepted(op, ValueOf(x))
  {
    hide ValueOf, SignedOf, AsSigned, Negative;
    NegativeIs(x);
  }
}
