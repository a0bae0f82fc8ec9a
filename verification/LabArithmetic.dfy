/** Facts about one operator at one width, for the simulator's compiler. */
module LabArithmetic {
  import opened Words
  import opened Bytecode
  import opened LabLanguage
  import opened LabCompiler
  import opened LabBits
  import opened Numbers

  // ----- staying in range -----

  lemma NormIs(x: Cell, t: Width)
    ensures Norm(x, t) == match t case U32 => Low(x) case I32 => Extended(x) case _ => x
  {
    hide Extended;
    ExtendIs(x);
    hide SignExtend;
  }

  lemma ExtendIs(x: Cell)
    ensures SignExtend(x) == Extended(x)
  {
  }

  lemma NormTwice(v: Cell, t: Width)
    ensures Norm(Norm(v, t), t) == Norm(v, t)
  {
    hide Norm, Low, Extended, Half;
    NormIs(v, t);
    NormIs(Norm(v, t), t);
    LowTwice(v);
    ExtendedHalf(v);
    ExtendedHalf(Extended(v));
  }

  predicate IsFlag(v: Cell) {
    v == 0 || v == 1
  }

  lemma FlagNorm(v: Cell, t: Width)
    requires IsFlag(v)
    ensures Norm(v, t) == v && IsFlag(ApplyUnary(LNOT, v))
  {
  }

  lemma CellRange(n: nat)
    requires n < WORD
    ensures n < HALF ==> Low(CellOf(n)) == CellOf(n)
    ensures n < 0x8000_0000 ==> Clear(CellOf(n))
    ensures n >= WORD - 0x8000_0000 ==> Full(CellOf(n))
  {
    hide ValueOf, CellOf, Low, Clear, Full;
    CellValue(n);
    Ranges(CellOf(n));
  }

  /** A quotient is no larger than what is divided. */
  lemma QuotientStays(x: Cell, y: Cell)
    requires y != 0 && Norm(x, U32) == x
    ensures Norm(Quotient(x, y), U32) == Quotient(x, y)
  {
    hide Norm, ValueOf, CellOf, Low, Clear, Full;
    NormIs(x, U32);
    NormIs(Quotient(x, y), U32);
    Ranges(x);
    NonzeroValue(y);
    ValueBound(x);
    CellRange(QuotientOf(ValueOf(x), ValueOf(y)));
  }

  /** A remainder is smaller than the divisor. */
  lemma RemainderStays(x: Cell, y: Cell)
    requires y != 0 && Norm(y, U32) == y
    ensures Norm(Remainder(x, y), U32) == Remainder(x, y)
  {
    hide Norm, ValueOf, CellOf, Low, Clear, Full;
    NormIs(y, U32);
    NormIs(Remainder(x, y), U32);
    Ranges(y);
    NonzeroValue(y);
    ValueBound(x);
    CellRange(RemainderOf(ValueOf(x), ValueOf(y)));
  }

  lemma HalfMagnitude(y: Cell)
    requires Half(y)
    ensures Magnitude(y) <= 0x8000_0000
  {
    hide Half, Negative, ValueOf, Low, Clear, Full;
    HalfCases(y);
    NegativeIs(y);
    Ranges(y);
    ZeroValue();
  }

  lemma SmallCell(negative: bool, n: nat)
    requires n < 0x8000_0000
    ensures Half(FromMagnitude(negative, n))
  {
    hide Half, ValueOf, CellOf, Low, Clear, Full;
    HalfCases(FromMagnitude(negative, n));
    CellRange(n);
    if n > 0 {
      CellRange(WORD - n);
    }
  }

  lemma SignedRemainderStays(x: Cell, y: Cell)
    requires y != 0 && Norm(y, I32) == y
    ensures Norm(SignedRemainder(x, y), I32) == SignedRemainder(x, y)
  {
    hide Norm, Extended, Half, Magnitude, FromMagnitude, Negative;
    NormIs(y, I32);
    NormIs(SignedRemainder(x, y), I32);
    ExtendedHalf(y);
    ExtendedHalf(SignedRemainder(x, y));
    HalfMagnitude(y);
    SmallCell(Negative(x), 0);
    SmallCell(Negative(x), RemainderOf(Magnitude(x), Magnitude(y)));
    NoMagnitude();
  }

  lemma NoMagnitude()
    ensures forall negative :: FromMagnitude(negative, 0) == 0
  {
    ZeroValue();
    ValueCell(0);
    hide ValueOf, CellOf;
  }

  lemma BothStay(x: Cell, y: Cell, t: Width)
    requires Norm(x, t) == x && Norm(y, t) == y
    ensures Norm(BothBits(x, y), t) == BothBits(x, y)
  {
    hide Norm, Low, Extended, Half, BothBits;
    NormIs(x, t);
    NormIs(y, t);
    NormIs(x & y, t);
    BothAre(x, y);
    if t == U32 {
      LowAnd(x, y);
    } else if t == I32 {
      ExtendedHalf(x);
      ExtendedHalf(y);
      HalfAnd(x, y);
      ExtendedHalf(x & y);
    }
  }

  lemma EitherStay(x: Cell, y: Cell, t: Width)
    requires Norm(x, t) == x && Norm(y, t) == y
    ensures Norm(EitherBits(x, y), t) == EitherBits(x, y)
  {
    hide Norm, Low, Extended, Half, EitherBits;
    NormIs(x, t);
    NormIs(y, t);
    NormIs(x | y, t);
    EitherAre(x, y);
    if t == U32 {
      LowOr(x, y);
    } else if t == I32 {
      ExtendedHalf(x);
      ExtendedHalf(y);
      HalfOr(x, y);
      ExtendedHalf(x | y);
    }
  }

  lemma UnlikeStay(x: Cell, y: Cell, t: Width)
    requires Norm(x, t) == x && Norm(y, t) == y
    ensures Norm(UnlikeBits(x, y), t) == UnlikeBits(x, y)
  {
    hide Norm, Low, Extended, Half, UnlikeBits;
    NormIs(x, t);
    NormIs(y, t);
    NormIs(x ^ y, t);
    UnlikeAre(x, y);
    if t == U32 {
      LowXor(x, y);
    } else if t == I32 {
      ExtendedHalf(x);
      ExtendedHalf(y);
      HalfXor(x, y);
      ExtendedHalf(x ^ y);
    }
  }

  lemma BothAre(x: Cell, y: Cell)
    ensures BothBits(x, y) == x & y
  {
  }

  lemma EitherAre(x: Cell, y: Cell)
    ensures EitherBits(x, y) == x | y
  {
  }

  lemma UnlikeAre(x: Cell, y: Cell)
    ensures UnlikeBits(x, y) == x ^ y
  {
  }

  lemma ShiftRightIs(x: Cell, y: Cell)
    ensures ShiftRight(x, y) == if y >= 64 then 0 else Right(x, y)
  {
  }

  lemma ShiftArithmeticIs(x: Cell, y: Cell)
    ensures var n: Cell := if y >= 64 then 63 else y;
      ShiftArithmetic(x, y) == if Negative(x) then Flip(Right(Flip(x), n)) else Right(x, n)
  {
    hide Negative, ShiftRight, Right, Flip;
    var n: Cell := if y >= 64 then 63 else y;
    FlipIs(x);
    ShiftRightIs(x, n);
    ShiftRightIs(Flip(x), n);
    FlipIs(Right(Flip(x), n));
  }

  lemma FlipIs(x: Cell)
    ensures ALL_ONES ^ x == Flip(x)
  {
  }

  lemma NegativeBit(x: Cell)
    ensures Negative(x) <==> x & 0x8000_0000_0000_0000 != 0
  {
  }

  lemma NegativeIs(x: Cell)
    requires Half(x)
    ensures Negative(x) <==> Full(x)
    ensures !Negative(x) <==> Clear(x)
  {
    hide Half, Clear, Full, Negative;
    SignOfHalf(x);
    NegativeBit(x);
    HalfCases(x);
  }

  lemma RightStays(x: Cell, y: Cell)
    requires Norm(x, U32) == x
    ensures Norm(ShiftRight(x, y), U32) == ShiftRight(x, y)
  {
    hide Norm, Low, Right, ShiftRight;
    NormIs(x, U32);
    NormIs(ShiftRight(x, y), U32);
    ShiftRightIs(x, y);
    LowNone();
    if y < 64 {
      LowRight(x, y);
    }
  }

  lemma LowNone()
    ensures Low(0) == 0 && Clear(0) && Flip(0) == ALL_ONES
  {
  }

  lemma ArithmeticStays(x: Cell, y: Cell)
    requires Norm(x, I32) == x
    ensures Norm(ShiftArithmetic(x, y), I32) == ShiftArithmetic(x, y)
  {
    hide Norm, Low, Right, ShiftArithmetic, Extended, Negative, Flip, Full, Clear;
    var r := ShiftArithmetic(x, y);
    NormIs(x, I32);
    NormIs(r, I32);
    ExtendedHalf(x);
    ExtendedHalf(r);
    ShiftArithmeticIs(x, y);
    NegativeIs(x);
    var n: Cell := if y >= 64 then 63 else y;
    if Negative(x) {
      FlipFull(x);
      ClearRight(Flip(x), n);
      FlipClear(Right(Flip(x), n));
    } else {
      ClearRight(x, n);
    }
  }

  lemma NarrowStays(op: Oper, t: Width, x: Cell, y: Cell)
    requires op == BitAnd || op == BitOr || op == BitXor
    requires Norm(x, t) == x && Norm(y, t) == y
    ensures Norm(Apply(OperFor(op, t), x, y), t) == Apply(OperFor(op, t), x, y)
  {
    hide Norm, ShiftRight, ShiftArithmetic, ShiftLeft, Sum, Difference, Product, Quotient, Remainder, SignedDivide;
    hide SignedRemainder, BothBits, EitherBits, UnlikeBits, UnsignedLess, SignedLess, SignedLessEqual, Truth;
    BothStay(x, y, t);
    EitherStay(x, y, t);
    UnlikeStay(x, y, t);
  }

  lemma DivisionStays(op: Oper, t: Width, x: Cell, y: Cell)
    requires (op == Div && t == U32) || (op == Rem && (t == U32 || t == I32))
    requires Norm(x, t) == x && Norm(y, t) == y && y != 0
    ensures Norm(Apply(OperFor(op, t), x, y), t) == Apply(OperFor(op, t), x, y)
  {
    hide Norm, ShiftRight, ShiftArithmetic, ShiftLeft, Sum, Difference, Product, Quotient, Remainder, SignedDivide;
    hide SignedRemainder, BothBits, EitherBits, UnlikeBits, UnsignedLess, SignedLess, SignedLessEqual, Truth;
    if op == Div {
      QuotientStays(x, y);
    } else if t == U32 {
      RemainderStays(x, y);
    } else {
      SignedRemainderStays(x, y);
    }
  }

  lemma ShiftStays(t: Width, x: Cell, y: Cell)
    requires t == U32 || t == I32
    requires Norm(x, t) == x
    ensures !Traps(OperFor(ShiftR, t), y)
    ensures Norm(Apply(OperFor(ShiftR, t), x, y), t) == Apply(OperFor(ShiftR, t), x, y)
  {
    hide Norm, ShiftRight, ShiftArithmetic, ShiftLeft, Sum, Difference, Product, Quotient, Remainder, SignedDivide;
    hide SignedRemainder, BothBits, EitherBits, UnlikeBits, UnsignedLess, SignedLess, SignedLessEqual, Truth;
    if t == U32 {
      RightStays(x, y);
    } else {
      ArithmeticStays(x, y);
    }
  }

  /** Operations after which the compiler does not normalise need no normalising. */
  lemma PlainStays(op: Oper, t: Width, x: Cell, y: Cell)
    requires !Wraps(op) && !(op == Div && t == I32)
    requires Norm(x, t) == x && (IsShift(op) || Norm(y, t) == y) && !Traps(OperFor(op, t), y)
    ensures Norm(Apply(OperFor(op, t), x, y), t) == Apply(OperFor(op, t), x, y)
  {
    hide Norm, Apply, Low, Extended;
    if t == U64 || t == I64 {
      NormIs(Apply(OperFor(op, t), x, y), t);
    } else if op == Div || op == Rem {
      DivisionStays(op, t, x, y);
    } else if op == ShiftR {
      ShiftStays(t, x, y);
    } else {
      NarrowStays(op, t, x, y);
    }
  }

  // ----- shift counts -----

  /** The compiler keeps the low half of a static count. */
  predicate CountOk(op: Oper, t: Width, c: Cell) {
    SameEffect(op, t, Low32(c), c)
  }

  lemma Saturated(x: Cell, c: Cell)
    requires 63 <= c
    ensures ShiftArithmetic(x, c) == ShiftArithmetic(x, 63)
  {
    hide Negative, ShiftRight;
  }

  /** From a count of 31 only the sign of a half word is left. */
  lemma AllGone(x: Cell, c: Cell)
    requires Norm(x, I32) == x && 31 <= c
    ensures ShiftArithmetic(x, c) == if Negative(x) then ALL_ONES else 0
  {
    hide Norm, Right, ShiftArithmetic, Extended, Negative, Flip, Full, Clear;
    NormIs(x, I32);
    ExtendedHalf(x);
    NegativeIs(x);
    ShiftArithmeticIs(x, c);
    LowNone();
    var n: Cell := if c >= 64 then 63 else c;
    if Negative(x) {
      FlipFull(x);
      ClearRight(Flip(x), n);
    } else {
      ClearRight(x, n);
    }
  }

  lemma ShiftIs(op: Oper, t: Width, x: Cell, y: Cell)
    requires IsShift(op)
    ensures !Traps(OperFor(op, t), y)
    ensures Apply(OperFor(op, t), x, y) ==
      if op == ShiftL then ShiftLeft(x, y) else if Signed(t) then ShiftArithmetic(x, y) else ShiftRight(x, y)
  {
    hide ShiftRight, ShiftArithmetic, ShiftLeft, Sum, Difference, Product, Quotient, Remainder, SignedDivide;
    hide SignedRemainder, BothBits, EitherBits, UnlikeBits, UnsignedLess, SignedLess, SignedLessEqual, Truth;
  }

  lemma LeftGone(x: Cell, m: Cell, w: Cell, t: Width)
    requires Exhausts(ShiftL, t, m) && Exhausts(ShiftL, t, w)
    ensures Norm(ShiftLeft(x, m), t) == Norm(ShiftLeft(x, w), t)
  {
    hide Norm, ShiftLeft, Exhausts;
    LeftNone(x, m, t);
    LeftNone(x, w, t);
  }

  lemma LeftNone(x: Cell, c: Cell, t: Width)
    requires Exhausts(ShiftL, t, c)
    ensures Norm(ShiftLeft(x, c), t) == 0
  {
  }

  lemma RightGone(x: Cell, c: Cell, t: Width)
    requires !Signed(t) && Norm(x, t) == x && Exhausts(ShiftR, t, c)
    ensures ShiftRight(x, c) == 0
  {
  }

  lemma ArithmeticGone(x: Cell, m: Cell, w: Cell, t: Width)
    requires Signed(t) && Norm(x, t) == x && Exhausts(ShiftR, t, m) && Exhausts(ShiftR, t, w)
    ensures ShiftArithmetic(x, m) == ShiftArithmetic(x, w)
  {
    hide Norm, ShiftArithmetic;
    if t == I32 {
      AllGone(x, m);
      AllGone(x, w);
    } else {
      Saturated(x, m);
      Saturated(x, w);
    }
  }

  /** Counts of the same effect shift every number alike. */
  lemma EffectSame(op: Oper, t: Width, x: Cell, m: Cell, w: Cell)
    requires IsShift(op) && SameEffect(op, t, m, w) && Norm(x, t) == x
    ensures Norm(Apply(OperFor(op, t), x, m), t) == Norm(Apply(OperFor(op, t), x, w), t)
  {
    hide Norm, ShiftLeft, ShiftRight, ShiftArithmetic, Apply, OperFor, Exhausts;
    if m != w {
      ShiftIs(op, t, x, m);
      ShiftIs(op, t, x, w);
      if op == ShiftL {
        LeftGone(x, m, w, t);
      } else if Signed(t) {
        ArithmeticGone(x, m, w, t);
      } else {
        RightGone(x, m, t);
        RightGone(x, w, t);
      }
    }
  }

  /** A number whose shift by a wrong count shows. */
  function Revealing(op: Oper, t: Width): Cell {
    if op == ShiftL then 1
    else match t
      case U32 => 0xffff_ffff
      case I32 => 0x7fff_ffff
      case U64 => 0xffff_ffff_ffff_ffff
      case I64 => 0x7fff_ffff_ffff_ffff
  }

  lemma RevealingNorm(op: Oper, t: Width)
    ensures Norm(Revealing(op, t), t) == Revealing(op, t)
  {
  }

  lemma LeftShows(m: Cell, w: Cell, t: Width)
    requires !Exhausts(ShiftL, t, m) && !Exhausts(ShiftL, t, w) && m != w
    ensures Norm(ShiftLeft(1, m), t) != Norm(ShiftLeft(1, w), t)
  {
  }

  lemma LeftStays(m: Cell, t: Width)
    requires !Exhausts(ShiftL, t, m)
    ensures Norm(ShiftLeft(1, m), t) != 0
  {
  }

  lemma LeftDiffers(m: Cell, w: Cell, t: Width)
    requires !SameEffect(ShiftL, t, m, w)
    ensures Norm(ShiftLeft(1, m), t) != Norm(ShiftLeft(1, w), t)
  {
    hide Norm, ShiftLeft, Exhausts;
    if Exhausts(ShiftL, t, m) {
      LeftNone(1, m, t);
      LeftStays(w, t);
    } else if Exhausts(ShiftL, t, w) {
      LeftNone(1, w, t);
      LeftStays(m, t);
    } else {
      LeftShows(m, w, t);
    }
  }

  /** The revealing number's sign is clear, and it stays in range. */
  lemma RightReveals(m: Cell, t: Width)
    ensures Signed(t) ==> ShiftArithmetic(Revealing(ShiftR, t), m) == ShiftRight(Revealing(ShiftR, t), m)
    ensures Norm(ShiftRight(Revealing(ShiftR, t), m), t) == ShiftRight(Revealing(ShiftR, t), m)
  {
    hide Norm, ShiftRight, ShiftArithmetic, Revealing;
    if Signed(t) {
      ClearReveals(m, t);
    }
    RangeReveals(m, t);
  }

  lemma ClearReveals(m: Cell, t: Width)
    requires Signed(t)
    ensures ShiftArithmetic(Revealing(ShiftR, t), m) == ShiftRight(Revealing(ShiftR, t), m)
  {
  }

  lemma RangeReveals(m: Cell, t: Width)
    ensures Norm(ShiftRight(Revealing(ShiftR, t), m), t) == ShiftRight(Revealing(ShiftR, t), m)
  {
    hide ShiftRight, ShiftArithmetic, Revealing;
    RevealingNorm(ShiftR, t);
    match t
    case U32 =>
      hide Norm;
      RightStays(Revealing(ShiftR, t), m);
    case I32 =>
      hide Norm;
      ClearReveals(m, t);
      ArithmeticStays(Revealing(ShiftR, t), m);
    case U64 =>
    case I64 =>
  }

  lemma OnesShow(m: Cell, w: Cell)
    requires m < 64 && w < 64 && m != w
    ensures Right(0xffff_ffff_ffff_ffff, m) != Right(0xffff_ffff_ffff_ffff, w)
  {
  }

  lemma SignedOnesShow(m: Cell, w: Cell)
    requires m < 63 && w < 63 && m != w
    ensures Right(0x7fff_ffff_ffff_ffff, m) != Right(0x7fff_ffff_ffff_ffff, w)
  {
  }

  lemma LowOnesShow(m: Cell, w: Cell)
    requires m < 32 && w < 32 && m != w
    ensures Right(0xffff_ffff, m) != Right(0xffff_ffff, w)
  {
  }

  lemma SignedLowOnesShow(m: Cell, w: Cell)
    requires m < 31 && w < 31 && m != w
    ensures Right(0x7fff_ffff, m) != Right(0x7fff_ffff, w)
  {
  }

  /** Below the limit. */
  lemma Within(m: Cell, t: Width)
    requires !Exhausts(ShiftR, t, m)
    ensures m < 64 && m < CountLimit(ShiftR, t)
  {
  }

  lemma RightShows(m: Cell, w: Cell, t: Width)
    requires !Exhausts(ShiftR, t, m) && !Exhausts(ShiftR, t, w) && m != w
    ensures ShiftRight(Revealing(ShiftR, t), m) != ShiftRight(Revealing(ShiftR, t), w)
  {
    hide ShiftRight, Right, Exhausts;
    Within(m, t);
    Within(w, t);
    ShiftRightIs(Revealing(ShiftR, t), m);
    ShiftRightIs(Revealing(ShiftR, t), w);
    match t
    case U32 => LowOnesShow(m, w);
    case I32 => SignedLowOnesShow(m, w);
    case U64 => OnesShow(m, w);
    case I64 => SignedOnesShow(m, w);
  }

  lemma RightNone(m: Cell, t: Width)
    ensures ShiftRight(Revealing(ShiftR, t), m) == 0 <==> Exhausts(ShiftR, t, m)
  {
  }

  lemma RightDiffers(m: Cell, w: Cell, t: Width)
    requires !SameEffect(ShiftR, t, m, w)
    ensures ShiftRight(Revealing(ShiftR, t), m) != ShiftRight(Revealing(ShiftR, t), w)
  {
    hide ShiftRight, Exhausts, Revealing;
    RightNone(m, t);
    RightNone(w, t);
    if !Exhausts(ShiftR, t, m) && !Exhausts(ShiftR, t, w) {
      RightShows(m, w, t);
    }
  }

  /** Otherwise some number is shifted differently. */
  lemma EffectDiffers(op: Oper, t: Width, m: Cell, w: Cell)
    requires IsShift(op) && !SameEffect(op, t, m, w)
    ensures var x := Revealing(op, t); Norm(Apply(OperFor(op, t), x, m), t) != Norm(Apply(OperFor(op, t), x, w), t)
  {
    hide Norm, ShiftLeft, ShiftRight, ShiftArithmetic, Apply, OperFor, SameEffect, Revealing;
    ShiftIs(op, t, Revealing(op, t), m);
    ShiftIs(op, t, Revealing(op, t), w);
    if op == ShiftL {
      RevealingLeft(t);
      LeftDiffers(m, w, t);
    } else {
      RightReveals(m, t);
      RightReveals(w, t);
      RightDiffers(m, w, t);
    }
  }

  lemma RevealingLeft(t: Width)
    ensures Revealing(ShiftL, t) == 1
  {
  }

  lemma Commuted(op: BinaryOp, x: Cell, y: Cell)
    requires Commutes(op)
    ensures Combine(op, x, y) == Combine(op, y, x)
  {
    hide SignedDivide, SignedRemainder, Quotient, Remainder, ShiftLeft, ShiftRight, ShiftArithmetic, Difference;
    hide UnsignedLess, SignedLess, SignedLessEqual, Truth;
  }

  // ----- comparisons -----

  predicate CmpHolds(c: Cmp, signed: bool, u: Cell, w: Cell) {
    match c
    case Equal => u == w
    case Unequal => u != w
    case Less => if signed then SignedLess(u, w) else UnsignedLess(u, w)
    case LessEqual => if signed then SignedLessEqual(u, w) else !UnsignedLess(w, u)
    case Greater => if signed then SignedLess(w, u) else UnsignedLess(w, u)
    case GreaterEqual => if signed then SignedLessEqual(w, u) else !UnsignedLess(u, w)
  }

  lemma EqualityIs(u: Cell, w: Cell)
    ensures Combine(EQ, u, w) == Some(Truth(u == w)) && Combine(NE, u, w) == Some(Truth(u != w))
  {
    hide ShiftRight, ShiftArithmetic, ShiftLeft, Sum, Difference, Product, Quotient, Remainder, SignedDivide;
    hide SignedRemainder, BothBits, EitherBits, UnlikeBits, UnsignedLess, SignedLess, SignedLessEqual, Truth;
  }

  lemma OrderIs(u: Cell, w: Cell)
    ensures Combine(LT, u, w) == Some(Truth(SignedLess(u, w)))
    ensures Combine(LE, u, w) == Some(Truth(SignedLessEqual(u, w)))
    ensures Combine(LTU, u, w) == Some(Truth(UnsignedLess(u, w)))
    ensures Combine(LEU, u, w) == Some(Truth(!UnsignedLess(w, u)))
  {
    hide ShiftRight, ShiftArithmetic, ShiftLeft, Sum, Difference, Product, Quotient, Remainder, SignedDivide;
    hide SignedRemainder, BothBits, EitherBits, UnlikeBits, UnsignedLess, SignedLess, SignedLessEqual, Truth;
  }

  lemma CompareIs(c: Cmp, t: Width, a: Cell, b: Cell)
    ensures CompareResult(c, t, Val(a), Val(b)) == Val(Truth(CmpHolds(c, Signed(t), Norm(a, t), Norm(b, t))))
  {
    hide Combine, Norm, Truth, CmpFor, CmpHolds, Swaps;
    CombineIs(c, t, Norm(a, t), Norm(b, t));
  }

  lemma CombineIs(c: Cmp, t: Width, u: Cell, w: Cell)
    ensures Combine(CmpFor(c, t), if Swaps(c) then w else u, if Swaps(c) then u else w)
      == Some(Truth(CmpHolds(c, Signed(t), u, w)))
  {
    hide Combine, Truth, SignedLess, SignedLessEqual, UnsignedLess;
    EqualityIs(u, w);
    if Swaps(c) {
      OrderIs(w, u);
    } else {
      OrderIs(u, w);
    }
  }

  lemma OrderFails(u: Cell, w: Cell)
    ensures SignedLessEqual(w, u) <==> !SignedLess(u, w)
  {
  }

  /** The jump's relation holds exactly when the comparison fails. */
  lemma FailingIs(c: Cmp, signed: bool, u: Cell, w: Cell)
    ensures var f := Failing(c, signed);
      Related(f.relation, if f.swapped then w else u, if f.swapped then u else w) <==> !CmpHolds(c, signed, u, w)
  {
    hide SignedLess, SignedLessEqual, UnsignedLess;
    OrderFails(u, w);
    OrderFails(w, u);
  }

  lemma FlippedIs(c: Cmp, signed: bool, u: Cell, w: Cell)
    ensures CmpHolds(Flipped(c), signed, w, u) == CmpHolds(c, signed, u, w)
  {
    hide SignedLess, SignedLessEqual;
  }

  lemma TruthIs(b: bool)
    ensures IsFlag(Truth(b)) && (Truth(b) == 0 <==> !b)
  {
  }
}
