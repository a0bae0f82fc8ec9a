/** 64-bit cells and the meaning of every scalar operation.

    A cell is a raw 64-bit pattern; each operator decides for itself whether it reads the
    pattern as signed.  All other modules use these functions and none redefines them.
 */
module Words {
  import opened Numbers

  type Cell = bv64

  datatype Option<+T> = None | Some(value: T)

  datatype BinaryOp =
    | ADD | SUB | MUL | DIVU | DIVS | REMU | REMS
    | AND | OR | XOR | SHL | SHR | SAR
    | EQ | NE | LT | LE | LTU | LEU

  datatype UnaryOp = NEG | NOT | LNOT | ZX32 | SX32 | ZX8 | ZX16

  datatype CheckOp = CHKU8 | CHKU16 | CHKU32 | CHKI32 | CHKNN

  datatype Relation = RelEQ | RelNE | RelLT | RelLE | RelLTU | RelLEU

  const SIGN_BIT: Cell := 0x8000_0000_0000_0000
  const ALL_ONES: Cell := 0xffff_ffff_ffff_ffff

  /** Abort reasons raised by the operations themselves. */
  const REASON_DIVISION: nat := 1
  const REASON_CONVERSION: nat := 3

  predicate Negative(x: Cell) {
    x & SIGN_BIT != 0
  }

  /** The number a cell stands for when it is read as signed. */
  function SignedOf(x: Cell): int {
    if Negative(x) then ValueOf(x) - WORD else ValueOf(x)
  }

  predicate SignedLess(x: Cell, y: Cell) {
    SignedOf(x) < SignedOf(y)
  }

  predicate SignedLessEqual(x: Cell, y: Cell) {
    SignedOf(x) <= SignedOf(y)
  }

  function Truth(b: bool): Cell {
    if b then 1 else 0
  }

  // ----- division, on the numbers cells stand for -----

  lemma NonzeroValue(x: Cell)
    requires x != 0
    ensures 0 < ValueOf(x) < WORD
  {
    hide ValueOf;
    ValueBound(x);
    ZeroValue();
    if ValueOf(x) == 0 {
      ValueOne(x, 0);
    }
  }

  lemma ZeroValue()
    ensures ValueOf(0) == 0
  {
  }

  lemma NegativeNonzero(x: Cell)
    ensures Negative(x) ==> x != 0
  {
  }

  /** The distance of a signed cell from zero. */
  function Magnitude(x: Cell): (n: nat)
    ensures n < WORD && (x != 0 ==> n > 0)
  {
    ValueBound(x);
    NegativeNonzero(x);
    if x != 0 then NonzeroValue(x); if Negative(x) then WORD - ValueOf(x) else ValueOf(x) else 0
  }

  function FromMagnitude(negative: bool, n: nat): Cell
    requires n < WORD
  {
    if negative && n > 0 then CellOf(WORD - n) else CellOf(n)
  }

  function Quotient(x: Cell, y: Cell): Cell
    requires y != 0
  {
    ValueBound(x);
    NonzeroValue(y);
    CellOf(QuotientOf(ValueOf(x), ValueOf(y)))
  }

  function Remainder(x: Cell, y: Cell): Cell
    requires y != 0
  {
    ValueBound(x);
    NonzeroValue(y);
    CellOf(RemainderOf(ValueOf(x), ValueOf(y)))
  }

  /** Division truncates towards zero; dividing by -1 negates with wrap-around. */
  function SignedDivide(x: Cell, y: Cell): Cell
    requires y != 0
  {
    if y == ALL_ONES then Difference(0, x)
    else FromMagnitude(Negative(x) != Negative(y), QuotientOf(Magnitude(x), Magnitude(y)))
  }

  /** The remainder takes the dividend's sign. */
  function SignedRemainder(x: Cell, y: Cell): Cell
    requires y != 0
  {
    if y == ALL_ONES then 0 else FromMagnitude(Negative(x), RemainderOf(Magnitude(x), Magnitude(y)))
  }

  /** Quotient and remainder are those of the numbers. */
  lemma DivisionLaw(x: Cell, y: Cell)
    requires y != 0
    ensures ValueOf(x) == ValueOf(Quotient(x, y)) * ValueOf(y) + ValueOf(Remainder(x, y))
    ensures ValueOf(Remainder(x, y)) < ValueOf(y)
  {
    hide ValueOf, CellOf, QuotientOf, RemainderOf;
    ValueBound(x);
    NonzeroValue(y);
    DivisionIs(ValueOf(x), ValueOf(y));
    CellValue(QuotientOf(ValueOf(x), ValueOf(y)));
    CellValue(RemainderOf(ValueOf(x), ValueOf(y)));
  }

  function ShiftLeft(x: Cell, y: Cell): Cell {
    if y >= 64 then 0 else x << y
  }

  function ShiftRight(x: Cell, y: Cell): Cell {
    if y >= 64 then 0 else x >> y
  }

  function ShiftArithmetic(x: Cell, y: Cell): Cell {
    var n := if y >= 64 then 63 else y;
    if Negative(x) then ALL_ONES ^ ShiftRight(ALL_ONES ^ x, n) else ShiftRight(x, n)
  }

  predicate Traps(op: BinaryOp, y: Cell) {
    op in {DIVU, DIVS, REMU, REMS} && y == 0
  }

  /** The value of a binary operation; `x` comes from the selected stack, `y` from the other. */
  function Sum(x: Cell, y: Cell): Cell {
    x + y
  }

  function Difference(x: Cell, y: Cell): Cell {
    x - y
  }

  function BothBits(x: Cell, y: Cell): Cell {
    x & y
  }

  function EitherBits(x: Cell, y: Cell): Cell {
    x | y
  }

  function UnlikeBits(x: Cell, y: Cell): Cell {
    x ^ y
  }

  predicate UnsignedLess(x: Cell, y: Cell) {
    ValueOf(x) < ValueOf(y)
  }

  function Product(x: Cell, y: Cell): Cell {
    x * y
  }

  function Apply(op: BinaryOp, x: Cell, y: Cell): Cell
    requires !Traps(op, y)
  {
    match op
    case ADD => Sum(x, y)
    case SUB => Difference(x, y)
    case MUL => Product(x, y)
    case DIVU => Quotient(x, y)
    case DIVS => SignedDivide(x, y)
    case REMU => Remainder(x, y)
    case REMS => SignedRemainder(x, y)
    case AND => BothBits(x, y)
    case OR => EitherBits(x, y)
    case XOR => UnlikeBits(x, y)
    case SHL => ShiftLeft(x, y)
    case SHR => ShiftRight(x, y)
    case SAR => ShiftArithmetic(x, y)
    case EQ => Truth(x == y)
    case NE => Truth(x != y)
    case LT => Truth(SignedLess(x, y))
    case LE => Truth(SignedLessEqual(x, y))
    case LTU => Truth(UnsignedLess(x, y))
    case LEU => Truth(!UnsignedLess(y, x))
  }

  function SignExtend(x: Cell): Cell {
    if x & 0x8000_0000 != 0 then x | 0xffff_ffff_0000_0000 else x & 0xffff_ffff
  }

  function ApplyUnary(op: UnaryOp, x: Cell): Cell {
    match op
    case NEG => 0 - x
    case NOT => x ^ ALL_ONES
    case LNOT => x ^ 1
    case ZX32 => Low32(x)
    case SX32 => SignExtend(x)
    case ZX8 => x & 0xff
    case ZX16 => x & 0xffff
  }

  /** True when a range check rejects the cell. */
  predicate Fails(op: CheckOp, x: Cell) {
    match op
    case CHKU8 => ValueOf(x) > 0xff
    case CHKU16 => ValueOf(x) > 0xffff
    case CHKU32 => ValueOf(x) > 0xffff_ffff
    case CHKI32 => SignedOf(x) < -0x8000_0000 || SignedOf(x) > 0x7fff_ffff
    case CHKNN => SignedOf(x) < 0
  }

  predicate Related(r: Relation, x: Cell, y: Cell) {
    match r
    case RelEQ => x == y
    case RelNE => x != y
    case RelLT => SignedLess(x, y)
    case RelLE => SignedLessEqual(x, y)
    case RelLTU => UnsignedLess(x, y)
    case RelLEU => !UnsignedLess(y, x)
  }

  /** Operations whose low 32 result bits depend only on the low 32 bits of the operands. */
  predicate Narrows(op: BinaryOp) {
    op in {ADD, SUB, MUL, AND, OR, XOR}
  }

  function Low32(x: Cell): Cell {
    x & 0xffff_ffff
  }

  /** The 32-bit form of an operation: computed on half words, then zero-extended. */
  function ApplyNarrow(op: BinaryOp, x: Cell, y: Cell): Cell
    requires Narrows(op)
  {
    var p, q := (x & 0xffff_ffff) as bv32, (y & 0xffff_ffff) as bv32;
    match op
    case ADD => (p + q) as bv64
    case SUB => (p - q) as bv64
    case MUL => (p * q) as bv64
    case AND => (p & q) as bv64
    case OR => (p | q) as bv64
    case XOR => (p ^ q) as bv64
  }

  lemma NarrowAdd(x: Cell, y: Cell)
    ensures ApplyNarrow(ADD, x, y) == Low32(x + y)
  {}

  lemma NarrowSub(x: Cell, y: Cell)
    ensures ApplyNarrow(SUB, x, y) == Low32(x - y)
  {}

  lemma NarrowMul(x: Cell, y: Cell)
    ensures ApplyNarrow(MUL, x, y) == Low32(x * y)
  {}

  lemma NarrowAnd(x: Cell, y: Cell)
    ensures ApplyNarrow(AND, x, y) == Low32(x & y)
  {}

  lemma NarrowOr(x: Cell, y: Cell)
    ensures ApplyNarrow(OR, x, y) == Low32(x | y)
  {}

  lemma NarrowXor(x: Cell, y: Cell)
    ensures ApplyNarrow(XOR, x, y) == Low32(x ^ y)
  {}

  /** A 64-bit operation followed by ZX32 is one 32-bit operation. */
  lemma NarrowFusion(op: BinaryOp, x: Cell, y: Cell)
    requires Narrows(op)
    ensures ApplyNarrow(op, x, y) == Low32(Apply(op, x, y))
  {
    hide ApplyNarrow, Low32;
    match op {
    case ADD => NarrowAdd(x, y);
    case SUB => NarrowSub(x, y);
    case MUL => NarrowMul(x, y);
    case AND => NarrowAnd(x, y);
    case OR => NarrowOr(x, y);
    case XOR => NarrowXor(x, y);
    }
  }

  /** The 32-bit left shift by an immediate below 32. */
  function ShiftLeftNarrow(x: Cell, y: Cell): Cell
    requires y < 32
  {
    (((x & 0xffff_ffff) as bv32) << (y as bv32)) as bv64
  }

  lemma ShiftFusion(x: Cell, y: Cell)
    requires y < 32
    ensures ShiftLeftNarrow(x, y) == Low32(Apply(SHL, x, y))
  {
  }

  lemma ShiftFusionLarge(x: Cell, y: Cell)
    requires y >= 32
    ensures Low32(Apply(SHL, x, y)) == 0
  {
  }
}
