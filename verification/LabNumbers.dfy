/** What scalar expressions of the simulator's source language are worth, in numbers: arithmetic modulo
    two to the width, division towards zero, bits one by one and shifts by powers of two.
 */
module LabNumbers {
  import opened Numbers
  import opened Words
  import opened Bytecode
  import opened LabLanguage
  import opened WordNumbers
  import LabArithmetic
  import LabCompiler
  import LabCorrect
  import LabMeaning

  // ----- numbers of a width -----

  /** How many numbers the width has. */
  function Size(t: Width): nat {
    match t case U32 => HALF case I32 => HALF case _ => WORD
  }

  /** The number a cell holds. */
  function Reading(v: Cell, t: Width): int {
    if Signed(t) then SignedOf(v) else ValueOf(v)
  }

  predicate InRange(n: int, t: Width) {
    if Signed(t) then -(Size(t) / 2) <= n < Size(t) / 2 else 0 <= n < Size(t)
  }

  /** The number of the width a result wraps round to. */
  function Wrapped(n: int, t: Width): int {
    var r := n % Size(t);
    if Signed(t) && r >= Size(t) / 2 then r - Size(t) else r
  }

  predicate Congruent(n: int, m: int, d: nat)
    requires d > 0
  {
    n % d == m % d
  }

  lemma CongruentMore(n: int, q: int, d: nat)
    requires d > 0
    ensures Congruent(n + d * q, n, d)
  {
    var p, r := n / d, n % d;
    assert n == d * p + r;
    assert n + d * q == d * (p + q) + r;
    DivideIs(n + d * q, d, p + q, r);
  }

  /** Wrapping gives the one number in range that differs by a multiple of the size. */
  lemma WrappedIs(n: int, m: int, t: Width)
    ensures Wrapped(n, t) == m <==> InRange(m, t) && Congruent(n, m, Size(t))
  {
    RangeMod(Wrapped(n, t), Size(t));
    if InRange(m, t) {
      RangeMod(m, Size(t));
    }
  }

  lemma RangeMod(m: int, d: nat)
    requires 0 - d <= m < d
    ensures m % d == if m >= 0 then m else m + d
  {
    if m >= 0 {
      DivideIs(m, d, 0, m);
    } else {
      DivideIs(m, d, -1, m + d);
    }
  }

  lemma WrappedSame(n: int, m: int, t: Width)
    requires Congruent(n, m, WORD)
    ensures Wrapped(n, t) == Wrapped(m, t)
  {
    if Size(t) == HALF {
      var p, q, r := n / WORD, m / WORD, n % WORD;
      assert n == r + HALF * (HALF * p) && m == r + HALF * (HALF * q);
      CongruentMore(r, HALF * p, HALF);
      CongruentMore(r, HALF * q, HALF);
    }
  }

  lemma SignedWrapped(v: Cell, n: nat)
    requires n == ValueOf(v)
    ensures SignedOf(v) == AsSigned(n) && n < WORD
  {
    hide ValueOf, SignedOf;
    NegativeIs(v);
    ValueBound(v);
  }

  lemma NormForms(v: Cell, t: Width)
    ensures t == U32 ==> Norm(v, t) == ApplyUnary(ZX32, v)
    ensures t == I32 ==> Norm(v, t) == ApplyUnary(SX32, v)
    ensures t == U64 || t == I64 ==> Norm(v, t) == v
  {
  }

  /** Normalizing wraps the number round. */
  lemma NormReads(v: Cell, t: Width)
    ensures Reading(Norm(v, t), t) == Wrapped(ValueOf(v), t)
  {
    hide ValueOf, SignedOf, Norm, ApplyUnary;
    NormForms(v, t);
    SignedWrapped(v, ValueOf(v));
    SignedWrapped(Norm(v, t), ValueOf(Norm(v, t)));
    match t
    case U32 => UnaryIs(ZX32, v);
    case I32 =>
      UnaryIs(SX32, v);
      ExtendedRead(ValueOf(v));
    case _ => DivideIs(ValueOf(v), WORD, 0, ValueOf(v));
  }

  lemma ExtendedRead(n: nat)
    ensures AsSigned(MeantUnary(SX32, n)) == Wrapped(n, I32)
  {
    var low := n % HALF;
    if low < HALF / 2 {
      DivideIs(low, WORD, 0, low);
    } else {
      DivideIs(low - HALF, WORD, -1, WORD + low - HALF);
    }
  }

  /** A cell's number and its bits differ by a multiple of 2 to the power 64. */
  lemma ReadingCongruent(v: Cell, t: Width)
    ensures Congruent(Reading(v, t), ValueOf(v), WORD) && Reading(v, t) % WORD == ValueOf(v)
  {
    hide ValueOf, SignedOf;
    SignedMod(v);
    ValueBound(v);
    DivideIs(ValueOf(v), WORD, 0, ValueOf(v));
  }

  // ----- arithmetic -----

  /** What an operation makes of two numbers of the width; the second is the count of a shift. */
  function Computed(op: Oper, t: Width, u: int, w: int): int
    requires (op == Div || op == Rem) ==> w != 0
    requires IsShift(op) ==> w >= 0
  {
    match op
    case Add => Wrapped(u + w, t)
    case Sub => Wrapped(u - w, t)
    case Mul => Wrapped(u * w, t)
    case Div => Wrapped(Truncated(u, w), t)
    case Rem => Wrapped(Remaining(u, w), t)
    case BitAnd => Wrapped(Bitwise(Conjunction(), u % WORD, w % WORD, 64), t)
    case BitXor => Wrapped(Bitwise(Exclusion(), u % WORD, w % WORD, 64), t)
    case BitOr => Wrapped(Bitwise(Disjunction(), u % WORD, w % WORD, 64), t)
    case ShiftL => Wrapped(u * Pow2(w), t)
    case ShiftR => Wrapped(u / Pow2(w), t)
  }

  lemma CongruentSum(a: int, b: int, c: int, d: int)
    requires Congruent(a, b, WORD) && Congruent(c, d, WORD)
    ensures Congruent(a + c, b + d, WORD) && Congruent(a - c, b - d, WORD)
  {
    var p, q := a / WORD - b / WORD, c / WORD - d / WORD;
    assert a == b + WORD * p && c == d + WORD * q;
    CongruentMore(b + d, p + q, WORD);
    CongruentMore(b - d, p - q, WORD);
    assert a + c == b + d + WORD * (p + q) && a - c == b - d + WORD * (p - q);
  }

  lemma CongruentProduct(a: int, b: int, c: int, d: int)
    requires Congruent(a, b, WORD) && Congruent(c, d, WORD)
    ensures Congruent(a * c, b * d, WORD)
  {
    var p, q := a / WORD - b / WORD, c / WORD - d / WORD;
    assert a == b + WORD * p && c == d + WORD * q;
    Expanded(b, p, d, q);
    CongruentMore(b * d, b * q + p * d + WORD * (p * q), WORD);
  }

  lemma Expanded(b: int, p: int, d: int, q: int)
    ensures (b + WORD * p) * (d + WORD * q) == b * d + WORD * (b * q + p * d + WORD * (p * q))
  {
  }

  lemma CongruentMod(n: int)
    ensures Congruent(n % WORD, n, WORD)
  {
    var q := n / WORD;
    assert n == n % WORD + WORD * q;
    CongruentMore(n % WORD, q, WORD);
  }

  lemma CongruentSelf(n: int)
    ensures Congruent(n, n, WORD)
  {
  }

  /** The result of an operation differs from what is meant by a multiple of 2 to the power 64 at most. */
  ghost predicate Meets(op: Oper, t: Width, p: Cell, q: Cell, n: int)
    requires !Traps(OperFor(op, t), q)
  {
    Congruent(ValueOf(Apply(OperFor(op, t), p, q)), n, WORD)
  }

  lemma Applied(op: Oper, t: Width, p: Cell, q: Cell)
    requires !Traps(OperFor(op, t), q)
    ensures OperFor(op, t) in {DIVU, DIVS, REMU, REMS} ==> ValueOf(q) != 0 && AsSigned(ValueOf(q)) != 0
    ensures ValueOf(Apply(OperFor(op, t), p, q)) == Meant(OperFor(op, t), ValueOf(p), ValueOf(q))
  {
    ApplyIs(OperFor(op, t), p, q);
  }

  lemma RingMeets(op: Oper, t: Width, p: Cell, q: Cell)
    requires op == Add || op == Sub || op == Mul
    ensures var u, w := Reading(p, t), Reading(q, t);
      Meets(op, t, p, q, if op == Add then u + w else if op == Sub then u - w else u * w)
  {
    hide ValueOf, SignedOf, Apply, Congruent, Reading;
    Applied(op, t, p, q);
    ReadingCongruent(p, t);
    ReadingCongruent(q, t);
    Symmetric(Reading(p, t), ValueOf(p));
    Symmetric(Reading(q, t), ValueOf(q));
    match op
    case Add =>
      CongruentSum(ValueOf(p), Reading(p, t), ValueOf(q), Reading(q, t));
      CongruentMod(ValueOf(p) + ValueOf(q));
      Transitive((ValueOf(p) + ValueOf(q)) % WORD, ValueOf(p) + ValueOf(q), Reading(p, t) + Reading(q, t));
    case Sub =>
      CongruentSum(ValueOf(p), Reading(p, t), ValueOf(q), Reading(q, t));
      CongruentMod(ValueOf(p) - ValueOf(q));
      Transitive((ValueOf(p) - ValueOf(q)) % WORD, ValueOf(p) - ValueOf(q), Reading(p, t) - Reading(q, t));
    case Mul =>
      CongruentProduct(ValueOf(p), Reading(p, t), ValueOf(q), Reading(q, t));
      CongruentMod(ValueOf(p) * ValueOf(q));
      Transitive(ValueOf(p) * ValueOf(q) % WORD, ValueOf(p) * ValueOf(q), Reading(p, t) * Reading(q, t));
  }

  lemma Symmetric(a: int, b: int)
    requires Congruent(a, b, WORD)
    ensures Congruent(b, a, WORD)
  {
  }

  lemma Transitive(a: int, b: int, c: int)
    requires Congruent(a, b, WORD) && Congruent(b, c, WORD)
    ensures Congruent(a, c, WORD)
  {
  }

  lemma TrapReading(op: Oper, t: Width, q: Cell)
    ensures Traps(OperFor(op, t), q) <==> (op == Div || op == Rem) && Reading(q, t) == 0
  {
    hide ValueOf, SignedOf;
    ZeroIs(q);
    NonzeroSigned(q);
  }

  lemma DivisionMeets(op: Oper, t: Width, p: Cell, q: Cell)
    requires (op == Div || op == Rem) && !Traps(OperFor(op, t), q)
    ensures Reading(q, t) != 0
    ensures var u, w := Reading(p, t), Reading(q, t);
      Meets(op, t, p, q, if op == Div then Truncated(u, w) else Remaining(u, w))
  {
    hide ValueOf, SignedOf, Apply, Congruent, Truncated, Remaining, AsSigned;
    TrapReading(op, t, q);
    Applied(op, t, p, q);
    SignedWrapped(p, ValueOf(p));
    SignedWrapped(q, ValueOf(q));
    if Signed(t) {
      CongruentMod(Truncated(SignedOf(p), SignedOf(q)));
      CongruentMod(Remaining(SignedOf(p), SignedOf(q)));
    } else {
      TruncatedPlain(ValueOf(p), ValueOf(q));
      CongruentSelf(Truncated(ValueOf(p), ValueOf(q)));
      CongruentSelf(Remaining(ValueOf(p), ValueOf(q)));
    }
  }

  lemma TruncatedPlain(a: nat, b: nat)
    requires b > 0
    ensures Truncated(a, b) == a / b && Remaining(a, b) == a % b
  {
  }

  lemma BitsMeet(op: Oper, t: Width, p: Cell, q: Cell)
    requires op == BitAnd || op == BitOr || op == BitXor
    ensures var x, y := Reading(p, t) % WORD, Reading(q, t) % WORD;
      var f := if op == BitAnd then Conjunction() else if op == BitOr then Disjunction() else Exclusion();
      Meets(op, t, p, q, Bitwise(f, x, y, 64))
  {
    hide ValueOf, SignedOf, Apply, Congruent, Bitwise, Conjunction, Disjunction, Exclusion, Reading;
    Applied(op, t, p, q);
    ReadingCongruent(p, t);
    ReadingCongruent(q, t);
    CongruentSelf(ValueOf(Apply(OperFor(op, t), p, q)));
  }

  lemma ShiftsMeet(op: Oper, t: Width, p: Cell, q: Cell)
    requires IsShift(op)
    ensures !Traps(OperFor(op, t), q)
    ensures var u, n := Reading(p, t), Pow2(ValueOf(q));
      Meets(op, t, p, q, if op == ShiftL then u * n else u / n)
  {
    hide ValueOf, SignedOf, Apply, Congruent, Pow2, AsSigned;
    Applied(op, t, p, q);
    SignedWrapped(p, ValueOf(p));
    ReadingCongruent(p, t);
    var n := Pow2(ValueOf(q));
    if op == ShiftL {
      Symmetric(Reading(p, t), ValueOf(p));
      CongruentSelf(n);
      CongruentProduct(ValueOf(p), Reading(p, t), n, n);
      CongruentMod(ValueOf(p) * n);
      Transitive(ValueOf(p) * n % WORD, ValueOf(p) * n, Reading(p, t) * n);
    } else if Signed(t) {
      CongruentMod(SignedOf(p) / n);
    } else {
      CongruentSelf(ValueOf(p) / n);
    }
  }

  lemma MeetsComputed(op: Oper, t: Width, p: Cell, q: Cell)
    requires !Traps(OperFor(op, t), q)
    ensures (op == Div || op == Rem) ==> Reading(q, t) != 0
    ensures Reading(Norm(Apply(OperFor(op, t), p, q), t), t) ==
      Computed(op, t, Reading(p, t), if IsShift(op) then ValueOf(q) else Reading(q, t))
  {
    hide ValueOf, SignedOf, Apply, Congruent, Reading, Wrapped, Norm, Bitwise, Conjunction, Disjunction, Exclusion;
    hide Truncated;
    hide Remaining, Pow2, OperFor, Traps;
    NormReads(Apply(OperFor(op, t), p, q), t);
    var n := ValueOf(Apply(OperFor(op, t), p, q));
    var u, w := Reading(p, t), Reading(q, t);
    match op
    case Add =>
      RingMeets(op, t, p, q);
      WrappedSame(n, u + w, t);
    case Sub =>
      RingMeets(op, t, p, q);
      WrappedSame(n, u - w, t);
    case Mul =>
      RingMeets(op, t, p, q);
      WrappedSame(n, u * w, t);
    case Div =>
      DivisionMeets(op, t, p, q);
      WrappedSame(n, Truncated(u, w), t);
    case Rem =>
      DivisionMeets(op, t, p, q);
      WrappedSame(n, Remaining(u, w), t);
    case BitAnd =>
      BitsMeet(op, t, p, q);
      WrappedSame(n, Bitwise(Conjunction(), u % WORD, w % WORD, 64), t);
    case BitOr =>
      BitsMeet(op, t, p, q);
      WrappedSame(n, Bitwise(Disjunction(), u % WORD, w % WORD, 64), t);
    case BitXor =>
      BitsMeet(op, t, p, q);
      WrappedSame(n, Bitwise(Exclusion(), u % WORD, w % WORD, 64), t);
    case ShiftL =>
      ShiftsMeet(op, t, p, q);
      WrappedSame(n, u * Pow2(ValueOf(q)), t);
    case ShiftR =>
      ShiftsMeet(op, t, p, q);
      WrappedSame(n, u / Pow2(ValueOf(q)), t);
  }

  // ----- the evaluator -----

  /** A number of the width. */
  ghost predicate Holds(r: Result, t: Width, n: int) {
    r.Val? && Norm(r.value, t) == r.value && Reading(r.value, t) == n
  }

  /** The number an operand is brought to; the count of a shift is used as it is. */
  function Operand(v: Cell, t: Width): int {
    Reading(Norm(v, t), t)
  }

  lemma OperandIs(v: Cell, t: Width)
    ensures Operand(v, t) == Wrapped(ValueOf(v), t)
    ensures Norm(v, t) == v ==> Operand(v, t) == Reading(v, t)
  {
    NormReads(v, t);
  }

  lemma ArithWorth(op: Oper, t: Width, a: Cell, b: Cell)
    ensures var u, w := Operand(a, t), if IsShift(op) then ValueOf(b) else Operand(b, t);
      if (op == Div || op == Rem) && w == 0 then ArithResult(op, t, Val(a), Val(b)) == Abort
      else Holds(ArithResult(op, t, Val(a), Val(b)), t, Computed(op, t, u, w))
  {
    hide ValueOf, Norm, Reading, Computed, OperFor, Apply, Traps, ArithResult;
    var p, q := Norm(a, t), if IsShift(op) then b else Norm(b, t);
    LabMeaning.Performed(op, t, a, b);
    TrapReading(op, t, q);
    if !Traps(OperFor(op, t), q) {
      MeetsComputed(op, t, p, q);
      LabArithmetic.NormTwice(Apply(OperFor(op, t), p, q), t);
    }
  }

  lemma ArithAborts(op: Oper, t: Width, a: Result, b: Result)
    requires a.Abort? || b.Abort?
    ensures ArithResult(op, t, a, b) == Abort
  {
    hide Norm, OperFor, Combine;
  }

  /** An arithmetic expression is worth what its operator makes of its operands' numbers, and aborts
      exactly when an operand does or a division by zero is asked for. */
  lemma EvalArith(op: Oper, l: Expr, r: Expr, t: Width, kinds: seq<Kind>, frame: seq<Cell>)
    ensures var a, b, e := Eval(l, t, kinds, frame), Eval(r, t, kinds, frame), Eval(Arith(op, l, r), t, kinds, frame);
      if a.Abort? || b.Abort? then e == Abort
      else
        var u, w := Operand(a.value, t), if IsShift(op) then ValueOf(b.value) else Operand(b.value, t);
        if (op == Div || op == Rem) && w == 0 then e == Abort else Holds(e, t, Computed(op, t, u, w))
  {
    hide ValueOf, Norm, Reading, Computed, Operand, Holds, ArithResult;
    var a, b := Eval(l, t, kinds, frame), Eval(r, t, kinds, frame);
    if a.Val? && b.Val? {
      ArithWorth(op, t, a.value, b.value);
    } else {
      ArithAborts(op, t, a, b);
    }
  }

  function CompareNumbers(c: Cmp, u: int, w: int): bool {
    match c
    case Equal => u == w
    case Unequal => u != w
    case Less => u < w
    case LessEqual => u <= w
    case Greater => u > w
    case GreaterEqual => u >= w
  }

  lemma ReadingOne(p: Cell, q: Cell, t: Width)
    ensures p == q <==> Reading(p, t) == Reading(q, t)
  {
    hide ValueOf, Reading;
    ReadingCongruent(p, t);
    ReadingCongruent(q, t);
    EqualIs(p, q);
  }

  lemma ComparesNumbers(c: Cmp, t: Width, p: Cell, q: Cell)
    ensures LabArithmetic.CmpHolds(c, Signed(t), p, q) <==> CompareNumbers(c, Reading(p, t), Reading(q, t))
  {
    hide ValueOf, SignedOf;
    ReadingOne(p, q, t);
  }

  /** A comparison compares the operands' numbers. */
  lemma EvalCompare(c: Cmp, l: Expr, r: Expr, t: Width, kinds: seq<Kind>, frame: seq<Cell>)
    ensures var a, b, e := Eval(l, t, kinds, frame), Eval(r, t, kinds, frame), Eval(Compare(c, l, r), t, kinds, frame);
      if a.Abort? || b.Abort? then e == Abort
      else e == Val(if CompareNumbers(c, Operand(a.value, t), Operand(b.value, t)) then 1 else 0)
  {
    hide Norm, Reading, CompareNumbers, CompareResult;
    var a, b := Eval(l, t, kinds, frame), Eval(r, t, kinds, frame);
    LabMeaning.CompareTyped(c, t, a, b);
    if a.Val? && b.Val? {
      LabArithmetic.CompareIs(c, t, a.value, b.value);
      ComparesNumbers(c, t, Norm(a.value, t), Norm(b.value, t));
    }
  }

  lemma NegatedCongruent(n: nat, u: int)
    requires Congruent(n, u, WORD)
    ensures Congruent((0 - n) % WORD, -u, WORD) && Congruent(WORD - 1 - n, -u - 1, WORD)
  {
    hide Congruent;
    CongruentSelf(0);
    CongruentSelf(-1);
    CongruentSum(0, 0, n, u);
    CongruentMod(0 - n);
    Transitive((0 - n) % WORD, 0 - n, -u);
    CongruentMore(-1, 1, WORD);
    CongruentSum(WORD - 1, -1, n, u);
  }

  /** Negation and complement, modulo two to the width. */
  lemma EvalUnary(y: Expr, t: Width, kinds: seq<Kind>, frame: seq<Cell>)
    ensures var a := Eval(y, t, kinds, frame);
      if a.Abort? then Eval(Negate(y), t, kinds, frame) == Abort == Eval(Invert(y), t, kinds, frame)
      else
        && Holds(Eval(Negate(y), t, kinds, frame), t, Wrapped(-Reading(a.value, t), t))
        && Holds(Eval(Invert(y), t, kinds, frame), t, Wrapped(-Reading(a.value, t) - 1, t))
  {
    hide *;
    var a := Eval(y, t, kinds, frame);
    UnaryEvals(y, t, kinds, frame);
    if a.Val? {
      UnaryWorth(a.value, t);
    } else {
      UnaryAborts(t);
    }
  }

  lemma UnaryEvals(y: Expr, t: Width, kinds: seq<Kind>, frame: seq<Cell>)
    ensures var a := Eval(y, t, kinds, frame);
      && Eval(Negate(y), t, kinds, frame) == Normed(LabLanguage.Applied(NEG, a), t)
      && Eval(Invert(y), t, kinds, frame) == Normed(LabLanguage.Applied(NOT, a), t)
  {
    hide Normed, LabLanguage.Applied;
  }

  lemma UnaryAborts(t: Width)
    ensures Normed(LabLanguage.Applied(NEG, Abort), t) == Abort == Normed(LabLanguage.Applied(NOT, Abort), t)
  {
  }

  lemma UnaryWorth(v: Cell, t: Width)
    ensures Holds(Normed(LabLanguage.Applied(NEG, Val(v)), t), t, Wrapped(-Reading(v, t), t))
    ensures Holds(Normed(LabLanguage.Applied(NOT, Val(v)), t), t, Wrapped(-Reading(v, t) - 1, t))
  {
    hide ValueOf, Norm, Reading, Wrapped, ApplyUnary, Congruent, Holds, Normed, LabLanguage.Applied;
    ReadingCongruent(v, t);
    Symmetric(Reading(v, t), ValueOf(v));
    NegatedCongruent(ValueOf(v), Reading(v, t));
    ReadsUnary(NEG, v, -Reading(v, t), t);
    ReadsUnary(NOT, v, -Reading(v, t) - 1, t);
  }

  /** Negation of a truth value. */
  lemma EvalNot(y: Expr, t: Width, kinds: seq<Kind>, frame: seq<Cell>)
    ensures var a := Eval(y, t, kinds, frame);
      match a
      case Abort => Eval(Not(y), t, kinds, frame) == Abort
      case Val(v) => v == 0 || v == 1 ==> Eval(Not(y), t, kinds, frame) == Val(if v == 0 then 1 else 0)
  {
    var a := Eval(y, t, kinds, frame);
    if a.Val? {
      FlipTruth(a.value);
    }
    hide ApplyUnary, Norm;
  }

  lemma FlipTruth(v: Cell)
    ensures v == 0 || v == 1 ==> ApplyUnary(LNOT, v) == if v == 0 then 1 else 0
  {
  }

  lemma ReadsUnary(op: UnaryOp, v: Cell, n: int, t: Width)
    requires Congruent(MeantUnary(op, ValueOf(v)), n, WORD)
    ensures Holds(Normed(LabLanguage.Applied(op, Val(v)), t), t, Wrapped(n, t))
  {
    hide ValueOf, Norm, Reading, Wrapped, ApplyUnary, Congruent, MeantUnary;
    UnaryIs(op, v);
    NormReads(ApplyUnary(op, v), t);
    LabArithmetic.NormTwice(ApplyUnary(op, v), t);
    WrappedSame(ValueOf(ApplyUnary(op, v)), n, t);
  }

  // ----- the compiler -----

  /** An operand is part of an instruction when it is a constant that fits in a signed byte at the width
      it is used at, and otherwise only when it is a cell of the frame. */
  lemma LeafFits(e: Expr, t: Width, want: Width)
    ensures var f := Static(e, t);
      LabCompiler.LeafOf(e, t, want) ==
        if f.Constant? then
          (if -128 <= SignedOf(Norm(f.value, want)) <= 127
            then LabCompiler.ImmediateOperand(Norm(f.value, want)) else LabCompiler.NoOperand)
        else if e.Place? then LabCompiler.FrameOperand(e.depth) else LabCompiler.NoOperand
  {
    hide Norm, Static, SignedOf;
    if Static(e, t).Constant? {
      SignedByte(Norm(Static(e, t).value, want));
    }
  }

  /** The code compiled for an operator leaves the cell that holds the number the operator makes of its
      operands' numbers, or aborts where the operands do or the divisor is zero. */
  lemma ArithCompiled(op: Oper, l: Expr, r: Expr, x: Bank, t: Width, kinds: seq<Kind>, frame: seq<Cell>)
    requires var e := Arith(op, l, r);
      FrameTyped(kinds, frame, t) && KindOf(e, t, kinds).Some? && LabCorrect.Fit(e, t, kinds)
      && LabCompiler.Compile(e, x, t, t, kinds).Some?
    ensures var e, a, b := Arith(op, l, r), Eval(l, t, kinds, frame), Eval(r, t, kinds, frame);
      var code := LabCompiler.Compile(e, x, t, t, kinds).value;
      if a.Abort? || b.Abort? then LabCompiler.Yields(code, frame, x, Abort, Need(e))
      else
        var u, w := Operand(a.value, t), if IsShift(op) then ValueOf(b.value) else Operand(b.value, t);
        if (op == Div || op == Rem) && w == 0 then LabCompiler.Yields(code, frame, x, Abort, Need(e))
        else exists v :: Holds(Val(v), t, Computed(op, t, u, w)) && LabCompiler.Yields(code, frame, x, Val(v), Need(e))
  {
    hide FrameTyped, LabCorrect.Fit, LabCompiler.Compile, LabCompiler.Yields, Eval, KindOf, Need, NaiveNeed, Leaves;
    hide Pow2, Computed, Operand, ValueOf, Reading, Norm;
    var e := Arith(op, l, r);
    LabCorrect.CompileCorrect(e, x, t, kinds, frame);
    EvalArith(op, l, r, t, kinds, frame);
    var g := Eval(e, t, kinds, frame);
    ArithNumber(op, l, r, t, kinds);
    if g.Val? {
      var v := g.value;
      assert LabMeaning.AsOperand(Some(Number), g, t) == Val(v);
    }
  }

  lemma ArithNumber(op: Oper, l: Expr, r: Expr, t: Width, kinds: seq<Kind>)
    requires KindOf(Arith(op, l, r), t, kinds).Some?
    ensures KindOf(Arith(op, l, r), t, kinds) == Some(Number)
  {
  }

  /** A sum of two bindings: the compiled code leaves the sum of the numbers bound, modulo two to the
      width. */
  lemma SumCompiled(i: nat, j: nat, x: Bank, t: Width, kinds: seq<Kind>, frame: seq<Cell>)
    requires FrameTyped(kinds, frame, t) && i < |kinds| && j < |kinds|
    requires kinds[|kinds| - 1 - i] == kinds[|kinds| - 1 - j] == Number
    requires var e := Arith(Add, Place(i), Place(j)); LabCompiler.Compile(e, x, t, t, kinds).Some?
    ensures |frame| == |kinds|
    ensures var e, u, w := Arith(Add, Place(i), Place(j)), frame[|frame| - 1 - i], frame[|frame| - 1 - j];
      exists v :: Holds(Val(v), t, Wrapped(Reading(u, t) + Reading(w, t), t)) &&
        LabCompiler.Yields(LabCompiler.Compile(e, x, t, t, kinds).value, frame, x, Val(v), Need(e))
  {
    hide *;
    LabMeaning.FrameSize(kinds, frame, t);
    var u, w := frame[|frame| - 1 - i], frame[|frame| - 1 - j];
    SumAccepted(i, j, t, kinds);
    PlaceIs(i, t, kinds, frame);
    PlaceIs(j, t, kinds, frame);
    BoundOperand(i, t, kinds, frame);
    BoundOperand(j, t, kinds, frame);
    AddComputed(t, Operand(u, t), Operand(w, t));
    ArithCompiled(Add, Place(i), Place(j), x, t, kinds, frame);
  }

  lemma AddComputed(t: Width, u: int, w: int)
    ensures Computed(Add, t, u, w) == Wrapped(u + w, t) && !IsShift(Add)
  {
  }

  /** A number bound in the frame is in range as it is. */
  lemma BoundOperand(i: nat, t: Width, kinds: seq<Kind>, frame: seq<Cell>)
    requires FrameTyped(kinds, frame, t) && i < |frame| == |kinds| && kinds[|kinds| - 1 - i] == Number
    ensures Operand(frame[|frame| - 1 - i], t) == Reading(frame[|frame| - 1 - i], t)
  {
    hide Norm, Reading, Wrapped, Operand, FrameTyped;
    LabMeaning.FrameAt(kinds, frame, t, i);
    OperandIs(frame[|frame| - 1 - i], t);
  }

  lemma SumAccepted(i: nat, j: nat, t: Width, kinds: seq<Kind>)
    requires i < |kinds| && j < |kinds|
    requires kinds[|kinds| - 1 - i] == kinds[|kinds| - 1 - j] == Number
    ensures var e := Arith(Add, Place(i), Place(j)); KindOf(e, t, kinds).Some? && LabCorrect.Fit(e, t, kinds)
  {
    assert Static(Place(i), t) == Static(Place(j), t) == Unknown;
    assert KindOf(Place(i), t, kinds) == KindOf(Place(j), t, kinds) == Some(Number);
    assert LabCorrect.Fit(Place(i), t, kinds) && LabCorrect.Fit(Place(j), t, kinds);
  }

  lemma PlaceIs(i: nat, t: Width, kinds: seq<Kind>, frame: seq<Cell>)
    requires i < |frame|
    ensures Eval(Place(i), t, kinds, frame) == Val(frame[|frame| - 1 - i])
  {
  }
}
