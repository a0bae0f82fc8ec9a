/** The compiler's main theorem: compiled code leaves the evaluator's value and needs no more depth than
    counted.
 */
module LabCorrect {
  import Numbers
  import opened Words
  import opened Bytecode
  import opened LabLanguage
  import opened LabCompiler
  import opened LabArithmetic
  import opened LabMeaning
  import LabBits

  /** Every shift count fits that is known in advance or may be a literal, in the parts that are compiled. */
  predicate Fit(e: Expr, t: Width, kinds: seq<Kind>) {
    Static(e, t).Constant? ||
    match e
    case Num(_) => true
    case Known(_) => true
    case Bool(_) => true
    case Place(_) => true
    case Negate(y) => Fit(y, t, kinds)
    case Invert(y) => Fit(y, t, kinds)
    case Not(y) => Fit(y, t, kinds)
    case Arith(op, l, r) => Fit(l, t, kinds) && Fit(r, t, kinds) && (IsShift(op) ==> CountFits(op, t, r, kinds))
    case Compare(_, l, r) => Fit(l, t, kinds) && Fit(r, t, kinds)
    case And(l, r) => Fit(l, t, kinds) && Fit(r, t, kinds)
    case Or(l, r) => Fit(l, t, kinds) && Fit(r, t, kinds)
    case If(c, y, n) =>
      if Static(c, t).Constant? then Fit(if Static(c, t).value != 0 then y else n, t, kinds)
      else Fit(c, t, kinds) && Fit(y, t, kinds) && Fit(n, t, kinds)
  }

  // ----- arithmetic -----

  function MaybeNormed(emitted: bool, r: Result, t: Width): Result {
    if emitted then Normed(r, t) else r
  }

  predicate EmitsNorm(op: Oper, t: Width) {
    Wraps(op) || (op == Div && t == I32)
  }

  /** Skipping the normalisation the compiler skips changes nothing. */
  lemma PlainResult(op: Oper, t: Width, x: Result, y: Result)
    requires Normed(x, t) == x && (IsShift(op) || Normed(y, t) == y)
    ensures var r := Operated(OperFor(op, t), x, y); MaybeNormed(EmitsNorm(op, t), r, t) == Normed(r, t)
  {
    hide Norm, Apply, OperFor;
    if x.Val? && y.Val? && !EmitsNorm(op, t) && !Traps(OperFor(op, t), y.value) {
      PlainStays(op, t, x.value, y.value);
    }
  }

  /** A count with the same effect gives the same shifted number. */
  lemma SameShift(op: Oper, t: Width, x: Result, w: Result, w': Result)
    requires IsShift(op) && Normed(x, t) == x && SameCount(op, t, w, w')
    ensures Normed(Operated(OperFor(op, t), x, w'), t) == Normed(Operated(OperFor(op, t), x, w), t)
  {
    hide Norm, Apply, OperFor, SameEffect, Traps;
    if x.Val? && w.Val? && w' != w {
      EffectSame(op, t, x.value, w'.value, w.value);
      ShiftIs(op, t, x.value, w.value);
      ShiftIs(op, t, x.value, w'.value);
    }
  }

  /** What the machine's right operand must be for the evaluator's. */
  predicate RightFor(op: Oper, t: Width, b: Result, y: Result) {
    if IsShift(op) then SameCount(op, t, b, y) else y == Normed(b, t)
  }

  lemma ArithLeaves(op: Oper, t: Width, a: Result, b: Result, y: Result)
    requires RightFor(op, t, b, y)
    ensures MaybeNormed(EmitsNorm(op, t), Operated(OperFor(op, t), Normed(a, t), y), t) == ArithResult(op, t, a, b)
  {
    hide Norm, OperFor, EmitsNorm, SameCount, Operated, Normed;
    NormedTyped(a, t);
    NormedTyped(b, t);
    PlainResult(op, t, Normed(a, t), y);
    if IsShift(op) {
      SameShift(op, t, Normed(a, t), b, y);
    }
  }

  lemma CommutedLeaves(op: Oper, t: Width, x: Result, y: Result)
    requires Commutes(OperFor(op, t))
    ensures Operated(OperFor(op, t), x, y) == Operated(OperFor(op, t), y, x)
  {
    hide Combine, OperFor;
    if x.Val? && y.Val? {
      Commuted(OperFor(op, t), x.value, y.value);
    }
  }

  lemma ArithNormYields(code: Code, frame: seq<Cell>, x: Bank, r: Result, need: nat, op: Oper, t: Width)
    requires Yields(code, frame, x, r, need) && need > 0
    ensures Yields(code + ArithNorm(op, t, x), frame, x, MaybeNormed(EmitsNorm(op, t), r, t), need)
  {
    hide Yields, NormCode, Normed;
    if EmitsNorm(op, t) {
      NormYields(code, frame, x, r, need, t);
    } else {
      assert code + [] == code;
    }
  }

  /** One operand in the instruction. */
  lemma FusedYields(code: Code, frame: seq<Cell>, x: Bank, r: Result, need: nat, op: Oper, t: Width, l: Operand)
    requires Yields(code, frame, x, r, need) && need > 0
    requires l != NoOperand && (l.FrameOperand? ==> l.depth < |frame|)
    ensures Yields(code + [FusedLine(x, OperFor(op, t), l)] + ArithNorm(op, t, x), frame, x,
      MaybeNormed(EmitsNorm(op, t), Operated(OperFor(op, t), r, Val(OperandValue(l, frame))), t), need)
  {
    hide Yields, Acts, OperFor, Operated, FusedLine, OperandValue, ArithNorm, MaybeNormed;
    var i, w := FusedLine(x, OperFor(op, t), l), Val(OperandValue(l, frame));
    FusedStraight(x, OperFor(op, t), l);
    if r.Val? {
      FusedActs(frame, x, OperFor(op, t), l, r.value);
    }
    OperatedAborts(OperFor(op, t), r, w);
    ThenActs(code, i, frame, x, r, Operated(OperFor(op, t), r, w), need);
    ArithNormYields(code + [i], frame, x, Operated(OperFor(op, t), r, w), need, op, t);
  }

  lemma FusedStraight(x: Bank, op: BinaryOp, l: Operand)
    requires l != NoOperand
    ensures !Jumps(FusedLine(x, op, l))
  {
  }

  lemma OperatedAborts(op: BinaryOp, r: Result, w: Result)
    ensures r.Abort? || w.Abort? ==> Operated(op, r, w) == Abort
  {
  }

  /** An operand the instruction holds is the one compiled code would leave. */
  lemma LeafValue(e: Expr, t: Width, want: Width, kinds: seq<Kind>, frame: seq<Cell>)
    requires FrameTyped(kinds, frame, t) && KindOf(e, t, kinds).Some? && LeafOf(e, t, want) != NoOperand
    ensures var l := LeafOf(e, t, want);
      && (l.FrameOperand? ==> l.depth < |frame|)
      && (Static(e, t).Constant? ==> Val(OperandValue(l, frame)) == Val(Norm(Static(e, t).value, want)))
      && (!Static(e, t).Constant? ==> Val(OperandValue(l, frame)) == Eval(e, t, kinds, frame))
  {
    hide Norm, Small;
    FrameSize(kinds, frame, t);
  }

  lemma LeafOperand(e: Expr, t: Width, kinds: seq<Kind>, frame: seq<Cell>)
    requires FrameTyped(kinds, frame, t) && KindOf(e, t, kinds).Some? && KindOf(e, t, kinds) != Some(Flag)
    requires LeafOf(e, t, t) != NoOperand
    ensures var l := LeafOf(e, t, t);
      && (l.FrameOperand? ==> l.depth < |frame|)
      && Val(OperandValue(l, frame)) == Normed(Eval(e, t, kinds, frame), t)
  {
    hide Norm, LeafOf, OperandValue, Eval, Static, KindOf, Tag, FrameTyped, Weighed, Sensible, Alike;
    LeafValue(e, t, t, kinds, frame);
    Evaluates(e, t, kinds, frame);
    EvenKinds(e, t, kinds, frame);
    NumberNormed(e, t, kinds, frame);
    if Static(e, t).Constant? {
      WeighedNormed(Static(e, t).value, KindOf(e, t, kinds), Tag(e, t, kinds), t);
    }
  }

  /** A typed number is in range already. */
  lemma NumberNormed(e: Expr, t: Width, kinds: seq<Kind>, frame: seq<Cell>)
    requires Sensible(e, t, kinds, frame) && KindOf(e, t, kinds).Some?
    ensures KindOf(e, t, kinds) != Some(Untyped) ==> Normed(Eval(e, t, kinds, frame), t) == Eval(e, t, kinds, frame)
  {
    hide Norm, Eval, Static, KindOf, Tag;
    NormedTyped(Eval(e, t, kinds, frame), t);
  }

  lemma LeafCount(op: Oper, e: Expr, t: Width, kinds: seq<Kind>, frame: seq<Cell>)
    requires FrameTyped(kinds, frame, t) && KindOf(e, t, kinds).Some? && IsShift(op) && CountFits(op, t, e, kinds)
    requires LeafOf(e, t, U32) != NoOperand
    ensures var l := LeafOf(e, t, U32);
      && (l.FrameOperand? ==> l.depth < |frame|)
      && SameCount(op, t, Eval(e, t, kinds, frame), Val(OperandValue(l, frame)))
  {
    hide Norm, LeafOf, OperandValue, Eval, Static, KindOf, Tag, FrameTyped, SameEffect, ArmFits, Weighed, Sensible;
    hide Alike, Low32, SameCount;
    LeafValue(e, t, U32, kinds, frame);
    Evaluates(e, t, kinds, frame);
    EvenKinds(e, t, kinds, frame);
    if Static(e, t).Constant? {
      LowCount(op, t, Static(e, t).value, Weighed(Static(e, t).value, KindOf(e, t, kinds), Tag(e, t, kinds), t));
    } else {
      SameSelf(op, t, Eval(e, t, kinds, frame));
    }
  }

  lemma LowCount(op: Oper, t: Width, v: Cell, w: Cell)
    requires SameEffect(op, t, Low32(v), w)
    ensures SameCount(op, t, Val(w), Val(Norm(v, U32)))
  {
    hide SameEffect, Low32, Norm;
    LowNorm(v, t);
  }

  /** Two operands, each in its place. */
  lemma TwoYields(a: Code, b: Code, frame: seq<Cell>, x: Bank, ra: Result, rb: Result, na: nat, nb: nat, op: Oper,
    t: Width)
    requires Yields(a, frame, A, ra, na) && Yields(b, frame, B, rb, nb) && na > 0 && nb > 0
    ensures Yields(Ordered2(a, b, na >= nb) + [BinaryL(x, OperFor(op, t))] + ArithNorm(op, t, x), frame, x,
      MaybeNormed(EmitsNorm(op, t), Operated(OperFor(op, t), ra, rb), t), PairNeed(na, nb))
  {
    hide Yields, OperFor, Operated, Ordered2, ArithNorm, MaybeNormed;
    PairYields(a, b, frame, x, OperFor(op, t), ra, rb, na, nb);
    ArithNormYields(Ordered2(a, b, na >= nb) + [BinaryL(x, OperFor(op, t))], frame, x, Operated(OperFor(op, t), ra, rb),
      PairNeed(na, nb), op, t);
  }

  // ----- one-operand forms -----

  lemma NegateYields(code: Code, frame: seq<Cell>, x: Bank, r: Result, need: nat, t: Width)
    requires Yields(code, frame, x, r, need) && need > 0
    ensures Yields(code + [UnaryL(x, NEG)] + NormCode(x, t), frame, x, Normed(Applied(NEG, r), t), need)
  {
    hide Yields, NormCode, ApplyUnary, Acts, Normed;
    if r.Val? {
      UnaryActs(frame, x, NEG, r.value);
    }
    ThenActs(code, UnaryL(x, NEG), frame, x, r, Applied(NEG, r), need);
    NormYields(code + [UnaryL(x, NEG)], frame, x, Applied(NEG, r), need, t);
  }

  lemma NotStays(v: Cell, t: Width)
    requires Norm(v, t) == v && t != U32
    ensures Norm(ApplyUnary(NOT, v), t) == ApplyUnary(NOT, v)
  {
    hide Norm, LabBits.Extended, LabBits.Half, LabBits.Flip;
    NormIs(v, t);
    ComplementIs(v);
    NormIs(LabBits.Flip(v), t);
    if t == I32 {
      LabBits.ExtendedHalf(v);
      LabBits.HalfFlip(v);
      LabBits.ExtendedHalf(LabBits.Flip(v));
    }
  }

  lemma ComplementIs(v: Cell)
    ensures ApplyUnary(NOT, v) == LabBits.Flip(v)
  {
    FlipIs(v);
    Exchanged(v);
    hide LabBits.Flip;
  }

  lemma Exchanged(v: Cell)
    ensures v ^ ALL_ONES == ALL_ONES ^ v
  {
  }

  lemma InvertYields(code: Code, frame: seq<Cell>, x: Bank, r: Result, need: nat, t: Width)
    requires Yields(code, frame, x, r, need) && need > 0 && Normed(r, t) == r
    ensures Yields(code + [UnaryL(x, NOT)] + (if t == U32 then NormCode(x, t) else []), frame, x,
      Normed(Applied(NOT, r), t), need)
  {
    hide Yields, NormCode, ApplyUnary, Acts, Norm;
    if r.Val? {
      UnaryActs(frame, x, NOT, r.value);
    }
    ThenActs(code, UnaryL(x, NOT), frame, x, r, Applied(NOT, r), need);
    if t == U32 {
      NormYields(code + [UnaryL(x, NOT)], frame, x, Applied(NOT, r), need, t);
    } else {
      assert code + [UnaryL(x, NOT)] + [] == code + [UnaryL(x, NOT)];
      if r.Val? {
        NotStays(r.value, t);
      }
    }
  }

  lemma NotYields(code: Code, frame: seq<Cell>, x: Bank, r: Result, need: nat)
    requires Yields(code, frame, x, r, need) && need > 0
    ensures Yields(code + [UnaryL(x, LNOT)], frame, x, Applied(LNOT, r), need)
  {
    hide Yields, ApplyUnary, Acts;
    if r.Val? {
      UnaryActs(frame, x, LNOT, r.value);
    }
    ThenActs(code, UnaryL(x, LNOT), frame, x, r, Applied(LNOT, r), need);
  }

  // ----- comparisons -----

  lemma CompareYields(a: Code, b: Code, frame: seq<Cell>, x: Bank, ra: Result, rb: Result, na: nat, nb: nat, c: Cmp,
    t: Width, l: Result, r: Result)
    requires Yields(a, frame, A, ra, na) && Yields(b, frame, B, rb, nb) && na > 0 && nb > 0
    requires if Swaps(c) then ra == Normed(r, t) && rb == Normed(l, t) else ra == Normed(l, t) && rb == Normed(r, t)
    ensures Yields(Ordered2(a, b, na >= nb) + [BinaryL(x, CmpFor(c, t))], frame, x, CompareResult(c, t, l, r),
      PairNeed(na, nb))
  {
    hide Yields, CmpFor, Operated, Ordered2, Normed;
    PairYields(a, b, frame, x, CmpFor(c, t), ra, rb, na, nb);
  }

  /** The comparison's outcome on operands brought to the width. */
  lemma TruthOf(c: Cmp, t: Width, l: Result, r: Result)
    ensures CompareResult(c, t, l, r).Abort? <==> l.Abort? || r.Abort?
    ensures l.Val? && r.Val? ==>
      (CompareResult(c, t, l, r).value == 0 <==> !CmpHolds(c, Signed(t), Norm(l.value, t), Norm(r.value, t)))
  {
    hide CompareResult, CmpHolds, Norm, Truth;
    CompareTyped(c, t, l, r);
    if l.Val? && r.Val? {
      CompareIs(c, t, l.value, r.value);
      TruthIs(CmpHolds(c, Signed(t), Norm(l.value, t), Norm(r.value, t)));
    }
  }

  lemma EqualitySigns(c: Cmp, u: Cell, w: Cell)
    requires c == Equal || c == Unequal
    ensures CmpHolds(c, true, u, w) == CmpHolds(c, false, u, w)
  {
  }

  /** A comparison of two operands as a jump. */
  lemma PairJump(a: Code, b: Code, frame: seq<Cell>, ra: Result, rb: Result, na: nat, nb: nat, c: Cmp, t: Width,
    signed: bool, l: Result, r: Result)
    requires Yields(a, frame, A, ra, na) && Yields(b, frame, B, rb, nb) && na > 0 && nb > 0
    requires signed == Signed(t) || c == Equal || c == Unequal
    requires if Failing(c, signed).swapped then ra == Normed(r, t) && rb == Normed(l, t)
      else ra == Normed(l, t) && rb == Normed(r, t)
    ensures Tests(Test(Ordered2(a, b, na >= nb), PairL(Failing(c, signed).relation, 0)), frame,
      CompareResult(c, t, l, r), PairNeed(na, nb))
  {
    hide Yields, Tests, CompareResult, CmpHolds, Related, Norm, Failing, Ordered2;
    TruthOf(c, t, l, r);
    if l.Val? && r.Val? {
      var u, w := Norm(l.value, t), Norm(r.value, t);
      FailingIs(c, signed, u, w);
      if signed != Signed(t) {
        EqualitySigns(c, u, w);
      }
    }
    PairTests(a, b, frame, ra, rb, na, nb, Failing(c, signed).relation, CompareResult(c, t, l, r));
  }

  /** A comparison with a small constant on the right as a jump. */
  lemma ConstantJump(a: Code, frame: seq<Cell>, need: nat, c: Cmp, t: Width, l: Result, r: Result)
    requires Yields(a, frame, A, Normed(l, t), need) && r.Val?
    ensures Tests(AgainstTest(Some(a), c, Norm(r.value, t), t).value, frame, CompareResult(c, t, l, r), need)
  {
    hide Yields, Tests, CompareResult, CmpHolds, Related, Norm, Failing;
    TruthOf(c, t, l, r);
    if l.Val? {
      FailingIs(c, Signed(t), Norm(l.value, t), Norm(r.value, t));
    }
    AgainstTests(a, frame, Normed(l, t), need, Failing(c, Signed(t)), Norm(r.value, t), CompareResult(c, t, l, r));
  }

  /** With the constant on the left the comparison is turned round. */
  lemma TurnedRound(c: Cmp, t: Width, l: Result, r: Result, need: nat, frame: seq<Cell>, test: Test)
    requires Tests(test, frame, CompareResult(Flipped(c), t, r, l), need)
    ensures Tests(test, frame, CompareResult(c, t, l, r), need)
  {
    hide Tests, CompareResult, CmpHolds, Norm, Truth;
    CompareTyped(c, t, l, r);
    CompareTyped(Flipped(c), t, r, l);
    if l.Val? && r.Val? {
      CompareIs(c, t, l.value, r.value);
      CompareIs(Flipped(c), t, r.value, l.value);
      FlippedIs(c, Signed(t), Norm(l.value, t), Norm(r.value, t));
    }
  }

  // ----- the induction -----

  /** What is given about an expression that is being compiled. */
  ghost predicate Given(e: Expr, t: Width, kinds: seq<Kind>, frame: seq<Cell>) {
    FrameTyped(kinds, frame, t) && KindOf(e, t, kinds).Some? && Fit(e, t, kinds)
  }

  lemma CompileIs(e: Expr, x: Bank, t: Width, want: Width, kinds: seq<Kind>)
    ensures Compile(e, x, t, want, kinds) == match Static(e, t)
      case Rejected => None
      case Constant(v, untyped) => Some([PushL(x, if untyped then Norm(v, want) else v)])
      case Unknown => CompileRest(e, x, t, want, kinds)
  {
    hide CompileRest, Static, Norm;
  }

  /** Compiled code does what the theorem says. */
  ghost predicate Right(e: Expr, x: Bank, t: Width, want: Width, kinds: seq<Kind>, frame: seq<Cell>) {
    Compile(e, x, t, want, kinds).Some? ==>
      Yields(Compile(e, x, t, want, kinds).value, frame, x, Left(e, t, want, kinds, frame), Need(e))
  }

  lemma ConstantRight(e: Expr, x: Bank, t: Width, want: Width, kinds: seq<Kind>, frame: seq<Cell>)
    requires Static(e, t) != Unknown
    ensures Right(e, x, t, want, kinds, frame)
  {
    hide Static, CompileRest, Yields, Left, Norm, Eval, KindOf;
    CompileIs(e, x, t, want, kinds);
    LeftOnce(e, t, want, kinds, frame);
    if Static(e, t).Constant? {
      var v := if Static(e, t).untyped then Norm(Static(e, t).value, want) else Static(e, t).value;
      PushYields(frame, x, v, Need(e));
    }
  }

  /** A child in operand position. */
  lemma OperandRight(e: Expr, x: Bank, t: Width, kinds: seq<Kind>, frame: seq<Cell>)
    requires Given(e, t, kinds, frame) && Right(e, x, t, t, kinds, frame) && Compile(e, x, t, t, kinds).Some?
    ensures Yields(Compile(e, x, t, t, kinds).value, frame, x,
      AsOperand(KindOf(e, t, kinds), Eval(e, t, kinds, frame), t), Need(e))
  {
    hide Static, Compile, Yields, Left, Norm, Eval, KindOf, FrameTyped, Fit, AsOperand;
    LeftIs(e, t, kinds, frame);
  }

  lemma PlaceRight(d: nat, x: Bank, t: Width, want: Width, kinds: seq<Kind>, frame: seq<Cell>)
    requires Given(Place(d), t, kinds, frame)
    ensures Right(Place(d), x, t, want, kinds, frame)
  {
    hide Yields, FrameTyped;
    FrameSize(kinds, frame, t);
    PlaceParts(d, x, t, want, kinds, frame);
    hide Left, Compile, Eval, Need;
    GetYields(frame, x, d);
  }

  lemma PlaceParts(d: nat, x: Bank, t: Width, want: Width, kinds: seq<Kind>, frame: seq<Cell>)
    requires d < |frame|
    ensures Compile(Place(d), x, t, want, kinds) == Some([GetL(x, d)])
    ensures Left(Place(d), t, want, kinds, frame) == Val(frame[|frame| - 1 - d]) && Need(Place(d)) == 1
  {
    CompileIs(Place(d), x, t, want, kinds);
    LeftPlain(Place(d), t, want, kinds, frame);
  }

  lemma NegateParts(y: Expr, x: Bank, t: Width, want: Width, kinds: seq<Kind>, frame: seq<Cell>)
    requires Given(Negate(y), t, kinds, frame) && Static(Negate(y), t) == Unknown
    ensures Given(y, t, kinds, frame) && KindOf(y, t, kinds) == Some(Number)
    ensures Compile(Negate(y), x, t, want, kinds) ==
      Then(Then(Compile(y, x, t, t, kinds), [UnaryL(x, NEG)]), NormCode(x, t))
    ensures Left(Negate(y), t, want, kinds, frame) == Normed(Applied(NEG, Eval(y, t, kinds, frame)), t)
    ensures Need(Negate(y)) == Need(y)
  {
    hide FrameTyped, Norm, ApplyUnary, NormCode, Then, Normed, Applied;
    CompileIs(Negate(y), x, t, want, kinds);
    LeftPlain(Negate(y), t, want, kinds, frame);
  }

  lemma NegateRight(y: Expr, x: Bank, t: Width, want: Width, kinds: seq<Kind>, frame: seq<Cell>)
    requires Given(Negate(y), t, kinds, frame) && Static(Negate(y), t) == Unknown
    requires Given(y, t, kinds, frame) ==> Right(y, x, t, t, kinds, frame)
    ensures Right(Negate(y), x, t, want, kinds, frame)
  {
    hide Given, Static, Compile, Yields, Left, Norm, Eval, KindOf, NormCode, Need, Normed, Applied;
    NegateParts(y, x, t, want, kinds, frame);
    if Compile(y, x, t, t, kinds).Some? {
      OperandRight(y, x, t, kinds, frame);
      TypedOperand(y, t, kinds, frame);
      NegateYields(Compile(y, x, t, t, kinds).value, frame, x, Eval(y, t, kinds, frame), Need(y), t);
    }
  }

  /** A typed operand is the evaluator's value. */
  lemma TypedOperand(y: Expr, t: Width, kinds: seq<Kind>, frame: seq<Cell>)
    requires Given(y, t, kinds, frame) && KindOf(y, t, kinds) != Some(Untyped)
    ensures AsOperand(KindOf(y, t, kinds), Eval(y, t, kinds, frame), t) == Eval(y, t, kinds, frame)
    ensures Normed(Eval(y, t, kinds, frame), t) == Eval(y, t, kinds, frame)
  {
    hide Norm, Eval, Static, KindOf, FrameTyped, Fit, Sensible;
    Evaluates(y, t, kinds, frame);
    NumberNormed(y, t, kinds, frame);
  }

  lemma InvertParts(y: Expr, x: Bank, t: Width, want: Width, kinds: seq<Kind>, frame: seq<Cell>)
    requires Given(Invert(y), t, kinds, frame) && Static(Invert(y), t) == Unknown
    ensures Given(y, t, kinds, frame) && KindOf(y, t, kinds) == Some(Number)
    ensures Compile(Invert(y), x, t, want, kinds) ==
      Then(Then(Compile(y, x, t, t, kinds), [UnaryL(x, NOT)]), if t == U32 then NormCode(x, t) else [])
    ensures Left(Invert(y), t, want, kinds, frame) == Normed(Applied(NOT, Eval(y, t, kinds, frame)), t)
    ensures Need(Invert(y)) == Need(y)
  {
    hide FrameTyped, Norm, ApplyUnary, NormCode, Then, Normed, Applied;
    CompileIs(Invert(y), x, t, want, kinds);
    LeftPlain(Invert(y), t, want, kinds, frame);
  }

  lemma InvertRight(y: Expr, x: Bank, t: Width, want: Width, kinds: seq<Kind>, frame: seq<Cell>)
    requires Given(Invert(y), t, kinds, frame) && Static(Invert(y), t) == Unknown
    requires Given(y, t, kinds, frame) ==> Right(y, x, t, t, kinds, frame)
    ensures Right(Invert(y), x, t, want, kinds, frame)
  {
    hide Given, Static, Compile, Yields, Left, Norm, Eval, KindOf, NormCode, Need, Normed, Applied;
    InvertParts(y, x, t, want, kinds, frame);
    if Compile(y, x, t, t, kinds).Some? {
      OperandRight(y, x, t, kinds, frame);
      TypedOperand(y, t, kinds, frame);
      InvertYields(Compile(y, x, t, t, kinds).value, frame, x, Eval(y, t, kinds, frame), Need(y), t);
    }
  }

  lemma NotParts(y: Expr, x: Bank, t: Width, want: Width, kinds: seq<Kind>, frame: seq<Cell>)
    requires Given(Not(y), t, kinds, frame) && Static(Not(y), t) == Unknown
    ensures Given(y, t, kinds, frame) && KindOf(y, t, kinds) == Some(Flag)
    ensures Compile(Not(y), x, t, want, kinds) == Then(Compile(y, x, t, t, kinds), [UnaryL(x, LNOT)])
    ensures Left(Not(y), t, want, kinds, frame) == Applied(LNOT, Eval(y, t, kinds, frame))
    ensures Need(Not(y)) == Need(y)
  {
    hide FrameTyped, Norm, ApplyUnary, Then, Applied;
    CompileIs(Not(y), x, t, want, kinds);
    LeftPlain(Not(y), t, want, kinds, frame);
  }

  lemma NotRight(y: Expr, x: Bank, t: Width, want: Width, kinds: seq<Kind>, frame: seq<Cell>)
    requires Given(Not(y), t, kinds, frame) && Static(Not(y), t) == Unknown
    requires Given(y, t, kinds, frame) ==> Right(y, x, t, t, kinds, frame)
    ensures Right(Not(y), x, t, want, kinds, frame)
  {
    hide Given, Static, Compile, Yields, Left, Norm, Eval, KindOf, Need, Applied;
    NotParts(y, x, t, want, kinds, frame);
    if Compile(y, x, t, t, kinds).Some? {
      OperandRight(y, x, t, kinds, frame);
      TypedOperand(y, t, kinds, frame);
      NotYields(Compile(y, x, t, t, kinds).value, frame, x, Eval(y, t, kinds, frame), Need(y));
    }
  }

  // ----- arithmetic and comparisons -----

  lemma ArithParts(op: Oper, l: Expr, r: Expr, x: Bank, t: Width, want: Width, kinds: seq<Kind>, frame: seq<Cell>)
    requires var e := Arith(op, l, r); Given(e, t, kinds, frame) && Static(e, t) == Unknown
    ensures Given(l, t, kinds, frame) && Given(r, t, kinds, frame)
    ensures KindOf(l, t, kinds) != Some(Flag) && KindOf(r, t, kinds) != Some(Flag)
    ensures IsShift(op) ==> CountFits(op, t, r, kinds)
    ensures Left(Arith(op, l, r), t, want, kinds, frame) ==
      ArithResult(op, t, Eval(l, t, kinds, frame), Eval(r, t, kinds, frame))
    ensures Need(Arith(op, l, r)) == PairNeed(Need(l), Need(r))
  {
    hide FrameTyped, Norm, ArithResult, ArithFixed, CountFits, PairNeed, Left;
    LeftPlain(Arith(op, l, r), t, want, kinds, frame);
  }

  lemma ArithCode(op: Oper, l: Expr, r: Expr, x: Bank, t: Width, want: Width, kinds: seq<Kind>)
    requires Static(Arith(op, l, r), t) == Unknown
    ensures Compile(Arith(op, l, r), x, t, want, kinds) ==
      if RightOperand(op, r, t) != NoOperand then Fused(Compile(l, x, t, t, kinds), op, t, x, RightOperand(op, r, t))
      else if LeftOperand(op, l, t) != NoOperand then Fused(Compile(r, x, t, t, kinds), op, t, x, LeftOperand(op, l, t))
      else
        Then(Both(Compile(l, A, t, t, kinds), Compile(r, B, t, CountWidth(op, t), kinds), Need(l) >= Need(r),
            [BinaryL(x, OperFor(op, t))]),
          ArithNorm(op, t, x))
  {
    hide RightOperand, LeftOperand, Fused, Then, Both, OperFor, ArithNorm, CountWidth, Need, Static;
    CompileIs(Arith(op, l, r), x, t, want, kinds);
  }

  /** What the right operand's code or cell holds. */
  lemma RightOperandIs(op: Oper, r: Expr, t: Width, kinds: seq<Kind>, frame: seq<Cell>)
    requires Given(r, t, kinds, frame) && KindOf(r, t, kinds) != Some(Flag)
    requires (IsShift(op) ==> CountFits(op, t, r, kinds))
    requires RightOperand(op, r, t) != NoOperand
    ensures var o := RightOperand(op, r, t);
      && (o.FrameOperand? ==> o.depth < |frame|)
      && RightFor(op, t, Eval(r, t, kinds, frame), Val(OperandValue(o, frame)))
  {
    hide FrameTyped, Norm, Eval, KindOf, Fit, LeafOf, OperandValue, SameCount, Normed, CountFits;
    if IsShift(op) {
      LeafCount(op, r, t, kinds, frame);
    } else {
      LeafOperand(r, t, kinds, frame);
    }
  }

  lemma RightCodeIs(op: Oper, r: Expr, t: Width, kinds: seq<Kind>, frame: seq<Cell>)
    requires Given(r, t, kinds, frame) && KindOf(r, t, kinds) != Some(Flag)
    requires (IsShift(op) ==> CountFits(op, t, r, kinds))
    ensures RightFor(op, t, Eval(r, t, kinds, frame), Left(r, t, CountWidth(op, t), kinds, frame))
  {
    hide FrameTyped, Norm, Eval, KindOf, Fit, Left, SameCount, Normed, CountFits;
    if IsShift(op) {
      CountIs(op, r, t, kinds, frame);
    } else {
      LeftIs(r, t, kinds, frame);
    }
  }

  lemma ShiftsDontCommute(op: Oper, l: Expr, t: Width)
    requires LeftOperand(op, l, t) != NoOperand
    ensures !IsShift(op) && Commutes(OperFor(op, t)) && LeafOf(l, t, t) == LeftOperand(op, l, t)
  {
    hide LeafOf;
  }

  lemma LeftFusedRight(op: Oper, l: Expr, r: Expr, x: Bank, t: Width, want: Width, kinds: seq<Kind>, frame: seq<Cell>)
    requires var e := Arith(op, l, r); Given(e, t, kinds, frame) && Static(e, t) == Unknown
    requires RightOperand(op, r, t) == NoOperand && LeftOperand(op, l, t) != NoOperand
    requires Given(r, t, kinds, frame) ==> Right(r, x, t, t, kinds, frame)
    ensures Right(Arith(op, l, r), x, t, want, kinds, frame)
  {
    hide Given, Static, Compile, Yields, Left, Norm, Eval, KindOf, Need, Normed, Operated, OperFor, CountFits;
    hide LeftOperand, RightOperand, ArithResult, FusedLine, ArithNorm, OperandValue, MaybeNormed, EmitsNorm, LeafOf;
    hide Commutes;
    ArithParts(op, l, r, x, t, want, kinds, frame);
    ArithCode(op, l, r, x, t, want, kinds);
    ShiftsDontCommute(op, l, t);
    if Compile(r, x, t, t, kinds).Some? {
      var o, a, b := LeftOperand(op, l, t), Eval(l, t, kinds, frame), Eval(r, t, kinds, frame);
      OperandRight(r, x, t, kinds, frame);
      GivenFrame(l, t, kinds, frame);
      LeafOperand(l, t, kinds, frame);
      FusedYields(Compile(r, x, t, t, kinds).value, frame, x, Normed(b, t), Need(r), op, t, o);
      CommutedLeaves(op, t, Normed(b, t), Val(OperandValue(o, frame)));
      ArithLeaves(op, t, a, b, Normed(b, t));
      MoreNeed(Compile(r, x, t, t, kinds).value + [FusedLine(x, OperFor(op, t), o)] + ArithNorm(op, t, x), frame, x,
        ArithResult(op, t, a, b), Need(r), PairNeed(Need(l), Need(r)));
    }
  }

  lemma GivenFrame(e: Expr, t: Width, kinds: seq<Kind>, frame: seq<Cell>)
    requires Given(e, t, kinds, frame)
    ensures FrameTyped(kinds, frame, t) && KindOf(e, t, kinds).Some?
  {
    hide FrameTyped, KindOf, Fit;
  }

  lemma RightFusedRight(op: Oper, l: Expr, r: Expr, x: Bank, t: Width, want: Width, kinds: seq<Kind>, frame: seq<Cell>)
    requires var e := Arith(op, l, r); Given(e, t, kinds, frame) && Static(e, t) == Unknown
    requires RightOperand(op, r, t) != NoOperand
    requires Given(l, t, kinds, frame) ==> Right(l, x, t, t, kinds, frame)
    ensures Right(Arith(op, l, r), x, t, want, kinds, frame)
  {
    hide Given, Static, Compile, Yields, Left, Norm, Eval, KindOf, Need, Normed, Operated, OperFor, CountFits;
    hide LeftOperand, RightOperand, ArithResult, FusedLine, ArithNorm, OperandValue, MaybeNormed, EmitsNorm, RightFor;
    ArithParts(op, l, r, x, t, want, kinds, frame);
    ArithCode(op, l, r, x, t, want, kinds);
    if Compile(l, x, t, t, kinds).Some? {
      var o, a, b := RightOperand(op, r, t), Eval(l, t, kinds, frame), Eval(r, t, kinds, frame);
      OperandRight(l, x, t, kinds, frame);
      RightOperandIs(op, r, t, kinds, frame);
      FusedYields(Compile(l, x, t, t, kinds).value, frame, x, Normed(a, t), Need(l), op, t, o);
      ArithLeaves(op, t, a, b, Val(OperandValue(o, frame)));
      MoreNeed(Compile(l, x, t, t, kinds).value + [FusedLine(x, OperFor(op, t), o)] + ArithNorm(op, t, x), frame, x,
        ArithResult(op, t, a, b), Need(l), PairNeed(Need(l), Need(r)));
    }
  }

  lemma PairArithRight(op: Oper, l: Expr, r: Expr, x: Bank, t: Width, want: Width, kinds: seq<Kind>, frame: seq<Cell>)
    requires var e := Arith(op, l, r); Given(e, t, kinds, frame) && Static(e, t) == Unknown
    requires RightOperand(op, r, t) == NoOperand && LeftOperand(op, l, t) == NoOperand
    requires Given(l, t, kinds, frame) ==> Right(l, A, t, t, kinds, frame)
    requires Given(r, t, kinds, frame) ==> Right(r, B, t, CountWidth(op, t), kinds, frame)
    ensures Right(Arith(op, l, r), x, t, want, kinds, frame)
  {
    hide Given, Static, Compile, Yields, Left, Norm, Eval, KindOf, Need, Normed, Operated, OperFor, CountFits;
    hide CountWidth;
    hide LeftOperand, RightOperand, ArithResult, ArithNorm, MaybeNormed, EmitsNorm, RightFor, Ordered2;
    ArithParts(op, l, r, x, t, want, kinds, frame);
    ArithCode(op, l, r, x, t, want, kinds);
    if Compile(l, A, t, t, kinds).Some? && Compile(r, B, t, CountWidth(op, t), kinds).Some? {
      var a, b := Eval(l, t, kinds, frame), Eval(r, t, kinds, frame);
      var y := Left(r, t, CountWidth(op, t), kinds, frame);
      OperandRight(l, A, t, kinds, frame);
      RightCodeIs(op, r, t, kinds, frame);
      TwoYields(Compile(l, A, t, t, kinds).value, Compile(r, B, t, CountWidth(op, t), kinds).value, frame, x,
        Normed(a, t), y, Need(l), Need(r), op, t);
      ArithLeaves(op, t, a, b, y);
    }
  }

  lemma CompareParts(c: Cmp, l: Expr, r: Expr, t: Width, want: Width, kinds: seq<Kind>, frame: seq<Cell>)
    requires var e := Compare(c, l, r); Given(e, t, kinds, frame) && Static(e, t) == Unknown
    ensures Given(l, t, kinds, frame) && Given(r, t, kinds, frame)
    ensures KindOf(l, t, kinds) == Some(Flag) <==> KindOf(r, t, kinds) == Some(Flag)
    ensures KindOf(l, t, kinds) == Some(Flag) ==> c == Equal || c == Unequal
    ensures Left(Compare(c, l, r), t, want, kinds, frame) ==
      CompareResult(c, t, Eval(l, t, kinds, frame), Eval(r, t, kinds, frame))
    ensures Need(Compare(c, l, r)) == PairNeed(Need(l), Need(r)) == PairNeed(Need(r), Need(l))
  {
    hide FrameTyped, Norm, CompareResult, CompareFixed, Left, Need;
    LeftPlain(Compare(c, l, r), t, want, kinds, frame);
    CompareNeed(c, l, r);
  }

  lemma CompareNeed(c: Cmp, l: Expr, r: Expr)
    ensures Need(Compare(c, l, r)) == PairNeed(Need(l), Need(r)) == PairNeed(Need(r), Need(l))
  {
  }

  lemma CompareCode(c: Cmp, l: Expr, r: Expr, x: Bank, t: Width, want: Width, kinds: seq<Kind>)
    requires Static(Compare(c, l, r), t) == Unknown
    ensures Compile(Compare(c, l, r), x, t, want, kinds) ==
      if Swaps(c) then
        Both(Compile(r, A, t, t, kinds), Compile(l, B, t, t, kinds), Need(r) >= Need(l), [BinaryL(x, CmpFor(c, t))])
      else
        Both(Compile(l, A, t, t, kinds), Compile(r, B, t, t, kinds), Need(l) >= Need(r), [BinaryL(x, CmpFor(c, t))])
  {
    hide Both, CmpFor, Need, Static, Swaps;
    CompileIs(Compare(c, l, r), x, t, want, kinds);
  }

  /** An operand of a comparison is the evaluator's value brought to the width. */
  lemma ComparedRight(e: Expr, x: Bank, t: Width, kinds: seq<Kind>, frame: seq<Cell>)
    requires Given(e, t, kinds, frame) && Right(e, x, t, t, kinds, frame) && Compile(e, x, t, t, kinds).Some?
    ensures Yields(Compile(e, x, t, t, kinds).value, frame, x, Normed(Eval(e, t, kinds, frame), t), Need(e))
  {
    hide Given, Static, Compile, Yields, Left, Norm, Eval, KindOf, Need, Normed;
    OperandRight(e, x, t, kinds, frame);
    if KindOf(e, t, kinds) != Some(Untyped) {
      TypedOperand(e, t, kinds, frame);
    }
  }

  lemma CompareRight(c: Cmp, l: Expr, r: Expr, x: Bank, t: Width, want: Width, kinds: seq<Kind>, frame: seq<Cell>)
    requires var e := Compare(c, l, r); Given(e, t, kinds, frame) && Static(e, t) == Unknown
    requires forall y: Bank | Given(l, t, kinds, frame) :: Right(l, y, t, t, kinds, frame)
    requires forall y: Bank | Given(r, t, kinds, frame) :: Right(r, y, t, t, kinds, frame)
    ensures Right(Compare(c, l, r), x, t, want, kinds, frame)
  {
    hide Given, Static, Compile, Yields, Left, Norm, Eval, KindOf, Need, Normed, CompareResult, CmpFor, PairNeed;
    hide Ordered2;
    CompareParts(c, l, r, t, want, kinds, frame);
    CompareCode(c, l, r, x, t, want, kinds);
    var f, g := if Swaps(c) then r else l, if Swaps(c) then l else r;
    if Compile(f, A, t, t, kinds).Some? && Compile(g, B, t, t, kinds).Some? {
      ComparedRight(f, A, t, kinds, frame);
      ComparedRight(g, B, t, kinds, frame);
      var a, b := Eval(l, t, kinds, frame), Eval(r, t, kinds, frame);
      CompareYields(Compile(f, A, t, t, kinds).value, Compile(g, B, t, t, kinds).value, frame, x,
        Normed(Eval(f, t, kinds, frame), t), Normed(Eval(g, t, kinds, frame), t), Need(f), Need(g), c, t, a, b);
    }
  }

  // ----- conditions and choices -----

  /** Compiled conditions do what the theorem says. */
  ghost predicate TestRight(c: Expr, t: Width, kinds: seq<Kind>, frame: seq<Cell>) {
    CompileTest(c, t, kinds).Some? ==> Tests(CompileTest(c, t, kinds).value, frame, Eval(c, t, kinds, frame), Need(c))
  }

  lemma PlainTestRight(c: Expr, t: Width, kinds: seq<Kind>, frame: seq<Cell>)
    requires Given(c, t, kinds, frame) && KindOf(c, t, kinds) == Some(Flag) && !c.Compare?
    requires Right(c, A, t, t, kinds, frame)
    ensures TestRight(c, t, kinds, frame)
  {
    PlainTestIs(c, t, kinds);
    hide Given, Static, Compile, CompileTest, Yields, Tests, Left, Norm, Eval, KindOf, Need;
    if Compile(c, A, t, t, kinds).Some? {
      OperandRight(c, A, t, kinds, frame);
      ZeroTests(Compile(c, A, t, t, kinds).value, frame, Eval(c, t, kinds, frame), Need(c));
    }
  }

  lemma PlainTestIs(c: Expr, t: Width, kinds: seq<Kind>)
    requires !c.Compare?
    ensures CompileTest(c, t, kinds) == ZeroTest(Compile(c, A, t, t, kinds))
  {
    hide Compile, Static, KindOf, ZeroTest;
  }

  lemma SmallIs(e: Expr, t: Width, kinds: seq<Kind>, frame: seq<Cell>)
    requires Given(e, t, kinds, frame) && SmallStatic(e, t).Some?
    ensures Static(e, t).Constant? && Eval(e, t, kinds, frame).Val?
    ensures SmallStatic(e, t).value == Norm(Eval(e, t, kinds, frame).value, t)
  {
    hide Norm, Eval, KindOf, Tag, Fit, Static, Small, FrameTyped, Weighed, Sensible, Alike;
    Evaluates(e, t, kinds, frame);
    EvenKinds(e, t, kinds, frame);
    WeighedNormed(Static(e, t).value, KindOf(e, t, kinds), Tag(e, t, kinds), t);
  }

  lemma CompareTestIs(c: Cmp, l: Expr, r: Expr, t: Width, kinds: seq<Kind>)
    ensures var flags := KindOf(l, t, kinds) == Some(Flag);
      var rk, lk := SmallStatic(r, t), SmallStatic(l, t);
      var f := Failing(c, Signed(t) || flags);
      CompileTest(Compare(c, l, r), t, kinds) ==
        if !flags && rk.Some? then AgainstTest(Compile(l, A, t, t, kinds), c, rk.value, t)
        else if !flags && lk.Some? then AgainstTest(Compile(r, A, t, t, kinds), Flipped(c), lk.value, t)
        else if f.swapped then
          PairTest(Compile(r, A, t, t, kinds), Compile(l, B, t, t, kinds), Need(r) >= Need(l), f.relation)
        else PairTest(Compile(l, A, t, t, kinds), Compile(r, B, t, t, kinds), Need(l) >= Need(r), f.relation)
  {
    hide Compile, SmallStatic, KindOf, AgainstTest, PairTest, Failing, Flipped, Need;
  }

  lemma CompareTestRight(c: Cmp, l: Expr, r: Expr, t: Width, kinds: seq<Kind>, frame: seq<Cell>)
    requires var e := Compare(c, l, r); Given(e, t, kinds, frame) && Static(e, t) == Unknown
    requires forall y: Bank | Given(l, t, kinds, frame) :: Right(l, y, t, t, kinds, frame)
    requires forall y: Bank | Given(r, t, kinds, frame) :: Right(r, y, t, t, kinds, frame)
    ensures TestRight(Compare(c, l, r), t, kinds, frame)
  {
    hide Given, Static, Compile, CompileTest, Yields, Tests, Left, Norm, Eval, KindOf, Need, Normed, CompareResult;
    hide SmallStatic;
    hide PairNeed, Failing, Flipped, Ordered2, AgainstTest;
    CompareParts(c, l, r, t, t, kinds, frame);
    CompareTestIs(c, l, r, t, kinds);
    CompareEval(c, l, r, t, kinds, frame);
    var a, b := Eval(l, t, kinds, frame), Eval(r, t, kinds, frame);
    var flags := KindOf(l, t, kinds) == Some(Flag);
    var rk, lk := SmallStatic(r, t), SmallStatic(l, t);
    var f := Failing(c, Signed(t) || flags);
    if !flags && rk.Some? {
      SmallIs(r, t, kinds, frame);
      NoAgainst(c, rk.value, t);
      if Compile(l, A, t, t, kinds).Some? {
        ComparedRight(l, A, t, kinds, frame);
        ConstantJump(Compile(l, A, t, t, kinds).value, frame, Need(l), c, t, a, b);
        MoreTests(AgainstTest(Compile(l, A, t, t, kinds), c, rk.value, t).value, frame, CompareResult(c, t, a, b),
          Need(l), Need(Compare(c, l, r)));
      }
    } else if !flags && lk.Some? {
      SmallIs(l, t, kinds, frame);
      NoAgainst(Flipped(c), lk.value, t);
      if Compile(r, A, t, t, kinds).Some? {
        ComparedRight(r, A, t, kinds, frame);
        ConstantJump(Compile(r, A, t, t, kinds).value, frame, Need(r), Flipped(c), t, b, a);
        var test := AgainstTest(Compile(r, A, t, t, kinds), Flipped(c), lk.value, t).value;
        TurnedRound(c, t, a, b, Need(r), frame, test);
        MoreTests(test, frame, CompareResult(c, t, a, b), Need(r), Need(Compare(c, l, r)));
      }
    } else {
      var p, q := if f.swapped then r else l, if f.swapped then l else r;
      if Compile(p, A, t, t, kinds).Some? && Compile(q, B, t, t, kinds).Some? {
        ComparedRight(p, A, t, kinds, frame);
        ComparedRight(q, B, t, kinds, frame);
        PairJump(Compile(p, A, t, t, kinds).value, Compile(q, B, t, t, kinds).value, frame,
          Normed(Eval(p, t, kinds, frame), t), Normed(Eval(q, t, kinds, frame), t), Need(p), Need(q), c, t,
          Signed(t) || flags, a, b);
      }
    }
  }

  lemma NoAgainst(c: Cmp, k: Cell, t: Width)
    ensures AgainstTest(None, c, k, t) == None
    ensures forall a: Code :: AgainstTest(Some(a), c, k, t).Some?
  {
  }

  lemma CompareEval(c: Cmp, l: Expr, r: Expr, t: Width, kinds: seq<Kind>, frame: seq<Cell>)
    ensures Eval(Compare(c, l, r), t, kinds, frame) ==
      CompareResult(c, t, Eval(l, t, kinds, frame), Eval(r, t, kinds, frame))
    ensures Need(l) <= Need(Compare(c, l, r)) && Need(r) <= Need(Compare(c, l, r))
  {
    hide CompareResult;
  }

  lemma MoreTests(test: Test, frame: seq<Cell>, r: Result, need: nat, more: nat)
    requires Tests(test, frame, r, need) && need <= more
    ensures Tests(test, frame, r, more)
  {
    hide Exec, Decide, Inside;
    forall s: Banks<Cell>, peak: nat | s.c == frame ensures TestsAt(test, s, peak, r, more) {
      assert TestsAt(test, s, peak, r, need);
    }
  }

  lemma FlagsParts(e: Expr, x: Bank, t: Width, want: Width, kinds: seq<Kind>, frame: seq<Cell>)
    requires (e.And? || e.Or?) && Given(e, t, kinds, frame) && Static(e, t) == Unknown
    ensures Given(e.l, t, kinds, frame) && Given(e.r, t, kinds, frame)
    ensures KindOf(e.l, t, kinds) == Some(Flag) && KindOf(e.r, t, kinds) == Some(Flag)
    ensures Left(e, t, want, kinds, frame) ==
      if e.And? then ChoiceResult(Eval(e.l, t, kinds, frame), Eval(e.r, t, kinds, frame), Val(0))
      else ChoiceResult(Eval(e.l, t, kinds, frame), Val(1), Eval(e.r, t, kinds, frame))
    ensures Need(e) == Max(Need(e.l), Need(e.r))
  {
    hide FrameTyped, Norm, ChoiceResult, Max, ChoiceFixed;
    LeftPlain(e, t, want, kinds, frame);
  }

  lemma FlagsCode(e: Expr, x: Bank, t: Width, want: Width, kinds: seq<Kind>)
    requires (e.And? || e.Or?) && Static(e, t) == Unknown
    ensures Compile(e, x, t, want, kinds) ==
      if e.And? then Choose(ZeroTest(Compile(e.l, A, t, t, kinds)), Compile(e.r, x, t, t, kinds), Some([PushL(x, 0)]))
      else Choose(ZeroTest(Compile(e.l, A, t, t, kinds)), Some([PushL(x, 1)]), Compile(e.r, x, t, t, kinds))
  {
    hide Choose, ZeroTest, Static;
    CompileIs(e, x, t, want, kinds);
  }

  lemma FlagsRight(e: Expr, x: Bank, t: Width, want: Width, kinds: seq<Kind>, frame: seq<Cell>)
    requires (e.And? || e.Or?) && Given(e, t, kinds, frame) && Static(e, t) == Unknown
    requires Given(e.l, t, kinds, frame) ==> Right(e.l, A, t, t, kinds, frame)
    requires Given(e.r, t, kinds, frame) ==> Right(e.r, x, t, t, kinds, frame)
    ensures Right(e, x, t, want, kinds, frame)
  {
    hide Given, Static, Compile, Yields, Tests, Left, Norm, Eval, KindOf, Need, ChoiceResult, ChoiceCode;
    FlagsParts(e, x, t, want, kinds, frame);
    FlagsCode(e, x, t, want, kinds);
    if Compile(e.l, A, t, t, kinds).Some? && Compile(e.r, x, t, t, kinds).Some? {
      var a, b := Compile(e.l, A, t, t, kinds).value, Compile(e.r, x, t, t, kinds).value;
      var ra, rb := Eval(e.l, t, kinds, frame), Eval(e.r, t, kinds, frame);
      OperandRight(e.l, A, t, kinds, frame);
      OperandRight(e.r, x, t, kinds, frame);
      ZeroTests(a, frame, ra, Need(e.l));
      PushYields(frame, x, 0, 1);
      PushYields(frame, x, 1, 1);
      if e.And? {
        ChoiceYields(Test(a, ZeroL(A, 0)), b, [PushL(x, 0)], frame, x, ra, rb, Val(0), Need(e.l), Need(e.r), 1);
      } else {
        ChoiceYields(Test(a, ZeroL(A, 0)), [PushL(x, 1)], b, frame, x, ra, Val(1), rb, Need(e.l), 1, Need(e.r));
      }
    }
  }

  lemma IfParts(c: Expr, y: Expr, n: Expr, t: Width, kinds: seq<Kind>, frame: seq<Cell>)
    requires var e := If(c, y, n); Given(e, t, kinds, frame) && Static(e, t) == Unknown
    ensures Static(c, t) != Rejected && KindOf(c, t, kinds) == Some(Flag)
    ensures Static(c, t).Constant? ==> Given(if Static(c, t).value != 0 then y else n, t, kinds, frame)
    ensures Static(c, t) == Unknown ==>
      Given(c, t, kinds, frame) && Given(y, t, kinds, frame) && Given(n, t, kinds, frame)
    ensures Need(If(c, y, n)) == Max(Need(c), Max(Need(y), Need(n)))
  {
    hide FrameTyped, Norm, Max;
  }

  lemma IfCode(c: Expr, y: Expr, n: Expr, x: Bank, t: Width, want: Width, kinds: seq<Kind>)
    requires Static(If(c, y, n), t) == Unknown
    ensures Static(c, t).Constant? ==>
      Compile(If(c, y, n), x, t, want, kinds) == Compile(if Static(c, t).value != 0 then y else n, x, t, want, kinds)
    ensures Static(c, t) == Unknown ==>
      Compile(If(c, y, n), x, t, want, kinds) ==
        Choose(CompileTest(c, t, kinds), Compile(y, x, t, want, kinds), Compile(n, x, t, want, kinds))
  {
    hide Choose, Static, CompileTest;
    CompileIs(If(c, y, n), x, t, want, kinds);
  }

  lemma KnownIfRight(c: Expr, y: Expr, n: Expr, x: Bank, t: Width, want: Width, kinds: seq<Kind>, frame: seq<Cell>)
    requires var e := If(c, y, n); Given(e, t, kinds, frame) && Static(e, t) == Unknown && Static(c, t).Constant?
    requires var arm := if Static(c, t).value != 0 then y else n;
      Given(arm, t, kinds, frame) ==> Right(arm, x, t, want, kinds, frame)
    ensures Right(If(c, y, n), x, t, want, kinds, frame)
  {
    hide Given, Static, Compile, Yields, Left, Norm, Eval, KindOf, Need;
    IfParts(c, y, n, t, kinds, frame);
    IfCode(c, y, n, x, t, want, kinds);
    LeftOnce(If(c, y, n), t, want, kinds, frame);
    var arm := if Static(c, t).value != 0 then y else n;
    GivenFrame(arm, t, kinds, frame);
    Evaluates(c, t, kinds, frame);
    EvenKinds(c, t, kinds, frame);
    TypedWeighed(Static(c, t).value, KindOf(c, t, kinds), Tag(c, t, kinds), t);
    if Compile(arm, x, t, want, kinds).Some? {
      MoreNeed(Compile(arm, x, t, want, kinds).value, frame, x, Left(arm, t, want, kinds, frame), Need(arm),
        Need(If(c, y, n)));
    }
  }

  lemma OpenIfRight(c: Expr, y: Expr, n: Expr, x: Bank, t: Width, want: Width, kinds: seq<Kind>, frame: seq<Cell>)
    requires var e := If(c, y, n); Given(e, t, kinds, frame) && Static(e, t) == Unknown && Static(c, t) == Unknown
    requires Given(c, t, kinds, frame) ==> TestRight(c, t, kinds, frame)
    requires Given(y, t, kinds, frame) ==> Right(y, x, t, want, kinds, frame)
    requires Given(n, t, kinds, frame) ==> Right(n, x, t, want, kinds, frame)
    ensures Right(If(c, y, n), x, t, want, kinds, frame)
  {
    hide Given, Static, Compile, CompileTest, Yields, Tests, Left, Norm, Eval, KindOf, Need, ChoiceCode, ChoiceResult;
    IfParts(c, y, n, t, kinds, frame);
    IfCode(c, y, n, x, t, want, kinds);
    LeftOnce(If(c, y, n), t, want, kinds, frame);
    var test, a, b := CompileTest(c, t, kinds), Compile(y, x, t, want, kinds), Compile(n, x, t, want, kinds);
    if test.Some? && a.Some? && b.Some? {
      ChoiceYields(test.value, a.value, b.value, frame, x, Eval(c, t, kinds, frame), Left(y, t, want, kinds, frame),
        Left(n, t, want, kinds, frame), Need(c), Need(y), Need(n));
    }
  }

  /** Compiled code leaves the evaluator's value as one new cell, or aborts as the evaluator does, changes
      nothing else, and never holds more cells than counted. */
  lemma {:induction false} Compiles(e: Expr, x: Bank, t: Width, want: Width, kinds: seq<Kind>, frame: seq<Cell>)
    requires Given(e, t, kinds, frame)
    ensures Right(e, x, t, want, kinds, frame)
    decreases e, 1
  {
    hide Given, Right, TestRight, Static, RightOperand, LeftOperand;
    if Static(e, t) != Unknown {
      ConstantRight(e, x, t, want, kinds, frame);
    } else {
      match e {
        case Num(v) => LeafStatic(e, t);
        case Known(v) => LeafStatic(e, t);
        case Bool(b) => LeafStatic(e, t);
        case Place(d) => PlaceRight(d, x, t, want, kinds, frame);
        case Negate(y) =>
          Child(y, x, t, t, kinds, frame, e);
          NegateRight(y, x, t, want, kinds, frame);
        case Invert(y) =>
          Child(y, x, t, t, kinds, frame, e);
          InvertRight(y, x, t, want, kinds, frame);
        case Not(y) =>
          Child(y, x, t, t, kinds, frame, e);
          NotRight(y, x, t, want, kinds, frame);
        case Arith(op, l, r) =>
          Child(l, x, t, t, kinds, frame, e);
          Child(l, A, t, t, kinds, frame, e);
          Child(r, x, t, t, kinds, frame, e);
          Child(r, B, t, CountWidth(op, t), kinds, frame, e);
          if RightOperand(op, r, t) != NoOperand {
            RightFusedRight(op, l, r, x, t, want, kinds, frame);
          } else if LeftOperand(op, l, t) != NoOperand {
            LeftFusedRight(op, l, r, x, t, want, kinds, frame);
          } else {
            PairArithRight(op, l, r, x, t, want, kinds, frame);
          }
        case Compare(c, l, r) =>
          forall y: Bank | Given(l, t, kinds, frame) ensures Right(l, y, t, t, kinds, frame) {
            Compiles(l, y, t, t, kinds, frame);
          }
          forall y: Bank | Given(r, t, kinds, frame) ensures Right(r, y, t, t, kinds, frame) {
            Compiles(r, y, t, t, kinds, frame);
          }
          CompareRight(c, l, r, x, t, want, kinds, frame);
        case And(l, r) =>
          Child(l, A, t, t, kinds, frame, e);
          Child(r, x, t, t, kinds, frame, e);
          FlagsRight(e, x, t, want, kinds, frame);
        case Or(l, r) =>
          Child(l, A, t, t, kinds, frame, e);
          Child(r, x, t, t, kinds, frame, e);
          FlagsRight(e, x, t, want, kinds, frame);
        case If(c, y, n) =>
          Child(y, x, t, want, kinds, frame, e);
          Child(n, x, t, want, kinds, frame, e);
          IfParts(c, y, n, t, kinds, frame);
          if Static(c, t).Constant? {
            KnownIfRight(c, y, n, x, t, want, kinds, frame);
          } else {
            if Given(c, t, kinds, frame) {
              TestCompiles(c, t, kinds, frame);
            }
            OpenIfRight(c, y, n, x, t, want, kinds, frame);
          }
      }
    }
  }

  lemma LeafStatic(e: Expr, t: Width)
    requires e.Num? || e.Known? || e.Bool?
    ensures Static(e, t) != Unknown
  {
  }

  lemma {:induction false} Child(y: Expr, x: Bank, t: Width, want: Width, kinds: seq<Kind>, frame: seq<Cell>, e: Expr)
    requires y < e
    ensures Given(y, t, kinds, frame) ==> Right(y, x, t, want, kinds, frame)
    decreases e, 0
  {
    hide Given, Right;
    if Given(y, t, kinds, frame) {
      Compiles(y, x, t, want, kinds, frame);
    }
  }

  /** A compiled condition jumps exactly when the evaluator finds it false. */
  lemma {:induction false} TestCompiles(c: Expr, t: Width, kinds: seq<Kind>, frame: seq<Cell>)
    requires Given(c, t, kinds, frame) && KindOf(c, t, kinds) == Some(Flag) && Static(c, t) == Unknown
    ensures TestRight(c, t, kinds, frame)
    decreases c, 2
  {
    hide Given, Right, TestRight, Static, KindOf;
    if c.Compare? {
      forall y: Bank | Given(c.l, t, kinds, frame) ensures Right(c.l, y, t, t, kinds, frame) {
        Compiles(c.l, y, t, t, kinds, frame);
      }
      forall y: Bank | Given(c.r, t, kinds, frame) ensures Right(c.r, y, t, t, kinds, frame) {
        Compiles(c.r, y, t, t, kinds, frame);
      }
      CompareTestRight(c.cmp, c.l, c.r, t, kinds, frame);
    } else {
      Compiles(c, A, t, t, kinds, frame);
      PlainTestRight(c, t, kinds, frame);
    }
  }

  // ----- when there is code -----

  /** In no part that is compiled does static evaluation find a zero divisor. */
  predicate Divides(e: Expr, t: Width) {
    match Static(e, t)
    case Rejected => false
    case Constant(_, _) => true
    case Unknown =>
      match e
      case Num(_) => true
      case Known(_) => true
      case Bool(_) => true
      case Place(_) => true
      case Negate(y) => Divides(y, t)
      case Invert(y) => Divides(y, t)
      case Not(y) => Divides(y, t)
      case Arith(_, l, r) => Divides(l, t) && Divides(r, t)
      case Compare(_, l, r) => Divides(l, t) && Divides(r, t)
      case And(l, r) => Divides(l, t) && Divides(r, t)
      case Or(l, r) => Divides(l, t) && Divides(r, t)
      case If(c, y, n) =>
        match Static(c, t)
        case Rejected => false
        case Constant(v, _) => Divides(if v != 0 then y else n, t)
        case Unknown => Divides(c, t) && Divides(y, t) && Divides(n, t)
  }

  lemma {:induction false} LeafDivides(e: Expr, t: Width, want: Width)
    requires LeafOf(e, t, want) != NoOperand || SmallStatic(e, t).Some?
    ensures Divides(e, t)
  {
    hide Norm, Small;
  }

  /** The parts that are compiled have code. */
  predicate PartsCompile(e: Expr, x: Bank, t: Width, want: Width, kinds: seq<Kind>) {
    match e
    case Num(_) => false
    case Known(_) => false
    case Bool(_) => false
    case Place(_) => true
    case Negate(y) => Compile(y, x, t, t, kinds).Some?
    case Invert(y) => Compile(y, x, t, t, kinds).Some?
    case Not(y) => Compile(y, x, t, t, kinds).Some?
    case Arith(op, l, r) =>
      if RightOperand(op, r, t) != NoOperand then Compile(l, x, t, t, kinds).Some?
      else if LeftOperand(op, l, t) != NoOperand then Compile(r, x, t, t, kinds).Some?
      else Compile(l, A, t, t, kinds).Some? && Compile(r, B, t, CountWidth(op, t), kinds).Some?
    case Compare(c, l, r) =>
      if Swaps(c) then Compile(r, A, t, t, kinds).Some? && Compile(l, B, t, t, kinds).Some?
      else Compile(l, A, t, t, kinds).Some? && Compile(r, B, t, t, kinds).Some?
    case And(l, r) => Compile(l, A, t, t, kinds).Some? && Compile(r, x, t, t, kinds).Some?
    case Or(l, r) => Compile(l, A, t, t, kinds).Some? && Compile(r, x, t, t, kinds).Some?
    case If(c, y, n) =>
      match Static(c, t)
      case Rejected => false
      case Constant(v, _) => Compile(if v != 0 then y else n, x, t, want, kinds).Some?
      case Unknown =>
        CompileTest(c, t, kinds).Some? && Compile(y, x, t, want, kinds).Some? && Compile(n, x, t, want, kinds).Some?
  }

  lemma {:induction false} RestParts(e: Expr, x: Bank, t: Width, want: Width, kinds: seq<Kind>)
    ensures CompileRest(e, x, t, want, kinds).Some? <==> PartsCompile(e, x, t, want, kinds)
  {
    hide Compile, CompileTest, Static, RightOperand, LeftOperand, NormCode, ArithNorm, Need, OperFor, CmpFor;
    hide ChoiceCode;
    hide Ordered2, FusedLine;
  }

  /** The parts that are compiled divide by no static zero. */
  predicate PartsDivide(e: Expr, t: Width) {
    match e
    case Num(_) => true
    case Known(_) => true
    case Bool(_) => true
    case Place(_) => true
    case Negate(y) => Divides(y, t)
    case Invert(y) => Divides(y, t)
    case Not(y) => Divides(y, t)
    case Arith(_, l, r) => Divides(l, t) && Divides(r, t)
    case Compare(_, l, r) => Divides(l, t) && Divides(r, t)
    case And(l, r) => Divides(l, t) && Divides(r, t)
    case Or(l, r) => Divides(l, t) && Divides(r, t)
    case If(c, y, n) =>
      match Static(c, t)
      case Rejected => false
      case Constant(v, _) => Divides(if v != 0 then y else n, t)
      case Unknown => Divides(c, t) && Divides(y, t) && Divides(n, t)
  }

  lemma {:induction false} CompileCases(e: Expr, x: Bank, t: Width, want: Width, kinds: seq<Kind>)
    ensures Compile(e, x, t, want, kinds).Some? <==>
      match Static(e, t)
      case Rejected => false
      case Constant(_, _) => true
      case Unknown => CompileRest(e, x, t, want, kinds).Some?
  {
    hide Static, CompileRest, Norm;
  }

  /** Compilation fails exactly where static evaluation finds a zero divisor. */
  lemma {:induction false} CompileSucceeds(e: Expr, x: Bank, t: Width, want: Width, kinds: seq<Kind>)
    ensures Compile(e, x, t, want, kinds).Some? <==> Divides(e, t)
    decreases e, 2
  {
    CompileCases(e, x, t, want, kinds);
    DividesCases(e, t);
    hide *;
    if Static(e, t) == Unknown {
      RestParts(e, x, t, want, kinds);
      PartsSucceed(e, x, t, want, kinds);
    }
  }

  lemma {:induction false} ArithSucceeds(op: Oper, l: Expr, r: Expr, x: Bank, t: Width, want: Width, kinds: seq<Kind>)
    requires Compile(l, x, t, t, kinds).Some? <==> Divides(l, t)
    requires Compile(l, A, t, t, kinds).Some? <==> Divides(l, t)
    requires Compile(r, x, t, t, kinds).Some? <==> Divides(r, t)
    requires Compile(r, B, t, CountWidth(op, t), kinds).Some? <==> Divides(r, t)
    ensures PartsCompile(Arith(op, l, r), x, t, want, kinds) <==> PartsDivide(Arith(op, l, r), t)
  {
    hide Compile, Divides, Static, RightOperand, LeftOperand, CountWidth;
    if RightOperand(op, r, t) != NoOperand {
      OperandDivides(op, r, t);
    } else if LeftOperand(op, l, t) != NoOperand {
      OperandDivides(op, l, t);
    }
  }

  lemma {:induction false} OperandDivides(op: Oper, e: Expr, t: Width)
    requires RightOperand(op, e, t) != NoOperand || LeftOperand(op, e, t) != NoOperand
    ensures Divides(e, t)
  {
    hide Divides, Static, LeafOf, OperFor, CountWidth;
    if RightOperand(op, e, t) != NoOperand {
      LeafDivides(e, t, CountWidth(op, t));
    } else {
      LeafDivides(e, t, t);
    }
  }

  lemma {:induction false} PartsSucceed(e: Expr, x: Bank, t: Width, want: Width, kinds: seq<Kind>)
    requires Static(e, t) == Unknown
    ensures PartsCompile(e, x, t, want, kinds) <==> PartsDivide(e, t)
    decreases e, 1
  {
    hide *;
    LeafUnknown(e, t);
    match e
    case Num(_) =>
    case Known(_) =>
    case Bool(_) =>
    case Place(_) => PlaceSucceeds(e, x, t, want, kinds);
    case Negate(y) =>
      CompileSucceeds(y, x, t, t, kinds);
      SingleParts(e, y, x, t, want, kinds);
    case Invert(y) =>
      CompileSucceeds(y, x, t, t, kinds);
      SingleParts(e, y, x, t, want, kinds);
    case Not(y) =>
      CompileSucceeds(y, x, t, t, kinds);
      SingleParts(e, y, x, t, want, kinds);
    case Arith(op, l, r) =>
      CompileSucceeds(l, x, t, t, kinds);
      CompileSucceeds(r, x, t, t, kinds);
      CompileSucceeds(l, A, t, t, kinds);
      CompileSucceeds(r, B, t, CountWidth(op, t), kinds);
      ArithSucceeds(op, l, r, x, t, want, kinds);
    case Compare(c, l, r) =>
      CompileSucceeds(l, if Swaps(c) then B else A, t, t, kinds);
      CompileSucceeds(r, if Swaps(c) then A else B, t, t, kinds);
      CompareSucceeds(c, l, r, x, t, want, kinds);
    case And(l, r) =>
      CompileSucceeds(l, A, t, t, kinds);
      CompileSucceeds(r, x, t, t, kinds);
      FlagsSucceed(l, r, x, t, want, kinds);
    case Or(l, r) =>
      CompileSucceeds(l, A, t, t, kinds);
      CompileSucceeds(r, x, t, t, kinds);
      FlagsSucceed(l, r, x, t, want, kinds);
    case If(c, y, n) =>
      if Static(c, t) == Unknown {
        TestSucceeds(c, t, kinds);
      }
      CompileSucceeds(y, x, t, want, kinds);
      CompileSucceeds(n, x, t, want, kinds);
      ChoiceSucceeds(c, y, n, x, t, want, kinds);
  }

  lemma {:induction false} PlaceSucceeds(e: Expr, x: Bank, t: Width, want: Width, kinds: seq<Kind>)
    requires e.Place?
    ensures PartsCompile(e, x, t, want, kinds) && PartsDivide(e, t)
  {
  }

  lemma {:induction false} SingleParts(e: Expr, y: Expr, x: Bank, t: Width, want: Width, kinds: seq<Kind>)
    requires e == Negate(y) || e == Invert(y) || e == Not(y)
    ensures PartsCompile(e, x, t, want, kinds) <==> Compile(y, x, t, t, kinds).Some?
    ensures PartsDivide(e, t) <==> Divides(y, t)
  {
    hide Compile, Divides;
  }

  lemma {:induction false} CompareSucceeds(c: Cmp, l: Expr, r: Expr, x: Bank, t: Width, want: Width, kinds: seq<Kind>)
    requires Compile(l, if Swaps(c) then B else A, t, t, kinds).Some? <==> Divides(l, t)
    requires Compile(r, if Swaps(c) then A else B, t, t, kinds).Some? <==> Divides(r, t)
    ensures PartsCompile(Compare(c, l, r), x, t, want, kinds) <==> PartsDivide(Compare(c, l, r), t)
  {
    hide Compile, Divides, Swaps;
  }

  lemma {:induction false} FlagsSucceed(l: Expr, r: Expr, x: Bank, t: Width, want: Width, kinds: seq<Kind>)
    requires Compile(l, A, t, t, kinds).Some? <==> Divides(l, t)
    requires Compile(r, x, t, t, kinds).Some? <==> Divides(r, t)
    ensures PartsCompile(And(l, r), x, t, want, kinds) <==> PartsDivide(And(l, r), t)
    ensures PartsCompile(Or(l, r), x, t, want, kinds) <==> PartsDivide(Or(l, r), t)
  {
    hide Compile, Divides;
  }

  lemma {:induction false} ChoiceSucceeds(c: Expr, y: Expr, n: Expr, x: Bank, t: Width, want: Width, kinds: seq<Kind>)
    requires Static(c, t) == Unknown ==> (CompileTest(c, t, kinds).Some? <==> Divides(c, t))
    requires Compile(y, x, t, want, kinds).Some? <==> Divides(y, t)
    requires Compile(n, x, t, want, kinds).Some? <==> Divides(n, t)
    ensures PartsCompile(If(c, y, n), x, t, want, kinds) <==> PartsDivide(If(c, y, n), t)
  {
    hide Static, Compile, CompileTest, Divides;
  }

  lemma {:induction false} LeafUnknown(e: Expr, t: Width)
    ensures (e.Num? || e.Known? || e.Bool?) ==> Static(e, t).Constant?
  {
    hide Norm;
  }

  lemma {:induction false} DividesCases(e: Expr, t: Width)
    ensures Divides(e, t) <==>
      match Static(e, t)
      case Rejected => false
      case Constant(_, _) => true
      case Unknown => PartsDivide(e, t)
  {
    hide Static;
  }

  /** The code of a comparison that is tested. */
  lemma {:induction false} TestParts(c: Expr, t: Width, kinds: seq<Kind>)
    requires c.Compare?
    ensures CompileTest(c, t, kinds).Some? ==>
      || (SmallStatic(c.r, t).Some? && Compile(c.l, A, t, t, kinds).Some?)
      || (SmallStatic(c.l, t).Some? && Compile(c.r, A, t, t, kinds).Some?)
      || (Compile(c.l, A, t, t, kinds).Some? && Compile(c.r, B, t, t, kinds).Some?)
      || (Compile(c.l, B, t, t, kinds).Some? && Compile(c.r, A, t, t, kinds).Some?)
    ensures CompileTest(c, t, kinds).None? ==>
      || Compile(c.l, A, t, t, kinds).None? || Compile(c.l, B, t, t, kinds).None?
      || Compile(c.r, A, t, t, kinds).None? || Compile(c.r, B, t, t, kinds).None?
  {
    hide Compile, SmallStatic, KindOf, Failing, Need, Signed, Ordered2;
  }

  lemma {:induction false} TestSucceeds(c: Expr, t: Width, kinds: seq<Kind>)
    requires Static(c, t) == Unknown
    ensures CompileTest(c, t, kinds).Some? <==> Divides(c, t)
    decreases c, 3
  {
    if !c.Compare? {
      TestPlain(c, t, kinds);
      hide *;
      CompileSucceeds(c, A, t, t, kinds);
    } else {
      TestParts(c, t, kinds);
      DividesCases(c, t);
      hide Static, SmallStatic, Divides, Compile, CompileTest;
      if SmallStatic(c.r, t).Some? {
        LeafDivides(c.r, t, t);
      }
      if SmallStatic(c.l, t).Some? {
        LeafDivides(c.l, t, t);
      }
      CompileSucceeds(c.l, A, t, t, kinds);
      CompileSucceeds(c.r, A, t, t, kinds);
      CompileSucceeds(c.l, B, t, t, kinds);
      CompileSucceeds(c.r, B, t, t, kinds);
    }
  }

  lemma {:induction false} TestPlain(c: Expr, t: Width, kinds: seq<Kind>)
    requires !c.Compare?
    ensures CompileTest(c, t, kinds).Some? <==> Compile(c, A, t, t, kinds).Some?
  {
    hide Compile;
  }

  // ----- the theorem -----

  /** Compiling for either stack preserves meaning, in any order of operands the compiler chooses. The
      cells used on both stacks together are at most the number counted for the tree, which left-to-right
      order never beats and which is at most one more than the logarithm of the number of leaves. */
  lemma CompileCorrect(e: Expr, x: Bank, t: Width, kinds: seq<Kind>, frame: seq<Cell>)
    requires FrameTyped(kinds, frame, t) && KindOf(e, t, kinds).Some? && Fit(e, t, kinds)
    requires Compile(e, x, t, t, kinds).Some?
    ensures Yields(Compile(e, x, t, t, kinds).value, frame, x,
      AsOperand(KindOf(e, t, kinds), Eval(e, t, kinds, frame), t), Need(e))
    ensures Need(e) <= NaiveNeed(e) && Numbers.Pow2(Need(e) - 1) <= Leaves(e)
  {
    hide FrameTyped, Fit, Compile, Yields, Left, AsOperand, Eval, KindOf, Need, NaiveNeed, Leaves, Numbers.Pow2;
    Compiles(e, x, t, t, kinds, frame);
    LeftIs(e, t, kinds, frame);
    NeedNaive(e);
    NeedLogarithm(e);
  }
}
