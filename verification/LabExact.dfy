/** Where compiled code and the evaluator part, and exactly when. */
module LabExact {
  import Numbers
  import opened Words
  import opened Bytecode
  import opened LabLanguage
  import opened LabCompiler
  import opened LabArithmetic
  import opened LabMeaning
  import opened LabCorrect

  /** Code leaves one result. */
  lemma YieldsOne(code: Code, frame: seq<Cell>, x: Bank, r: Result, r': Result, m: nat, n: nat)
    requires Yields(code, frame, x, r, m) && Yields(code, frame, x, r', n)
    ensures r == r'
  {
    hide Exec, Yields, Inside;
    var s := Banks([], [], frame);
    YieldsAt(code, frame, x, r, m, s, 0);
    YieldsAt(code, frame, x, r', n, s, 0);
    if r.Val? && r'.Val? {
      ReplaceTop(s, x, r.value, 0);
      ReplaceTop(s, x, r'.value, 0);
    }
  }

  lemma YieldsIff(code: Code, frame: seq<Cell>, x: Bank, r: Result, r': Result, n: nat)
    requires Yields(code, frame, x, r, n)
    ensures Yields(code, frame, x, r', n) <==> r == r'
  {
    hide Yields;
    if Yields(code, frame, x, r', n) {
      YieldsOne(code, frame, x, r, r', n, n);
    }
  }

  /** A number shifted. */
  function ShiftBy(op: Oper, t: Width, v: Cell, c: Cell): Cell
    requires IsShift(op)
  {
    ShiftIs(op, t, v, c);
    Norm(Apply(OperFor(op, t), v, c), t)
  }

  lemma ShiftResult(op: Oper, t: Width, v: Cell, m: Cell)
    requires IsShift(op) && Norm(v, t) == v
    ensures MaybeNormed(EmitsNorm(op, t), Operated(OperFor(op, t), Val(v), Val(m)), t) == Val(ShiftBy(op, t, v, m))
    ensures ArithResult(op, t, Val(v), Val(m)) == Val(ShiftBy(op, t, v, m))
  {
    hide Norm, Apply, OperFor, Traps, EmitsNorm;
    ShiftIs(op, t, v, m);
    PlainResult(op, t, Val(v), Val(m));
  }

  /** Two counts shift every number alike exactly when they have the same effect. */
  lemma EffectExact(op: Oper, t: Width, m: Cell, w: Cell)
    requires IsShift(op)
    ensures SameEffect(op, t, m, w) <==> forall v | Norm(v, t) == v :: ShiftBy(op, t, v, m) == ShiftBy(op, t, v, w)
  {
    hide Norm, SameEffect, Apply, OperFor, Revealing;
    if SameEffect(op, t, m, w) {
      forall v | Norm(v, t) == v ensures ShiftBy(op, t, v, m) == ShiftBy(op, t, v, w) {
        EffectSame(op, t, v, m, w);
      }
    } else {
      RevealingNorm(op, t);
      EffectDiffers(op, t, m, w);
      assert ShiftBy(op, t, Revealing(op, t), m) != ShiftBy(op, t, Revealing(op, t), w);
    }
  }

  // ----- counts known in advance -----

  /** A shift of a binding. */
  function Shifted(op: Oper, r: Expr): Expr {
    Arith(op, Place(0), r)
  }

  /** The count that compiled code shifts by. */
  function MachineCount(c: Cell, untyped: bool): Cell {
    if untyped || Small(Low32(c)) then Low32(c) else c
  }

  lemma LargeExhausts(op: Oper, t: Width, c: Cell)
    requires !Small(Low32(c))
    ensures Exhausts(op, t, Low32(c)) && Exhausts(op, t, c)
  {
  }

  lemma MachineEffect(op: Oper, t: Width, c: Cell, untyped: bool, w: Cell)
    ensures SameEffect(op, t, MachineCount(c, untyped), w) <==> SameEffect(op, t, Low32(c), w)
  {
    hide Low32, Small, Exhausts;
    if !Small(Low32(c)) {
      LargeExhausts(op, t, c);
    }
  }

  lemma ShiftedUnknown(op: Oper, t: Width, r: Expr)
    requires Static(r, t).Constant?
    ensures Static(Shifted(op, r), t) == Unknown
  {
    hide ArithResult, CompareResult, Norm;
    PlaceUnknown(0, t);
    StaticArith(op, Place(0), r, t);
  }

  lemma PlaceUnknown(d: nat, t: Width)
    ensures Static(Place(d), t) == Unknown
  {
  }

  lemma StaticArith(op: Oper, l: Expr, r: Expr, t: Width)
    ensures Static(Arith(op, l, r), t) == ArithFixed(op, t, Static(l, t), Static(r, t))
  {
    hide ArithFixed;
  }

  lemma CountOperand(op: Oper, t: Width, r: Expr, c: Cell, untyped: bool)
    requires IsShift(op) && Static(r, t) == Constant(c, untyped)
    ensures RightOperand(op, r, t) == if Small(Low32(c)) then ImmediateOperand(Low32(c)) else NoOperand
    ensures LeftOperand(op, Place(0), t) == NoOperand
  {
    hide Norm, Small, Low32, Static;
    LowNorm(c, t);
  }

  /** The two operands' own code. */
  lemma CountCode(t: Width, r: Expr, c: Cell, untyped: bool, kinds: seq<Kind>)
    requires Static(r, t) == Constant(c, untyped)
    ensures Compile(Place(0), A, t, t, kinds) == Some([GetL(A, 0)]) && Need(Place(0)) == 1
    ensures Compile(r, B, t, U32, kinds) == Some([PushL(B, if untyped then Low32(c) else c)])
  {
    hide Norm, Static, Low32;
    CompileIs(r, B, t, U32, kinds);
    LowNorm(c, t);
    PlaceParts(0, A, t, t, kinds, [0]);
  }

  lemma ShiftedCode(op: Oper, t: Width, r: Expr, c: Cell, untyped: bool)
    requires IsShift(op) && Static(r, t) == Constant(c, untyped)
    ensures var pushed := [PushL(B, if untyped then Low32(c) else c)];
      Compile(Shifted(op, r), A, t, t, [Number]) == Some(
        (if Small(Low32(c)) then [GetL(A, 0)] + [FusedLine(A, OperFor(op, t), ImmediateOperand(Low32(c)))]
        else Ordered2([GetL(A, 0)], pushed, 1 >= Need(r)) + [BinaryL(A, OperFor(op, t))])
        + ArithNorm(op, t, A))
    ensures Need(Shifted(op, r)) == PairNeed(1, Need(r))
  {
    hide Norm, Small, Low32, ArithNorm, Ordered2, FusedLine, RightOperand, LeftOperand, Compile, Need, OperFor, Static;
    CountOperand(op, t, r, c, untyped);
    ShiftedUnknown(op, t, r);
    ArithCode(op, Place(0), r, A, t, t, [Number]);
    CountCode(t, r, c, untyped, [Number]);
    ShiftedNeed(op, r);
  }

  lemma ShiftedNeed(op: Oper, r: Expr)
    ensures Need(Shifted(op, r)) == PairNeed(Need(Place(0)), Need(r)) && Need(Place(0)) == 1
  {
    hide PairNeed;
  }

  /** Compiled code shifts by the machine's count. */
  lemma ShiftsBy(op: Oper, t: Width, r: Expr, c: Cell, untyped: bool, v: Cell)
    requires IsShift(op) && Static(r, t) == Constant(c, untyped) && Norm(v, t) == v
    ensures var e := Shifted(op, r);
      && Compile(e, A, t, t, [Number]).Some?
      && Yields(Compile(e, A, t, t, [Number]).value, [v], A,
        Val(ShiftBy(op, t, v, MachineCount(c, untyped))), Need(e))
  {
    hide Yields, Norm, ShiftBy, OperFor, Low32, Compile, FusedLine, ArithNorm, Small, EmitsNorm, Traps, Need, Static;
    hide MaybeNormed, Ordered2, Operated, ArithResult;
    var e, m := Shifted(op, r), MachineCount(c, untyped);
    ShiftedCode(op, t, r, c, untyped);
    GetYields([v], A, 0);
    ShiftResult(op, t, v, m);
    if Small(Low32(c)) {
      FusedYields([GetL(A, 0)], [v], A, Val(v), 1, op, t, ImmediateOperand(Low32(c)));
      MoreNeed(Compile(e, A, t, t, [Number]).value, [v], A, Val(ShiftBy(op, t, v, m)), 1, Need(e));
    } else {
      PushYields([v], B, m, Need(r));
      TwoYields([GetL(A, 0)], [PushL(B, m)], [v], A, Val(v), Val(m), 1, Need(r), op, t);
    }
  }

  lemma ShiftedEval(op: Oper, t: Width, r: Expr, kinds: seq<Kind>, frame: seq<Cell>)
    requires frame != []
    ensures Eval(Shifted(op, r), t, kinds, frame) ==
      ArithResult(op, t, Val(frame[|frame| - 1]), Eval(r, t, kinds, frame))
  {
    hide ArithResult, CompareResult, ChoiceResult, Arm, Normed, Norm, Applied, Static, KindOf, Tag;
    assert Eval(Place(0), t, kinds, frame) == Val(frame[|frame| - 1]);
  }

  /** Where the evaluator finds the count `w`, the two agree on every number exactly when the low half of
      the constant has the effect of `w`. */
  lemma CountMatters(op: Oper, t: Width, r: Expr, c: Cell, untyped: bool, w: Cell)
    requires IsShift(op) && Static(r, t) == Constant(c, untyped)
    requires forall v | Norm(v, t) == v :: Eval(r, t, [Number], [v]) == Val(w)
    ensures var e := Shifted(op, r);
      && Compile(e, A, t, t, [Number]).Some?
      && (SameEffect(op, t, Low32(c), w) <==>
        forall v | Norm(v, t) == v ::
          Yields(Compile(e, A, t, t, [Number]).value, [v], A, Eval(e, t, [Number], [v]), Need(e)))
  {
    hide Yields, Norm, Compile, Eval, Need, Static, SameEffect, Low32, MachineCount, ShiftBy, OperFor, Revealing;
    var e, m := Shifted(op, r), MachineCount(c, untyped);
    MachineEffect(op, t, c, untyped, w);
    forall v | Norm(v, t) == v
      ensures Compile(e, A, t, t, [Number]).Some?
      ensures Yields(Compile(e, A, t, t, [Number]).value, [v], A, Eval(e, t, [Number], [v]), Need(e)) <==>
        ShiftBy(op, t, v, m) == ShiftBy(op, t, v, w)
    {
      ShiftAgrees(op, t, r, c, untyped, w, v);
    }
    EffectExact(op, t, m, w);
    RevealingNorm(op, t);
  }

  lemma ShiftAgrees(op: Oper, t: Width, r: Expr, c: Cell, untyped: bool, w: Cell, v: Cell)
    requires IsShift(op) && Static(r, t) == Constant(c, untyped) && Norm(v, t) == v
    requires Eval(r, t, [Number], [v]) == Val(w)
    ensures var e, m := Shifted(op, r), MachineCount(c, untyped);
      && Compile(e, A, t, t, [Number]).Some?
      && (Yields(Compile(e, A, t, t, [Number]).value, [v], A, Eval(e, t, [Number], [v]), Need(e)) <==>
        ShiftBy(op, t, v, m) == ShiftBy(op, t, v, w))
  {
    hide Yields, Norm, Compile, Eval, Need, Static, MachineCount, ShiftBy, OperFor, ArithResult, EmitsNorm, MaybeNormed;
    hide Operated;
    var e, m := Shifted(op, r), MachineCount(c, untyped);
    ShiftsBy(op, t, r, c, untyped, v);
    ShiftedEval(op, t, r, [Number], [v]);
    ShiftResult(op, t, v, w);
    YieldsIff(Compile(e, A, t, t, [Number]).value, [v], A, Val(ShiftBy(op, t, v, m)),
      Eval(e, t, [Number], [v]), Need(e));
  }

  lemma OneTyped(v: Cell, t: Width)
    requires Norm(v, t) == v
    ensures FrameTyped([Number], [v], t)
  {
  }

  /** A compiled shift by a count known in advance agrees with the evaluator on every number exactly when
      the count fits. */
  lemma CountsExact(op: Oper, t: Width, r: Expr)
    requires IsShift(op) && Static(r, t).Constant? && KindOf(r, t, [Number]).Some?
    ensures var e := Shifted(op, r);
      && Compile(e, A, t, t, [Number]).Some?
      && (CountFits(op, t, r, [Number]) <==>
        forall v | Norm(v, t) == v ::
          Yields(Compile(e, A, t, t, [Number]).value, [v], A, Eval(e, t, [Number], [v]), Need(e)))
  {
    hide Yields, Norm, Compile, Eval, Need, Static, SameEffect, Low32, KindOf, Tag, FrameTyped, Sensible, Weighed;
    hide Alike;
    var c, k, j := Static(r, t).value, KindOf(r, t, [Number]), Tag(r, t, [Number]);
    forall v | Norm(v, t) == v ensures Eval(r, t, [Number], [v]) == Val(Weighed(c, k, j, t)) {
      OneTyped(v, t);
      Evaluates(r, t, [Number], [v]);
      EvenKinds(r, t, [Number], [v]);
    }
    CountMatters(op, t, r, c, Static(r, t).untyped, Weighed(c, k, j, t));
  }

  // ----- folded shifts -----

  /** A shift of a constant, folded. */
  function Folded(op: Oper, a: Cell, r: Expr): Expr {
    Arith(op, Known(a), r)
  }

  lemma FoldedIs(op: Oper, t: Width, a: Cell, r: Expr, c: Cell, untyped: bool, kinds: seq<Kind>, frame: seq<Cell>)
    requires IsShift(op) && Static(r, t) == Constant(c, untyped)
    ensures Static(Folded(op, a, r), t) == Constant(ShiftBy(op, t, Norm(a, t), c), false)
    ensures Eval(Folded(op, a, r), t, kinds, frame) ==
      ArithResult(op, t, Val(Norm(a, t)), Eval(r, t, kinds, frame))
  {
    hide Norm, ShiftBy, OperFor, ArithResult, Static, Eval;
    NormTwice(a, t);
    ShiftResult(op, t, Norm(a, t), c);
    StaticArith(op, Known(a), r, t);
    ConstantIs(op, t, a, r, kinds, frame);
  }

  lemma ConstantIs(op: Oper, t: Width, a: Cell, r: Expr, kinds: seq<Kind>, frame: seq<Cell>)
    ensures Static(Known(a), t) == Constant(Norm(a, t), false)
    ensures Eval(Folded(op, a, r), t, kinds, frame) == ArithResult(op, t, Val(Norm(a, t)), Eval(r, t, kinds, frame))
  {
    hide Norm, ArithResult, CompareResult, ChoiceResult, Arm, Normed, Applied, KindOf, Tag;
    assert Eval(Known(a), t, kinds, frame) == Val(Norm(a, t));
  }

  lemma FoldAgrees(op: Oper, t: Width, a: Cell, r: Expr, c: Cell, untyped: bool, w: Cell, kinds: seq<Kind>,
    frame: seq<Cell>)
    requires IsShift(op) && Static(r, t) == Constant(c, untyped) && Eval(r, t, kinds, frame) == Val(w)
    ensures var e := Folded(op, a, r);
      && Compile(e, A, t, t, kinds).Some?
      && (Yields(Compile(e, A, t, t, kinds).value, frame, A, Eval(e, t, kinds, frame), 1) <==>
        ShiftBy(op, t, Norm(a, t), c) == ShiftBy(op, t, Norm(a, t), w))
  {
    hide Yields, Norm, Compile, CompileRest, Eval, Static, ShiftBy, OperFor, ArithResult, EmitsNorm, MaybeNormed;
    hide Operated;
    var e, x := Folded(op, a, r), ShiftBy(op, t, Norm(a, t), c);
    FoldedIs(op, t, a, r, c, untyped, kinds, frame);
    NormTwice(a, t);
    ShiftResult(op, t, Norm(a, t), w);
    CompileIs(e, A, t, t, kinds);
    PushYields(frame, A, x, 1);
    YieldsIff([PushL(A, x)], frame, A, Val(x), Eval(e, t, kinds, frame), 1);
  }

  /** A shift of a constant by a constant is folded to what the evaluator finds, for every number shifted,
      exactly when the count as it is written has the effect of what the evaluator makes of it. */
  lemma FoldsExact(op: Oper, t: Width, r: Expr, kinds: seq<Kind>, frame: seq<Cell>)
    requires IsShift(op) && Static(r, t).Constant? && KindOf(r, t, kinds).Some? && FrameTyped(kinds, frame, t)
    ensures var c := Static(r, t).value;
      SameEffect(op, t, c, Weighed(c, KindOf(r, t, kinds), Tag(r, t, kinds), t)) <==>
        forall a :: var e := Folded(op, a, r);
          Compile(e, A, t, t, kinds).Some? &&
          Yields(Compile(e, A, t, t, kinds).value, frame, A, Eval(e, t, kinds, frame), 1)
  {
    hide Yields, Norm, Compile, Eval, Static, SameEffect, KindOf, Tag, FrameTyped, Sensible, Weighed, Alike, ShiftBy;
    hide Revealing, Folded;
    var c := Static(r, t).value;
    var w := Weighed(c, KindOf(r, t, kinds), Tag(r, t, kinds), t);
    Evaluates(r, t, kinds, frame);
    EvenKinds(r, t, kinds, frame);
    forall a: Cell
      ensures Compile(Folded(op, a, r), A, t, t, kinds).Some?
      ensures Yields(Compile(Folded(op, a, r), A, t, t, kinds).value, frame, A,
        Eval(Folded(op, a, r), t, kinds, frame), 1)
        <==> ShiftBy(op, t, Norm(a, t), c) == ShiftBy(op, t, Norm(a, t), w)
    {
      FoldAgrees(op, t, a, r, c, Static(r, t).untyped, w, kinds, frame);
    }
    EffectExact(op, t, c, w);
    if forall a: Cell :: ShiftBy(op, t, Norm(a, t), c) == ShiftBy(op, t, Norm(a, t), w) {
      forall v | Norm(v, t) == v ensures ShiftBy(op, t, v, c) == ShiftBy(op, t, v, w) {
        assert ShiftBy(op, t, Norm(v, t), c) == ShiftBy(op, t, Norm(v, t), w);
      }
    } else {
      var a: Cell :| ShiftBy(op, t, Norm(a, t), c) != ShiftBy(op, t, Norm(a, t), w);
      NormTwice(a, t);
      assert Compile(Folded(op, a, r), A, t, t, kinds).Some?;
    }
  }

  // ----- literals that may be chosen -----

  /** A count chosen by a binding. */
  function Picked(a: Expr, b: Expr): Expr {
    If(Place(1), a, b)
  }

  /** A number to shift, below it the truth value that chooses, and below that another number. */
  function Kinds(): seq<Kind> {
    [Number, Flag, Number]
  }

  predicate IsArm(a: Expr, t: Width) {
    Static(a, t).Constant? || a == Place(2)
  }

  lemma FrameOf(y: Cell, p: bool, v: Cell, t: Width)
    requires Norm(y, t) == y && Norm(v, t) == v
    ensures FrameTyped(Kinds(), [y, Truth(p), v], t)
  {
    hide Norm;
    assert forall i | 0 <= i < 3 :: Kinds()[i] != Untyped;
  }

  lemma ZeroNorm(t: Width)
    ensures Norm(0, t) == 0
  {
  }

  /** The choice is open, fits on its own, and is no operand of the instruction. */
  lemma PickedIs(op: Oper, t: Width, a: Expr, b: Expr)
    requires IsShift(op) && IsArm(a, t) && IsArm(b, t)
    ensures Static(Picked(a, b), t) == Unknown && Fit(Picked(a, b), t, Kinds())
    ensures RightOperand(op, Picked(a, b), t) == NoOperand && LeftOperand(op, Place(0), t) == NoOperand
    ensures Static(Shifted(op, Picked(a, b)), t) == Unknown
  {
    hide Norm, Static, KindOf;
    PlaceUnknown(1, t);
    PlaceUnknown(0, t);
    StaticArith(op, Place(0), Picked(a, b), t);
    PickedStatic(a, b, t);
    ArmFit(a, t);
    ArmFit(b, t);
    assert Fit(Place(1), t, Kinds());
  }

  lemma ArmFit(a: Expr, t: Width)
    requires IsArm(a, t)
    ensures Fit(a, t, Kinds())
  {
    hide Static, KindOf;
  }

  lemma PickedStatic(a: Expr, b: Expr, t: Width)
    ensures Static(Picked(a, b), t) == Unknown
  {
    PlaceUnknown(1, t);
  }

  lemma PickedFits(op: Oper, t: Width, a: Expr, b: Expr)
    ensures ArmFits(op, t, Picked(a, b)) <==> ArmFits(op, t, a) && ArmFits(op, t, b)
  {
    hide Static, CountOk, Norm;
    PlaceUnknown(1, t);
    PickedStatic(a, b, t);
  }

  /** Every part of the choice compiles. */
  lemma PickedCompiles(a: Expr, b: Expr, t: Width)
    requires IsArm(a, t) && IsArm(b, t)
    ensures Compile(Picked(a, b), B, t, U32, Kinds()).Some?
  {
    hide Static, Norm, Need, ChoiceCode;
    PlaceUnknown(1, t);
    PickedStatic(a, b, t);
    CompileIs(Picked(a, b), B, t, U32, Kinds());
    ArmCompiles(a, t);
    ArmCompiles(b, t);
    PlaceParts(1, A, t, t, Kinds(), [0, 0]);
    PlainTestIs(Place(1), t, Kinds());
  }

  lemma ArmCompiles(a: Expr, t: Width)
    requires IsArm(a, t)
    ensures Compile(a, B, t, U32, Kinds()).Some?
  {
    hide Static, Norm, CompileRest;
    CompileIs(a, B, t, U32, Kinds());
    if a == Place(2) {
      PlaceParts(2, B, t, U32, Kinds(), [0, 0, 0]);
    }
  }

  /** The code of the whole shift. */
  lemma PickedCode(op: Oper, t: Width, a: Expr, b: Expr)
    requires IsShift(op) && IsArm(a, t) && IsArm(b, t)
    ensures var e, r := Shifted(op, Picked(a, b)), Compile(Picked(a, b), B, t, U32, Kinds());
      && r.Some?
      && Compile(e, A, t, t, Kinds()) ==
        Some(Ordered2([GetL(A, 0)], r.value, 1 >= Need(Picked(a, b))) + [BinaryL(A, OperFor(op, t))]
          + ArithNorm(op, t, A))
      && Need(e) == PairNeed(1, Need(Picked(a, b)))
  {
    hide Static, Norm, Need, ChoiceCode, Compile, RightOperand, LeftOperand, OperFor, ArithNorm, Ordered2, Kinds;
    hide Picked;
    PickedIs(op, t, a, b);
    PickedCompiles(a, b, t);
    ArithCode(op, Place(0), Picked(a, b), A, t, t, Kinds());
    ShiftedNeed(op, Picked(a, b));
    PlaceParts(0, A, t, t, Kinds(), [0]);
  }

  /** What the machine and the evaluator find in the arm that is chosen. */
  lemma PickedValue(op: Oper, t: Width, a: Expr, b: Expr, p: bool, x: Cell)
    requires KindOf(Picked(a, b), t, Kinds()) == Some(Number) && Norm(x, t) == x
    requires var arm := if p then a else b; Static(arm, t).Constant? && Static(arm, t).untyped
    ensures var r, v, frame := Picked(a, b), Static(if p then a else b, t).value, [0, Truth(p), x];
      && Left(r, t, U32, Kinds(), frame) == Val(Low32(v))
      && Eval(r, t, Kinds(), frame) == Val(Norm(v, t))
  {
    hide Norm, Static, KindOf, Tag, Eval, Left, Arm, Joined, Low32, FrameTyped, Agree, ChoiceOrEval, IsKnown, Truth;
    hide Kinds;
    hide Picked;
    var r, arm, frame := Picked(a, b), if p then a else b, [0, Truth(p), x];
    ZeroNorm(t);
    FrameOf(0, p, x, t);
    PickedParts(a, b, t, p, x);
    PlaceUnknown(1, t);
    PickedStatic(a, b, t);
    IfOnce(r, t, Kinds(), frame);
    LeftOnce(r, t, U32, Kinds(), frame);
    IfFlag(KindOf(Place(1), t, Kinds()), Unknown, KindOf(a, t, Kinds()), KindOf(b, t, Kinds()), IsKnown(Place(1), t),
      Joined(Tag(a, t, Kinds()), Tag(b, t, Kinds())));
    Evaluates(a, t, Kinds(), frame);
    Evaluates(b, t, Kinds(), frame);
    EvenKinds(a, t, Kinds(), frame);
    EvenKinds(b, t, Kinds(), frame);
    UnifyJoined(KindOf(a, t, Kinds()), Tag(a, t, Kinds()), KindOf(b, t, Kinds()), Tag(b, t, Kinds()));
    LiteralArm(KindOf(arm, t, Kinds()), Tag(arm, t, Kinds()), Static(arm, t), Eval(arm, t, Kinds(), frame), t);
    ConstantLeft(arm, t, U32, Kinds(), frame);
    LowNorm(Static(arm, t).value, t);
  }

  lemma PickedParts(a: Expr, b: Expr, t: Width, p: bool, x: Cell)
    ensures Picked(a, b).If? && Picked(a, b).c == Place(1) && Picked(a, b).y == a && Picked(a, b).n == b
    ensures Eval(Place(1), t, Kinds(), [0, Truth(p), x]) == Val(Truth(p)) && !IsKnown(Place(1), t)
    ensures Truth(p) != 0 <==> p
  {
  }

  /** Where arms meet in a number, a literal is brought to the width. */
  lemma LiteralArm(k: Option<Kind>, j: Option<Kind>, f: Fixed, r: Result, t: Width)
    requires Agree(k, j, f, r, t) && k.Some? && f.Constant? && f.untyped
    ensures Arm(Some(Number), j, r, t) == Val(Norm(f.value, t))
    ensures LeftOf(f, U32, r) == Val(Norm(f.value, U32))
  {
    hide Norm;
    NormTwice(f.value, t);
  }

  /** An arm whose low half has another effect shows. */
  lemma ArmWrong(op: Oper, t: Width, a: Expr, b: Expr, p: bool)
    requires IsShift(op) && IsArm(a, t) && IsArm(b, t) && KindOf(Picked(a, b), t, Kinds()) == Some(Number)
    requires !ArmFits(op, t, if p then a else b)
    ensures var e, frame := Shifted(op, Picked(a, b)), [0, Truth(p), Revealing(op, t)];
      && FrameTyped(Kinds(), frame, t) && Compile(e, A, t, t, Kinds()).Some?
      && !Yields(Compile(e, A, t, t, Kinds()).value, frame, A, Eval(e, t, Kinds(), frame), Need(e))
  {
    hide Norm, Static, KindOf, Eval, Left, Low32, FrameTyped, Truth, Kinds, Picked, Compile, Yields, Need, Fit;
    hide Revealing;
    hide OperFor, ArithNorm, MaybeNormed, Operated, Ordered2, ArithResult, EmitsNorm, ShiftBy, SameEffect, Right;
    hide ArmFits;
    var x, r, frame := Revealing(op, t), Picked(a, b), [0, Truth(p), Revealing(op, t)];
    var e, v := Shifted(op, r), LiteralOf(op, t, if p then a else b);
    RevealingNorm(op, t);
    ZeroNorm(t);
    FrameOf(0, p, x, t);
    PickedValue(op, t, a, b, p, x);
    PickedIs(op, t, a, b);
    PickedCode(op, t, a, b);
    Compiles(r, B, t, U32, Kinds(), frame);
    RightYields(r, B, t, U32, Kinds(), frame);
    GetYields(frame, A, 0);
    TwoYields([GetL(A, 0)], Compile(r, B, t, U32, Kinds()).value, frame, A, Val(x), Val(Low32(v)), 1, Need(r), op, t);
    ShiftResult(op, t, x, Low32(v));
    ShiftedEval(op, t, r, Kinds(), frame);
    ShiftResult(op, t, x, Norm(v, t));
    ShownBy(op, t, Low32(v), Norm(v, t));
    YieldsIff(Compile(e, A, t, t, Kinds()).value, frame, A, Val(ShiftBy(op, t, x, Low32(v))),
      Eval(e, t, Kinds(), frame), Need(e));
  }

  lemma ShownBy(op: Oper, t: Width, m: Cell, w: Cell)
    requires IsShift(op) && !SameEffect(op, t, m, w)
    ensures ShiftBy(op, t, Revealing(op, t), m) != ShiftBy(op, t, Revealing(op, t), w)
  {
    hide Norm, Apply, OperFor, SameEffect, Revealing;
    EffectDiffers(op, t, m, w);
  }

  lemma RightYields(e: Expr, x: Bank, t: Width, want: Width, kinds: seq<Kind>, frame: seq<Cell>)
    requires Right(e, x, t, want, kinds, frame) && Compile(e, x, t, want, kinds).Some?
    ensures Yields(Compile(e, x, t, want, kinds).value, frame, x, Left(e, t, want, kinds, frame), Need(e))
  {
    hide Compile, Yields, Left, Need;
  }

  /** The literal that does not fit. */
  function LiteralOf(op: Oper, t: Width, a: Expr): (v: Cell)
    requires IsArm(a, t) && !ArmFits(op, t, a)
    ensures Static(a, t) == Constant(v, true) && !SameEffect(op, t, Low32(v), Norm(v, t))
  {
    LowNorm(Static(a, t).value, t);
    Static(a, t).value
  }

  lemma ArmsRight(op: Oper, t: Width, a: Expr, b: Expr, frame: seq<Cell>)
    requires IsShift(op) && IsArm(a, t) && IsArm(b, t) && KindOf(Picked(a, b), t, Kinds()) == Some(Number)
    requires ArmFits(op, t, Picked(a, b)) && FrameTyped(Kinds(), frame, t)
    requires Compile(Shifted(op, Picked(a, b)), A, t, t, Kinds()).Some?
    ensures var e := Shifted(op, Picked(a, b));
      Yields(Compile(e, A, t, t, Kinds()).value, frame, A, Eval(e, t, Kinds(), frame), Need(e))
  {
    hide Norm, Static, KindOf, Eval, FrameTyped, Picked, Compile, Yields, Need, Fit, ArmFits, Sensible, NaiveNeed;
    hide Numbers.Pow2;
    hide Leaves;
    var e := Shifted(op, Picked(a, b));
    PickedIs(op, t, a, b);
    ShiftedGiven(op, t, Picked(a, b), Kinds());
    CompileCorrect(e, A, t, Kinds(), frame);
    Evaluates(e, t, Kinds(), frame);
    NumberNormed(e, t, Kinds(), frame);
  }

  lemma ShiftedGiven(op: Oper, t: Width, r: Expr, kinds: seq<Kind>)
    requires IsShift(op) && kinds != [] && kinds[|kinds| - 1] == Number && KindOf(r, t, kinds) == Some(Number)
    requires Static(r, t) == Unknown && Fit(r, t, kinds) && ArmFits(op, t, r)
    ensures KindOf(Shifted(op, r), t, kinds) == Some(Number) && Fit(Shifted(op, r), t, kinds)
  {
    hide Norm, ArmFits, ArithFixed;
    assert Static(Place(0), t) == Unknown && KindOf(Place(0), t, kinds) == Some(Number) && Fit(Place(0), t, kinds);
  }

  /** A binding shifted by a choice between literals, constants and a binding: compiled code agrees with
      the evaluator on all frames exactly when each literal's low half, as brought to the width, has the
      effect of the literal so brought. */
  lemma ArmsExact(op: Oper, t: Width, a: Expr, b: Expr)
    requires IsShift(op) && IsArm(a, t) && IsArm(b, t) && KindOf(Picked(a, b), t, Kinds()) == Some(Number)
    ensures var e := Shifted(op, Picked(a, b));
      && Compile(e, A, t, t, Kinds()).Some?
      && (ArmFits(op, t, a) && ArmFits(op, t, b) <==>
        forall frame | FrameTyped(Kinds(), frame, t) ::
          Yields(Compile(e, A, t, t, Kinds()).value, frame, A, Eval(e, t, Kinds(), frame), Need(e)))
  {
    hide *;
    PickedCode(op, t, a, b);
    PickedFits(op, t, a, b);
    if ArmFits(op, t, a) && ArmFits(op, t, b) {
      forall frame | FrameTyped(Kinds(), frame, t)
        ensures var e := Shifted(op, Picked(a, b));
          Yields(Compile(e, A, t, t, Kinds()).value, frame, A, Eval(e, t, Kinds(), frame), Need(e))
      {
        ArmsRight(op, t, a, b, frame);
      }
    } else {
      ArmWrong(op, t, a, b, !ArmFits(op, t, a));
    }
  }

  // ----- literals against truth values -----

  /** A choice that is decided in advance but not known, of a literal against a truth value. */
  predicate TakesTruth(e: Expr, t: Width, kinds: seq<Kind>) {
    && e.If? && KindOf(e.c, t, kinds) == Some(Flag) && Static(e.c, t).Constant? && !IsKnown(e.c, t)
    && var arm, other := if Static(e.c, t).value != 0 then e.y else e.n, if Static(e.c, t).value != 0 then e.n else e.y;
      && Static(arm, t).Constant? && KindOf(arm, t, kinds) == Tag(arm, t, kinds) == Some(Untyped)
      && Tag(other, t, kinds) == Some(Flag)
  }

  lemma TruthValue(e: Expr, t: Width, kinds: seq<Kind>, frame: seq<Cell>)
    requires TakesTruth(e, t, kinds) && FrameTyped(kinds, frame, t)
    ensures Static(e, t).Constant? && Static(e, t).untyped
    ensures Eval(e, t, kinds, frame) == Val(Truth(Static(e, t).value != 0))
  {
    hide Norm, Static, KindOf, Tag, Eval, FrameTyped, IsKnown, Sensible, Truth;
    IfOnce(e, t, kinds, frame);
    Evaluates(e.c, t, kinds, frame);
    EvenKinds(e.c, t, kinds, frame);
    TypedWeighed(Static(e.c, t).value, KindOf(e.c, t, kinds), Tag(e.c, t, kinds), t);
    var arm := if Static(e.c, t).value != 0 then e.y else e.n;
    Evaluates(arm, t, kinds, frame);
    EvenKinds(arm, t, kinds, frame);
    LiteralUntyped(arm, t, kinds, frame);
  }

  lemma LiteralUntyped(e: Expr, t: Width, kinds: seq<Kind>, frame: seq<Cell>)
    requires Sensible(e, t, kinds, frame) && KindOf(e, t, kinds) == Some(Untyped)
    ensures Static(e, t).Constant? && Static(e, t).untyped
  {
    hide Eval, Static, KindOf, Tag;
  }

  lemma BitNorm(v: Cell, t: Width)
    ensures Norm(v, t) == Truth(v != 0) <==> v == 0 || Norm(v, t) == 1
  {
    hide Norm;
    ZeroNorm(t);
  }

  /** The compiler keeps the literal, and the evaluator makes a truth value of it: they agree exactly when
      it is zero or leaves one. */
  lemma TruthExact(e: Expr, x: Bank, t: Width, kinds: seq<Kind>, frame: seq<Cell>)
    requires TakesTruth(e, t, kinds) && FrameTyped(kinds, frame, t)
    ensures Compile(e, x, t, t, kinds).Some?
    ensures var v := Static(e, t).value;
      v == 0 || Norm(v, t) == 1 <==>
        Yields(Compile(e, x, t, t, kinds).value, frame, x, Eval(e, t, kinds, frame), Need(e))
  {
    hide Norm, Static, KindOf, Tag, Eval, FrameTyped, IsKnown, Compile, Yields, Need, TakesTruth, Truth, CompileRest;
    TruthValue(e, t, kinds, frame);
    CompileIs(e, x, t, t, kinds);
    var v := Static(e, t).value;
    PushYields(frame, x, Norm(v, t), Need(e));
    BitNorm(v, t);
    YieldsIff(Compile(e, x, t, t, kinds).value, frame, x, Val(Norm(v, t)), Eval(e, t, kinds, frame), Need(e));
  }

  /** As a count such a choice is shifted by one in the evaluator, and by its low half in compiled code. */
  lemma TruthCounts(op: Oper, t: Width, r: Expr)
    requires IsShift(op) && TakesTruth(r, t, [Number])
    ensures Static(r, t).Constant?
    ensures var e, v := Shifted(op, r), Static(r, t).value;
      && Compile(e, A, t, t, [Number]).Some?
      && (SameEffect(op, t, Low32(v), Truth(v != 0)) <==>
        forall x | Norm(x, t) == x ::
          Yields(Compile(e, A, t, t, [Number]).value, [x], A, Eval(e, t, [Number], [x]), Need(e)))
  {
    hide *;
    forall x | Norm(x, t) == x
      ensures Static(r, t).Constant? && Eval(r, t, [Number], [x]) == Val(Truth(Static(r, t).value != 0))
    {
      OneTyped(x, t);
      TruthValue(r, t, [Number], [x]);
    }
    ZeroNorm(t);
    CountMatters(op, t, r, Static(r, t).value, Static(r, t).untyped, Truth(Static(r, t).value != 0));
  }

  // ----- inputs on which they part -----

  const FAR: Cell := 0x1_0000_0000

  /** False in advance, and not known to the evaluator. */
  function Never(): Expr {
    And(Bool(false), Place(1))
  }

  /** A literal that the evaluator brings to the width, chosen in advance. */
  function Unlike(): Expr {
    If(Never(), Place(0), Num(FAR))
  }

  lemma FarIs()
    ensures Low32(FAR) == 0 && Norm(FAR, U32) == 0 && Norm(FAR, U64) == FAR
    ensures !SameEffect(ShiftL, U64, 0, FAR) && !SameEffect(ShiftL, U32, FAR, 0)
  {
  }

  lemma NeverIs()
    ensures Static(Never(), U32) == Constant(0, false) && !IsKnown(Never(), U32)
    ensures KindOf(Never(), U32, Kinds()) == Some(Flag)
  {
    assert Static(Bool(false), U32) == Constant(0, false) && KindOf(Place(1), U32, Kinds()) == Some(Flag);
    assert KindOf(Bool(false), U32, Kinds()) == Some(Flag);
  }

  lemma UnlikeIs()
    ensures Static(Unlike(), U32) == Constant(FAR, true)
    ensures KindOf(Unlike(), U32, Kinds()) == Some(Untyped) && Tag(Unlike(), U32, Kinds()) == Some(Number)
  {
    hide Norm, FAR, Kinds, Never, IsKnown;
    NeverIs();
    KindsAt();
  }

  lemma KindsAt()
    ensures KindOf(Place(0), U32, Kinds()) == Tag(Place(0), U32, Kinds()) == Some(Number)
  {
  }

  /** A shift by 2 to the power 32 with 64-bit numbers. */
  lemma PartsKnown()
    ensures !CountFits(ShiftL, U64, Num(FAR), [Number])
  {
    hide SameEffect, Low32, Norm;
    FarIs();
  }

  /** The same literal as an arm of an open choice. */
  lemma PartsArm()
    ensures !ArmFits(ShiftL, U64, Num(FAR))
  {
    hide SameEffect, Low32, Norm;
    FarIs();
  }

  /** The literal folded into a shift of a constant with 32-bit numbers, where the evaluator has brought it
      to the width; a shift of a binding by it is right. */
  lemma PartsFolded()
    ensures KindOf(Unlike(), U32, Kinds()).Some? && CountFits(ShiftL, U32, Unlike(), Kinds())
    ensures var c := Static(Unlike(), U32);
      c.Constant? &&
      !SameEffect(ShiftL, U32, c.value,
        Weighed(c.value, KindOf(Unlike(), U32, Kinds()), Tag(Unlike(), U32, Kinds()), U32))
  {
    hide SameEffect, Low32, Norm, Static, KindOf, Tag;
    UnlikeIs();
    FarIs();
    Alone();
  }

  lemma Alone()
    ensures SameEffect(ShiftL, U32, 0, 0)
  {
  }

  lemma ThreeIs()
    ensures Norm(3, U32) == 3 && Tag(Bool(true), U32, Kinds()) == Some(Flag) && Static(Num(3), U32) == Constant(3, true)
    ensures KindOf(Num(3), U32, Kinds()) == Tag(Num(3), U32, Kinds()) == Some(Untyped)
  {
  }

  lemma StaticIf(c: Expr, y: Expr, n: Expr, t: Width)
    ensures Static(If(c, y, n), t) == ChoiceFixed(Static(c, t), Static(y, t), Static(n, t))
  {
    hide ChoiceFixed;
  }

  /** Three, chosen against a truth value. */
  lemma PartsTruth()
    ensures var e := If(Never(), Bool(true), Num(3));
      TakesTruth(e, U32, Kinds()) && Static(e, U32) == Constant(3, true) && Norm(3, U32) != 1
  {
    hide Kinds, Never, Static, KindOf, Tag, Norm, IsKnown;
    NeverIs();
    ThreeIs();
    StaticIf(Never(), Bool(true), Num(3), U32);
  }
}
