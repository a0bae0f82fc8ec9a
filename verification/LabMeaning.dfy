/** The simulator's compiler preserves meaning and stays within the depth it counts on. */
module LabMeaning {
  import opened Words
  import opened Bytecode
  import opened LabLanguage
  import opened LabArithmetic
  import LabBits

  // ----- values have their kind -----

  lemma FrameAt(kinds: seq<Kind>, frame: seq<Cell>, t: Width, d: nat)
    requires FrameTyped(kinds, frame, t) && d < |frame|
    ensures kinds[|kinds| - 1 - d] != Untyped && Typed(kinds[|kinds| - 1 - d], frame[|frame| - 1 - d], t)
  {
  }

  lemma NormedTyped(r: Result, t: Width)
    ensures ResultTyped(Number, Normed(r, t), t)
    ensures ResultTyped(Number, r, t) ==> Normed(r, t) == r
    ensures Normed(Normed(r, t), t) == Normed(r, t)
    ensures ResultTyped(Flag, r, t) ==> Normed(r, t) == r
  {
    hide Norm;
    if r.Val? {
      NormTwice(r.value, t);
      if r.value == 0 || r.value == 1 {
        FlagNorm(r.value, t);
      }
    }
  }

  lemma CompareTyped(c: Cmp, t: Width, a: Result, b: Result)
    ensures ResultTyped(Flag, CompareResult(c, t, a, b), t)
    ensures CompareResult(c, t, a, b).Abort? <==> a.Abort? || b.Abort?
  {
    hide Norm, Combine, CmpHolds, Truth;
    if a.Val? && b.Val? {
      CompareIs(c, t, a.value, b.value);
      TruthIs(CmpHolds(c, Signed(t), Norm(a.value, t), Norm(b.value, t)));
    }
  }

  lemma NotTyped(r: Result, t: Width)
    requires ResultTyped(Flag, r, t)
    ensures ResultTyped(Flag, Applied(LNOT, r), t)
  {
    hide ApplyUnary;
    if r.Val? {
      FlagNorm(r.value, t);
    }
  }

  lemma BitsTyped(t: Width)
    ensures ResultTyped(Flag, Val(0), t) && ResultTyped(Flag, Val(1), t)
    ensures forall b :: ResultTyped(Flag, Val(Truth(b)), t)
  {
  }

  /** The constant that static evaluation finds is the evaluator's value, or is brought to the width there. */
  ghost predicate Foretold(f: Fixed, k: Kind, j: Kind, r: Result, t: Width) {
    && (f.Constant? ==> r == Val(Weighed(f.value, Some(k), Some(j), t)) && (f.untyped <==> k == Untyped))
    && (f == Rejected ==> r == Abort)
    && (k == Untyped ==> f.Constant?)
  }

  /** The evaluator may take for a number what the compiler still holds for a literal. */
  predicate Alike(k: Option<Kind>, j: Option<Kind>) {
    j == k || (k == Some(Untyped) && j == Some(Number))
  }

  /** An accepted expression evaluates to a value of its type, and static evaluation agrees. */
  ghost predicate Agree(k: Option<Kind>, j: Option<Kind>, f: Fixed, r: Result, t: Width) {
    k.Some? ==> Alike(k, j) && ResultTyped(j.value, r, t) && Foretold(f, k.value, j.value, r, t)
  }

  ghost predicate Sensible(e: Expr, t: Width, kinds: seq<Kind>, frame: seq<Cell>) {
    Agree(KindOf(e, t, kinds), Tag(e, t, kinds), Static(e, t), Eval(e, t, kinds, frame), t)
  }

  lemma {:induction false} LeafSensible(e: Expr, t: Width, kinds: seq<Kind>, frame: seq<Cell>)
    requires FrameTyped(kinds, frame, t) && (e.Num? || e.Known? || e.Bool? || e.Place?)
    ensures Sensible(e, t, kinds, frame)
  {
    hide Norm, FrameTyped, Sensible;
    match e
    case Num(v) => LiteralSensible(v, t, kinds, frame);
    case Known(v) => ConstantSensible(v, t, kinds, frame);
    case Bool(b) => TruthSensible(b, t, kinds, frame);
    case Place(d) => PlaceSensible(d, t, kinds, frame);
  }

  lemma LiteralSensible(v: Cell, t: Width, kinds: seq<Kind>, frame: seq<Cell>)
    ensures Sensible(Num(v), t, kinds, frame)
  {
    hide Norm;
  }

  lemma ConstantSensible(v: Cell, t: Width, kinds: seq<Kind>, frame: seq<Cell>)
    ensures Sensible(Known(v), t, kinds, frame)
  {
    hide Norm;
    NormedTyped(Val(v), t);
  }

  lemma TruthSensible(b: bool, t: Width, kinds: seq<Kind>, frame: seq<Cell>)
    ensures Sensible(Bool(b), t, kinds, frame)
  {
    hide Norm;
    BitsTyped(t);
  }

  lemma PlaceSensible(d: nat, t: Width, kinds: seq<Kind>, frame: seq<Cell>)
    requires FrameTyped(kinds, frame, t)
    ensures Sensible(Place(d), t, kinds, frame)
  {
    hide Norm, FrameTyped;
    FrameSize(kinds, frame, t);
    if d < |frame| {
      FrameAt(kinds, frame, t, d);
    }
  }

  lemma UnaryAgrees(op: UnaryOp, k: Option<Kind>, j: Option<Kind>, f: Fixed, r: Result, t: Width)
    requires Agree(k, j, f, r, t)
    ensures Agree(Only(Number, k), j, UnaryFixed(op, Some(t), f), Normed(Applied(op, r), t), t)
  {
    hide Norm, ApplyUnary;
    NormedTyped(Applied(op, r), t);
  }

  lemma NotAgrees(k: Option<Kind>, j: Option<Kind>, f: Fixed, r: Result, t: Width)
    requires Agree(k, j, f, r, t)
    ensures Agree(Only(Flag, k), Some(Flag), UnaryFixed(LNOT, None, f), Applied(LNOT, r), t)
  {
    hide Norm, ApplyUnary;
    if k == Some(Flag) {
      NotTyped(r, t);
    }
  }

  /** A constant brought to the width makes no difference to an operand that is normalised. */
  lemma WeighedNormed(v: Cell, k: Option<Kind>, j: Option<Kind>, t: Width)
    ensures Norm(Weighed(v, k, j, t), t) == Norm(v, t)
  {
    hide Norm;
    NormTwice(v, t);
  }

  lemma Performed(op: Oper, t: Width, a: Cell, b: Cell)
    ensures var p, q := Norm(a, t), if IsShift(op) then b else Norm(b, t);
      ArithResult(op, t, Val(a), Val(b)) ==
        if Traps(OperFor(op, t), q) then Abort else Val(Norm(Apply(OperFor(op, t), p, q), t))
  {
    hide Norm, OperFor, Apply, Traps;
  }

  /** Folding two constants finds what the evaluator finds. */
  lemma FoldsTo(op: Oper, t: Width, a: Cell, v: Cell, k: Option<Kind>, j: Option<Kind>)
    requires IsShift(op) ==> SameEffect(op, t, v, Weighed(v, k, j, t))
    ensures ArithResult(op, t, Val(a), Val(v)) == ArithResult(op, t, Val(a), Val(Weighed(v, k, j, t)))
  {
    hide Norm, OperFor, SameEffect, Weighed, Apply, Traps, ArithResult, ShiftLeft, ShiftRight, ShiftArithmetic;
    var w := Weighed(v, k, j, t);
    Performed(op, t, a, v);
    Performed(op, t, a, w);
    if IsShift(op) {
      NormTwice(a, t);
      EffectSame(op, t, Norm(a, t), v, w);
      ShiftIs(op, t, Norm(a, t), v);
      ShiftIs(op, t, Norm(a, t), w);
    } else {
      WeighedNormed(v, k, j, t);
    }
  }

  lemma FixedWeighed(f: Fixed, k: Kind, t: Width)
    requires k != Untyped
    ensures f.Constant? ==> Weighed(f.value, Some(k), Some(k), t) == f.value
  {
  }

  /** The left operand is normalised. */
  lemma LeftNormed(op: Oper, t: Width, a: Cell, b: Result, k: Option<Kind>, j: Option<Kind>)
    ensures ArithResult(op, t, Val(Weighed(a, k, j, t)), b) == ArithResult(op, t, Val(a), b)
  {
    hide Norm, OperFor, Weighed, Operated;
    WeighedNormed(a, k, j, t);
  }

  function ArithTag(op: Oper, j: Option<Kind>, i: Option<Kind>): Option<Kind> {
    if IsShift(op) then j else Joined(j, i)
  }

  lemma ArithTags(op: Oper, k: Option<Kind>, j: Option<Kind>, l: Option<Kind>, i: Option<Kind>)
    requires ArithKind(op, k, l).Some? && Alike(k, j) && Alike(l, i)
    ensures k.Some? && l.Some? && ArithKind(op, k, l) == Some(Number) == ArithTag(op, j, i)
  {
  }

  lemma ArithAgrees(op: Oper, k: Option<Kind>, j: Option<Kind>, l: Option<Kind>, i: Option<Kind>, f: Fixed, g: Fixed,
    a: Result, b: Result, t: Width)
    requires Agree(k, j, f, a, t) && Agree(l, i, g, b, t) && FoldsAlike(op, t, f, g, l, i)
    ensures Agree(ArithKind(op, k, l), ArithTag(op, j, i), ArithFixed(op, t, f, g), ArithResult(op, t, a, b), t)
  {
    hide Norm, ArithResult, ArithTag, ArithKind, SameEffect, Weighed;
    if ArithKind(op, k, l).Some? {
      ArithSome(op, k, l);
      ArithTags(op, k, j, l, i);
      ArithTyped(op, t, a, b);
      if f.Constant? && g.Constant? {
        FoldsTo(op, t, f.value, g.value, l, i);
        LeftNormed(op, t, f.value, b, k, j);
      }
      FixedWeighed(ArithFixed(op, t, f, g), Number, t);
    }
  }

  lemma ArithSome(op: Oper, k: Option<Kind>, l: Option<Kind>)
    requires ArithKind(op, k, l).Some?
    ensures k.Some? && l.Some?
  {
  }

  lemma CompareSome(c: Cmp, k: Option<Kind>, l: Option<Kind>)
    requires CompareKind(c, k, l).Some?
    ensures k.Some? && l.Some? && CompareKind(c, k, l) == Some(Flag)
  {
  }

  lemma ComparesNormed(c: Cmp, t: Width, a: Cell, b: Cell, k: Option<Kind>, j: Option<Kind>, l: Option<Kind>,
    i: Option<Kind>)
    ensures CompareResult(c, t, Val(Weighed(a, k, j, t)), Val(Weighed(b, l, i, t))) ==
      CompareResult(c, t, Val(a), Val(b))
  {
    hide Norm, CmpFor, Weighed, Operated;
    WeighedNormed(a, k, j, t);
    WeighedNormed(b, l, i, t);
  }

  lemma CompareAgrees(c: Cmp, k: Option<Kind>, j: Option<Kind>, l: Option<Kind>, i: Option<Kind>, f: Fixed, g: Fixed,
    a: Result, b: Result, t: Width)
    requires Agree(k, j, f, a, t) && Agree(l, i, g, b, t)
    ensures Agree(CompareKind(c, k, l), Some(Flag), CompareFixed(c, t, f, g), CompareResult(c, t, a, b), t)
  {
    hide Norm, CompareResult, CompareKind, Weighed;
    if CompareKind(c, k, l).Some? {
      CompareSome(c, k, l);
      CompareTyped(c, t, a, b);
      if f.Constant? && g.Constant? {
        ComparesNormed(c, t, f.value, g.value, k, j, l, i);
      }
      FixedWeighed(CompareFixed(c, t, f, g), Flag, t);
    }
  }

  lemma FlagsAgree(k: Option<Kind>, j: Option<Kind>, l: Option<Kind>, i: Option<Kind>, f: Fixed, g: Fixed,
    a: Result, b: Result, t: Width)
    requires Agree(k, j, f, a, t) && Agree(l, i, g, b, t)
    ensures Agree(FlagsKind(k, l), Some(Flag), ChoiceFixed(f, g, Constant(0, false)), ChoiceResult(a, b, Val(0)), t)
    ensures Agree(FlagsKind(k, l), Some(Flag), ChoiceFixed(f, Constant(1, false), g), ChoiceResult(a, Val(1), b), t)
  {
    hide Norm;
    BitsTyped(t);
  }

  /** The chosen arm of a choice that is decided in advance, where the arms meet in `m`. */
  lemma ArmAgrees(k: Option<Kind>, j: Option<Kind>, f: Fixed, r: Result, m: Option<Kind>, other: Option<Kind>, t: Width)
    requires Agree(k, j, f, r, t) && k.Some? && (m == Joined(j, other) || m == Joined(other, j)) && Takes(false, k, m)
    ensures Agree(k, m, f, Arm(m, j, r, t), t)
  {
    hide Norm;
    NormedTyped(r, t);
    match m.value
    case Untyped =>
    case Number =>
    case Flag =>
  }

  /** An arm of a choice that is open. */
  lemma OpenArm(k: Option<Kind>, j: Option<Kind>, f: Fixed, r: Result, m: Kind, t: Width)
    requires Agree(k, j, f, r, t) && (k == Some(m) || (k == Some(Untyped) && m == Number)) && m != Untyped
    ensures ResultTyped(m, Arm(Some(m), j, r, t), t)
  {
    hide Norm;
    NormedTyped(r, t);
  }

  lemma UnifyJoined(k: Option<Kind>, j: Option<Kind>, l: Option<Kind>, i: Option<Kind>)
    requires Unify(k, l).Some? && Alike(k, j) && Alike(l, i)
    ensures Joined(j, i) == Unify(k, l) && Unify(k, l) != Some(Untyped) && k.Some? && l.Some?
    ensures k == Unify(k, l) || (k == Some(Untyped) && Unify(k, l) == Some(Number))
    ensures l == Unify(k, l) || (l == Some(Untyped) && Unify(k, l) == Some(Number))
  {
  }

  lemma UnifySome(k: Option<Kind>, l: Option<Kind>)
    requires Unify(k, l).Some?
    ensures k.Some? && l.Some?
  {
  }

  lemma IfAgrees(k: Option<Kind>, j: Option<Kind>, ky: Option<Kind>, jy: Option<Kind>, kn: Option<Kind>,
    jn: Option<Kind>, f: Fixed, fy: Fixed, fn: Fixed, r: Result, y: Result, n: Result, known: bool, t: Width)
    requires Agree(k, j, f, r, t) && Agree(ky, jy, fy, y, t) && Agree(kn, jn, fn, n, t) && (known ==> f != Unknown)
    ensures var m := Meeting(known, jy, jn);
      Agree(IfKind(k, f, ky, kn, known, Joined(jy, jn)), ChoiceTag(known, f, jy, jn), ChoiceFixed(f, fy, fn),
        ChoiceResult(r, Arm(m, jy, y, t), Arm(m, jn, n, t)), t)
  {
    hide Norm, ResultTyped, Joined, Unify, Arm, Takes;
    AbortTyped(t);
    if IfKind(k, f, ky, kn, known, Joined(jy, jn)).Some? {
      if f.Constant? {
        DecidedAgrees(k, j, ky, jy, kn, jn, f, fy, fn, r, y, n, known, t);
      } else if f == Unknown {
        OpenAgrees(ky, jy, kn, jn, fy, fn, r, y, n, t);
      } else {
        UnifySome(ky, kn);
        UnifyJoined(ky, jy, kn, jn);
      }
    }
  }

  lemma DecidedAgrees(k: Option<Kind>, j: Option<Kind>, ky: Option<Kind>, jy: Option<Kind>, kn: Option<Kind>,
    jn: Option<Kind>, f: Fixed, fy: Fixed, fn: Fixed, r: Result, y: Result, n: Result, known: bool, t: Width)
    requires Agree(k, j, f, r, t) && Agree(ky, jy, fy, y, t) && Agree(kn, jn, fn, n, t) && f.Constant?
    requires IfKind(k, f, ky, kn, known, Joined(jy, jn)).Some?
    ensures var m := Meeting(known, jy, jn);
      Agree(IfKind(k, f, ky, kn, known, Joined(jy, jn)), ChoiceTag(known, f, jy, jn), ChoiceFixed(f, fy, fn),
        ChoiceResult(r, Arm(m, jy, y, t), Arm(m, jn, n, t)), t)
  {
    hide Norm, ResultTyped, Joined;
    if !known {
      if f.value != 0 {
        ArmAgrees(ky, jy, fy, y, Joined(jy, jn), jn, t);
      } else {
        ArmAgrees(kn, jn, fn, n, Joined(jy, jn), jy, t);
      }
    }
  }

  lemma OpenAgrees(ky: Option<Kind>, jy: Option<Kind>, kn: Option<Kind>, jn: Option<Kind>,
    fy: Fixed, fn: Fixed, r: Result, y: Result, n: Result, t: Width)
    requires Agree(ky, jy, fy, y, t) && Agree(kn, jn, fn, n, t) && Unify(ky, kn).Some?
    ensures var m := Joined(jy, jn);
      m == Unify(ky, kn) && Agree(Unify(ky, kn), m, Unknown, ChoiceResult(r, Arm(m, jy, y, t), Arm(m, jn, n, t)), t)
  {
    hide Norm, ResultTyped, Joined, Unify, Arm;
    AbortTyped(t);
    UnifySome(ky, kn);
    UnifyJoined(ky, jy, kn, jn);
    var m := Unify(ky, kn).value;
    OpenArm(ky, jy, fy, y, m, t);
    OpenArm(kn, jn, fn, n, m, t);
  }

  lemma AbortTyped(t: Width)
    ensures forall k :: ResultTyped(k, Abort, t)
  {
  }

  /** What the evaluator counts as known, static evaluation decides. */
  lemma {:induction false} KnownStatic(e: Expr, t: Width)
    requires IsKnown(e, t)
    ensures Static(e, t) != Unknown
  {
    hide Norm, ArithResult, CompareResult;
    match e {
      case Num(_) =>
      case Known(_) =>
      case Bool(_) =>
      case Place(_) =>
      case Negate(y) => KnownStatic(y, t);
      case Invert(y) => KnownStatic(y, t);
      case Not(y) => KnownStatic(y, t);
      case Arith(_, l, r) => KnownStatic(l, t); KnownStatic(r, t);
      case Compare(_, l, r) => KnownStatic(l, t); KnownStatic(r, t);
      case And(l, r) => KnownStatic(l, t); KnownStatic(r, t);
      case Or(l, r) => KnownStatic(l, t); KnownStatic(r, t);
      case If(c, y, n) =>
        KnownStatic(c, t);
        if Static(c, t).value != 0 {
          KnownStatic(y, t);
        } else {
          KnownStatic(n, t);
        }
    }
  }

  lemma {:induction false} Evaluates(e: Expr, t: Width, kinds: seq<Kind>, frame: seq<Cell>)
    requires FrameTyped(kinds, frame, t)
    ensures Sensible(e, t, kinds, frame)
  {
    hide Agree, FrameTyped, ArithFixed, CompareFixed, UnaryFixed, ChoiceFixed, ArithResult, CompareResult, ChoiceResult;
    hide Normed, Applied, Arm, ArithKind, CompareKind, FlagsKind, IfKind, Only, FoldsAlike, Joined, Meeting, ChoiceTag;
    hide IsKnown;
    match e {
      case Num(_) => LeafSensible(e, t, kinds, frame);
      case Known(_) => LeafSensible(e, t, kinds, frame);
      case Bool(_) => LeafSensible(e, t, kinds, frame);
      case Place(_) => LeafSensible(e, t, kinds, frame);
      case Negate(y) =>
        Evaluates(y, t, kinds, frame);
        UnaryAgrees(NEG, KindOf(y, t, kinds), Tag(y, t, kinds), Static(y, t), Eval(y, t, kinds, frame), t);
      case Invert(y) =>
        Evaluates(y, t, kinds, frame);
        UnaryAgrees(NOT, KindOf(y, t, kinds), Tag(y, t, kinds), Static(y, t), Eval(y, t, kinds, frame), t);
      case Not(y) =>
        Evaluates(y, t, kinds, frame);
        NotAgrees(KindOf(y, t, kinds), Tag(y, t, kinds), Static(y, t), Eval(y, t, kinds, frame), t);
      case Arith(op, l, r) =>
        Evaluates(l, t, kinds, frame);
        Evaluates(r, t, kinds, frame);
        ArithSensible(op, l, r, t, kinds, frame);
      case Compare(c, l, r) =>
        Evaluates(l, t, kinds, frame);
        Evaluates(r, t, kinds, frame);
        CompareAgrees(c, KindOf(l, t, kinds), Tag(l, t, kinds), KindOf(r, t, kinds), Tag(r, t, kinds), Static(l, t),
          Static(r, t), Eval(l, t, kinds, frame), Eval(r, t, kinds, frame), t);
      case And(l, r) =>
        Evaluates(l, t, kinds, frame);
        Evaluates(r, t, kinds, frame);
        FlagsAgree(KindOf(l, t, kinds), Tag(l, t, kinds), KindOf(r, t, kinds), Tag(r, t, kinds), Static(l, t),
          Static(r, t), Eval(l, t, kinds, frame), Eval(r, t, kinds, frame), t);
      case Or(l, r) =>
        Evaluates(l, t, kinds, frame);
        Evaluates(r, t, kinds, frame);
        FlagsAgree(KindOf(l, t, kinds), Tag(l, t, kinds), KindOf(r, t, kinds), Tag(r, t, kinds), Static(l, t),
          Static(r, t), Eval(l, t, kinds, frame), Eval(r, t, kinds, frame), t);
      case If(c, y, n) =>
        Evaluates(c, t, kinds, frame);
        Evaluates(y, t, kinds, frame);
        Evaluates(n, t, kinds, frame);
        IfSensible(c, y, n, t, kinds, frame);
    }
  }

  lemma ArithSensible(op: Oper, l: Expr, r: Expr, t: Width, kinds: seq<Kind>, frame: seq<Cell>)
    requires Sensible(l, t, kinds, frame) && Sensible(r, t, kinds, frame)
    ensures Sensible(Arith(op, l, r), t, kinds, frame)
  {
    hide ArithFixed, ArithResult, ArithKind, FoldsAlike, Joined;
    if FoldsAlike(op, t, Static(l, t), Static(r, t), KindOf(r, t, kinds), Tag(r, t, kinds)) {
      hide Agree;
      ArithAgrees(op, KindOf(l, t, kinds), Tag(l, t, kinds), KindOf(r, t, kinds), Tag(r, t, kinds),
        Static(l, t), Static(r, t), Eval(l, t, kinds, frame), Eval(r, t, kinds, frame), t);
    }
  }

  lemma IfSensible(c: Expr, y: Expr, n: Expr, t: Width, kinds: seq<Kind>, frame: seq<Cell>)
    requires Sensible(c, t, kinds, frame) && Sensible(y, t, kinds, frame) && Sensible(n, t, kinds, frame)
    ensures Sensible(If(c, y, n), t, kinds, frame)
  {
    hide Agree, IfKind, ChoiceTag, ChoiceFixed, ChoiceResult, Arm, Meeting, Joined, IsKnown;
    if IsKnown(c, t) {
      KnownStatic(c, t);
    }
    IfAgrees(KindOf(c, t, kinds), Tag(c, t, kinds), KindOf(y, t, kinds), Tag(y, t, kinds), KindOf(n, t, kinds),
      Tag(n, t, kinds), Static(c, t), Static(y, t), Static(n, t),
      Eval(c, t, kinds, frame), Eval(y, t, kinds, frame), Eval(n, t, kinds, frame), IsKnown(c, t), t);
  }

  lemma ArithTyped(op: Oper, t: Width, a: Result, b: Result)
    ensures ResultTyped(Number, ArithResult(op, t, a, b), t)
    ensures a.Abort? || b.Abort? ==> ArithResult(op, t, a, b) == Abort
  {
    hide Norm, Combine;
    NormedTyped(Operated(OperFor(op, t), Normed(a, t), if IsShift(op) then b else Normed(b, t)), t);
  }

  lemma FrameSize(kinds: seq<Kind>, frame: seq<Cell>, t: Width)
    requires FrameTyped(kinds, frame, t)
    ensures |kinds| == |frame|
  {
  }

  // ----- what the code leaves -----

  function LeftOf(f: Fixed, want: Width, r: Result): Result {
    match f case Constant(v, untyped) => Val(if untyped then Norm(v, want) else v) case _ => r
  }

  /** The value compiled code leaves: the evaluator's, but a literal takes the width `want`. */
  function Left(e: Expr, t: Width, want: Width, kinds: seq<Kind>, frame: seq<Cell>): Result
    decreases e, 1
  {
    LeftOf(Static(e, t), want, ChoiceOrEval(e, t, want, kinds, frame))
  }

  function ChoiceOrEval(e: Expr, t: Width, want: Width, kinds: seq<Kind>, frame: seq<Cell>): Result
    decreases e, 0
  {
    if e.If? then
      ChoiceResult(Eval(e.c, t, kinds, frame), Left(e.y, t, want, kinds, frame), Left(e.n, t, want, kinds, frame))
    else Eval(e, t, kinds, frame)
  }

  /** The evaluator's value as an operand: a literal is brought to the width. */
  function AsOperand(k: Option<Kind>, r: Result, t: Width): Result {
    if k == Some(Flag) then r else Normed(r, t)
  }

  lemma LeftSimple(k: Option<Kind>, j: Option<Kind>, f: Fixed, r: Result, t: Width)
    requires k.Some? && Agree(k, j, f, r, t)
    ensures LeftOf(f, t, r) == AsOperand(k, r, t)
    ensures k != Some(Untyped) ==> AsOperand(k, r, t) == r
  {
    hide Norm;
    NormedTyped(r, t);
    if f.Constant? {
      WeighedNormed(f.value, k, j, t);
    }
  }

  /** Bringing an arm to where the arms meet makes no difference to an operand. */
  lemma ArmOperand(k: Option<Kind>, j: Option<Kind>, f: Fixed, r: Result, m: Option<Kind>, t: Width)
    requires Agree(k, j, f, r, t) && k.Some? && (k == Some(Untyped) ==> m != Some(Flag))
    ensures AsOperand(k, Arm(m, j, r, t), t) == AsOperand(k, r, t)
  {
    hide Norm;
    NormedTyped(r, t);
  }

  lemma DecidedLeft(k: Option<Kind>, j: Option<Kind>, f: Fixed, r: Result, known: bool, m: Option<Kind>, t: Width)
    requires Agree(k, j, f, r, t) && k.Some? && Takes(known, k, m)
    ensures AsOperand(k, Arm(if known then None else m, j, r, t), t) == AsOperand(k, r, t)
  {
    hide Arm, AsOperand;
    ArmOperand(k, j, f, r, if known then None else m, t);
  }

  lemma OpenLeft(k: Option<Kind>, j: Option<Kind>, f: Fixed, r: Result, m: Kind, t: Width)
    requires Agree(k, j, f, r, t) && (k == Some(m) || (k == Some(Untyped) && m == Number)) && m != Untyped
    ensures AsOperand(k, r, t) == Arm(Some(m), j, r, t) == AsOperand(Some(m), Arm(Some(m), j, r, t), t)
  {
    hide Norm;
    NormedTyped(r, t);
  }

  lemma LeftChoice(k: Option<Kind>, j: Option<Kind>, ky: Option<Kind>, jy: Option<Kind>, kn: Option<Kind>,
    jn: Option<Kind>, f: Fixed, fy: Fixed, fn: Fixed, r: Result, y: Result, n: Result, ly: Result, ln: Result,
    known: bool, t: Width)
    requires Agree(k, j, f, r, t) && Agree(ky, jy, fy, y, t) && Agree(kn, jn, fn, n, t) && (known ==> f != Unknown)
    requires IfKind(k, f, ky, kn, known, Joined(jy, jn)).Some?
    requires (ky.Some? ==> ly == AsOperand(ky, y, t)) && (kn.Some? ==> ln == AsOperand(kn, n, t))
    ensures var m := Meeting(known, jy, jn);
      LeftOf(ChoiceFixed(f, fy, fn), t, ChoiceResult(r, ly, ln)) ==
        AsOperand(IfKind(k, f, ky, kn, known, Joined(jy, jn)), ChoiceResult(r, Arm(m, jy, y, t), Arm(m, jn, n, t)), t)
  {
    hide Norm, ResultTyped, Joined, Unify, Arm, Takes, AsOperand, LeftOf, Agree;
    var m := Meeting(known, jy, jn);
    var kind := IfKind(k, f, ky, kn, known, Joined(jy, jn));
    IfAgrees(k, j, ky, jy, kn, jn, f, fy, fn, r, y, n, known, t);
    LeftSimple(kind, ChoiceTag(known, f, jy, jn), ChoiceFixed(f, fy, fn),
      ChoiceResult(r, Arm(m, jy, y, t), Arm(m, jn, n, t)), t);
    LeftMeans(ChoiceFixed(f, fy, fn), t, ChoiceResult(r, ly, ln), ChoiceResult(r, Arm(m, jy, y, t), Arm(m, jn, n, t)));
    ChoiceLeft(k, j, ky, jy, kn, jn, f, fy, fn, r, y, n, ly, ln, known, t);
  }

  /** Where the choice is a constant, what else it might be does not matter. */
  lemma LeftMeans(f: Fixed, t: Width, a: Result, b: Result)
    ensures f.Constant? ==> LeftOf(f, t, a) == LeftOf(f, t, b)
    ensures !f.Constant? ==> LeftOf(f, t, a) == a && LeftOf(f, t, b) == b
  {
  }

  lemma ChoiceLeft(k: Option<Kind>, j: Option<Kind>, ky: Option<Kind>, jy: Option<Kind>, kn: Option<Kind>,
    jn: Option<Kind>, f: Fixed, fy: Fixed, fn: Fixed, r: Result, y: Result, n: Result, ly: Result, ln: Result,
    known: bool, t: Width)
    requires Agree(k, j, f, r, t) && Agree(ky, jy, fy, y, t) && Agree(kn, jn, fn, n, t) && (known ==> f != Unknown)
    requires IfKind(k, f, ky, kn, known, Joined(jy, jn)).Some?
    requires (ky.Some? ==> ly == AsOperand(ky, y, t)) && (kn.Some? ==> ln == AsOperand(kn, n, t))
    ensures var m := Meeting(known, jy, jn);
      ChoiceResult(r, ly, ln) ==
        AsOperand(IfKind(k, f, ky, kn, known, Joined(jy, jn)), ChoiceResult(r, Arm(m, jy, y, t), Arm(m, jn, n, t)), t)
  {
    hide Norm, ResultTyped, Joined, Unify, Arm, Takes, AsOperand;
    var m := Meeting(known, jy, jn);
    AbortOperand(IfKind(k, f, ky, kn, known, Joined(jy, jn)), t);
    if f.Constant? {
      if f.value != 0 {
        DecidedLeft(ky, jy, fy, y, known, Joined(jy, jn), t);
      } else {
        DecidedLeft(kn, jn, fn, n, known, Joined(jy, jn), t);
      }
    } else if f == Unknown {
      UnifySome(ky, kn);
      UnifyJoined(ky, jy, kn, jn);
      OpenLeft(ky, jy, fy, y, m.value, t);
      OpenLeft(kn, jn, fn, n, m.value, t);
    }
  }

  lemma AbortOperand(k: Option<Kind>, t: Width)
    ensures AsOperand(k, Abort, t) == Abort
  {
  }

  lemma {:induction false} LeftIs(e: Expr, t: Width, kinds: seq<Kind>, frame: seq<Cell>)
    requires FrameTyped(kinds, frame, t) && KindOf(e, t, kinds).Some?
    ensures Left(e, t, t, kinds, frame) == AsOperand(KindOf(e, t, kinds), Eval(e, t, kinds, frame), t)
  {
    hide Agree, FrameTyped, LeftOf, AsOperand, Static, Eval, KindOf, Tag, Left;
    Evaluates(e, t, kinds, frame);
    LeftOnce(e, t, t, kinds, frame);
    if e.If? {
      Evaluates(e.c, t, kinds, frame);
      Evaluates(e.y, t, kinds, frame);
      Evaluates(e.n, t, kinds, frame);
      if KindOf(e.y, t, kinds).Some? {
        LeftIs(e.y, t, kinds, frame);
      }
      if KindOf(e.n, t, kinds).Some? {
        LeftIs(e.n, t, kinds, frame);
      }
      LeftIfIs(e, t, kinds, frame);
    } else {
      LeftSimple(KindOf(e, t, kinds), Tag(e, t, kinds), Static(e, t), Eval(e, t, kinds, frame), t);
    }
  }

  lemma LeftIfIs(e: Expr, t: Width, kinds: seq<Kind>, frame: seq<Cell>)
    requires e.If? && KindOf(e, t, kinds).Some?
    requires Sensible(e.c, t, kinds, frame) && Sensible(e.y, t, kinds, frame) && Sensible(e.n, t, kinds, frame)
    requires KindOf(e.y, t, kinds).Some? ==>
      Left(e.y, t, t, kinds, frame) == AsOperand(KindOf(e.y, t, kinds), Eval(e.y, t, kinds, frame), t)
    requires KindOf(e.n, t, kinds).Some? ==>
      Left(e.n, t, t, kinds, frame) == AsOperand(KindOf(e.n, t, kinds), Eval(e.n, t, kinds, frame), t)
    ensures Left(e, t, t, kinds, frame) == AsOperand(KindOf(e, t, kinds), Eval(e, t, kinds, frame), t)
  {
    hide Agree, LeftOf, AsOperand, Static, Eval, KindOf, Tag, Left, IfKind, Joined, Meeting, Arm, IsKnown, ChoiceResult;
    hide ChoiceFixed;
    IfOnce(e, t, kinds, frame);
    LeftOnce(e, t, t, kinds, frame);
    if IsKnown(e.c, t) {
      KnownStatic(e.c, t);
    }
    LeftChoice(KindOf(e.c, t, kinds), Tag(e.c, t, kinds), KindOf(e.y, t, kinds), Tag(e.y, t, kinds),
      KindOf(e.n, t, kinds), Tag(e.n, t, kinds), Static(e.c, t), Static(e.y, t), Static(e.n, t),
      Eval(e.c, t, kinds, frame), Eval(e.y, t, kinds, frame), Eval(e.n, t, kinds, frame),
      Left(e.y, t, t, kinds, frame), Left(e.n, t, t, kinds, frame), IsKnown(e.c, t), t);
  }

  // ----- shift counts -----

  /** The machine's count and the evaluator's have the same effect. */
  predicate SameCount(op: Oper, t: Width, w: Result, w': Result) {
    w' == w || (w.Val? && w'.Val? && SameEffect(op, t, w'.value, w.value))
  }

  /** Literals that a non-constant count may turn out to be. */
  predicate ArmFits(op: Oper, t: Width, e: Expr) {
    match Static(e, t)
    case Constant(v, untyped) => untyped ==> CountOk(op, t, Norm(v, t))
    case _ =>
      e.If? ==>
        match Static(e.c, t)
        case Constant(v, _) => ArmFits(op, t, if v != 0 then e.y else e.n)
        case _ => ArmFits(op, t, e.y) && ArmFits(op, t, e.n)
  }

  /** The low half of a count known in advance has the effect of what the evaluator makes of it. */
  predicate CountFits(op: Oper, t: Width, e: Expr, kinds: seq<Kind>) {
    match Static(e, t)
    case Constant(v, _) => SameEffect(op, t, Low32(v), Weighed(v, KindOf(e, t, kinds), Tag(e, t, kinds), t))
    case _ => ArmFits(op, t, e)
  }

  lemma LowNorm(v: Cell, t: Width)
    ensures Low32(Norm(v, t)) == Low32(v) == Norm(v, U32)
  {
    hide Norm, LabBits.Extended;
    NormIs(v, t);
    NormIs(v, U32);
    Low32Is(v);
    Low32Is(Norm(v, t));
    LabBits.LowExtended(v);
    LabBits.LowTwice(v);
  }

  lemma Low32Is(v: Cell)
    ensures Low32(v) == LabBits.Low(v)
  {
  }

  /** An arm of a count. */
  lemma ArmCount(op: Oper, k: Option<Kind>, j: Option<Kind>, f: Fixed, r: Result, t: Width)
    requires k.Some? && Agree(k, j, f, r, t)
    requires f.Constant? && f.untyped ==> CountOk(op, t, Norm(f.value, t))
    ensures SameCount(op, t, Arm(Some(Number), j, r, t), LeftOf(f, U32, r))
  {
    hide Norm, SameEffect, Low32;
    if f.Constant? {
      LowNorm(f.value, t);
    }
  }

  lemma KnownCount(op: Oper, k: Option<Kind>, j: Option<Kind>, f: Fixed, r: Result, t: Width)
    requires k.Some? && Agree(k, j, f, r, t) && f.Constant?
    requires SameEffect(op, t, Low32(f.value), Weighed(f.value, k, j, t))
    ensures SameCount(op, t, r, LeftOf(f, U32, r))
  {
    hide Norm, SameEffect, Low32;
    LowNorm(f.value, t);
  }

  lemma CountChoice(op: Oper, r: Result, y: Result, n: Result, y': Result, n': Result, t: Width)
    requires r.Val? && r.value != 0 ==> SameCount(op, t, y, y')
    requires r.Val? && r.value == 0 ==> SameCount(op, t, n, n')
    ensures SameCount(op, t, ChoiceResult(r, y, n), ChoiceResult(r, y', n'))
  {
    hide SameEffect;
  }

  lemma ArmOnce(op: Oper, t: Width, e: Expr)
    requires ArmFits(op, t, e) && e.If? && !Static(e, t).Constant?
    ensures Static(e.c, t).Constant? ==> ArmFits(op, t, if Static(e.c, t).value != 0 then e.y else e.n)
    ensures !Static(e.c, t).Constant? ==> ArmFits(op, t, e.y) && ArmFits(op, t, e.n)
  {
  }

  lemma ArmConstant(op: Oper, t: Width, e: Expr)
    requires ArmFits(op, t, e)
    ensures var f := Static(e, t); f.Constant? && f.untyped ==> CountOk(op, t, Norm(f.value, t))
  {
  }

  lemma IfOnce(e: Expr, t: Width, kinds: seq<Kind>, frame: seq<Cell>)
    requires e.If?
    ensures KindOf(e, t, kinds) ==
      IfKind(KindOf(e.c, t, kinds), Static(e.c, t), KindOf(e.y, t, kinds), KindOf(e.n, t, kinds), IsKnown(e.c, t),
        Joined(Tag(e.y, t, kinds), Tag(e.n, t, kinds)))
    ensures Static(e, t) == ChoiceFixed(Static(e.c, t), Static(e.y, t), Static(e.n, t))
    ensures var m := Meeting(IsKnown(e.c, t), Tag(e.y, t, kinds), Tag(e.n, t, kinds));
      Eval(e, t, kinds, frame) == ChoiceResult(Eval(e.c, t, kinds, frame),
        Arm(m, Tag(e.y, t, kinds), Eval(e.y, t, kinds, frame), t),
        Arm(m, Tag(e.n, t, kinds), Eval(e.n, t, kinds, frame), t))
  {
    hide Arm, ChoiceResult, ChoiceFixed, IfKind, Joined, Meeting, IsKnown, Tag;
  }

  lemma LeftOnce(e: Expr, t: Width, want: Width, kinds: seq<Kind>, frame: seq<Cell>)
    ensures Left(e, t, want, kinds, frame) == LeftOf(Static(e, t), want, ChoiceOrEval(e, t, want, kinds, frame))
    ensures ChoiceOrEval(e, t, want, kinds, frame) ==
      if e.If? then
        ChoiceResult(Eval(e.c, t, kinds, frame), Left(e.y, t, want, kinds, frame), Left(e.n, t, want, kinds, frame))
      else Eval(e, t, kinds, frame)
  {
    hide LeftOf, ChoiceResult, Static, Eval;
  }

  lemma {:induction false} ArmCounts(op: Oper, e: Expr, t: Width, kinds: seq<Kind>, frame: seq<Cell>)
    requires FrameTyped(kinds, frame, t) && KindOf(e, t, kinds).Some? && ArmFits(op, t, e)
    ensures SameCount(op, t, Arm(Some(Number), Tag(e, t, kinds), Eval(e, t, kinds, frame), t),
      Left(e, t, U32, kinds, frame))
    decreases e, 2
  {
    hide FrameTyped, Eval, Static, KindOf, Tag, Left, ArmFits, Norm, Agree, SameCount, Arm, CountOk, LeftOf;
    Evaluates(e, t, kinds, frame);
    EvenKinds(e, t, kinds, frame);
    LeftOnce(e, t, U32, kinds, frame);
    if Static(e, t).Constant? {
      ArmConstant(op, t, e);
      ArmCount(op, KindOf(e, t, kinds), Tag(e, t, kinds), Static(e, t), Eval(e, t, kinds, frame), t);
      LeftMeans(Static(e, t), U32, Eval(e, t, kinds, frame), ChoiceOrEval(e, t, U32, kinds, frame));
    } else if e.If? {
      ArmOnce(op, t, e);
      Evaluates(e.c, t, kinds, frame);
      IfCounts(op, e, t, kinds, frame);
      ArmIs(Some(Number), Tag(e, t, kinds), Eval(e, t, kinds, frame), t);
    } else {
      ArmIs(Some(Number), Tag(e, t, kinds), Eval(e, t, kinds, frame), t);
      LeftPlain(e, t, U32, kinds, frame);
      SameSelf(op, t, Eval(e, t, kinds, frame));
    }
  }

  lemma LeftPlain(e: Expr, t: Width, want: Width, kinds: seq<Kind>, frame: seq<Cell>)
    requires !Static(e, t).Constant? && !e.If?
    ensures Left(e, t, want, kinds, frame) == Eval(e, t, kinds, frame)
  {
    hide Static, Eval;
  }

  /** A value that is not known in advance is typed. */
  lemma EvenKinds(e: Expr, t: Width, kinds: seq<Kind>, frame: seq<Cell>)
    requires Sensible(e, t, kinds, frame)
    ensures var k, j := KindOf(e, t, kinds), Tag(e, t, kinds);
      && (k.Some? ==> Alike(k, j))
      && (!Static(e, t).Constant? ==> k != Some(Untyped))
      && (k.Some? && Static(e, t).Constant? ==> Eval(e, t, kinds, frame) == Val(Weighed(Static(e, t).value, k, j, t)))
      && (k.Some? && Static(e, t) == Rejected ==> Eval(e, t, kinds, frame) == Abort)
  {
    hide Eval, Static, KindOf, Tag, ResultTyped, Weighed;
  }

  /** A decided choice that is not itself a constant takes its arm as it is. */
  lemma {:induction false} DecidedCounts(op: Oper, e: Expr, t: Width, kinds: seq<Kind>, frame: seq<Cell>)
    requires FrameTyped(kinds, frame, t) && KindOf(e, t, kinds).Some? && e.If? && !Static(e, t).Constant?
    requires Static(e.c, t).Constant? && ArmFits(op, t, if Static(e.c, t).value != 0 then e.y else e.n)
    ensures SameCount(op, t, Eval(e, t, kinds, frame), Left(e, t, U32, kinds, frame))
    decreases e, 0
  {
    hide FrameTyped, Eval, Static, KindOf, Tag, Left, ArmFits, SameCount, Arm, Joined, Meeting, IsKnown, Weighed, Agree;
    IfOnce(e, t, kinds, frame);
    LeftOnce(e, t, U32, kinds, frame);
    Evaluates(e.c, t, kinds, frame);
    EvenKinds(e.c, t, kinds, frame);
    var f, arm := Static(e.c, t), if Static(e.c, t).value != 0 then e.y else e.n;
    IfFlag(KindOf(e.c, t, kinds), f, KindOf(e.y, t, kinds), KindOf(e.n, t, kinds), IsKnown(e.c, t),
      Joined(Tag(e.y, t, kinds), Tag(e.n, t, kinds)));
    TypedWeighed(f.value, KindOf(e.c, t, kinds), Tag(e.c, t, kinds), t);
    ArmCounts(op, arm, t, kinds, frame);
    Evaluates(arm, t, kinds, frame);
    EvenKinds(arm, t, kinds, frame);
    ArmIs(Meeting(IsKnown(e.c, t), Tag(e.y, t, kinds), Tag(e.n, t, kinds)), Tag(arm, t, kinds),
      Eval(arm, t, kinds, frame), t);
    ArmIs(Some(Number), Tag(arm, t, kinds), Eval(arm, t, kinds, frame), t);
  }

  lemma TypedWeighed(v: Cell, k: Option<Kind>, j: Option<Kind>, t: Width)
    requires k != Some(Untyped)
    ensures Weighed(v, k, j, t) == v
  {
  }

  lemma {:induction false} OpenCounts(op: Oper, e: Expr, t: Width, kinds: seq<Kind>, frame: seq<Cell>)
    requires FrameTyped(kinds, frame, t) && KindOf(e, t, kinds).Some? && e.If? && Static(e.c, t) == Unknown
    requires ArmFits(op, t, e.y) && ArmFits(op, t, e.n) && !Static(e, t).Constant?
    ensures SameCount(op, t, Eval(e, t, kinds, frame), Left(e, t, U32, kinds, frame))
    decreases e, 0
  {
    hide FrameTyped, Eval, Static, KindOf, Tag, Left, ArmFits, SameCount, Arm, Joined, IsKnown, Agree;
    IfOnce(e, t, kinds, frame);
    LeftOnce(e, t, U32, kinds, frame);
    if IsKnown(e.c, t) {
      KnownStatic(e.c, t);
    }
    var ky, kn := KindOf(e.y, t, kinds), KindOf(e.n, t, kinds);
    var jy, jn := Tag(e.y, t, kinds), Tag(e.n, t, kinds);
    IfFlag(KindOf(e.c, t, kinds), Static(e.c, t), ky, kn, IsKnown(e.c, t), Joined(jy, jn));
    Evaluates(e.y, t, kinds, frame);
    Evaluates(e.n, t, kinds, frame);
    EvenKinds(e.y, t, kinds, frame);
    EvenKinds(e.n, t, kinds, frame);
    UnifyJoined(ky, jy, kn, jn);
    ArmCounts(op, e.y, t, kinds, frame);
    ArmCounts(op, e.n, t, kinds, frame);
    MeetNumber(ky, jy, Joined(jy, jn), Eval(e.y, t, kinds, frame), t);
    MeetNumber(kn, jn, Joined(jy, jn), Eval(e.n, t, kinds, frame), t);
    CountChoice(op, Eval(e.c, t, kinds, frame), Arm(Joined(jy, jn), jy, Eval(e.y, t, kinds, frame), t),
      Arm(Joined(jy, jn), jn, Eval(e.n, t, kinds, frame), t), Left(e.y, t, U32, kinds, frame),
      Left(e.n, t, U32, kinds, frame), t);
  }

  /** Arms that meet in a truth value hold no literals. */
  lemma MeetNumber(k: Option<Kind>, j: Option<Kind>, m: Option<Kind>, r: Result, t: Width)
    requires Alike(k, j) && m != None && m != Some(Untyped) && (k == m || (k == Some(Untyped) && m == Some(Number)))
    ensures Arm(m, j, r, t) == Arm(Some(Number), j, r, t)
  {
    hide Normed;
  }

  lemma {:induction false} IfCounts(op: Oper, e: Expr, t: Width, kinds: seq<Kind>, frame: seq<Cell>)
    requires FrameTyped(kinds, frame, t) && KindOf(e, t, kinds).Some? && e.If? && !Static(e, t).Constant?
    requires Static(e.c, t).Constant? ==> ArmFits(op, t, if Static(e.c, t).value != 0 then e.y else e.n)
    requires !Static(e.c, t).Constant? ==> ArmFits(op, t, e.y) && ArmFits(op, t, e.n)
    ensures SameCount(op, t, Eval(e, t, kinds, frame), Left(e, t, U32, kinds, frame))
    decreases e, 1
  {
    hide FrameTyped, Eval, Static, KindOf, Tag, Left, ArmFits, SameCount, Arm, Agree, IfKind, IsKnown, Joined, Meeting;
    if Static(e.c, t).Constant? {
      DecidedCounts(op, e, t, kinds, frame);
    } else if Static(e.c, t) == Unknown {
      OpenCounts(op, e, t, kinds, frame);
    } else {
      IfOnce(e, t, kinds, frame);
      LeftOnce(e, t, U32, kinds, frame);
      Evaluates(e.c, t, kinds, frame);
      EvenKinds(e.c, t, kinds, frame);
      IfFlag(KindOf(e.c, t, kinds), Static(e.c, t), KindOf(e.y, t, kinds), KindOf(e.n, t, kinds), IsKnown(e.c, t),
        Joined(Tag(e.y, t, kinds), Tag(e.n, t, kinds)));
      SameSelf(op, t, Abort);
    }
  }

  lemma SameSelf(op: Oper, t: Width, r: Result)
    ensures SameCount(op, t, r, r)
  {
  }

  lemma IfFlag(k: Option<Kind>, f: Fixed, ky: Option<Kind>, kn: Option<Kind>, known: bool, m: Option<Kind>)
    requires IfKind(k, f, ky, kn, known, m).Some?
    ensures k == Some(Flag)
    ensures f.Constant? ==> (if f.value != 0 then ky else kn).Some?
    ensures !f.Constant? ==> ky.Some? && kn.Some? && Unify(ky, kn).Some?
  {
  }

  lemma ArmIs(m: Option<Kind>, k: Option<Kind>, r: Result, t: Width)
    requires k != Some(Untyped)
    ensures Arm(m, k, r, t) == r
  {
  }

  lemma CountIs(op: Oper, e: Expr, t: Width, kinds: seq<Kind>, frame: seq<Cell>)
    requires FrameTyped(kinds, frame, t) && KindOf(e, t, kinds).Some? && CountFits(op, t, e, kinds)
    ensures SameCount(op, t, Eval(e, t, kinds, frame), Left(e, t, U32, kinds, frame))
  {
    hide FrameTyped, Eval, Static, KindOf, Tag, Left, ArmFits, SameCount, Arm, Agree, Weighed, SameEffect;
    Evaluates(e, t, kinds, frame);
    if Static(e, t).Constant? {
      hide LeftOf;
      ConstantLeft(e, t, U32, kinds, frame);
      KnownCount(op, KindOf(e, t, kinds), Tag(e, t, kinds), Static(e, t), Eval(e, t, kinds, frame), t);
    } else {
      EvenKinds(e, t, kinds, frame);
      ArmCounts(op, e, t, kinds, frame);
      ArmIs(Some(Number), Tag(e, t, kinds), Eval(e, t, kinds, frame), t);
    }
  }

  lemma ConstantLeft(e: Expr, t: Width, want: Width, kinds: seq<Kind>, frame: seq<Cell>)
    requires Static(e, t).Constant?
    ensures Left(e, t, want, kinds, frame) == LeftOf(Static(e, t), want, Eval(e, t, kinds, frame))
  {
    hide Static, Eval;
  }
}
