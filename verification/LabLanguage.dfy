/** Scalar expressions of the simulator's source language at one integer width: static evaluation, the
    reference evaluator and the depth a tree needs.
 */
module LabLanguage {
  import opened Words
  import opened Bytecode
  import opened Numbers

  datatype Width = U32 | I32 | U64 | I64

  /** The type of an expression: an untyped literal, a number of the width, or a truth value. */
  datatype Kind = Untyped | Number | Flag

  datatype Oper = Add | Sub | Mul | Div | Rem | BitAnd | BitXor | BitOr | ShiftL | ShiftR

  datatype Cmp = Equal | Unequal | Less | LessEqual | Greater | GreaterEqual

  datatype Expr =
    | Num(value: Cell)
    | Known(value: Cell)
    | Bool(holds: bool)
    | Place(depth: nat)
    | Negate(x: Expr)
    | Invert(x: Expr)
    | Not(x: Expr)
    | Arith(op: Oper, l: Expr, r: Expr)
    | Compare(cmp: Cmp, l: Expr, r: Expr)
    | And(l: Expr, r: Expr)
    | Or(l: Expr, r: Expr)
    | If(c: Expr, y: Expr, n: Expr)

  predicate Signed(t: Width) {
    t == I32 || t == I64
  }

  /** Bring a cell into the range of the width. */
  function Norm(v: Cell, t: Width): Cell {
    match t
    case U32 => ApplyUnary(ZX32, v)
    case I32 => ApplyUnary(SX32, v)
    case _ => v
  }

  function OperFor(op: Oper, t: Width): BinaryOp {
    match op
    case Add => ADD
    case Sub => SUB
    case Mul => MUL
    case Div => if Signed(t) then DIVS else DIVU
    case Rem => if Signed(t) then REMS else REMU
    case BitAnd => AND
    case BitOr => OR
    case BitXor => XOR
    case ShiftL => SHL
    case ShiftR => if Signed(t) then SAR else SHR
  }

  function CmpFor(c: Cmp, t: Width): BinaryOp {
    match c
    case Equal => EQ
    case Unequal => NE
    case Less => if Signed(t) then LT else LTU
    case LessEqual => if Signed(t) then LE else LEU
    case Greater => if Signed(t) then LT else LTU
    case GreaterEqual => if Signed(t) then LE else LEU
  }

  predicate Swaps(c: Cmp) {
    c == Greater || c == GreaterEqual
  }

  predicate IsShift(op: Oper) {
    op == ShiftL || op == ShiftR
  }

  // ----- evaluation -----

  /** A value, or division by zero, the only way an expression of this kind can abort. */
  datatype Result = Val(value: Cell) | Abort

  function Operated(op: BinaryOp, a: Result, b: Result): Result {
    if a.Abort? || b.Abort? then Abort
    else match Combine(op, a.value, b.value) case None => Abort case Some(v) => Val(v)
  }

  function Normed(r: Result, t: Width): Result {
    match r case Val(v) => Val(Norm(v, t)) case Abort => Abort
  }

  function Applied(op: UnaryOp, r: Result): Result {
    match r case Val(v) => Val(ApplyUnary(op, v)) case Abort => Abort
  }

  /** What static evaluation finds: nothing, a value and whether it is still untyped, or an error. */
  datatype Fixed = Unknown | Rejected | Constant(value: Cell, untyped: bool)

  function FixedResult(r: Result): Fixed {
    match r case Val(v) => Constant(v, false) case Abort => Rejected
  }

  function UnaryFixed(op: UnaryOp, t: Option<Width>, f: Fixed): Fixed {
    match f
    case Constant(v, _) =>
      var w := ApplyUnary(op, v);
      Constant(if t.Some? then Norm(w, t.value) else w, false)
    case _ => f
  }

  function ArithFixed(op: Oper, t: Width, a: Fixed, b: Fixed): Fixed {
    if a == Rejected || b == Rejected then Rejected
    else if a == Unknown || b == Unknown then Unknown
    else FixedResult(ArithResult(op, t, Val(a.value), Val(b.value)))
  }

  function CompareFixed(c: Cmp, t: Width, a: Fixed, b: Fixed): Fixed {
    if a == Rejected || b == Rejected then Rejected
    else if a == Unknown || b == Unknown then Unknown
    else FixedResult(CompareResult(c, t, Val(a.value), Val(b.value)))
  }

  /** With a known condition the chosen part decides; the other is not looked at. */
  function ChoiceFixed(c: Fixed, y: Fixed, n: Fixed): Fixed {
    match c case Constant(v, _) => if v != 0 then y else n case _ => c
  }

  function Static(x: Expr, t: Width): Fixed {
    match x
    case Num(v) => Constant(v, true)
    case Known(v) => Constant(Norm(v, t), false)
    case Bool(b) => Constant(Truth(b), false)
    case Place(_) => Unknown
    case Negate(y) => UnaryFixed(NEG, Some(t), Static(y, t))
    case Invert(y) => UnaryFixed(NOT, Some(t), Static(y, t))
    case Not(y) => UnaryFixed(LNOT, None, Static(y, t))
    case Arith(op, l, r) => ArithFixed(op, t, Static(l, t), Static(r, t))
    case Compare(c, l, r) => CompareFixed(c, t, Static(l, t), Static(r, t))
    case And(l, r) => ChoiceFixed(Static(l, t), Static(r, t), Constant(0, false))
    case Or(l, r) => ChoiceFixed(Static(l, t), Constant(1, false), Static(r, t))
    case If(c, y, n) => ChoiceFixed(Static(c, t), Static(y, t), Static(n, t))
  }

  /** A shift count is used as it is; other operands are normalised first. */
  function ArithResult(op: Oper, t: Width, a: Result, b: Result): Result {
    Normed(Operated(OperFor(op, t), Normed(a, t), if IsShift(op) then b else Normed(b, t)), t)
  }

  function CompareResult(c: Cmp, t: Width, a: Result, b: Result): Result {
    var x, y := Normed(a, t), Normed(b, t);
    if Swaps(c) then Operated(CmpFor(c, t), y, x) else Operated(CmpFor(c, t), x, y)
  }

  function ChoiceResult(r: Result, yes: Result, no: Result): Result {
    match r case Abort => Abort case Val(v) => if v != 0 then yes else no
  }

  /** What the evaluator counts as known. It wants both sides of `and` and `or`, where static evaluation
      stops at the first that decides. */
  predicate IsKnown(x: Expr, t: Width) {
    match x
    case Num(_) => true
    case Known(_) => true
    case Bool(_) => true
    case Place(_) => false
    case Negate(y) => IsKnown(y, t)
    case Invert(y) => IsKnown(y, t)
    case Not(y) => IsKnown(y, t)
    case Arith(_, l, r) => IsKnown(l, t) && IsKnown(r, t)
    case Compare(_, l, r) => IsKnown(l, t) && IsKnown(r, t)
    case And(l, r) => IsKnown(l, t) && IsKnown(r, t)
    case Or(l, r) => IsKnown(l, t) && IsKnown(r, t)
    case If(c, y, n) =>
      IsKnown(c, t) &&
      match Static(c, t)
      case Constant(v, _) => if v != 0 then IsKnown(y, t) else IsKnown(n, t)
      case _ => false
  }

  /** The type two arms get from each other. */
  function Joined(a: Option<Kind>, b: Option<Kind>): Option<Kind> {
    if a == None || b == None then None
    else if a == Some(Untyped) then b
    else if b == Some(Untyped) || a == b then a
    else None
  }

  /** The evaluator's type of an expression, found without checking it. */
  function Tag(x: Expr, t: Width, kinds: seq<Kind>): Option<Kind> {
    match x
    case Num(_) => Some(Untyped)
    case Known(_) => Some(Number)
    case Bool(_) => Some(Flag)
    case Place(d) => if d < |kinds| then Some(kinds[|kinds| - 1 - d]) else None
    case Negate(y) => Tag(y, t, kinds)
    case Invert(y) => Tag(y, t, kinds)
    case Not(_) => Some(Flag)
    case Arith(op, l, r) => if IsShift(op) then Tag(l, t, kinds) else Joined(Tag(l, t, kinds), Tag(r, t, kinds))
    case Compare(_, _, _) => Some(Flag)
    case And(_, _) => Some(Flag)
    case Or(_, _) => Some(Flag)
    case If(c, y, n) => ChoiceTag(IsKnown(c, t), Static(c, t), Tag(y, t, kinds), Tag(n, t, kinds))
  }

  function ChoiceTag(known: bool, f: Fixed, y: Option<Kind>, n: Option<Kind>): Option<Kind> {
    if known && f.Constant? then (if f.value != 0 then y else n) else Joined(y, n)
  }

  function Truthful(r: Result): Result {
    match r case Val(v) => Val(Truth(v != 0)) case Abort => Abort
  }

  /** The type the arms of a choice are brought to: none when its condition is known. */
  function Meeting(known: bool, y: Option<Kind>, n: Option<Kind>): Option<Kind> {
    if known then None else Joined(y, n)
  }

  /** A literal arm takes the type `m` where the arms meet; `k` is the arm's own. */
  function Arm(m: Option<Kind>, k: Option<Kind>, r: Result, t: Width): Result {
    if k != Some(Untyped) then r
    else if m == Some(Number) then Normed(r, t)
    else if m == Some(Flag) then Truthful(r)
    else r
  }

  /** The reference evaluator; `frame` holds the bindings, the last on top. */
  function Eval(x: Expr, t: Width, kinds: seq<Kind>, frame: seq<Cell>): Result {
    match x
    case Num(v) => Val(v)
    case Known(v) => Val(Norm(v, t))
    case Bool(b) => Val(Truth(b))
    case Place(d) => if d < |frame| then Val(frame[|frame| - 1 - d]) else Abort
    case Negate(y) => Normed(Applied(NEG, Eval(y, t, kinds, frame)), t)
    case Invert(y) => Normed(Applied(NOT, Eval(y, t, kinds, frame)), t)
    case Not(y) => Applied(LNOT, Eval(y, t, kinds, frame))
    case Arith(op, l, r) => ArithResult(op, t, Eval(l, t, kinds, frame), Eval(r, t, kinds, frame))
    case Compare(c, l, r) => CompareResult(c, t, Eval(l, t, kinds, frame), Eval(r, t, kinds, frame))
    case And(l, r) => ChoiceResult(Eval(l, t, kinds, frame), Eval(r, t, kinds, frame), Val(0))
    case Or(l, r) => ChoiceResult(Eval(l, t, kinds, frame), Val(1), Eval(r, t, kinds, frame))
    case If(c, y, n) =>
      var m := Meeting(IsKnown(c, t), Tag(y, t, kinds), Tag(n, t, kinds));
      ChoiceResult(Eval(c, t, kinds, frame),
        Arm(m, Tag(y, t, kinds), Eval(y, t, kinds, frame), t),
        Arm(m, Tag(n, t, kinds), Eval(n, t, kinds, frame), t))
  }

  // ----- kinds -----

  /** The kind of two operands that meet; at least one must be typed. */
  function Unify(a: Option<Kind>, b: Option<Kind>): Option<Kind> {
    if a == None || b == None || (a == b == Some(Untyped)) then None
    else if a == b then a
    else if a == Some(Untyped) && b == Some(Number) then b
    else if b == Some(Untyped) && a == Some(Number) then a
    else None
  }

  function Only(want: Kind, k: Option<Kind>): Option<Kind> {
    if k == Some(want) then k else None
  }

  function ArithKind(op: Oper, a: Option<Kind>, b: Option<Kind>): Option<Kind> {
    if IsShift(op) then (if a == Some(Number) && (b == Some(Number) || b == Some(Untyped)) then Some(Number) else None)
    else Only(Number, Unify(a, b))
  }

  function CompareKind(c: Cmp, a: Option<Kind>, b: Option<Kind>): Option<Kind> {
    var k := Unify(a, b);
    if k == Some(Number) || (k == Some(Flag) && (c == Equal || c == Unequal)) then Some(Flag) else None
  }

  function FlagsKind(a: Option<Kind>, b: Option<Kind>): Option<Kind> {
    if a == Some(Flag) then Only(Flag, b) else None
  }

  /** The compiler gives a choice it can decide the kind of the chosen arm, `k`. Unless the condition is
      known, the evaluator lets the arms meet in `m`, and may not find that a literal is a truth value. */
  predicate Takes(known: bool, k: Option<Kind>, m: Option<Kind>) {
    known || (m.Some? && (k == Some(Untyped) ==> m != Some(Flag)))
  }

  function IfKind(c: Option<Kind>, f: Fixed, y: Option<Kind>, n: Option<Kind>, known: bool,
    m: Option<Kind>): Option<Kind>
  {
    if c != Some(Flag) then None
    else
      match f
      case Constant(v, _) =>
        var k := if v != 0 then y else n;
        if Takes(known, k, m) then k else None
      case _ => Unify(y, n)
  }

  // ----- shift counts -----

  /** From here on a count shifts everything out. */
  function CountLimit(op: Oper, t: Width): Cell {
    if op == ShiftL then (if t == U32 || t == I32 then 32 else 64)
    else match t case U32 => 32 case I32 => 31 case U64 => 64 case I64 => 63
  }

  predicate Exhausts(op: Oper, t: Width, c: Cell) {
    CountLimit(op, t) <= c
  }

  /** Shifting any number of the width by `m` or by `w` is the same. */
  predicate SameEffect(op: Oper, t: Width, m: Cell, w: Cell) {
    m == w || (Exhausts(op, t, m) && Exhausts(op, t, w))
  }

  /** What the evaluator makes of a constant of kind `k` that it finds to be of type `j`. */
  function Weighed(v: Cell, k: Option<Kind>, j: Option<Kind>, t: Width): Cell {
    if k == Some(Untyped) && j == Some(Number) then Norm(v, t) else v
  }

  /** Folding a shift of a constant uses a literal count as it is written. */
  predicate FoldsAlike(op: Oper, t: Width, f: Fixed, g: Fixed, k: Option<Kind>, j: Option<Kind>) {
    IsShift(op) && f.Constant? && g.Constant? ==> SameEffect(op, t, g.value, Weighed(g.value, k, j, t))
  }

  /** The kind of an expression that compiler and evaluator accept and read alike. Arithmetic on literals
      alone has a width of its own and is not accepted here. */
  function KindOf(x: Expr, t: Width, kinds: seq<Kind>): Option<Kind> {
    match x
    case Num(_) => Some(Untyped)
    case Known(_) => Some(Number)
    case Bool(_) => Some(Flag)
    case Place(d) => if d < |kinds| then Some(kinds[|kinds| - 1 - d]) else None
    case Negate(y) => Only(Number, KindOf(y, t, kinds))
    case Invert(y) => Only(Number, KindOf(y, t, kinds))
    case Not(y) => Only(Flag, KindOf(y, t, kinds))
    case Arith(op, l, r) =>
      if FoldsAlike(op, t, Static(l, t), Static(r, t), KindOf(r, t, kinds), Tag(r, t, kinds))
      then ArithKind(op, KindOf(l, t, kinds), KindOf(r, t, kinds)) else None
    case Compare(c, l, r) => CompareKind(c, KindOf(l, t, kinds), KindOf(r, t, kinds))
    case And(l, r) => FlagsKind(KindOf(l, t, kinds), KindOf(r, t, kinds))
    case Or(l, r) => FlagsKind(KindOf(l, t, kinds), KindOf(r, t, kinds))
    case If(c, y, n) =>
      IfKind(KindOf(c, t, kinds), Static(c, t), KindOf(y, t, kinds), KindOf(n, t, kinds), IsKnown(c, t),
        Joined(Tag(y, t, kinds), Tag(n, t, kinds)))
  }

  /** A cell of the kind: a number in range, or 0 or 1. */
  predicate Typed(k: Kind, v: Cell, t: Width) {
    match k
    case Untyped => true
    case Number => Norm(v, t) == v
    case Flag => v == 0 || v == 1
  }

  predicate FrameTyped(kinds: seq<Kind>, frame: seq<Cell>, t: Width) {
    |kinds| == |frame| && forall i | 0 <= i < |frame| :: kinds[i] != Untyped && Typed(kinds[i], frame[i], t)
  }

  predicate ResultTyped(k: Kind, r: Result, t: Width) {
    r.Val? ==> Typed(k, r.value, t)
  }

  // ----- the depth a tree needs -----

  function Max(a: nat, b: nat): nat {
    if a >= b then a else b
  }

  function PairNeed(a: nat, b: nat): nat {
    if a == b then a + 1 else Max(a, b)
  }

  /** How an expression is computed: the two operands of `Ordered` meet on A and B, the first on A. */
  datatype Shape = Leaf | Single(x: Expr) | Ordered(first: Expr, second: Expr) | Either(l: Expr, r: Expr)
    | Choice(c: Expr, y: Expr, n: Expr)

  function ShapeOf(x: Expr): (s: Shape)
    ensures match s
      case Leaf => true
      case Single(y) => y < x
      case Ordered(f, g) => f < x && g < x
      case Either(l, r) => l < x && r < x
      case Choice(c, y, n) => c < x && y < x && n < x
  {
    match x
    case Num(_) => Leaf
    case Known(_) => Leaf
    case Bool(_) => Leaf
    case Place(_) => Leaf
    case Negate(y) => Single(y)
    case Invert(y) => Single(y)
    case Not(y) => Single(y)
    case Arith(_, l, r) => Ordered(l, r)
    case Compare(c, l, r) => if Swaps(c) then Ordered(r, l) else Ordered(l, r)
    case And(l, r) => Either(l, r)
    case Or(l, r) => Either(l, r)
    case If(c, y, n) => Choice(c, y, n)
  }

  /** The number of cells on both operand stacks together that suffice when the needier operand goes
      first. */
  function Need(x: Expr): (n: nat)
    ensures n > 0
    decreases x
  {
    match ShapeOf(x)
    case Leaf => 1
    case Single(y) => Need(y)
    case Ordered(f, g) => PairNeed(Need(f), Need(g))
    case Either(l, r) => Max(Need(l), Need(r))
    case Choice(c, y, n) => Max(Need(c), Max(Need(y), Need(n)))
  }

  /** The depth of plain left-to-right evaluation. */
  function NaiveNeed(x: Expr): nat
    decreases x
  {
    match ShapeOf(x)
    case Leaf => 1
    case Single(y) => NaiveNeed(y)
    case Ordered(f, g) => Max(NaiveNeed(f), 1 + NaiveNeed(g))
    case Either(l, r) => Max(NaiveNeed(l), NaiveNeed(r))
    case Choice(c, y, n) => Max(NaiveNeed(c), Max(NaiveNeed(y), NaiveNeed(n)))
  }

  function Leaves(x: Expr): nat
    decreases x
  {
    match ShapeOf(x)
    case Leaf => 1
    case Single(y) => Leaves(y)
    case Ordered(f, g) => Leaves(f) + Leaves(g)
    case Either(l, r) => Leaves(l) + Leaves(r)
    case Choice(c, y, n) => Leaves(c) + Leaves(y) + Leaves(n)
  }

  lemma PairBound(a: nat, b: nat, m: nat, n: nat)
    requires a > 0 && b > 0 && Pow2(a - 1) <= m && Pow2(b - 1) <= n
    ensures Pow2(PairNeed(a, b) - 1) <= m + n
  {
    if a == b {
      assert Pow2(a) == 2 * Pow2(a - 1);
    }
  }

  lemma MaxIs(a: nat, b: nat)
    ensures Max(a, b) == a || Max(a, b) == b
  {
  }

  lemma MaxGrows(a: nat, b: nat, m: nat, n: nat)
    requires a <= m && b <= n
    ensures Max(a, b) <= Max(m, n)
  {
  }

  lemma PairNaive(a: nat, b: nat, m: nat, n: nat)
    requires a <= m && b <= n
    ensures PairNeed(a, b) <= Max(m, 1 + n)
  {
  }

  /** Choosing the order never needs more than left to right. */
  lemma {:induction false} NeedNaive(x: Expr)
    ensures Need(x) <= NaiveNeed(x)
    decreases x
  {
    hide ShapeOf, PairNeed, Max;
    match ShapeOf(x) {
      case Leaf =>
      case Single(y) => NeedNaive(y);
      case Ordered(f, g) =>
        NeedNaive(f);
        NeedNaive(g);
        PairNaive(Need(f), Need(g), NaiveNeed(f), NaiveNeed(g));
      case Either(l, r) =>
        NeedNaive(l);
        NeedNaive(r);
        MaxGrows(Need(l), Need(r), NaiveNeed(l), NaiveNeed(r));
      case Choice(c, y, n) =>
        NeedNaive(c);
        NeedNaive(y);
        NeedNaive(n);
        MaxGrows(Need(y), Need(n), NaiveNeed(y), NaiveNeed(n));
        MaxGrows(Need(c), Max(Need(y), Need(n)), NaiveNeed(c), Max(NaiveNeed(y), NaiveNeed(n)));
    }
  }

  /** A tree needs at most one more than the logarithm of the number of its leaves. */
  lemma {:induction false} NeedLogarithm(x: Expr)
    ensures Pow2(Need(x) - 1) <= Leaves(x)
    decreases x
  {
    hide ShapeOf, Pow2, PairNeed, Max;
    match ShapeOf(x) {
      case Leaf => DoubledNone();
      case Single(y) => NeedLogarithm(y);
      case Ordered(f, g) =>
        NeedLogarithm(f);
        NeedLogarithm(g);
        PairBound(Need(f), Need(g), Leaves(f), Leaves(g));
      case Either(l, r) =>
        NeedLogarithm(l);
        NeedLogarithm(r);
        MaxIs(Need(l), Need(r));
      case Choice(c, y, n) =>
        NeedLogarithm(c);
        NeedLogarithm(y);
        NeedLogarithm(n);
        MaxIs(Need(y), Need(n));
        MaxIs(Need(c), Max(Need(y), Need(n)));
    }
  }

  lemma DoubledNone()
    ensures Pow2(0) == 1
  {
  }
}
