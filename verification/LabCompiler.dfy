/** The simulator's compiler for scalar expressions, and the machine its code runs on. */
module LabCompiler {
  import opened Words
  import opened Bytecode
  import opened LabLanguage

  /** Instructions of the simulator. A binary operation takes A's top and then B's, whichever stack
      keeps the result. Jumps say how many instructions they skip. */
  datatype Line =
    | PushL(x: Bank, value: Cell)
    | GetL(x: Bank, depth: nat)
    | UnaryL(x: Bank, unary: UnaryOp)
    | BinaryL(x: Bank, op: BinaryOp)
    | ImmediateL(x: Bank, op: BinaryOp, value: Cell)
    | FrameL(x: Bank, op: BinaryOp, depth: nat)
    | JumpL(skip: nat)
    | ZeroL(x: Bank, skip: nat)
    | PairL(relation: Relation, skip: nat)
    | AgainstL(x: Bank, relation: Relation, reverse: bool, value: Cell, skip: nat)

  type Code = seq<Line>

  function Skip(i: Line): nat {
    match i
    case JumpL(k) => k
    case ZeroL(_, k) => k
    case PairL(_, k) => k
    case AgainstL(_, _, _, _, k) => k
    case _ => 0
  }

  predicate Jumps(i: Line) {
    i.JumpL? || i.ZeroL? || i.PairL? || i.AgainstL?
  }

  function From(o: Option<Cell>, s: Banks<Cell>, x: Bank): Outcome
    requires s.Has(x, 0)
  {
    match o case None => Trap(REASON_DIVISION) case Some(v) => Next(s.Replace(x, 0, v))
  }

  /** An instruction that does not jump. */
  function Perform(i: Line, s: Banks<Cell>): Outcome
    requires !Jumps(i)
  {
    match i
    case PushL(x, v) => Next(s.Push(x, v))
    case GetL(x, d) => if s.Has(C, d) then Next(s.Push(x, s.Peek(C, d))) else Stuck
    case UnaryL(x, op) => if s.Has(x, 0) then Next(s.Replace(x, 0, ApplyUnary(op, s.Peek(x, 0)))) else Stuck
    case BinaryL(x, op) =>
      if s.Has(A, 0) && s.Has(B, 0) then
        (match Combine(op, s.Peek(A, 0), s.Peek(B, 0))
         case None => Trap(REASON_DIVISION)
         case Some(v) => Next(s.Replace(x, 0, v).Pop(Opposite(x))))
      else Stuck
    case ImmediateL(x, op, v) => if s.Has(x, 0) then From(Combine(op, s.Peek(x, 0), v), s, x) else Stuck
    case FrameL(x, op, d) =>
      if s.Has(x, 0) && s.Has(C, d) then From(Combine(op, s.Peek(x, 0), s.Peek(C, d)), s, x) else Stuck
  }

  /** The stacks after a jump instruction, and whether it jumps. */
  datatype Way = Goes(taken: bool, stacks: Banks<Cell>) | Lost

  function Decide(i: Line, s: Banks<Cell>): Way
    requires Jumps(i)
  {
    match i
    case JumpL(_) => Goes(true, s)
    case ZeroL(x, _) => if s.Has(x, 0) then Goes(s.Peek(x, 0) == 0, s.Pop(x)) else Lost
    case PairL(r, _) =>
      if s.Has(A, 0) && s.Has(B, 0) then Goes(Related(r, s.Peek(A, 0), s.Peek(B, 0)), s.Pop(A).Pop(B)) else Lost
    case AgainstL(x, r, reverse, v, _) =>
      if s.Has(x, 0) then
        Goes(if reverse then Related(r, v, s.Peek(x, 0)) else Related(r, s.Peek(x, 0), v), s.Pop(x))
      else Lost
  }

  function Depth(s: Banks<Cell>): nat {
    |s.a| + |s.b|
  }

  /** How a run ends, and the most cells A and B held together. */
  datatype Reached = Reached(outcome: Outcome, peak: nat)

  function Exec(code: Code, s: Banks<Cell>, peak: nat): Reached
    decreases |code|
  {
    if code == [] then Reached(Next(s), peak)
    else if Jumps(code[0]) then
      match Decide(code[0], s)
      case Lost => Reached(Stuck, peak)
      case Goes(taken, s') =>
        var k := if taken then 1 + Skip(code[0]) else 1;
        if k > |code| then Reached(Stuck, peak) else Exec(code[k..], s', peak)
    else
      match Perform(code[0], s)
      case Next(s') => Exec(code[1..], s', Max(peak, Depth(s')))
      case o => Reached(o, peak)
  }

  predicate Inside(code: Code) {
    forall i | 0 <= i < |code| :: i + 1 + Skip(code[i]) <= |code|
  }

  /** Carry on with `code` where a run has ended normally. */
  function Onward(r: Reached, code: Code): Reached {
    match r.outcome case Next(s) => Exec(code, s, r.peak) case _ => r
  }

  lemma InsideRest(code: Code, k: nat)
    requires Inside(code) && k <= |code|
    ensures Inside(code[k..])
  {
    forall i | 0 <= i < |code[k..]| ensures i + 1 + Skip(code[k..][i]) <= |code[k..]| {
      assert code[k..][i] == code[k + i];
    }
  }

  lemma InsideBoth(c: Code, d: Code)
    requires Inside(c) && Inside(d)
    ensures Inside(c + d)
  {
    forall i | 0 <= i < |c + d| ensures i + 1 + Skip((c + d)[i]) <= |c + d| {
      assert (c + d)[i] == if i < |c| then c[i] else d[i - |c|];
    }
  }

  /** Code that does not jump out of itself runs alike in front of any other. */
  lemma {:induction false} ExecThen(c: Code, d: Code, s: Banks<Cell>, peak: nat)
    requires Inside(c)
    ensures Exec(c + d, s, peak) == Onward(Exec(c, s, peak), d)
    decreases |c|
  {
    hide Perform, Decide;
    if c == [] {
      assert c + d == d;
    } else {
      assert (c + d)[0] == c[0];
      assert (c + d)[1..] == c[1..] + d;
      InsideRest(c, 1);
      if Jumps(c[0]) {
        var w := Decide(c[0], s);
        if w.Goes? {
          var k := if w.taken then 1 + Skip(c[0]) else 1;
          assert (c + d)[k..] == c[k..] + d;
          InsideRest(c, k);
          ExecThen(c[k..], d, w.stacks, peak);
        }
      } else {
        var o := Perform(c[0], s);
        if o.Next? {
          ExecThen(c[1..], d, o.stacks, Max(peak, Depth(o.stacks)));
        }
      }
    }
  }

  // ----- the compiler -----

  function Small(v: Cell): bool {
    v <= 127 || v >= 0xffff_ffff_ffff_ff80
  }

  predicate Fuses(op: BinaryOp) {
    op in {ADD, SUB, MUL, AND, OR, XOR, SHL, SHR, SAR}
  }

  predicate Commutes(op: BinaryOp) {
    op in {ADD, MUL, AND, OR, XOR}
  }

  predicate Wraps(op: Oper) {
    op == Add || op == Sub || op == Mul || op == ShiftL
  }

  function NormCode(x: Bank, t: Width): Code {
    match t
    case U32 => [UnaryL(x, ZX32)]
    case I32 => [UnaryL(x, SX32)]
    case _ => []
  }

  /** An operand that can be part of the instruction: a small constant or a cell of the frame. */
  datatype Operand = NoOperand | ImmediateOperand(value: Cell) | FrameOperand(depth: nat)

  function LeafOf(e: Expr, t: Width, want: Width): Operand {
    match Static(e, t)
    case Constant(v, _) => if Small(Norm(v, want)) then ImmediateOperand(Norm(v, want)) else NoOperand
    case _ => if e.Place? then FrameOperand(e.depth) else NoOperand
  }

  function FusedLine(x: Bank, op: BinaryOp, l: Operand): Line
    requires l != NoOperand
  {
    match l
    case ImmediateOperand(v) => ImmediateL(x, op, v)
    case FrameOperand(d) => FrameL(x, op, d)
  }

  function ArithNorm(op: Oper, t: Width, x: Bank): Code {
    if Wraps(op) || (op == Div && t == I32) then NormCode(x, t) else []
  }

  function CountWidth(op: Oper, t: Width): Width {
    if IsShift(op) then U32 else t
  }

  /** The relation that a conditional jumps on when the comparison fails, and whether it compares the
      operands the other way round. */
  datatype Against = Against(relation: Relation, swapped: bool)

  function Failing(c: Cmp, signed: bool): Against {
    match c
    case Equal => Against(RelNE, false)
    case Unequal => Against(RelEQ, false)
    case Less => Against(if signed then RelLE else RelLEU, true)
    case LessEqual => Against(if signed then RelLT else RelLTU, true)
    case Greater => Against(if signed then RelLE else RelLEU, false)
    case GreaterEqual => Against(if signed then RelLT else RelLTU, false)
  }

  function Flipped(c: Cmp): Cmp {
    match c
    case Less => Greater
    case LessEqual => GreaterEqual
    case Greater => Less
    case GreaterEqual => LessEqual
    case _ => c
  }

  function SmallStatic(e: Expr, t: Width): Option<Cell> {
    match Static(e, t)
    case Constant(v, _) => if Small(Norm(v, t)) then Some(Norm(v, t)) else None
    case _ => None
  }

  /** Code that ends in a jump taken when the condition is false; the jump's length is filled in by the
      caller. */
  datatype Test = Test(code: Code, jump: Line)

  function WithSkip(i: Line, k: nat): Line {
    match i
    case JumpL(_) => JumpL(k)
    case ZeroL(x, _) => ZeroL(x, k)
    case PairL(r, _) => PairL(r, k)
    case AgainstL(x, r, reverse, v, _) => AgainstL(x, r, reverse, v, k)
    case _ => i
  }

  function Ordered2(a: Code, b: Code, first: bool): Code {
    if first then a + b else b + a
  }

  /** Both operands, in either order, and what follows. */
  function Both(a: Option<Code>, b: Option<Code>, first: bool, rest: Code): Option<Code> {
    if a.None? || b.None? then None else Some(Ordered2(a.value, b.value, first) + rest)
  }

  function Then(a: Option<Code>, rest: Code): Option<Code> {
    if a.None? then None else Some(a.value + rest)
  }

  /** The test, the jump over the first arm, the first arm, the jump over the second, the second. */
  function ChoiceCode(test: Test, yes: Code, no: Code): Code {
    test.code + [WithSkip(test.jump, |yes| + 1)] + yes + [JumpL(|no|)] + no
  }

  function Choose(test: Option<Test>, yes: Option<Code>, no: Option<Code>): Option<Code> {
    if test.None? || yes.None? || no.None? then None else Some(ChoiceCode(test.value, yes.value, no.value))
  }

  function ZeroTest(a: Option<Code>): Option<Test> {
    if a.None? then None else Some(Test(a.value, ZeroL(A, 0)))
  }

  function PairTest(a: Option<Code>, b: Option<Code>, first: bool, r: Relation): Option<Test> {
    if a.None? || b.None? then None else Some(Test(Ordered2(a.value, b.value, first), PairL(r, 0)))
  }

  /** Jump when the comparison with a small constant on the right fails. */
  function AgainstTest(a: Option<Code>, c: Cmp, k: Cell, t: Width): Option<Test> {
    if a.None? then None
    else
      var f := Failing(c, Signed(t));
      Some(Test(a.value, AgainstL(A, f.relation, f.swapped, k, 0)))
  }

  /** A right operand, or for an operation that commutes a left one, that the instruction can hold. */
  function RightOperand(op: Oper, r: Expr, t: Width): Operand {
    if Fuses(OperFor(op, t)) then LeafOf(r, t, CountWidth(op, t)) else NoOperand
  }

  function LeftOperand(op: Oper, l: Expr, t: Width): Operand {
    if Commutes(OperFor(op, t)) then LeafOf(l, t, t) else NoOperand
  }

  function Fused(a: Option<Code>, op: Oper, t: Width, x: Bank, l: Operand): Option<Code>
    requires l != NoOperand
  {
    Then(Then(a, [FusedLine(x, OperFor(op, t), l)]), ArithNorm(op, t, x))
  }

  /** Code for an expression on stack `x`; none when static evaluation finds a zero divisor. A literal
      takes the width `want`. */
  function Compile(e: Expr, x: Bank, t: Width, want: Width, kinds: seq<Kind>): Option<Code>
    decreases e, 1
  {
    match Static(e, t)
    case Rejected => None
    case Constant(v, untyped) => Some([PushL(x, if untyped then Norm(v, want) else v)])
    case Unknown => CompileRest(e, x, t, want, kinds)
  }

  function CompileRest(e: Expr, x: Bank, t: Width, want: Width, kinds: seq<Kind>): Option<Code>
    decreases e, 0
  {
    match e
    case Num(_) => None
    case Known(_) => None
    case Bool(_) => None
    case Place(d) => Some([GetL(x, d)])
    case Negate(y) => Then(Then(Compile(y, x, t, t, kinds), [UnaryL(x, NEG)]), NormCode(x, t))
    case Invert(y) => Then(Then(Compile(y, x, t, t, kinds), [UnaryL(x, NOT)]), if t == U32 then NormCode(x, t) else [])
    case Not(y) => Then(Compile(y, x, t, t, kinds), [UnaryL(x, LNOT)])
    case Arith(op, l, r) =>
      if RightOperand(op, r, t) != NoOperand then Fused(Compile(l, x, t, t, kinds), op, t, x, RightOperand(op, r, t))
      else if LeftOperand(op, l, t) != NoOperand then Fused(Compile(r, x, t, t, kinds), op, t, x, LeftOperand(op, l, t))
      else
        Then(Both(Compile(l, A, t, t, kinds), Compile(r, B, t, CountWidth(op, t), kinds), Need(l) >= Need(r),
            [BinaryL(x, OperFor(op, t))]),
          ArithNorm(op, t, x))
    case Compare(c, l, r) =>
      if Swaps(c) then
        Both(Compile(r, A, t, t, kinds), Compile(l, B, t, t, kinds), Need(r) >= Need(l), [BinaryL(x, CmpFor(c, t))])
      else
        Both(Compile(l, A, t, t, kinds), Compile(r, B, t, t, kinds), Need(l) >= Need(r), [BinaryL(x, CmpFor(c, t))])
    case And(l, r) =>
      Choose(ZeroTest(Compile(l, A, t, t, kinds)), Compile(r, x, t, t, kinds), Some([PushL(x, 0)]))
    case Or(l, r) =>
      Choose(ZeroTest(Compile(l, A, t, t, kinds)), Some([PushL(x, 1)]), Compile(r, x, t, t, kinds))
    case If(c, y, n) =>
      match Static(c, t)
      case Rejected => None
      case Constant(v, _) => Compile(if v != 0 then y else n, x, t, want, kinds)
      case Unknown =>
        Choose(CompileTest(c, t, kinds), Compile(y, x, t, want, kinds), Compile(n, x, t, want, kinds))
  }

  function CompileTest(c: Expr, t: Width, kinds: seq<Kind>): Option<Test>
    decreases c, 2
  {
    if !c.Compare? then ZeroTest(Compile(c, A, t, t, kinds))
    else
      var flags := KindOf(c.l, t, kinds) == Some(Flag);
      var rk, lk := SmallStatic(c.r, t), SmallStatic(c.l, t);
      var f := Failing(c.cmp, Signed(t) || flags);
      if !flags && rk.Some? then AgainstTest(Compile(c.l, A, t, t, kinds), c.cmp, rk.value, t)
      else if !flags && lk.Some? then AgainstTest(Compile(c.r, A, t, t, kinds), Flipped(c.cmp), lk.value, t)
      else if f.swapped then
        PairTest(Compile(c.r, A, t, t, kinds), Compile(c.l, B, t, t, kinds), Need(c.r) >= Need(c.l), f.relation)
      else PairTest(Compile(c.l, A, t, t, kinds), Compile(c.r, B, t, t, kinds), Need(c.l) >= Need(c.r), f.relation)
  }

  // ----- what a piece of code does -----

  ghost predicate Does(code: Code, s: Banks<Cell>, peak: nat, x: Bank, r: Result, need: nat) {
    var got := Exec(code, s, peak);
    got.peak <= Max(peak, Depth(s) + need) && got.outcome == Pushed(s, x, r)
  }

  /** Over any stacks with this frame the code leaves the result as one new cell, or aborts, and never
      has more than `need` cells above what was there. */
  ghost predicate Yields(code: Code, frame: seq<Cell>, x: Bank, r: Result, need: nat) {
    Inside(code) && forall s: Banks<Cell>, peak: nat | s.c == frame :: Does(code, s, peak, x, r, need)
  }

  lemma YieldsAt(code: Code, frame: seq<Cell>, x: Bank, r: Result, need: nat, s: Banks<Cell>, peak: nat)
    requires Yields(code, frame, x, r, need) && s.c == frame
    ensures Inside(code) && Does(code, s, peak, x, r, need)
  {
    hide Does;
  }

  lemma PushDepth(s: Banks<Cell>, x: Bank, v: Cell)
    ensures Depth(s.Push(x, v)) == Depth(s) + 1 && s.Push(x, v).c == s.c
  {
  }

  lemma ExecOne(i: Line, s: Banks<Cell>, peak: nat)
    requires !Jumps(i)
    ensures Exec([i], s, peak) == Reached(Perform(i, s), PeakAfter(Perform(i, s), peak))
  {
    hide Perform, Depth;
    assert [i][1..] == [];
  }

  function PeakAfter(o: Outcome, peak: nat): nat {
    if o.Next? then Max(peak, Depth(o.stacks)) else peak
  }

  lemma InsideOne(i: Line)
    requires !Jumps(i)
    ensures Inside([i])
  {
  }

  lemma PushYields(frame: seq<Cell>, x: Bank, v: Cell, need: nat)
    requires need > 0
    ensures Yields([PushL(x, v)], frame, x, Val(v), need)
  {
    hide Exec;
    InsideOne(PushL(x, v));
    forall s: Banks<Cell>, peak: nat | s.c == frame ensures Does([PushL(x, v)], s, peak, x, Val(v), need) {
      ExecOne(PushL(x, v), s, peak);
      PushDepth(s, x, v);
    }
  }

  lemma GetYields(frame: seq<Cell>, x: Bank, d: nat)
    requires d < |frame|
    ensures Yields([GetL(x, d)], frame, x, Val(frame[|frame| - 1 - d]), 1)
  {
    hide Exec;
    InsideOne(GetL(x, d));
    var v := frame[|frame| - 1 - d];
    forall s: Banks<Cell>, peak: nat | s.c == frame ensures Does([GetL(x, d)], s, peak, x, Val(v), 1) {
      ExecOne(GetL(x, d), s, peak);
      PushDepth(s, x, v);
    }
  }

  function Pushed(s: Banks<Cell>, x: Bank, r: Result): Outcome {
    match r case Val(v) => Next(s.Push(x, v)) case Abort => Trap(REASON_DIVISION)
  }

  /** What an instruction makes of the cell on top of `x`. */
  ghost predicate ActsAt(i: Line, s: Banks<Cell>, x: Bank, v: Cell, r: Result) {
    !Jumps(i) && Perform(i, s.Push(x, v)) == Pushed(s, x, r)
  }

  ghost predicate Acts(i: Line, frame: seq<Cell>, x: Bank, v: Cell, r: Result) {
    !Jumps(i) && forall s: Banks<Cell> | s.c == frame :: ActsAt(i, s, x, v, r)
  }

  lemma ReplaceTop(s: Banks<Cell>, x: Bank, v: Cell, w: Cell)
    ensures s.Push(x, v).Has(x, 0) && s.Push(x, v).Peek(x, 0) == v && s.Push(x, v).Replace(x, 0, w) == s.Push(x, w)
  {
  }

  lemma UnaryActs(frame: seq<Cell>, x: Bank, op: UnaryOp, v: Cell)
    ensures Acts(UnaryL(x, op), frame, x, v, Val(ApplyUnary(op, v)))
  {
    hide ApplyUnary, Banks.Push, Banks.Replace, Banks.Peek, Banks.Has;
    forall s: Banks<Cell> | s.c == frame ensures ActsAt(UnaryL(x, op), s, x, v, Val(ApplyUnary(op, v))) {
      ReplaceTop(s, x, v, ApplyUnary(op, v));
    }
  }

  /** A fused operand: a constant, or the frame's cell. */
  function OperandValue(l: Operand, frame: seq<Cell>): Cell
    requires l != NoOperand && (l.FrameOperand? ==> l.depth < |frame|)
  {
    match l case ImmediateOperand(w) => w case FrameOperand(d) => frame[|frame| - 1 - d]
  }

  lemma FrameKept(s: Banks<Cell>, x: Bank, v: Cell, l: Operand, frame: seq<Cell>)
    requires s.c == frame && l != NoOperand && (l.FrameOperand? ==> l.depth < |frame|)
    ensures l.FrameOperand? ==> s.Push(x, v).Has(C, l.depth) && s.Push(x, v).Peek(C, l.depth) == OperandValue(l, frame)
  {
  }

  lemma FusedActs(frame: seq<Cell>, x: Bank, op: BinaryOp, l: Operand, v: Cell)
    requires l != NoOperand && (l.FrameOperand? ==> l.depth < |frame|)
    ensures Acts(FusedLine(x, op, l), frame, x, v, Operated(op, Val(v), Val(OperandValue(l, frame))))
  {
    hide Combine, Banks.Push, Banks.Replace, Banks.Peek, Banks.Has;
    var w := OperandValue(l, frame);
    var i, r := FusedLine(x, op, l), Operated(op, Val(v), Val(w));
    forall s: Banks<Cell> | s.c == frame ensures ActsAt(i, s, x, v, r) {
      FrameKept(s, x, v, l, frame);
      ReplaceTop(s, x, v, if r.Val? then r.value else v);
    }
  }

  /** One more instruction on the top cell. */
  lemma ThenActs(code: Code, i: Line, frame: seq<Cell>, x: Bank, r: Result, r': Result, need: nat)
    requires Yields(code, frame, x, r, need) && need > 0
    requires !Jumps(i) && (r.Val? ==> Acts(i, frame, x, r.value, r')) && (r.Abort? ==> r' == Abort)
    ensures Yields(code + [i], frame, x, r', need)
  {
    hide Exec, Perform, Inside, Yields, Acts, Jumps, Banks.Push;
    YieldsAt(code, frame, x, r, need, Banks([], [], frame), 0);
    InsideOne(i);
    InsideBoth(code, [i]);
    forall s: Banks<Cell>, peak: nat | s.c == frame ensures Does(code + [i], s, peak, x, r', need) {
      YieldsAt(code, frame, x, r, need, s, peak);
      ExecThen(code, [i], s, peak);
      if r.Val? {
        ActsOne(i, frame, x, r.value, r', s);
        ExecOne(i, s.Push(x, r.value), Exec(code, s, peak).peak);
        PushDepth(s, x, if r'.Val? then r'.value else 0);
      }
    }
    MakeYields(code + [i], frame, x, r', need);
  }

  lemma ActsOne(i: Line, frame: seq<Cell>, x: Bank, v: Cell, r: Result, s: Banks<Cell>)
    requires Acts(i, frame, x, v, r) && s.c == frame
    ensures !Jumps(i) && Perform(i, s.Push(x, v)) == Pushed(s, x, r)
  {
    assert ActsAt(i, s, x, v, r);
  }

  lemma NormYields(code: Code, frame: seq<Cell>, x: Bank, r: Result, need: nat, t: Width)
    requires Yields(code, frame, x, r, need) && need > 0
    ensures Yields(code + NormCode(x, t), frame, x, Normed(r, t), need)
  {
    hide Yields, Acts;
    var v := if r.Val? then r.value else 0;
    UnaryActs(frame, x, ZX32, v);
    UnaryActs(frame, x, SX32, v);
    if t == U32 {
      ThenActs(code, UnaryL(x, ZX32), frame, x, r, Normed(r, t), need);
    } else if t == I32 {
      ThenActs(code, UnaryL(x, SX32), frame, x, r, Normed(r, t), need);
    } else {
      assert code + [] == code;
    }
  }

  /** Code that is shallow enough is shallow enough for more. */
  lemma MoreNeed(code: Code, frame: seq<Cell>, x: Bank, r: Result, need: nat, more: nat)
    requires Yields(code, frame, x, r, need) && need <= more
    ensures Yields(code, frame, x, r, more)
  {
    hide Exec;
    forall s: Banks<Cell>, peak: nat | s.c == frame ensures Does(code, s, peak, x, r, more) {
      YieldsAt(code, frame, x, r, need, s, peak);
    }
  }

  // ----- two operands -----

  /** Both operands in place, A's and B's. */
  ghost predicate Places(code: Code, s: Banks<Cell>, peak: nat, ra: Result, rb: Result, need: nat) {
    var got := Exec(code, s, peak);
    && got.peak <= Max(peak, Depth(s) + need)
    && if ra.Val? && rb.Val? then got.outcome == Next(s.Push(A, ra.value).Push(B, rb.value))
       else got.outcome == Trap(REASON_DIVISION)
  }

  lemma PushesCommute(s: Banks<Cell>, u: Cell, w: Cell)
    ensures s.Push(A, u).Push(B, w) == s.Push(B, w).Push(A, u)
  {
  }

  lemma InOrder(a: Code, b: Code, frame: seq<Cell>, x: Bank, ra: Result, rb: Result, na: nat, nb: nat, s: Banks<Cell>,
    peak: nat)
    requires Yields(a, frame, x, ra, na) && Yields(b, frame, Opposite(x), rb, nb) && s.c == frame && nb > 0
    requires na >= nb || na > 0
    ensures var got := Exec(a + b, s, peak);
      && got.peak <= Max(peak, Depth(s) + Max(na, nb + 1))
      && if ra.Val? && rb.Val? then got.outcome == Next(s.Push(x, ra.value).Push(Opposite(x), rb.value))
         else got.outcome == Trap(REASON_DIVISION)
  {
    hide Exec;
    YieldsAt(a, frame, x, ra, na, s, peak);
    ExecThen(a, b, s, peak);
    if ra.Val? {
      PushDepth(s, x, ra.value);
      YieldsAt(b, frame, Opposite(x), rb, nb, s.Push(x, ra.value), Exec(a, s, peak).peak);
    }
  }

  /** The needier operand first: the second then has one cell under it. */
  lemma PairPlaces(a: Code, b: Code, frame: seq<Cell>, ra: Result, rb: Result, na: nat, nb: nat, s: Banks<Cell>,
    peak: nat)
    requires Yields(a, frame, A, ra, na) && Yields(b, frame, B, rb, nb) && s.c == frame && na > 0 && nb > 0
    ensures Inside(Ordered2(a, b, na >= nb)) && Places(Ordered2(a, b, na >= nb), s, peak, ra, rb, PairNeed(na, nb))
  {
    hide Exec, Inside, Does, Banks.Push;
    YieldsAt(a, frame, A, ra, na, s, peak);
    YieldsAt(b, frame, B, rb, nb, s, peak);
    if na >= nb {
      InsideBoth(a, b);
      InOrder(a, b, frame, A, ra, rb, na, nb, s, peak);
    } else {
      InsideBoth(b, a);
      InOrder(b, a, frame, B, rb, ra, nb, na, s, peak);
      if ra.Val? && rb.Val? {
        PushesCommute(s, ra.value, rb.value);
      }
    }
  }

  lemma BinaryPerforms(s: Banks<Cell>, x: Bank, op: BinaryOp, u: Cell, w: Cell)
    ensures Perform(BinaryL(x, op), s.Push(A, u).Push(B, w)) == Pushed(s, x, Operated(op, Val(u), Val(w)))
  {
    hide Combine, Banks.Push, Banks.Pop, Banks.Replace, Banks.Peek, Banks.Has;
    PopBoth(s, u, w);
    ReplacedBoth(s, x, u, w, if Operated(op, Val(u), Val(w)).Val? then Operated(op, Val(u), Val(w)).value else 0);
  }

  lemma ReplacedBoth(s: Banks<Cell>, x: Bank, u: Cell, w: Cell, v: Cell)
    ensures var both := s.Push(A, u).Push(B, w);
      && both.Has(x, 0) && both.Replace(x, 0, v).Has(Opposite(x), 0)
      && both.Replace(x, 0, v).Pop(Opposite(x)) == s.Push(x, v)
  {
  }

  lemma PairYields(a: Code, b: Code, frame: seq<Cell>, x: Bank, op: BinaryOp, ra: Result, rb: Result, na: nat, nb: nat)
    requires Yields(a, frame, A, ra, na) && Yields(b, frame, B, rb, nb) && na > 0 && nb > 0
    ensures Yields(Ordered2(a, b, na >= nb) + [BinaryL(x, op)], frame, x, Operated(op, ra, rb), PairNeed(na, nb))
  {
    hide Exec, Perform, Inside, Yields, Combine, Ordered2, Banks.Push;
    var c, i, n, r := Ordered2(a, b, na >= nb), BinaryL(x, op), PairNeed(na, nb), Operated(op, ra, rb);
    PairPlaces(a, b, frame, ra, rb, na, nb, Banks([], [], frame), 0);
    InsideOne(i);
    InsideBoth(c, [i]);
    forall s: Banks<Cell>, peak: nat | s.c == frame ensures Does(c + [i], s, peak, x, r, n) {
      PairPlaces(a, b, frame, ra, rb, na, nb, s, peak);
      ExecThen(c, [i], s, peak);
      if ra.Val? && rb.Val? {
        BinaryPerforms(s, x, op, ra.value, rb.value);
        ExecOne(i, s.Push(A, ra.value).Push(B, rb.value), Exec(c, s, peak).peak);
        PushDepth(s, x, if r.Val? then r.value else 0);
      }
    }
    MakeYields(c + [i], frame, x, r, n);
  }

  lemma MakeYields(code: Code, frame: seq<Cell>, x: Bank, r: Result, need: nat)
    requires Inside(code) && forall s: Banks<Cell>, peak: nat | s.c == frame :: Does(code, s, peak, x, r, need)
    ensures Yields(code, frame, x, r, need)
  {
  }

  // ----- conditions -----

  ghost predicate TestsAt(test: Test, s: Banks<Cell>, peak: nat, r: Result, need: nat)
    requires Jumps(test.jump)
  {
    var got := Exec(test.code, s, peak);
    && got.peak <= Max(peak, Depth(s) + need)
    && match r
      case Val(v) => got.outcome.Next? && Decide(test.jump, got.outcome.stacks) == Goes(v == 0, s)
      case Abort => got.outcome == Trap(REASON_DIVISION)
  }

  /** The code leaves the stacks as they were and jumps exactly when the condition is false. */
  ghost predicate Tests(test: Test, frame: seq<Cell>, r: Result, need: nat) {
    && Inside(test.code) && Jumps(test.jump)
    && forall s: Banks<Cell>, peak: nat | s.c == frame :: TestsAt(test, s, peak, r, need)
  }

  lemma ZeroTests(code: Code, frame: seq<Cell>, r: Result, need: nat)
    requires Yields(code, frame, A, r, need)
    ensures Tests(Test(code, ZeroL(A, 0)), frame, r, need)
  {
    hide Exec;
    var test := Test(code, ZeroL(A, 0));
    forall s: Banks<Cell>, peak: nat | s.c == frame ensures TestsAt(test, s, peak, r, need) {
      YieldsAt(code, frame, A, r, need, s, peak);
      if r.Val? {
        PopPushed(s, A, r.value);
      }
    }
  }

  lemma PopPushed(s: Banks<Cell>, x: Bank, v: Cell)
    ensures s.Push(x, v).Has(x, 0) && s.Push(x, v).Peek(x, 0) == v && s.Push(x, v).Pop(x) == s
  {
  }

  /** A comparison with a constant, in one jump. */
  lemma AgainstTests(code: Code, frame: seq<Cell>, r: Result, need: nat, f: Against, k: Cell, truth: Result)
    requires Yields(code, frame, A, r, need) && (r.Abort? <==> truth.Abort?)
    requires r.Val? ==>
      (truth.value == 0 <==> if f.swapped then Related(f.relation, k, r.value) else Related(f.relation, r.value, k))
    ensures Tests(Test(code, AgainstL(A, f.relation, f.swapped, k, 0)), frame, truth, need)
  {
    hide Exec, Related;
    var test := Test(code, AgainstL(A, f.relation, f.swapped, k, 0));
    forall s: Banks<Cell>, peak: nat | s.c == frame ensures TestsAt(test, s, peak, truth, need) {
      YieldsAt(code, frame, A, r, need, s, peak);
      if r.Val? {
        PopPushed(s, A, r.value);
      }
    }
  }

  lemma PairTests(a: Code, b: Code, frame: seq<Cell>, ra: Result, rb: Result, na: nat, nb: nat, relation: Relation,
    truth: Result)
    requires Yields(a, frame, A, ra, na) && Yields(b, frame, B, rb, nb) && na > 0 && nb > 0
    requires truth.Abort? <==> ra.Abort? || rb.Abort?
    requires truth.Val? ==> (truth.value == 0 <==> Related(relation, ra.value, rb.value))
    ensures Tests(Test(Ordered2(a, b, na >= nb), PairL(relation, 0)), frame, truth, PairNeed(na, nb))
  {
    hide Exec, Related, Inside, Yields, Ordered2, PairNeed, Depth, Banks.Push, Banks.Pop, Banks.Peek, Banks.Has;
    var test := Test(Ordered2(a, b, na >= nb), PairL(relation, 0));
    PairPlaces(a, b, frame, ra, rb, na, nb, Banks([], [], frame), 0);
    forall s: Banks<Cell>, peak: nat | s.c == frame ensures TestsAt(test, s, peak, truth, PairNeed(na, nb)) {
      PairPlaces(a, b, frame, ra, rb, na, nb, s, peak);
      if truth.Val? {
        PopBoth(s, ra.value, rb.value);
      }
    }
  }

  lemma PopBoth(s: Banks<Cell>, u: Cell, w: Cell)
    ensures var both := s.Push(A, u).Push(B, w);
      both.Has(A, 0) && both.Has(B, 0) && both.Peek(A, 0) == u && both.Peek(B, 0) == w && both.Pop(A).Pop(B) == s
  {
  }

  // ----- choices -----

  lemma ChoiceInside(test: Test, yes: Code, no: Code)
    requires Inside(test.code) && Inside(yes) && Inside(no) && Jumps(test.jump)
    ensures Inside(ChoiceCode(test, yes, no))
  {
    var code := ChoiceCode(test, yes, no);
    var n, m := |test.code|, |yes|;
    forall i | 0 <= i < |code| ensures i + 1 + Skip(code[i]) <= |code| {
      if i < n {
        assert code[i] == test.code[i];
      } else if n < i <= n + m {
        assert code[i] == yes[i - n - 1];
      } else if i > n + m + 1 {
        assert code[i] == no[i - n - m - 2];
      }
    }
  }

  /** Where the two arms start and how the first one ends. */
  lemma ChoiceParts(test: Test, yes: Code, no: Code)
    requires Jumps(test.jump)
    ensures var jump := WithSkip(test.jump, |yes| + 1);
      var rest := [jump] + yes + [JumpL(|no|)] + no;
      && ChoiceCode(test, yes, no) == test.code + rest
      && Jumps(jump) && Skip(jump) == |yes| + 1 && (forall s: Banks<Cell> :: Decide(jump, s) == Decide(test.jump, s))
      && rest[1..] == yes + ([JumpL(|no|)] + no) && rest[|yes| + 2..] == no
  {
    var jump := WithSkip(test.jump, |yes| + 1);
    var rest := [jump] + yes + [JumpL(|no|)] + no;
    assert ChoiceCode(test, yes, no) == test.code + rest;
    assert rest[1..] == yes + ([JumpL(|no|)] + no);
  }

  lemma JumpOver(no: Code, s: Banks<Cell>, peak: nat)
    ensures Exec([JumpL(|no|)] + no, s, peak) == Reached(Next(s), peak)
  {
    var code := [JumpL(|no|)] + no;
    assert code[1 + |no|..] == [];
  }

  lemma JumpStep(code: Code, s: Banks<Cell>, peak: nat)
    requires code != [] && Jumps(code[0]) && Decide(code[0], s).Goes? && 1 + Skip(code[0]) <= |code|
    ensures Exec(code, s, peak) ==
      Exec(if Decide(code[0], s).taken then code[1 + Skip(code[0])..] else code[1..], Decide(code[0], s).stacks, peak)
  {
    hide Decide;
  }

  lemma ChoiceYields(test: Test, yes: Code, no: Code, frame: seq<Cell>, x: Bank, r: Result, ry: Result, rn: Result,
    nt: nat, ny: nat, nn: nat)
    requires Tests(test, frame, r, nt) && Yields(yes, frame, x, ry, ny) && Yields(no, frame, x, rn, nn)
    ensures Yields(ChoiceCode(test, yes, no), frame, x, ChoiceResult(r, ry, rn), Max(nt, Max(ny, nn)))
  {
    hide Exec, Inside, Decide, ChoiceCode, Skip, WithSkip;
    ChoiceInside(test, yes, no);
    ChoiceParts(test, yes, no);
    var code, n := ChoiceCode(test, yes, no), Max(nt, Max(ny, nn));
    var jump := WithSkip(test.jump, |yes| + 1);
    var rest := [jump] + yes + [JumpL(|no|)] + no;
    forall s: Banks<Cell>, peak: nat | s.c == frame ensures Does(code, s, peak, x, ChoiceResult(r, ry, rn), n) {
      assert TestsAt(test, s, peak, r, nt);
      ExecThen(test.code, rest, s, peak);
      if r.Val? {
        var got := Exec(test.code, s, peak);
        assert rest[0] == jump;
        JumpStep(rest, got.outcome.stacks, got.peak);
        if r.value == 0 {
          YieldsAt(no, frame, x, rn, nn, s, got.peak);
        } else {
          YieldsAt(yes, frame, x, ry, ny, s, got.peak);
          ExecThen(yes, [JumpL(|no|)] + no, s, got.peak);
          if ry.Val? {
            JumpOver(no, s.Push(x, ry.value), Exec(yes, s, got.peak).peak);
          }
        }
      }
    }
    MakeYields(code, frame, x, ChoiceResult(r, ry, rn), n);
  }
}
