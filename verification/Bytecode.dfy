/** The straight-line part of the instruction set and its meaning on the three stacks.

    A and B are operand stacks, C holds the frame.  Depth 0 is the top; a stack is kept as a
    sequence whose last element is the top.
 */
module Bytecode {
  import opened Words

  datatype Stack = A | B | C

  /** The two stacks an instruction can select. */
  type Bank = s: Stack | s != C witness A

  function Opposite(s: Bank): Bank {
    if s == A then B else A
  }

  /** Three stacks of anything: cells at run time, symbolic values inside the compilers. */
  datatype Banks<T> = Banks(a: seq<T>, b: seq<T>, c: seq<T>) {
    function At(s: Stack): seq<T> {
      match s case A => a case B => b case C => c
    }

    function Put(s: Stack, v: seq<T>): (r: Banks<T>)
      ensures forall t: Stack {:trigger r.At(t)} :: r.At(t) == if t == s then v else At(t)
    {
      match s
      case A => Banks(v, b, c)
      case B => Banks(a, v, c)
      case C => Banks(a, b, v)
    }

    predicate Has(s: Stack, depth: nat) {
      depth < |At(s)|
    }

    function Peek(s: Stack, depth: nat): T
      requires Has(s, depth)
    {
      At(s)[|At(s)| - 1 - depth]
    }

    function Push(s: Stack, v: T): Banks<T> {
      Put(s, At(s) + [v])
    }

    function Pop(s: Stack): Banks<T>
      requires Has(s, 0)
    {
      Put(s, At(s)[..|At(s)| - 1])
    }

    function Replace(s: Stack, depth: nat, v: T): Banks<T>
      requires Has(s, depth)
    {
      Put(s, At(s)[|At(s)| - 1 - depth := v])
    }
  }

  /** Arguments are gathered top first, so argument zero ends on top of the frame. */
  function Reversed<T>(l: seq<T>): (r: seq<T>)
    ensures |r| == |l|
  {
    seq(|l|, (i: nat) requires i < |l| => l[|l| - 1 - i])
  }

  /** A switch takes the entry its operand numbers, or falls through when there is none. */
  function Chosen(k: nat, targets: seq<nat>, next: nat): nat {
    if k < |targets| then targets[k] else next
  }

  datatype Instr =
    | Push(bank: Bank, value: Cell)
    | Dup(bank: Bank)
    | Drop(bank: Bank)
    | Copy(bank: Bank)
    | Move(bank: Bank)
    | CPush(bank: Bank)
    | CPop
    | CGet(bank: Bank, depth: nat)
    | CSet(bank: Bank, depth: nat)
    | Binary(bank: Bank, op: BinaryOp)
    | Unary(bank: Bank, unary: UnaryOp)
    | Check(bank: Bank, check: CheckOp)
    | Immediate(bank: Bank, op: BinaryOp, value: Cell)
    | COperand(bank: Bank, op: BinaryOp, depth: nat)

  /** `Stuck` is an operand underflow; verified code never reaches it. */
  datatype Outcome = Next(stacks: Banks<Cell>) | Trap(reason: nat) | Stuck

  /** The operands an instruction needs; the verifier guarantees them before execution. */
  predicate Ready<T>(i: Instr, s: Banks<T>) {
    match i
    case Push(_, _) => true
    case CPop => s.Has(C, 0)
    case CGet(_, depth) => s.Has(C, depth)
    case CSet(x, depth) => s.Has(x, 0) && s.Has(C, depth)
    case Binary(x, _) => s.Has(x, 0) && s.Has(Opposite(x), 0)
    case COperand(x, _, depth) => s.Has(x, 0) && s.Has(C, depth)
    case _ => s.Has(i.bank, 0)
  }

  function Combine(op: BinaryOp, x: Cell, y: Cell): Option<Cell> {
    if Traps(op, y) then None else Some(Apply(op, x, y))
  }

  function Step(i: Instr, s: Banks<Cell>): Outcome {
    if !Ready(i, s) then Stuck else
    match i
    case Push(x, v) => Next(s.Push(x, v))
    case Dup(x) => Next(s.Push(x, s.Peek(x, 0)))
    case Drop(x) => Next(s.Pop(x))
    case Copy(x) => Next(s.Push(Opposite(x), s.Peek(x, 0)))
    case Move(x) => Next(s.Pop(x).Push(Opposite(x), s.Peek(x, 0)))
    case CPush(x) => Next(s.Pop(x).Push(C, s.Peek(x, 0)))
    case CPop => Next(s.Pop(C))
    case CGet(x, depth) => Next(s.Push(x, s.Peek(C, depth)))
    case CSet(x, depth) => Next(s.Pop(x).Replace(C, depth, s.Peek(x, 0)))
    case Binary(x, op) =>
      (match Combine(op, s.Peek(x, 0), s.Peek(Opposite(x), 0))
       case None => Trap(REASON_DIVISION)
       case Some(v) => Next(s.Pop(Opposite(x)).Replace(x, 0, v)))
    case Unary(x, op) => Next(s.Replace(x, 0, ApplyUnary(op, s.Peek(x, 0))))
    case Check(x, op) => if Fails(op, s.Peek(x, 0)) then Trap(REASON_CONVERSION) else Next(s)
    case Immediate(x, op, v) =>
      (match Combine(op, s.Peek(x, 0), v)
       case None => Trap(REASON_DIVISION)
       case Some(r) => Next(s.Replace(x, 0, r)))
    case COperand(x, op, depth) =>
      (match Combine(op, s.Peek(x, 0), s.Peek(C, depth))
       case None => Trap(REASON_DIVISION)
       case Some(r) => Next(s.Replace(x, 0, r)))
  }

  function After(i: Instr, o: Outcome): Outcome {
    match o case Next(s) => Step(i, s) case _ => o
  }

  /** A straight-line sequence of instructions. */
  function Steps(code: seq<Instr>, o: Outcome): Outcome {
    if code == [] then o else After(code[|code| - 1], Steps(code[..|code| - 1], o))
  }

  /** The operations that have an immediate form, and those that have a C-operand form. */
  predicate HasImmediate(op: BinaryOp) {
    op in {ADD, SUB, MUL, AND, OR, XOR, SHL, SHR, SAR}
  }

  predicate HasCOperand(op: BinaryOp) {
    op in {ADD, SUB, MUL, XOR}
  }

  lemma StepsNone(block: seq<Instr>, o: Outcome)
    ensures Steps(block[..0], o) == o
  {
  }

  lemma StepsMore(block: seq<Instr>, n: nat, o: Outcome)
    requires n < |block|
    ensures Steps(block[..n + 1], o) == After(block[n], Steps(block[..n], o))
  {
    assert block[..n + 1][..n] == block[..n];
  }

  lemma {:induction false} StepsConcat(p: seq<Instr>, q: seq<Instr>, o: Outcome)
    ensures Steps(p + q, o) == Steps(q, Steps(p, o))
  {
    hide After;
    if q == [] {
      assert p + q == p;
    } else {
      var r := q[..|q| - 1];
      StepsConcat(p, r, o);
      assert (p + q)[..|p + q| - 1] == p + r;
    }
  }

  lemma StepsOne(i: Instr, o: Outcome)
    ensures Steps([i], o) == After(i, o)
  {
    hide After;
    assert [i][..0] == [];
  }

  lemma UnaryStep(x: Bank, op: UnaryOp, s: Banks<Cell>)
    requires s.Has(x, 0)
    ensures Step(Unary(x, op), s) == Next(s.Replace(x, 0, ApplyUnary(op, s.Peek(x, 0))))
  {
    hide ApplyUnary;
  }

  lemma ImmediateStep(x: Bank, op: BinaryOp, v: Cell, s: Banks<Cell>)
    requires s.Has(x, 0) && HasImmediate(op)
    ensures Step(Immediate(x, op, v), s) == Next(s.Replace(x, 0, Apply(op, s.Peek(x, 0), v)))
  {
    hide Apply;
  }

  lemma PlainBinaryStep(x: Bank, op: BinaryOp, s: Banks<Cell>)
    requires s.Has(x, 0) && s.Has(Opposite(x), 0)
    ensures Step(Binary(x, op), s) ==
      match Combine(op, s.Peek(x, 0), s.Peek(Opposite(x), 0))
      case None => Outcome.Trap(REASON_DIVISION)
      case Some(v) => Next(s.Pop(Opposite(x)).Replace(x, 0, v))
  {
    hide Combine, Banks.At, Banks.Put;
  }

  lemma DropStep(x: Bank, s: Banks<Cell>)
    requires s.Has(x, 0)
    ensures Step(Drop(x), s) == Next(s.Pop(x))
  {
  }

  lemma CheckStep(x: Bank, op: CheckOp, s: Banks<Cell>)
    requires s.Has(x, 0)
    ensures Step(Check(x, op), s) == if Fails(op, s.Peek(x, 0)) then Outcome.Trap(REASON_CONVERSION) else Next(s)
  {
    hide Fails;
  }

  lemma PlainCOperandStep(x: Bank, op: BinaryOp, depth: nat, s: Banks<Cell>)
    requires s.Has(x, 0) && s.Has(C, depth) && HasCOperand(op)
    ensures Step(COperand(x, op, depth), s) == Next(s.Replace(x, 0, Apply(op, s.Peek(x, 0), s.Peek(C, depth))))
  {
    hide Apply;
  }

  lemma CGetStep(x: Bank, depth: nat, s: Banks<Cell>)
    requires s.Has(C, depth)
    ensures Step(CGet(x, depth), s) == Next(s.Push(x, s.Peek(C, depth)))
  {
  }

  lemma CopyStep(x: Bank, s: Banks<Cell>)
    requires s.Has(x, 0)
    ensures Step(Copy(x), s) == Next(s.Push(Opposite(x), s.Peek(x, 0)))
  {
  }

  lemma PushStep(x: Bank, v: Cell, s: Banks<Cell>)
    ensures Step(Push(x, v), s) == Next(s.Push(x, v))
  {
  }

  lemma CPushStep(x: Bank, s: Banks<Cell>)
    requires s.Has(x, 0)
    ensures Step(CPush(x), s) == Next(s.Pop(x).Push(C, s.Peek(x, 0)))
  {
  }

  lemma CSetStep(x: Bank, depth: nat, s: Banks<Cell>)
    requires s.Has(x, 0) && s.Has(C, depth)
    ensures Step(CSet(x, depth), s) == Next(s.Pop(x).Replace(C, depth, s.Peek(x, 0)))
  {
  }

  lemma CPopStep(s: Banks<Cell>)
    requires s.Has(C, 0)
    ensures Step(CPop, s) == Next(s.Pop(C))
  {
  }
}
