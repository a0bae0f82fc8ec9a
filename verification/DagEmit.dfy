/** Re-projecting a value graph onto stack code.

    Nodes are numbered so that operands come before their users.  Nodes with an effect (a range
    check, or a division that may trap) are computed first, in order, and parked on the C stack;
    any other node may be parked too.  Everything else is recomputed where it is used.
 */
module DagEmit {
  import opened Words
  import opened Bytecode

  datatype Node =
    | Input(argument: nat)
    | Literal(value: Cell)
    | UnaryNode(unary: UnaryOp, x: nat)
    | BinaryNode(op: BinaryOp, l: nat, r: nat)
    | CheckNode(check: CheckOp, x: nat)

  type Dag = seq<Node>

  predicate Operands(n: Node, bound: nat) {
    match n
    case Input(_) => true
    case Literal(_) => true
    case UnaryNode(_, x) => x < bound
    case BinaryNode(_, l, r) => l < bound && r < bound
    case CheckNode(_, x) => x < bound
  }

  predicate WellFormed(dag: Dag) {
    forall id | 0 <= id < |dag| :: Operands(dag[id], id)
  }

  predicate Divides(op: BinaryOp) {
    op in {DIVU, DIVS, REMU, REMS}
  }

  /** A division by a known non-zero constant cannot trap and counts as pure. */
  predicate Effect(dag: Dag, id: nat)
    requires WellFormed(dag) && id < |dag|
  {
    match dag[id]
    case CheckNode(_, _) => true
    case BinaryNode(op, _, r) => Divides(op) && !(dag[r].Literal? && dag[r].value != 0)
    case _ => false
  }

  /** The value of a node; a node that traps has no value and is given 0. */
  function Eval(dag: Dag, id: nat, args: seq<Cell>): Cell
    requires WellFormed(dag) && id < |dag|
    decreases id
  {
    match dag[id]
    case Input(a) => if a < |args| then args[a] else 0
    case Literal(v) => v
    case UnaryNode(op, x) => ApplyUnary(op, Eval(dag, x, args))
    case CheckNode(_, x) => Eval(dag, x, args)
    case BinaryNode(op, l, r) =>
      var y := Eval(dag, r, args);
      if Traps(op, y) then 0 else Apply(op, Eval(dag, l, args), y)
  }

  function TrapOf(dag: Dag, id: nat, args: seq<Cell>): Option<nat>
    requires WellFormed(dag) && id < |dag|
  {
    match dag[id]
    case CheckNode(op, x) => if Fails(op, Eval(dag, x, args)) then Some(REASON_CONVERSION) else None
    case BinaryNode(op, l, r) => if Traps(op, Eval(dag, r, args)) then Some(REASON_DIVISION) else None
    case _ => None
  }

  lemma OnlyEffectsTrap(dag: Dag, id: nat, args: seq<Cell>)
    requires WellFormed(dag) && id < |dag| && !Effect(dag, id)
    ensures TrapOf(dag, id, args) == None
  {
  }

  /** Which nodes are parked on C, and where: home 0 is the first parked. */
  datatype Schedule = Schedule(homes: map<nat, nat>, temps: nat, suffix: nat)

  predicate Parked(s: Schedule, id: nat) {
    id in s.homes && s.homes[id] < s.temps
  }

  /** Emitting the node needs no unparked effect. */
  predicate Quiet(dag: Dag, s: Schedule, id: nat)
    requires WellFormed(dag) && id < |dag|
    decreases id
  {
    Parked(s, id) || (!Effect(dag, id) && Supported(dag, s, id))
  }

  predicate Supported(dag: Dag, s: Schedule, id: nat)
    requires WellFormed(dag) && id < |dag|
    decreases id, 0
  {
    match dag[id]
    case Input(_) => true
    case Literal(_) => true
    case UnaryNode(_, x) => Quiet(dag, s, x)
    case CheckNode(_, x) => Quiet(dag, s, x)
    case BinaryNode(_, l, r) => Quiet(dag, s, l) && Quiet(dag, s, r)
  }

  predicate InputsBelow(dag: Dag, arity: nat) {
    forall id | 0 <= id < |dag| :: dag[id].Input? ==> dag[id].argument < arity
  }

  function HomeDepth(s: Schedule, home: nat): int {
    s.temps + s.suffix - 1 - home
  }

  predicate ArgumentAt(s: Schedule, args: seq<Cell>, st: Banks<Cell>, a: nat)
    requires a < |args|
  {
    st.Has(C, s.temps + s.suffix + a) && st.Peek(C, s.temps + s.suffix + a) == args[a]
  }

  predicate HomeAt(dag: Dag, s: Schedule, args: seq<Cell>, st: Banks<Cell>, id: nat)
    requires WellFormed(dag) && id < |dag| && Parked(s, id)
  {
    var d := HomeDepth(s, s.homes[id]);
    d >= 0 && st.Has(C, d) && st.Peek(C, d) == Eval(dag, id, args)
  }

  /** C holds the parked values above the arguments. */
  ghost predicate Holds(dag: Dag, s: Schedule, arity: nat, args: seq<Cell>, st: Banks<Cell>)
    requires WellFormed(dag)
  {
    && |args| == arity
    && (forall a: nat | a < arity :: ArgumentAt(s, args, st, a))
    && (forall id: nat | id < |dag| && Parked(s, id) :: HomeAt(dag, s, args, st, id))
  }

  /** What emitted code for a node must do: push its value, or trap if it is an unparked effect. */
  function Expected(dag: Dag, s: Schedule, id: nat, x: Bank, args: seq<Cell>, st: Banks<Cell>): Outcome
    requires WellFormed(dag) && id < |dag|
  {
    match if Parked(s, id) then None else TrapOf(dag, id, args)
    case Some(reason) => Trap(reason)
    case None => Next(st.Push(x, Eval(dag, id, args)))
  }

  ghost predicate Computes(piece: seq<Instr>, dag: Dag, s: Schedule, arity: nat, id: nat, x: Bank)
    requires WellFormed(dag) && id < |dag|
  {
    forall args: seq<Cell>, st: Banks<Cell> | Holds(dag, s, arity, args, st) ::
      Steps(piece, Next(st)) == Expected(dag, s, id, x, args, st)
  }

  lemma HoldsOn(dag: Dag, s: Schedule, arity: nat, args: seq<Cell>, st: Banks<Cell>, x: Bank, v: Cell)
    requires WellFormed(dag) && Holds(dag, s, arity, args, st)
    ensures Holds(dag, s, arity, args, st.Push(x, v))
  {
    hide Eval;
    var t := st.Push(x, v);
    assert t.At(C) == st.At(C);
    assert forall a: nat | a < arity :: ArgumentAt(s, args, st, a) ==> ArgumentAt(s, args, t, a);
    assert forall id: nat | id < |dag| && Parked(s, id) :: HomeAt(dag, s, args, st, id) ==> HomeAt(dag, s, args, t, id);
  }

  /** A quiet node never traps where it is emitted. */
  lemma QuietExpected(dag: Dag, s: Schedule, id: nat, x: Bank, args: seq<Cell>, st: Banks<Cell>)
    requires WellFormed(dag) && id < |dag| && Quiet(dag, s, id)
    ensures Expected(dag, s, id, x, args, st) == Next(st.Push(x, Eval(dag, id, args)))
  {
    if !Parked(s, id) {
      OnlyEffectsTrap(dag, id, args);
    }
  }

  /** The child's code, then one instruction. */
  lemma ThenOne(piece: seq<Instr>, i: Instr, dag: Dag, s: Schedule, arity: nat, child: nat, x: Bank, args: seq<Cell>,
    st: Banks<Cell>)
    requires WellFormed(dag) && child < |dag| && Quiet(dag, s, child)
    requires Computes(piece, dag, s, arity, child, x) && Holds(dag, s, arity, args, st)
    ensures Steps(piece + [i], Next(st)) == Step(i, st.Push(x, Eval(dag, child, args)))
  {
    hide Step, Holds, Eval;
    QuietExpected(dag, s, child, x, args, st);
    StepsConcat(piece, [i], Next(st));
    StepsOne(i, Steps(piece, Next(st)));
  }

  /** Both children's code in either order, then one instruction. */
  lemma ThenTwo(p: seq<Instr>, q: seq<Instr>, i: Instr, dag: Dag, s: Schedule, arity: nat, l: nat, x: Bank, r: nat,
    y: Bank,
                args: seq<Cell>, st: Banks<Cell>)
    requires WellFormed(dag) && l < |dag| && Quiet(dag, s, l) && r < |dag| && Quiet(dag, s, r) && x != y
    requires Computes(p, dag, s, arity, l, x) && Computes(q, dag, s, arity, r, y) && Holds(dag, s, arity, args, st)
    ensures Steps(p + q + [i], Next(st)) == Step(i, st.Push(x, Eval(dag, l, args)).Push(y, Eval(dag, r, args)))
  {
    hide Step, Holds, Eval;
    QuietExpected(dag, s, l, x, args, st);
    var mid := st.Push(x, Eval(dag, l, args));
    HoldsOn(dag, s, arity, args, st, x, Eval(dag, l, args));
    QuietExpected(dag, s, r, y, args, mid);
    StepsConcat(p + q, [i], Next(st));
    StepsConcat(p, q, Next(st));
    StepsOne(i, Steps(q, Next(mid)));
  }

  lemma PushedPair(st: Banks<Cell>, x: Bank, u: Cell, w: Cell, v: Cell)
    ensures st.Push(x, u).Push(Opposite(x), w) == st.Push(Opposite(x), w).Push(x, u)
    ensures var t := st.Push(x, u).Push(Opposite(x), w);
      && t.Has(x, 0) && t.Peek(x, 0) == u
      && t.Has(Opposite(x), 0) && t.Peek(Opposite(x), 0) == w
      && t.Pop(Opposite(x)).Has(x, 0)
      && t.Pop(Opposite(x)).Replace(x, 0, v) == st.Push(x, v)
  {
    var y := Opposite(x);
    PushedBack(st.Push(x, u), y, w);
    PushedReplace(st, x, u, v);
    PushedApart(st, x, u, w);
  }

  lemma PushedBack(st: Banks<Cell>, x: Bank, u: Cell)
    ensures var t := st.Push(x, u); t.Has(x, 0) && t.Peek(x, 0) == u && t.Pop(x) == st
  {
    assert (st.At(x) + [u])[..|st.At(x)|] == st.At(x);
  }

  lemma PushedApart(st: Banks<Cell>, x: Bank, u: Cell, w: Cell)
    ensures st.Push(x, u).Push(Opposite(x), w) == st.Push(Opposite(x), w).Push(x, u)
    ensures st.Push(x, u).Push(Opposite(x), w).At(x) == st.Push(x, u).At(x)
  {
  }

  lemma PushedReplace(st: Banks<Cell>, x: Bank, u: Cell, v: Cell)
    ensures st.Push(x, u).Has(x, 0) && st.Push(x, u).Peek(x, 0) == u
    ensures st.Push(x, u).Replace(x, 0, v) == st.Push(x, v)
  {
    assert (st.At(x) + [u])[|st.At(x)| := v] == st.At(x) + [v];
  }

  /** A binary instruction on two freshly pushed operands. */
  lemma BinaryOnPushed(st: Banks<Cell>, x: Bank, op: BinaryOp, u: Cell, w: Cell)
    ensures Step(Binary(x, op), st.Push(x, u).Push(Opposite(x), w)) ==
      match Combine(op, u, w) case None => Outcome.Trap(REASON_DIVISION) case Some(v) => Next(st.Push(x, v))
  {
    hide Step, Combine, Banks.At, Banks.Put;
    var t := st.Push(x, u).Push(Opposite(x), w);
    PushedPair(st, x, u, w, 0);
    PlainBinaryStep(x, op, t);
    match Combine(op, u, w)
    case None =>
    case Some(v) => PushedPair(st, x, u, w, v);
  }

  lemma ExpectedBinary(dag: Dag, s: Schedule, id: nat, x: Bank, args: seq<Cell>, st: Banks<Cell>)
    requires WellFormed(dag) && id < |dag| && dag[id].BinaryNode? && !Parked(s, id)
    ensures var n := dag[id];
      Expected(dag, s, id, x, args, st) ==
      match Combine(n.op, Eval(dag, n.l, args), Eval(dag, n.r, args))
      case None => Outcome.Trap(REASON_DIVISION)
      case Some(v) => Next(st.Push(x, v))
  {
    hide Apply, Traps;
  }

  /** Left operand first, right operand on the opposite stack. */
  lemma LeftFirst(p: seq<Instr>, q: seq<Instr>, dag: Dag, s: Schedule, arity: nat, id: nat, x: Bank)
    requires WellFormed(dag) && id < |dag| && dag[id].BinaryNode? && !Parked(s, id) && Supported(dag, s, id)
    requires Computes(p, dag, s, arity, dag[id].l, x) && Computes(q, dag, s, arity, dag[id].r, Opposite(x))
    ensures Computes(p + q + [Binary(x, dag[id].op)], dag, s, arity, id, x)
  {
    hide Step, Steps, Holds, Eval, Combine, Expected;
    var n := dag[id];
    forall args: seq<Cell>, st: Banks<Cell> | Holds(dag, s, arity, args, st)
      ensures Steps(p + q + [Binary(x, n.op)], Next(st)) == Expected(dag, s, id, x, args, st)
    {
      ThenTwo(p, q, Binary(x, n.op), dag, s, arity, n.l, x, n.r, Opposite(x), args, st);
      BinaryOnPushed(st, x, n.op, Eval(dag, n.l, args), Eval(dag, n.r, args));
      ExpectedBinary(dag, s, id, x, args, st);
    }
  }

  /** Right operand first: the operands end up on the same stacks. */
  lemma RightFirst(p: seq<Instr>, q: seq<Instr>, dag: Dag, s: Schedule, arity: nat, id: nat, x: Bank)
    requires WellFormed(dag) && id < |dag| && dag[id].BinaryNode? && !Parked(s, id) && Supported(dag, s, id)
    requires Computes(p, dag, s, arity, dag[id].r, Opposite(x)) && Computes(q, dag, s, arity, dag[id].l, x)
    ensures Computes(p + q + [Binary(x, dag[id].op)], dag, s, arity, id, x)
  {
    hide Step, Steps, Holds, Eval, Combine, Expected;
    var n := dag[id];
    forall args: seq<Cell>, st: Banks<Cell> | Holds(dag, s, arity, args, st)
      ensures Steps(p + q + [Binary(x, n.op)], Next(st)) == Expected(dag, s, id, x, args, st)
    {
      var u, w := Eval(dag, n.l, args), Eval(dag, n.r, args);
      ThenTwo(p, q, Binary(x, n.op), dag, s, arity, n.r, Opposite(x), n.l, x, args, st);
      PushedPair(st, x, u, w, u);
      BinaryOnPushed(st, x, n.op, u, w);
      ExpectedBinary(dag, s, id, x, args, st);
    }
  }

  /** Equal operands: one value, copied across. */
  lemma SameOperand(p: seq<Instr>, dag: Dag, s: Schedule, arity: nat, id: nat, x: Bank)
    requires WellFormed(dag) && id < |dag| && dag[id].BinaryNode? && dag[id].l == dag[id].r
    requires !Parked(s, id) && Supported(dag, s, id) && Computes(p, dag, s, arity, dag[id].l, x)
    ensures Computes(p + [Copy(x)] + [Binary(x, dag[id].op)], dag, s, arity, id, x)
  {
    hide Step, Steps, Holds, Eval, Combine, Expected;
    var n := dag[id];
    forall args: seq<Cell>, st: Banks<Cell> | Holds(dag, s, arity, args, st)
      ensures Steps(p + [Copy(x)] + [Binary(x, n.op)], Next(st)) == Expected(dag, s, id, x, args, st)
    {
      var u := Eval(dag, n.l, args);
      ThenOne(p, Copy(x), dag, s, arity, n.l, x, args, st);
      PushedReplace(st, x, u, u);
      CopyStep(x, st.Push(x, u));
      StepsConcat(p + [Copy(x)], [Binary(x, n.op)], Next(st));
      StepsOne(Binary(x, n.op), Steps(p + [Copy(x)], Next(st)));
      BinaryOnPushed(st, x, n.op, u, u);
      ExpectedBinary(dag, s, id, x, args, st);
    }
  }

  lemma CombineTotal(op: BinaryOp, u: Cell, w: Cell)
    requires HasImmediate(op)
    ensures Combine(op, u, w) == Some(Apply(op, u, w))
  {
    hide Apply;
  }

  /** Right operand read from C. */
  lemma FromFrame(p: seq<Instr>, depth: nat, dag: Dag, s: Schedule, arity: nat, id: nat, x: Bank)
    requires WellFormed(dag) && id < |dag| && dag[id].BinaryNode? && !Parked(s, id) && Supported(dag, s, id)
    requires HasCOperand(dag[id].op) && Computes(p, dag, s, arity, dag[id].l, x)
    requires InputsBelow(dag, arity) && CReference(dag, s, dag[id].r) == Some(depth)
    ensures Computes(p + [COperand(x, dag[id].op, depth)], dag, s, arity, id, x)
  {
    hide Step, Steps, Eval, Combine, Expected, Apply;
    var n := dag[id];
    forall args: seq<Cell>, st: Banks<Cell> | Holds(dag, s, arity, args, st)
      ensures Steps(p + [COperand(x, n.op, depth)], Next(st)) == Expected(dag, s, id, x, args, st)
    {
      var u := Eval(dag, n.l, args);
      var t := st.Push(x, u);
      ThenOne(p, COperand(x, n.op, depth), dag, s, arity, n.l, x, args, st);
      HoldsOn(dag, s, arity, args, st, x, u);
      Referenced(dag, s, arity, n.r, depth, args, t);
      PushedReplace(st, x, u, Apply(n.op, u, Eval(dag, n.r, args)));
      PlainCOperandStep(x, n.op, depth, t);
      CombineTotal(n.op, u, Eval(dag, n.r, args));
      ExpectedBinary(dag, s, id, x, args, st);
    }
  }

  /** Right operand a small literal. */
  lemma FromLiteral(p: seq<Instr>, dag: Dag, s: Schedule, arity: nat, id: nat, x: Bank)
    requires WellFormed(dag) && id < |dag| && dag[id].BinaryNode? && !Parked(s, id) && Supported(dag, s, id)
    requires HasImmediate(dag[id].op) && Computes(p, dag, s, arity, dag[id].l, x) && dag[dag[id].r].Literal?
    ensures Computes(p + [Immediate(x, dag[id].op, dag[dag[id].r].value)], dag, s, arity, id, x)
  {
    hide Step, Steps, Holds, Combine, Expected, Apply;
    var n := dag[id];
    var v := dag[n.r].value;
    forall args: seq<Cell>, st: Banks<Cell> | Holds(dag, s, arity, args, st)
      ensures Steps(p + [Immediate(x, n.op, v)], Next(st)) == Expected(dag, s, id, x, args, st)
    {
      var u := Eval(dag, n.l, args);
      ThenOne(p, Immediate(x, n.op, v), dag, s, arity, n.l, x, args, st);
      PushedReplace(st, x, u, Apply(n.op, u, v));
      ImmediateStep(x, n.op, v, st.Push(x, u));
      CombineTotal(n.op, u, v);
      ExpectedBinary(dag, s, id, x, args, st);
    }
  }

  /** A unary operation or check applied to its operand's code. */
  lemma OnOperand(p: seq<Instr>, dag: Dag, s: Schedule, arity: nat, id: nat, x: Bank)
    requires WellFormed(dag) && id < |dag| && (dag[id].UnaryNode? || dag[id].CheckNode?)
    requires !Parked(s, id) && Supported(dag, s, id) && Computes(p, dag, s, arity, dag[id].x, x)
    ensures Computes(p + [OperandInstr(dag[id], x)], dag, s, arity, id, x)
  {
    hide Step, Steps, Holds, ApplyUnary, Fails;
    var n := dag[id];
    forall args: seq<Cell>, st: Banks<Cell> | Holds(dag, s, arity, args, st)
      ensures Steps(p + [OperandInstr(n, x)], Next(st)) == Expected(dag, s, id, x, args, st)
    {
      var u := Eval(dag, n.x, args);
      ThenOne(p, OperandInstr(n, x), dag, s, arity, n.x, x, args, st);
      if n.UnaryNode? {
        PushedReplace(st, x, u, ApplyUnary(n.unary, u));
        UnaryStep(x, n.unary, st.Push(x, u));
      } else {
        PushedReplace(st, x, u, u);
        CheckStep(x, n.check, st.Push(x, u));
      }
    }
  }

  function OperandInstr(n: Node, x: Bank): Instr
    requires n.UnaryNode? || n.CheckNode?
  {
    if n.UnaryNode? then Unary(x, n.unary) else Check(x, n.check)
  }

  /** The C depth of an argument or a parked value, when an instruction can encode it. */
  function CReference(dag: Dag, s: Schedule, id: nat): Option<nat>
    requires id < |dag|
  {
    if dag[id].Input? then
      if s.temps + s.suffix + dag[id].argument <= 255 then Some(s.temps + s.suffix + dag[id].argument) else None
    else if Parked(s, id) && HomeDepth(s, s.homes[id]) <= 255 then Some(HomeDepth(s, s.homes[id]))
    else None
  }

  lemma Referenced(dag: Dag, s: Schedule, arity: nat, id: nat, depth: nat, args: seq<Cell>, st: Banks<Cell>)
    requires WellFormed(dag) && InputsBelow(dag, arity) && id < |dag| && CReference(dag, s, id) == Some(depth)
    requires Holds(dag, s, arity, args, st)
    ensures st.Has(C, depth) && st.Peek(C, depth) == Eval(dag, id, args)
  {
    if dag[id].Input? {
      var a := dag[id].argument;
      assert ArgumentAt(s, args, st, a);
    } else {
      hide Eval;
      assert HomeAt(dag, s, args, st, id);
    }
  }

  lemma ReadReference(dag: Dag, s: Schedule, arity: nat, id: nat, depth: nat, x: Bank)
    requires WellFormed(dag) && InputsBelow(dag, arity) && id < |dag| && CReference(dag, s, id) == Some(depth)
    ensures Computes([CGet(x, depth)], dag, s, arity, id, x)
  {
    hide Step, Steps, Eval;
    forall args: seq<Cell>, st: Banks<Cell> | Holds(dag, s, arity, args, st)
      ensures Steps([CGet(x, depth)], Next(st)) == Expected(dag, s, id, x, args, st)
    {
      Referenced(dag, s, arity, id, depth, args, st);
      StepsOne(CGet(x, depth), Next(st));
      CGetStep(x, depth, st);
    }
  }

  lemma PushLiteral(dag: Dag, s: Schedule, arity: nat, id: nat, x: Bank)
    requires WellFormed(dag) && id < |dag| && dag[id].Literal?
    ensures Computes([Push(x, dag[id].value)], dag, s, arity, id, x)
  {
    hide Step, Steps;
    forall args: seq<Cell>, st: Banks<Cell> | Holds(dag, s, arity, args, st)
      ensures Steps([Push(x, dag[id].value)], Next(st)) == Expected(dag, s, id, x, args, st)
    {
      StepsOne(Push(x, dag[id].value), Next(st));
      PushStep(x, dag[id].value, st);
    }
  }

  datatype Condition =
    | Zero(bank: Bank, relation: Relation)
    | Compare(bank: Bank, relation: Relation)
    | CompareImmediate(bank: Bank, relation: Relation, reverse: bool, value: Cell)

  /** Emitted code: straight-line instructions and control, displacements relative to the next line. */
  datatype Line =
    | Plain(instr: Instr)
    | JumpIf(condition: Condition, displacement: int)
    | Jump(displacement: int)
    | Return(bank: Bank, frame: nat, results: nat)

  function Plains(piece: seq<Instr>): seq<Line> {
    seq(|piece|, (i: nat) requires i < |piece| => Plain(piece[i]))
  }

  lemma PlainsConcat(p: seq<Instr>, q: seq<Instr>)
    ensures Plains(p + q) == Plains(p) + Plains(q)
  {
  }

  predicate Signed8(v: Cell) {
    -128 <= SignedOf(v) <= 127
  }

  datatype Operand = Known(value: Cell) | NodeOperand(id: nat)

  predicate OperandOk(dag: Dag, o: Operand) {
    o.NodeOperand? ==> o.id < |dag|
  }

  function OperandValue(dag: Dag, o: Operand, args: seq<Cell>): Cell
    requires WellFormed(dag) && OperandOk(dag, o)
  {
    match o case Known(v) => v case NodeOperand(id) => Eval(dag, id, args)
  }

  ghost predicate Pushes(piece: seq<Instr>, dag: Dag, s: Schedule, arity: nat, o: Operand, x: Bank)
    requires WellFormed(dag) && OperandOk(dag, o)
  {
    forall args: seq<Cell>, st: Banks<Cell> | Holds(dag, s, arity, args, st) ::
      Steps(piece, Next(st)) == Next(st.Push(x, OperandValue(dag, o, args)))
  }

  lemma QuietPushes(piece: seq<Instr>, dag: Dag, s: Schedule, arity: nat, id: nat, x: Bank)
    requires WellFormed(dag) && id < |dag| && Quiet(dag, s, id) && Computes(piece, dag, s, arity, id, x)
    ensures Pushes(piece, dag, s, arity, NodeOperand(id), x)
  {
    hide Steps, Holds;
    forall args: seq<Cell>, st: Banks<Cell> | Holds(dag, s, arity, args, st)
      ensures Steps(piece, Next(st)) == Next(st.Push(x, OperandValue(dag, NodeOperand(id), args)))
    {
      QuietExpected(dag, s, id, x, args, st);
    }
  }

  lemma KnownPushes(v: Cell, dag: Dag, s: Schedule, arity: nat, x: Bank)
    requires WellFormed(dag)
    ensures Pushes([Push(x, v)], dag, s, arity, Known(v), x)
  {
    hide Step, Steps, Holds;
    forall args: seq<Cell>, st: Banks<Cell> | Holds(dag, s, arity, args, st)
      ensures Steps([Push(x, v)], Next(st)) == Next(st.Push(x, v))
    {
      StepsOne(Push(x, v), Next(st));
      PushStep(x, v, st);
    }
  }

  /** The first effect below `bound` that traps, if any. */
  function FirstTrap(dag: Dag, bound: nat, args: seq<Cell>): Option<nat>
    requires WellFormed(dag) && bound <= |dag|
  {
    if bound == 0 then None
    else
      var earlier := FirstTrap(dag, bound - 1, args);
      if earlier.Some? then earlier
      else if Effect(dag, bound - 1) then TrapOf(dag, bound - 1, args)
      else None
  }

  predicate EffectsParked(dag: Dag, s: Schedule, bound: nat)
    requires WellFormed(dag) && bound <= |dag|
  {
    forall id | 0 <= id < bound :: Effect(dag, id) ==> Parked(s, id)
  }

  lemma {:induction false} EffectsQuiet(dag: Dag, s: Schedule, bound: nat, id: nat)
    requires WellFormed(dag) && bound <= |dag| && EffectsParked(dag, s, bound) && id < bound
    ensures Quiet(dag, s, id) && Supported(dag, s, id)
  {
    match dag[id]
    case Input(_) =>
    case Literal(_) =>
    case UnaryNode(_, x) => EffectsQuiet(dag, s, bound, x);
    case CheckNode(_, x) => EffectsQuiet(dag, s, bound, x);
    case BinaryNode(_, l, r) =>
      EffectsQuiet(dag, s, bound, l);
      EffectsQuiet(dag, s, bound, r);
  }

  /** The next node's operands are quiet once all earlier effects are parked. */
  lemma NextSupported(dag: Dag, s: Schedule, id: nat)
    requires WellFormed(dag) && id < |dag| && EffectsParked(dag, s, id)
    ensures Supported(dag, s, id)
  {
    match dag[id]
    case Input(_) =>
    case Literal(_) =>
    case UnaryNode(_, x) => EffectsQuiet(dag, s, id, x);
    case CheckNode(_, x) => EffectsQuiet(dag, s, id, x);
    case BinaryNode(_, l, r) =>
      EffectsQuiet(dag, s, id, l);
      EffectsQuiet(dag, s, id, r);
  }

  function ParkedValues(dag: Dag, order: seq<nat>, args: seq<Cell>): seq<Cell>
    requires WellFormed(dag) && forall i | 0 <= i < |order| :: order[i] < |dag|
  {
    seq(|order|, (i: nat) requires i < |order| => Eval(dag, order[i], args))
  }

  /** Argument 0 on top of C, then one cell for each parked node. */
  function Frame(dag: Dag, order: seq<nat>, args: seq<Cell>): Banks<Cell>
    requires WellFormed(dag) && forall i | 0 <= i < |order| :: order[i] < |dag|
  {
    Banks([], [], Reversed(args) + ParkedValues(dag, order, args))
  }

  function Entry(args: seq<Cell>): Banks<Cell> {
    Banks([], [], Reversed(args))
  }

  /** `order` lists the parked nodes by home. */
  predicate Ordered(dag: Dag, s: Schedule, order: seq<nat>) {
    && |order| == s.temps
    && (forall i | 0 <= i < |order| :: order[i] < |dag| && order[i] in s.homes && s.homes[order[i]] == i)
    && (forall id | id in s.homes :: s.homes[id] < |order| && order[s.homes[id]] == id)
  }

  lemma FrameHolds(dag: Dag, s: Schedule, order: seq<nat>, arity: nat, args: seq<Cell>)
    requires WellFormed(dag) && Ordered(dag, s, order) && |args| == arity && s.suffix == 0
    ensures Holds(dag, s, arity, args, Frame(dag, order, args))
  {
    hide Eval;
    var st := Frame(dag, order, args);
    assert |st.At(C)| == arity + s.temps;
    forall a: nat | a < arity ensures ArgumentAt(s, args, st, a) {
      assert st.Peek(C, s.temps + a) == Reversed(args)[arity - 1 - a];
    }
    forall id: nat | id < |dag| && Parked(s, id) ensures HomeAt(dag, s, args, st, id) {
      assert st.Peek(C, HomeDepth(s, s.homes[id])) == ParkedValues(dag, order, args)[s.homes[id]];
    }
  }

  /** Parking the next node: its code, then a move to C. */
  lemma ParkStep(piece: seq<Instr>, dag: Dag, s: Schedule, order: seq<nat>, arity: nat, id: nat, args: seq<Cell>)
    requires WellFormed(dag) && Ordered(dag, s, order) && |args| == arity && s.suffix == 0
    requires id < |dag| && !Parked(s, id) && Computes(piece, dag, s, arity, id, A)
    ensures Steps(piece + [CPush(A)], Next(Frame(dag, order, args))) ==
      match TrapOf(dag, id, args)
      case Some(reason) => Outcome.Trap(reason)
      case None => Next(Frame(dag, order + [id], args))
  {
    hide Step, Steps, Holds, Eval, TrapOf;
    var st := Frame(dag, order, args);
    FrameHolds(dag, s, order, arity, args);
    StepsConcat(piece, [CPush(A)], Next(st));
    StepsOne(CPush(A), Steps(piece, Next(st)));
    var v := Eval(dag, id, args);
    CPushStep(A, st.Push(A, v));
    PushMoved(st, v);
    ParkedMore(dag, order, id, args);
    assert st.Push(C, v) == Frame(dag, order + [id], args);
  }

  lemma PushMoved(st: Banks<Cell>, v: Cell)
    ensures st.Push(A, v).Has(A, 0) && st.Push(A, v).Peek(A, 0) == v && st.Push(A, v).Pop(A) == st
  {
    assert (st.a + [v])[..|st.a|] == st.a;
  }

  lemma ParkedMore(dag: Dag, order: seq<nat>, id: nat, args: seq<Cell>)
    requires WellFormed(dag) && (forall i | 0 <= i < |order| :: order[i] < |dag|) && id < |dag|
    ensures Reversed(args) + ParkedValues(dag, order + [id], args) ==
      Reversed(args) + ParkedValues(dag, order, args) + [Eval(dag, id, args)]
  {
    hide Eval;
    assert ParkedValues(dag, order + [id], args) == ParkedValues(dag, order, args) + [Eval(dag, id, args)];
  }

  /** The prologue up to `bound`: from entry to the frame of parked values, or to the first trap. */
  ghost predicate Prepares(piece: seq<Instr>, dag: Dag, order: seq<nat>, arity: nat, bound: nat)
    requires WellFormed(dag) && bound <= |dag| && forall i | 0 <= i < |order| :: order[i] < |dag|
  {
    forall args: seq<Cell> | |args| == arity ::
      Steps(piece, Next(Entry(args))) ==
        match FirstTrap(dag, bound, args)
        case Some(reason) => Outcome.Trap(reason)
        case None => Next(Frame(dag, order, args))
  }

  lemma PrepareNone(dag: Dag, arity: nat)
    requires WellFormed(dag)
    ensures Prepares([], dag, [], arity, 0)
  {
    forall args: seq<Cell> | |args| == arity
      ensures Steps([], Next(Entry(args))) == Next(Frame(dag, [], args))
    {
      assert Reversed(args) + ParkedValues(dag, [], args) == Reversed(args);
    }
  }

  lemma PrepareSkip(piece: seq<Instr>, dag: Dag, order: seq<nat>, arity: nat, id: nat)
    requires WellFormed(dag) && id < |dag| && !Effect(dag, id)
    requires (forall i | 0 <= i < |order| :: order[i] < |dag|) && Prepares(piece, dag, order, arity, id)
    ensures Prepares(piece, dag, order, arity, id + 1)
  {
    hide Steps, Effect;
    forall args: seq<Cell> | |args| == arity
      ensures FirstTrap(dag, id + 1, args) == FirstTrap(dag, id, args)
    {
    }
  }

  lemma StepsTrap(piece: seq<Instr>, reason: nat)
    ensures Steps(piece, Outcome.Trap(reason)) == Outcome.Trap(reason)
  {
    hide Step;
  }

  lemma PreparePark(piece: seq<Instr>, more: seq<Instr>, dag: Dag, s: Schedule, order: seq<nat>, arity: nat, id: nat)
    requires WellFormed(dag) && Ordered(dag, s, order) && s.suffix == 0
    requires id < |dag| && !Parked(s, id) && Computes(more, dag, s, arity, id, A)
    requires Prepares(piece, dag, order, arity, id)
    ensures Prepares(piece + (more + [CPush(A)]), dag, order + [id], arity, id + 1)
  {
    hide Step, Steps, Holds, Eval, TrapOf, Effect, Frame, Entry;
    var q := more + [CPush(A)];
    forall args: seq<Cell> | |args| == arity
      ensures Steps(piece + q, Next(Entry(args))) ==
        match FirstTrap(dag, id + 1, args)
        case Some(reason) => Outcome.Trap(reason)
        case None => Next(Frame(dag, order + [id], args))
    {
      StepsConcat(piece, q, Next(Entry(args)));
      match FirstTrap(dag, id, args)
      case Some(reason) => StepsTrap(q, reason);
      case None =>
        ParkStep(more, dag, s, order, arity, id, args);
        if !Effect(dag, id) {
          OnlyEffectsTrap(dag, id, args);
        }
    }
  }

  // ----- control -----

  datatype Control =
    | ZeroControl(bank: Bank, relation: Relation, left: Operand)
    | IntegerControl(bank: Bank, relation: Relation, left: Operand, right: Operand)
    | ImmediateControl(bank: Bank, relation: Relation, reverse: bool, left: Operand, value: Cell)

  /** A residual decision tree: results, the next iteration's arguments, or a two-way branch. */
  datatype Tree =
    | Leaf(bank: Bank, results: seq<Operand>)
    | Back(results: seq<Operand>)
    | Fork(control: Control, fallthrough: Tree, taken: Tree)

  predicate ControlOk(dag: Dag, c: Control) {
    OperandOk(dag, c.left) && (c.IntegerControl? ==> OperandOk(dag, c.right))
  }

  predicate TreeOk(dag: Dag, arity: nat, t: Tree) {
    match t
    case Leaf(_, results) => forall i | 0 <= i < |results| :: OperandOk(dag, results[i])
    case Back(results) => |results| == arity && forall i | 0 <= i < |results| :: OperandOk(dag, results[i])
    case Fork(c, f, g) => ControlOk(dag, c) && TreeOk(dag, arity, f) && TreeOk(dag, arity, g)
  }

  function Values(dag: Dag, results: seq<Operand>, args: seq<Cell>): seq<Cell>
    requires WellFormed(dag) && forall i | 0 <= i < |results| :: OperandOk(dag, results[i])
  {
    seq(|results|, (i: nat) requires i < |results| => OperandValue(dag, results[i], args))
  }

  predicate Taken(dag: Dag, c: Control, args: seq<Cell>)
    requires WellFormed(dag) && ControlOk(dag, c)
  {
    var u := OperandValue(dag, c.left, args);
    match c
    case ZeroControl(_, relation, _) => Related(relation, u, 0)
    case IntegerControl(_, relation, _, right) => Related(relation, u, OperandValue(dag, right, args))
    case ImmediateControl(_, relation, reverse, _, v) =>
      if reverse then Related(relation, v, u) else Related(relation, u, v)
  }

  /** One pass over a function body: results, another pass with new arguments, or a trap. */
  datatype Result = Returned(values: seq<Cell>) | Restarted(stacks: Banks<Cell>) | Trapped(reason: nat) | Wrong

  function EvalTree(dag: Dag, arity: nat, t: Tree, args: seq<Cell>): Result
    requires WellFormed(dag) && TreeOk(dag, arity, t)
  {
    match t
    case Leaf(_, results) => Returned(Values(dag, results, args))
    case Back(results) => Restarted(Entry(Values(dag, results, args)))
    case Fork(c, f, g) => if Taken(dag, c, args) then EvalTree(dag, arity, g, args) else EvalTree(dag, arity, f, args)
  }

  predicate ConditionReady(c: Condition, st: Banks<Cell>) {
    st.Has(c.bank, 0) && (c.Compare? ==> st.Has(Opposite(c.bank), 0))
  }

  predicate ConditionTaken(c: Condition, st: Banks<Cell>)
    requires ConditionReady(c, st)
  {
    var u := st.Peek(c.bank, 0);
    match c
    case Zero(_, relation) => Related(relation, u, 0)
    case Compare(x, relation) => Related(relation, u, st.Peek(Opposite(x), 0))
    case CompareImmediate(_, relation, reverse, v) =>
      if reverse then Related(relation, v, u) else Related(relation, u, v)
  }

  function ConditionConsumed(c: Condition, st: Banks<Cell>): Banks<Cell>
    requires ConditionReady(c, st)
  {
    if c.Compare? then st.Pop(c.bank).Pop(Opposite(c.bank)) else st.Pop(c.bank)
  }

  /** Run emitted lines from `pc` until the function returns, traps or jumps back to its start. */
  function ExecFrom(code: seq<Line>, pc: nat, st: Banks<Cell>): Result
    decreases |code| - pc, 1
  {
    if pc >= |code| then Wrong else
    match code[pc]
    case Plain(i) =>
      (match Step(i, st)
       case Next(n) => ExecFrom(code, pc + 1, n)
       case Trap(reason) => Trapped(reason)
       case Stuck => Wrong)
    case JumpIf(c, d) =>
      if !ConditionReady(c, st) then Wrong
      else if ConditionTaken(c, st) then Land(code, pc, pc + 1 + d, ConditionConsumed(c, st))
      else ExecFrom(code, pc + 1, ConditionConsumed(c, st))
    case Jump(d) => Land(code, pc, pc + 1 + d, st)
    case Return(x, frame, results) =>
      if |st.c| == frame && |st.At(x)| == results && st.At(Opposite(x)) == [] then Returned(st.At(x)) else Wrong
  }

  function Land(code: seq<Line>, from: nat, target: int, st: Banks<Cell>): Result
    requires from < |code|
    decreases |code| - from, 0
  {
    if target == 0 then Restarted(st)
    else if target > from then ExecFrom(code, target, st)
    else Wrong
  }

  predicate Contains(code: seq<Line>, at: nat, tail: seq<Line>) {
    at + |tail| <= |code| && code[at..at + |tail|] == tail
  }

  lemma ContainsParts(code: seq<Line>, at: nat, p: seq<Line>, q: seq<Line>)
    ensures Contains(code, at, p + q) <==> Contains(code, at, p) && Contains(code, at + |p|, q)
  {
    if Contains(code, at, p + q) {
      assert code[at..at + |p|] == (p + q)[..|p|];
      assert code[at + |p|..at + |p| + |q|] == (p + q)[|p|..];
    }
    if Contains(code, at, p) && Contains(code, at + |p|, q) {
      assert code[at..at + |p + q|] == code[at..at + |p|] + code[at + |p|..at + |p| + |q|];
    }
  }

  function Resume(code: seq<Line>, pc: nat, o: Outcome): Result {
    match o
    case Next(st) => ExecFrom(code, pc, st)
    case Trap(reason) => Trapped(reason)
    case Stuck => Wrong
  }

  /** Straight-line code embedded in a body runs as `Steps` says. */
  lemma {:induction false} ExecPlains(code: seq<Line>, at: nat, p: seq<Instr>, st: Banks<Cell>)
    requires Contains(code, at, Plains(p))
    ensures ExecFrom(code, at, st) == Resume(code, at + |p|, Steps(p, Next(st)))
  {
    hide Step;
    if p != [] {
      var q, i := p[..|p| - 1], p[|p| - 1];
      assert p == q + [i];
      PlainsConcat(q, [i]);
      ContainsParts(code, at, Plains(q), Plains([i]));
      ExecPlains(code, at, q, st);
      assert code[at + |q|] == Plain(i);
    }
  }

  /** Wherever `tail` sits in a body, running it from the frame gives the tree's result. */
  ghost predicate Realizes(tail: seq<Line>, at: nat, dag: Dag, order: seq<nat>, arity: nat, t: Tree)
    requires WellFormed(dag) && TreeOk(dag, arity, t) && forall i | 0 <= i < |order| :: order[i] < |dag|
  {
    forall code: seq<Line>, args: seq<Cell> | Contains(code, at, tail) && |args| == arity ::
      ExecFrom(code, at, Frame(dag, order, args)) == EvalTree(dag, arity, t, args)
  }

  lemma RealizesAt(tail: seq<Line>, at: nat, dag: Dag, order: seq<nat>, arity: nat, t: Tree, code: seq<Line>,
    args: seq<Cell>)
    requires WellFormed(dag) && TreeOk(dag, arity, t) && forall i | 0 <= i < |order| :: order[i] < |dag|
    requires Realizes(tail, at, dag, order, arity, t) && Contains(code, at, tail) && |args| == arity
    ensures ExecFrom(code, at, Frame(dag, order, args)) == EvalTree(dag, arity, t, args)
  {
    hide Contains, Frame, EvalTree, ExecFrom;
  }

  lemma ForkAt(test: seq<Instr>, c: Condition, f: seq<Line>, g: seq<Line>, at: nat,
               dag: Dag, s: Schedule, order: seq<nat>, arity: nat, control: Control, ft: Tree, gt: Tree,
               code: seq<Line>, args: seq<Cell>)
    requires WellFormed(dag) && Ordered(dag, s, order) && s.suffix == 0
    requires TreeOk(dag, arity, Fork(control, ft, gt))
    requires Tests(test, c, dag, s, arity, control)
    requires Realizes(f, at + |test| + 1, dag, order, arity, ft)
    requires Realizes(g, at + |test| + 1 + |f|, dag, order, arity, gt)
    requires Contains(code, at, Plains(test) + [JumpIf(c, |f|)] + f + g) && |args| == arity
    ensures ExecFrom(code, at, Frame(dag, order, args)) == EvalTree(dag, arity, Fork(control, ft, gt), args)
  {
    hide *;
    OrderedIn(dag, s, order);
    var st, pc := Frame(dag, order, args), at + |test|;
    var o := Steps(test, Next(st));
    ForkOk(dag, arity, control, ft, gt);
    FrameHolds(dag, s, order, arity, args);
    ForkParts(code, at, test, c, f, g);
    ExecPlains(code, at, test, st);
    TestsAt(test, c, dag, s, arity, control, args, st);
    ResumeNext(code, pc, o);
    JumpRun(code, pc, c, |f|, o.stacks);
    ForkValue(dag, arity, control, ft, gt, args);
    if ConditionTaken(c, o.stacks) {
      RealizesAt(g, pc + 1 + |f|, dag, order, arity, gt, code, args);
    } else {
      RealizesAt(f, pc + 1, dag, order, arity, ft, code, args);
    }
  }

  lemma OrderedIn(dag: Dag, s: Schedule, order: seq<nat>)
    requires Ordered(dag, s, order)
    ensures forall i | 0 <= i < |order| :: order[i] < |dag|
  {
  }

  lemma ForkOk(dag: Dag, arity: nat, control: Control, f: Tree, g: Tree)
    requires WellFormed(dag) && TreeOk(dag, arity, Fork(control, f, g))
    ensures ControlOk(dag, control) && TreeOk(dag, arity, f) && TreeOk(dag, arity, g)
  {
  }

  lemma ForkValue(dag: Dag, arity: nat, control: Control, f: Tree, g: Tree, args: seq<Cell>)
    requires WellFormed(dag) && TreeOk(dag, arity, Fork(control, f, g)) && |args| == arity
    requires ControlOk(dag, control) && TreeOk(dag, arity, f) && TreeOk(dag, arity, g)
    ensures EvalTree(dag, arity, Fork(control, f, g), args) ==
      if Taken(dag, control, args) then EvalTree(dag, arity, g, args) else EvalTree(dag, arity, f, args)
  {
    hide Taken;
  }

  lemma ResumeNext(code: seq<Line>, pc: nat, o: Outcome)
    requires o.Next?
    ensures Resume(code, pc, o) == ExecFrom(code, pc, o.stacks)
  {
    hide ExecFrom;
  }

  /** Where the parts of a fork lie. */
  lemma ForkParts(code: seq<Line>, at: nat, test: seq<Instr>, c: Condition, f: seq<Line>, g: seq<Line>)
    requires Contains(code, at, Plains(test) + [JumpIf(c, |f|)] + f + g)
    ensures var pc := at + |test|;
      && Contains(code, at, Plains(test)) && pc < |code| && code[pc] == JumpIf(c, |f|)
      && Contains(code, pc + 1, f) && Contains(code, pc + 1 + |f|, g)
  {
    hide Plains, Contains;
    var jump := [JumpIf(c, |f|)];
    PlainsLength(test);
    ContainsParts(code, at, Plains(test) + jump + f, g);
    ContainsParts(code, at, Plains(test) + jump, f);
    ContainsParts(code, at, Plains(test), jump);
    ContainsOne(code, at + |test|, JumpIf(c, |f|));
  }

  lemma ContainsOne(code: seq<Line>, at: nat, i: Line)
    requires Contains(code, at, [i])
    ensures at < |code| && code[at] == i
  {
    assert code[at] == code[at..at + 1][0];
  }

  /** A conditional jump forwards. */
  lemma JumpRun(code: seq<Line>, pc: nat, c: Condition, d: nat, st: Banks<Cell>)
    requires pc < |code| && code[pc] == JumpIf(c, d) && ConditionReady(c, st)
    ensures ExecFrom(code, pc, st) ==
      ExecFrom(code, if ConditionTaken(c, st) then pc + 1 + d else pc + 1, ConditionConsumed(c, st))
  {
    hide ConditionTaken, ConditionReady, ConditionConsumed, Step;
  }

  /** The condition's operand code, the jump, the fallthrough and the taken branch. */
  lemma ForkRealizes(test: seq<Instr>, c: Condition, f: seq<Line>, g: seq<Line>, at: nat,
                     dag: Dag, s: Schedule, order: seq<nat>, arity: nat, control: Control, ft: Tree, gt: Tree)
    requires WellFormed(dag) && Ordered(dag, s, order) && s.suffix == 0
    requires TreeOk(dag, arity, Fork(control, ft, gt))
    requires Tests(test, c, dag, s, arity, control)
    requires Realizes(f, at + |test| + 1, dag, order, arity, ft)
    requires Realizes(g, at + |test| + 1 + |f|, dag, order, arity, gt)
    ensures Realizes(Plains(test) + [JumpIf(c, |f|)] + f + g, at, dag, order, arity, Fork(control, ft, gt))
  {
    hide Steps, Step, Eval, Frame, Holds, Plains, Tests, Contains, ExecFrom, EvalTree;
    var tail := Plains(test) + [JumpIf(c, |f|)] + f + g;
    forall code: seq<Line>, args: seq<Cell> | Contains(code, at, tail) && |args| == arity
      ensures ExecFrom(code, at, Frame(dag, order, args)) == EvalTree(dag, arity, Fork(control, ft, gt), args)
    {
      ForkAt(test, c, f, g, at, dag, s, order, arity, control, ft, gt, code, args);
    }
  }

  lemma PlainsLength(p: seq<Instr>)
    ensures |Plains(p)| == |p|
  {
  }

  /** `test` pushes what condition `c` consumes, and `c` is taken exactly when the control is. */
  ghost predicate Tests(test: seq<Instr>, c: Condition, dag: Dag, s: Schedule, arity: nat, control: Control)
    requires WellFormed(dag) && ControlOk(dag, control)
  {
    forall args: seq<Cell>, st: Banks<Cell> | Holds(dag, s, arity, args, st) ::
      var o := Steps(test, Next(st));
      && o.Next? && ConditionReady(c, o.stacks)
      && ConditionConsumed(c, o.stacks) == st
      && (ConditionTaken(c, o.stacks) <==> Taken(dag, control, args))
  }

  lemma TestsAt(test: seq<Instr>, c: Condition, dag: Dag, s: Schedule, arity: nat, control: Control, args: seq<Cell>,
    st: Banks<Cell>)
    requires WellFormed(dag) && ControlOk(dag, control) && Tests(test, c, dag, s, arity, control)
    requires Holds(dag, s, arity, args, st)
    ensures var o := Steps(test, Next(st));
      && o.Next? && ConditionReady(c, o.stacks)
      && ConditionConsumed(c, o.stacks) == st
      && (ConditionTaken(c, o.stacks) <==> Taken(dag, control, args))
  {
    hide Steps, Holds, Taken, ConditionTaken;
  }

  /** The compare-and-branch a zero test of a comparison fuses into, for taken-when-true and -false. */
  function FusedRelation(op: BinaryOp, truth: bool): Option<(Relation, bool)> {
    match op
    case EQ => Some((if truth then RelEQ else RelNE, false))
    case NE => Some((if truth then RelNE else RelEQ, false))
    case LT => Some(if truth then (RelLT, false) else (RelLE, true))
    case LE => Some(if truth then (RelLE, false) else (RelLT, true))
    case LTU => Some(if truth then (RelLTU, false) else (RelLEU, true))
    case LEU => Some(if truth then (RelLEU, false) else (RelLTU, true))
    case _ => None
  }

  lemma ComplementSigned(u: Cell, w: Cell)
    ensures SignedLess(u, w) <==> !SignedLessEqual(w, u)
  {}

  predicate Compares(op: BinaryOp) {
    op in {EQ, NE, LT, LE, LTU, LEU}
  }

  predicate ComparisonHolds(op: BinaryOp, u: Cell, w: Cell)
    requires Compares(op)
  {
    match op
    case EQ => u == w
    case NE => u != w
    case LT => SignedLess(u, w)
    case LE => SignedLessEqual(u, w)
    case LTU => UnsignedLess(u, w)
    case LEU => !UnsignedLess(w, u)
  }

  lemma ComparisonTruth(op: BinaryOp, u: Cell, w: Cell)
    requires Compares(op)
    ensures Apply(op, u, w) == Truth(ComparisonHolds(op, u, w))
  {
    hide SignedLess, SignedLessEqual, UnsignedLess, Truth, Product, Quotient, Remainder, SignedDivide, SignedRemainder;
    hide ShiftLeft, ShiftRight, ShiftArithmetic;
    match op {
    case EQ =>
    case NE =>
    case LT =>
    case LE =>
    case LTU =>
    case LEU =>
    }
  }

  lemma TruthTested(b: bool)
    ensures Related(RelNE, Truth(b), 0) <==> b
    ensures Related(RelEQ, Truth(b), 0) <==> !b
  {
  }

  lemma FusedRelates(op: BinaryOp, truth: bool, u: Cell, w: Cell)
    requires Compares(op)
    ensures FusedRelation(op, truth).Some?
    ensures var (relation, swap) := FusedRelation(op, truth).value;
      (if swap then Related(relation, w, u) else Related(relation, u, w)) <==> (ComparisonHolds(op, u, w) == truth)
  {
    hide SignedLess, SignedLessEqual, UnsignedLess;
    match op {
    case EQ =>
    case NE =>
    case LT => ComplementSigned(u, w);
    case LE => ComplementSigned(w, u);
    case LTU =>
    case LEU =>
    }
  }

  lemma FusedMeaning(op: BinaryOp, truth: bool, u: Cell, w: Cell)
    requires FusedRelation(op, truth).Some?
    ensures !Traps(op, w)
    ensures var (relation, swap) := FusedRelation(op, truth).value;
      (if swap then Related(relation, w, u) else Related(relation, u, w)) <==>
      Related(if truth then RelNE else RelEQ, Apply(op, u, w), 0)
  {
    hide Related, Apply, Truth, ComparisonHolds;
    assert Compares(op);
    FusedRelates(op, truth, u, w);
    ComparisonTruth(op, u, w);
    TruthTested(ComparisonHolds(op, u, w));
  }

  function NodeAsOperand(dag: Dag, id: nat): Operand
    requires id < |dag|
  {
    if dag[id].Literal? then Known(dag[id].value) else NodeOperand(id)
  }

  /** Turn a zero test of an unparked comparison into the comparison branch itself. */
  function Fuse(dag: Dag, s: Schedule, c: Control): Control
    requires WellFormed(dag) && ControlOk(dag, c)
  {
    if c.ZeroControl? && c.relation in {RelEQ, RelNE} && c.left.NodeOperand?
       && !Parked(s, c.left.id) && dag[c.left.id].BinaryNode?
       && FusedRelation(dag[c.left.id].op, c.relation == RelNE).Some?
    then
      var n := dag[c.left.id];
      var (relation, swap) := FusedRelation(n.op, c.relation == RelNE).value;
      IntegerControl(c.bank, relation, NodeOperand(if swap then n.r else n.l),
        NodeAsOperand(dag, if swap then n.l else n.r))
    else c
  }

  lemma FuseMeaning(dag: Dag, s: Schedule, c: Control, args: seq<Cell>)
    requires WellFormed(dag) && ControlOk(dag, c)
    ensures ControlOk(dag, Fuse(dag, s, c))
    ensures Taken(dag, Fuse(dag, s, c), args) <==> Taken(dag, c, args)
  {
    hide Related, Apply, FusedRelation;
    if Fuse(dag, s, c) != c {
      var n := dag[c.left.id];
      FusedMeaning(n.op, c.relation == RelNE, Eval(dag, n.l, args), Eval(dag, n.r, args));
    }
  }

  lemma PoppedPair(st: Banks<Cell>, x: Bank, u: Cell, w: Cell)
    ensures st.Push(x, u).Has(x, 0) && st.Push(x, u).Pop(x) == st
    ensures var t := st.Push(x, u).Push(Opposite(x), w);
      t.Has(x, 0) && t.Pop(x).Has(Opposite(x), 0) && t.Pop(x).Pop(Opposite(x)) == st
  {
    hide Banks.At, Banks.Put;
    var t := st.Push(x, u);
    assert t.Pop(x).At(x) == st.At(x);
    PoppedSame(st, x, u);
    PushedPair(st, x, u, w, u);
    PoppedSame(st.Push(Opposite(x), w), x, u);
    PoppedSame(st, Opposite(x), w);
  }

  lemma PoppedSame(st: Banks<Cell>, x: Stack, u: Cell)
    ensures st.Push(x, u).Has(x, 0) && st.Push(x, u).Pop(x) == st
  {
    assert st.Push(x, u).Pop(x).At(x) == st.At(x);
  }

  /** A one-operand condition. */
  lemma TestsOne(p: seq<Instr>, c: Condition, dag: Dag, s: Schedule, arity: nat, control: Control)
    requires WellFormed(dag) && ControlOk(dag, control) && c.bank == control.bank
    requires Pushes(p, dag, s, arity, control.left, control.bank)
    requires
      || (control.ZeroControl? && c == Zero(control.bank, control.relation))
      || (control.ImmediateControl?
        && c == CompareImmediate(control.bank, control.relation, control.reverse, control.value))
      || (control.IntegerControl? && control.right.Known?
          && c == CompareImmediate(control.bank, control.relation, false, control.right.value))
    ensures Tests(p, c, dag, s, arity, control)
  {
    hide Steps, Holds, Eval, Related;
    forall args: seq<Cell>, st: Banks<Cell> | Holds(dag, s, arity, args, st)
      ensures var o := Steps(p, Next(st));
        && o.Next? && ConditionReady(c, o.stacks)
        && ConditionConsumed(c, o.stacks) == st
        && (ConditionTaken(c, o.stacks) <==> Taken(dag, control, args))
    {
      var u := OperandValue(dag, control.left, args);
      PoppedPair(st, c.bank, u, u);
      PushedReplace(st, c.bank, u, u);
    }
  }

  /** A two-operand condition. */
  lemma TestsTwo(p: seq<Instr>, q: seq<Instr>, dag: Dag, s: Schedule, arity: nat, control: Control)
    requires WellFormed(dag) && ControlOk(dag, control) && control.IntegerControl?
    requires Pushes(p, dag, s, arity, control.left, control.bank)
    requires Pushes(q, dag, s, arity, control.right, Opposite(control.bank))
    ensures Tests(p + q, Compare(control.bank, control.relation), dag, s, arity, control)
  {
    hide Steps, Holds, Eval, Related;
    var c := Compare(control.bank, control.relation);
    forall args: seq<Cell>, st: Banks<Cell> | Holds(dag, s, arity, args, st)
      ensures var o := Steps(p + q, Next(st));
        && o.Next? && ConditionReady(c, o.stacks)
        && ConditionConsumed(c, o.stacks) == st
        && (ConditionTaken(c, o.stacks) <==> Taken(dag, control, args))
    {
      var u, w := OperandValue(dag, control.left, args), OperandValue(dag, control.right, args);
      HoldsOn(dag, s, arity, args, st, c.bank, u);
      StepsConcat(p, q, Next(st));
      PoppedPair(st, c.bank, u, w);
      PushedPair(st, c.bank, u, w, u);
    }
  }

  lemma FusedTests(p: seq<Instr>, c: Condition, dag: Dag, s: Schedule, arity: nat, control: Control)
    requires WellFormed(dag) && ControlOk(dag, control)
    requires ControlOk(dag, Fuse(dag, s, control)) && Tests(p, c, dag, s, arity, Fuse(dag, s, control))
    ensures Tests(p, c, dag, s, arity, control)
  {
    hide Steps, Holds, Eval, Related, Taken, ConditionTaken, Fuse;
    forall args: seq<Cell>, st: Banks<Cell> | Holds(dag, s, arity, args, st)
      ensures Taken(dag, Fuse(dag, s, control), args) <==> Taken(dag, control, args)
    {
      FuseMeaning(dag, s, control, args);
    }
  }

  // ----- result leaves and back edges -----

  /** Code that pushes a list of operands on `x`, in order. */
  ghost predicate PushesAll(piece: seq<Instr>, dag: Dag, s: Schedule, arity: nat, results: seq<Operand>, x: Bank)
    requires WellFormed(dag) && forall i | 0 <= i < |results| :: OperandOk(dag, results[i])
  {
    forall args: seq<Cell>, st: Banks<Cell> | Holds(dag, s, arity, args, st) ::
      Steps(piece, Next(st)) == Next(st.Put(x, st.At(x) + Values(dag, results, args)))
  }

  lemma PushesMore(p: seq<Instr>, q: seq<Instr>, dag: Dag, s: Schedule, arity: nat, results: seq<Operand>, o: Operand,
    x: Bank)
    requires WellFormed(dag) && (forall i | 0 <= i < |results| :: OperandOk(dag, results[i])) && OperandOk(dag, o)
    requires PushesAll(p, dag, s, arity, results, x) && Pushes(q, dag, s, arity, o, x)
    ensures PushesAll(p + q, dag, s, arity, results + [o], x)
  {
    hide Steps, Holds, Eval, OperandValue;
    forall args: seq<Cell>, st: Banks<Cell> | Holds(dag, s, arity, args, st)
      ensures Steps(p + q, Next(st)) == Next(st.Put(x, st.At(x) + Values(dag, results + [o], args)))
    {
      var vs := Values(dag, results, args);
      StepsConcat(p, q, Next(st));
      HoldsPut(dag, s, arity, args, st, x, st.At(x) + vs);
      assert Values(dag, results + [o], args) == vs + [OperandValue(dag, o, args)];
      assert st.At(x) + (vs + [OperandValue(dag, o, args)]) == st.At(x) + vs + [OperandValue(dag, o, args)];
    }
  }

  lemma HoldsPut(dag: Dag, s: Schedule, arity: nat, args: seq<Cell>, st: Banks<Cell>, x: Bank, v: seq<Cell>)
    requires WellFormed(dag) && Holds(dag, s, arity, args, st)
    ensures Holds(dag, s, arity, args, st.Put(x, v))
  {
    hide Eval;
    var t := st.Put(x, v);
    assert t.At(C) == st.At(C);
    assert forall a: nat | a < arity :: ArgumentAt(s, args, st, a) ==> ArgumentAt(s, args, t, a);
    assert forall id: nat | id < |dag| && Parked(s, id) :: HomeAt(dag, s, args, st, id) ==> HomeAt(dag, s, args, t, id);
  }

  lemma PushesNothing(dag: Dag, s: Schedule, arity: nat, x: Bank)
    requires WellFormed(dag)
    ensures PushesAll([], dag, s, arity, [], x)
  {
    forall args: seq<Cell>, st: Banks<Cell> | Holds(dag, s, arity, args, st)
      ensures Steps([], Next(st)) == Next(st.Put(x, st.At(x) + Values(dag, [], args)))
    {
      assert st.At(x) + Values(dag, [], args) == st.At(x);
    }
  }

  lemma LeafRealizes(p: seq<Instr>, at: nat, dag: Dag, s: Schedule, order: seq<nat>, arity: nat, x: Bank,
    results: seq<Operand>)
    requires WellFormed(dag) && Ordered(dag, s, order) && s.suffix == 0
    requires TreeOk(dag, arity, Leaf(x, results)) && PushesAll(p, dag, s, arity, results, x)
    ensures Realizes(Plains(p) + [Return(x, arity + s.temps, |results|)], at, dag, order, arity, Leaf(x, results))
  {
    hide ExecFrom, Contains, Frame, PushesAll, Ordered, EvalTree, Plains;
    var last := Return(x, arity + s.temps, |results|);
    OrderedIds(dag, s, order);
    forall code: seq<Line>, args: seq<Cell> | Contains(code, at, Plains(p) + [last]) && |args| == arity
      ensures ExecFrom(code, at, Frame(dag, order, args)) == EvalTree(dag, arity, Leaf(x, results), args)
    {
      LeafAt(p, at, dag, s, order, arity, x, results, code, args);
    }
  }

  lemma OrderedIds(dag: Dag, s: Schedule, order: seq<nat>)
    requires Ordered(dag, s, order)
    ensures forall i | 0 <= i < |order| :: order[i] < |dag|
  {
  }

  lemma LeafAt(p: seq<Instr>, at: nat, dag: Dag, s: Schedule, order: seq<nat>, arity: nat, x: Bank,
    results: seq<Operand>, code: seq<Line>, args: seq<Cell>)
    requires WellFormed(dag) && Ordered(dag, s, order) && s.suffix == 0
    requires TreeOk(dag, arity, Leaf(x, results)) && PushesAll(p, dag, s, arity, results, x)
    requires Contains(code, at, Plains(p) + [Return(x, arity + s.temps, |results|)]) && |args| == arity
    ensures ExecFrom(code, at, Frame(dag, order, args)) == EvalTree(dag, arity, Leaf(x, results), args)
  {
    hide Steps, Step, Eval, Holds, Plains;
    PlainsLength(p);
    var last := Return(x, arity + s.temps, |results|);
    var st := Frame(dag, order, args);
    FrameHolds(dag, s, order, arity, args);
    ContainsParts(code, at, Plains(p), [last]);
    ExecPlains(code, at, p, st);
    assert code[at + |p|] == last;
    var t := st.Put(x, st.At(x) + Values(dag, results, args));
    assert t.At(x) == Values(dag, results, args);
    assert t.At(C) == st.At(C) && |t.c| == arity + s.temps;
  }

  /** An operand that is not simply the argument already in its place. */
  predicate Changed(dag: Dag, o: Operand, d: nat) {
    !(o.NodeOperand? && o.id < |dag| && dag[o.id] == Input(d))
  }

  /** The changed values from the last argument down to argument `k`, as pushed on A. */
  function Descending(dag: Dag, results: seq<Operand>, args: seq<Cell>, k: nat): seq<Cell>
    requires WellFormed(dag) && k <= |results| && forall i | 0 <= i < |results| :: OperandOk(dag, results[i])
    decreases |results| - k
  {
    if k == |results| then []
    else
      Descending(dag, results, args, k + 1)
      + (if Changed(dag, results[k], k) then [OperandValue(dag, results[k], args)] else [])
  }

  /** The arguments with the first `k` already replaced. */
  function Mixed(dag: Dag, results: seq<Operand>, args: seq<Cell>, k: nat): seq<Cell>
    requires WellFormed(dag) && |args| == |results| && forall i | 0 <= i < |results| :: OperandOk(dag, results[i])
  {
    seq(|args|, (j: nat) requires j < |args| => if j < k then OperandValue(dag, results[j], args) else args[j])
  }

  /** Stages of a back edge: push changed values, set arguments one by one, drop the parked cells. */
  datatype Stage = Pushing(k: nat) | Setting(k: nat) | Popping(left: nat)

  predicate StageOk(stage: Stage, arity: nat, temps: nat) {
    match stage case Pushing(k) => k <= arity case Setting(k) => k <= arity case Popping(m) => m <= temps
  }

  function StageState(dag: Dag, order: seq<nat>, results: seq<Operand>, args: seq<Cell>, stage: Stage): Banks<Cell>
    requires WellFormed(dag) && (forall i | 0 <= i < |order| :: order[i] < |dag|)
    requires |args| == |results| && (forall i | 0 <= i < |results| :: OperandOk(dag, results[i]))
    requires StageOk(stage, |args|, |order|)
  {
    var parked := ParkedValues(dag, order, args);
    match stage
    case Pushing(k) => Banks(Descending(dag, results, args, k), [], Reversed(args) + parked)
    case Setting(k) => Banks(Descending(dag, results, args, k), [], Reversed(Mixed(dag, results, args, k)) + parked)
    case Popping(m) => Banks([], [], Reversed(Values(dag, results, args)) + parked[..m])
  }

  ghost predicate Arrives(piece: seq<Instr>, dag: Dag, order: seq<nat>, results: seq<Operand>, stage: Stage)
    requires WellFormed(dag) && (forall i | 0 <= i < |order| :: order[i] < |dag|)
    requires (forall i | 0 <= i < |results| :: OperandOk(dag, results[i])) && StageOk(stage, |results|, |order|)
  {
    forall args: seq<Cell> | |args| == |results| ::
      Steps(piece, Next(Frame(dag, order, args))) == Next(StageState(dag, order, results, args, stage))
  }

  lemma ArriveStart(dag: Dag, order: seq<nat>, results: seq<Operand>)
    requires WellFormed(dag) && (forall i | 0 <= i < |order| :: order[i] < |dag|)
    requires (forall i | 0 <= i < |results| :: OperandOk(dag, results[i]))
    ensures Arrives([], dag, order, results, Pushing(|results|))
  {
  }

  /** `q` leads from one stage to another. */
  ghost predicate Leads(q: seq<Instr>, dag: Dag, order: seq<nat>, results: seq<Operand>, from: Stage, to: Stage)
    requires WellFormed(dag) && (forall i | 0 <= i < |order| :: order[i] < |dag|)
    requires (forall i | 0 <= i < |results| :: OperandOk(dag, results[i]))
    requires StageOk(from, |results|, |order|) && StageOk(to, |results|, |order|)
  {
    forall args: seq<Cell> | |args| == |results| ::
      Steps(q, Next(StageState(dag, order, results, args, from))) == Next(StageState(dag, order, results, args, to))
  }

  lemma ArriveBy(p: seq<Instr>, q: seq<Instr>, dag: Dag, order: seq<nat>, results: seq<Operand>, from: Stage, to: Stage)
    requires WellFormed(dag) && (forall i | 0 <= i < |order| :: order[i] < |dag|)
    requires (forall i | 0 <= i < |results| :: OperandOk(dag, results[i]))
    requires StageOk(from, |results|, |order|) && StageOk(to, |results|, |order|)
    requires Arrives(p, dag, order, results, from) && Leads(q, dag, order, results, from, to)
    ensures Arrives(p + q, dag, order, results, to)
  {
    hide Steps, StageState, Frame;
    forall args: seq<Cell> | |args| == |results|
      ensures Steps(p + q, Next(Frame(dag, order, args))) == Next(StageState(dag, order, results, args, to))
    {
      StepsConcat(p, q, Next(Frame(dag, order, args)));
    }
  }

  lemma PushStage(q: seq<Instr>, dag: Dag, s: Schedule, order: seq<nat>, results: seq<Operand>, k: nat, args: seq<Cell>)
    requires WellFormed(dag) && Ordered(dag, s, order) && s.suffix == 0 && k < |results| == |args|
    requires (forall i | 0 <= i < |results| :: OperandOk(dag, results[i]))
    requires if Changed(dag, results[k], k) then Pushes(q, dag, s, |results|, results[k], A) else q == []
    ensures Steps(q, Next(StageState(dag, order, results, args, Pushing(k + 1)))) ==
      Next(StageState(dag, order, results, args, Pushing(k)))
  {
    hide Steps, Step, Holds, Eval, OperandValue, Changed;
    var st := Frame(dag, order, args);
    FrameHolds(dag, s, order, |results|, args);
    var d := Descending(dag, results, args, k + 1);
    HoldsPut(dag, s, |results|, args, st, A, d);
    StepsEmpty(Next(StageState(dag, order, results, args, Pushing(k + 1))));
  }

  lemma StepsEmpty(o: Outcome)
    ensures Steps([], o) == o
  {
  }

  /** All values are on A before the first argument changes. */
  lemma TurnStage(dag: Dag, order: seq<nat>, results: seq<Operand>, args: seq<Cell>)
    requires WellFormed(dag) && (forall i | 0 <= i < |order| :: order[i] < |dag|) && |args| == |results|
    requires (forall i | 0 <= i < |results| :: OperandOk(dag, results[i]))
    ensures StageState(dag, order, results, args, Pushing(0)) == StageState(dag, order, results, args, Setting(0))
  {
    hide Eval;
    assert Mixed(dag, results, args, 0) == args;
  }

  lemma SameStage(dag: Dag, order: seq<nat>, results: seq<Operand>, k: nat, args: seq<Cell>)
    requires WellFormed(dag) && (forall i | 0 <= i < |order| :: order[i] < |dag|) && k < |args| == |results|
    requires (forall i | 0 <= i < |results| :: OperandOk(dag, results[i])) && !Changed(dag, results[k], k)
    ensures StageState(dag, order, results, args, Setting(k)) == StageState(dag, order, results, args, Setting(k + 1))
  {
    UnchangedValue(dag, results[k], k, args);
    hide Eval, OperandValue, Changed, Reversed, ParkedValues;
    assert Mixed(dag, results, args, k) == Mixed(dag, results, args, k + 1);
  }

  lemma UnchangedValue(dag: Dag, o: Operand, d: nat, args: seq<Cell>)
    requires WellFormed(dag) && OperandOk(dag, o) && !Changed(dag, o, d) && d < |args|
    ensures OperandValue(dag, o, args) == args[d]
  {
  }

  lemma SetStage(dag: Dag, order: seq<nat>, results: seq<Operand>, k: nat, args: seq<Cell>)
    requires WellFormed(dag) && (forall i | 0 <= i < |order| :: order[i] < |dag|) && k < |args| == |results|
    requires (forall i | 0 <= i < |results| :: OperandOk(dag, results[i])) && Changed(dag, results[k], k)
    ensures Step(CSet(A, |order| + k), StageState(dag, order, results, args, Setting(k))) ==
      Next(StageState(dag, order, results, args, Setting(k + 1)))
  {
    hide Step, Eval, OperandValue, Changed, Mixed, ParkedValues;
    var parked := ParkedValues(dag, order, args);
    assert |parked| == |order| by { ParkedLength(dag, order, args); }
    var r := Reversed(Mixed(dag, results, args, k));
    assert |r| == |args| by { MixedLength(dag, results, args, k); }
    var rest, v := Descending(dag, results, args, k + 1), OperandValue(dag, results[k], args);
    SetArgument(dag, results, args, k, parked);
    SetOnFrame(rest, v, r, parked, k);
  }

  lemma ParkedLength(dag: Dag, order: seq<nat>, args: seq<Cell>)
    requires WellFormed(dag) && (forall i | 0 <= i < |order| :: order[i] < |dag|)
    ensures |ParkedValues(dag, order, args)| == |order|
  {
  }

  lemma MixedLength(dag: Dag, results: seq<Operand>, args: seq<Cell>, k: nat)
    requires WellFormed(dag) && |args| == |results| && forall i | 0 <= i < |results| :: OperandOk(dag, results[i])
    ensures |Mixed(dag, results, args, k)| == |args|
  {
  }

  lemma SetOnFrame(rest: seq<Cell>, v: Cell, r: seq<Cell>, parked: seq<Cell>, k: nat)
    requires k < |r|
    ensures Step(CSet(A, |parked| + k), Banks(rest + [v], [], r + parked)) ==
      Next(Banks(rest, [], (r + parked)[|r| - 1 - k := v]))
  {
    hide Step;
    var st := Banks(rest + [v], [], r + parked);
    assert |st.At(C)| == |r| + |parked|;
    CSetStep(A, |parked| + k, st);
    assert (rest + [v])[..|rest|] == rest;
  }

  lemma SetArgument(dag: Dag, results: seq<Operand>, args: seq<Cell>, k: nat, parked: seq<Cell>)
    requires WellFormed(dag) && |args| == |results| && forall i | 0 <= i < |results| :: OperandOk(dag, results[i])
    requires k < |args|
    ensures (Reversed(Mixed(dag, results, args, k)) + parked)[|args| - 1 - k := OperandValue(dag, results[k], args)]
         == Reversed(Mixed(dag, results, args, k + 1)) + parked
  {
    hide OperandValue;
  }

  /** Every argument is set; only the parked cells are left to drop. */
  lemma DoneStage(dag: Dag, order: seq<nat>, results: seq<Operand>, args: seq<Cell>)
    requires WellFormed(dag) && (forall i | 0 <= i < |order| :: order[i] < |dag|) && |args| == |results|
    requires (forall i | 0 <= i < |results| :: OperandOk(dag, results[i]))
    ensures StageState(dag, order, results, args, Setting(|results|)) ==
      StageState(dag, order, results, args, Popping(|order|))
  {
    AllMixed(dag, results, args);
    ParkedLength(dag, order, args);
    hide Eval, OperandValue, ParkedValues, Mixed, Values, Reversed;
    var parked := ParkedValues(dag, order, args);
    assert parked[..|order|] == parked;
  }

  lemma AllMixed(dag: Dag, results: seq<Operand>, args: seq<Cell>)
    requires WellFormed(dag) && |args| == |results| && forall i | 0 <= i < |results| :: OperandOk(dag, results[i])
    ensures Mixed(dag, results, args, |results|) == Values(dag, results, args)
  {
    hide OperandValue;
  }

  lemma PopStage(dag: Dag, order: seq<nat>, results: seq<Operand>, m: nat, args: seq<Cell>)
    requires WellFormed(dag) && (forall i | 0 <= i < |order| :: order[i] < |dag|) && |args| == |results|
    requires (forall i | 0 <= i < |results| :: OperandOk(dag, results[i])) && 0 < m <= |order|
    ensures Step(CPop, StageState(dag, order, results, args, Popping(m))) ==
      Next(StageState(dag, order, results, args, Popping(m - 1)))
  {
    ParkedLength(dag, order, args);
    hide Step, Eval, OperandValue, ParkedValues, Values, Reversed;
    PopOnFrame(Reversed(Values(dag, results, args)), ParkedValues(dag, order, args), m);
  }

  lemma PopOnFrame(r: seq<Cell>, parked: seq<Cell>, m: nat)
    requires 0 < m <= |parked|
    ensures Step(CPop, Banks([], [], r + parked[..m])) == Next(Banks([], [], r + parked[..m - 1]))
  {
    hide Step;
    var st := Banks([], [], r + parked[..m]);
    assert st.At(C) == r + parked[..m];
    CPopStep(st);
    assert (r + parked[..m])[..|r| + m - 1] == r + parked[..m - 1];
  }

  lemma BackRealizes(p: seq<Instr>, at: nat, dag: Dag, order: seq<nat>, arity: nat, results: seq<Operand>)
    requires WellFormed(dag) && (forall i | 0 <= i < |order| :: order[i] < |dag|)
    requires TreeOk(dag, arity, Back(results)) && Arrives(p, dag, order, results, Popping(0))
    ensures Realizes(Plains(p) + [Jump(-(at + |p| + 1))], at, dag, order, arity, Back(results))
  {
    hide Steps, Step, Eval, Plains, OperandValue, StageState, Frame;
    PlainsLength(p);
    var last := Jump(-(at + |p| + 1));
    forall code: seq<Line>, args: seq<Cell> | Contains(code, at, Plains(p) + [last]) && |args| == arity
      ensures ExecFrom(code, at, Frame(dag, order, args)) == EvalTree(dag, arity, Back(results), args)
    {
      ContainsParts(code, at, Plains(p), [last]);
      ExecPlains(code, at, p, Frame(dag, order, args));
      FinalStage(dag, order, results, args);
      var pc, st := at + |p|, StageState(dag, order, results, args, Popping(0));
      assert code[pc] == last && Steps(p, Next(Frame(dag, order, args))) == Next(st);
      assert ExecFrom(code, pc, st) == Land(code, pc, 0, st);
    }
  }

  lemma FinalStage(dag: Dag, order: seq<nat>, results: seq<Operand>, args: seq<Cell>)
    requires WellFormed(dag) && (forall i | 0 <= i < |order| :: order[i] < |dag|) && |args| == |results|
    requires (forall i | 0 <= i < |results| :: OperandOk(dag, results[i]))
    ensures StageState(dag, order, results, args, Popping(0)) == Entry(Values(dag, results, args))
  {
    hide Eval, OperandValue, Values;
    assert Reversed(Values(dag, results, args)) + ParkedValues(dag, order, args)[..0] ==
      Reversed(Values(dag, results, args));
  }

  /** What one pass over the source graph gives: the first effect that traps, else the tree's result. */
  function EvalFunction(dag: Dag, arity: nat, t: Tree, args: seq<Cell>): Result
    requires WellFormed(dag) && TreeOk(dag, arity, t)
  {
    match FirstTrap(dag, |dag|, args)
    case Some(reason) => Trapped(reason)
    case None => EvalTree(dag, arity, t, args)
  }

  lemma FunctionRealized(p: seq<Instr>, tail: seq<Line>, dag: Dag, order: seq<nat>, arity: nat, t: Tree,
    args: seq<Cell>)
    requires WellFormed(dag) && TreeOk(dag, arity, t) && (forall i | 0 <= i < |order| :: order[i] < |dag|)
    requires Prepares(p, dag, order, arity, |dag|) && Realizes(tail, |p|, dag, order, arity, t) && |args| == arity
    ensures ExecFrom(Plains(p) + tail, 0, Entry(args)) == EvalFunction(dag, arity, t, args)
  {
    hide Steps, Plains, Frame, Entry, EvalTree, FirstTrap;
    var code := Plains(p) + tail;
    PlainsLength(p);
    assert Contains(code, 0, code);
    ContainsParts(code, 0, Plains(p), tail);
    ExecPlains(code, 0, p, Entry(args));
  }

  /** Up to `fuel` restarts of an emitted body. */
  function Iterate(code: seq<Line>, st: Banks<Cell>, fuel: nat): Result
    decreases fuel
  {
    match ExecFrom(code, 0, st)
    case Restarted(next) => if fuel == 0 then Restarted(next) else Iterate(code, next, fuel - 1)
    case r => r
  }

  /** The same number of passes over the source graph. */
  function EvalLoop(dag: Dag, arity: nat, t: Tree, args: seq<Cell>, fuel: nat): Result
    requires WellFormed(dag) && TreeOk(dag, arity, t) && |args| == arity
    decreases fuel
  {
    match EvalFunction(dag, arity, t, args)
    case Restarted(next) =>
      if fuel == 0 || |next.c| != arity then Restarted(next) else EvalLoop(dag, arity, t, Reversed(next.c), fuel - 1)
    case r => r
  }

  lemma ReversedTwice(v: seq<Cell>)
    ensures Reversed(Reversed(v)) == v
  {
  }

  lemma {:induction false} RestartShape(dag: Dag, arity: nat, t: Tree, args: seq<Cell>)
    requires WellFormed(dag) && TreeOk(dag, arity, t) && |args| == arity
    ensures match EvalTree(dag, arity, t, args)
      case Restarted(next) => next == Entry(Reversed(next.c)) && |next.c| == arity
      case _ => true
  {
    match t
    case Leaf(_, _) =>
    case Back(results) => ReversedTwice(Values(dag, results, args));
    case Fork(_, f, g) =>
      RestartShape(dag, arity, f, args);
      RestartShape(dag, arity, g, args);
  }

  lemma RestartAgain(dag: Dag, arity: nat, t: Tree, args: seq<Cell>)
    requires WellFormed(dag) && TreeOk(dag, arity, t) && |args| == arity
    ensures match EvalFunction(dag, arity, t, args)
      case Restarted(next) => next == Entry(Reversed(next.c)) && |next.c| == arity
      case _ => true
  {
    hide EvalTree, FirstTrap, Reversed, Entry;
    RestartShape(dag, arity, t, args);
  }

  /** Every run of the emitted body, through any number of iterations, is a run of the graph. */
  lemma {:induction false} RunsAgree(code: seq<Line>, dag: Dag, arity: nat, t: Tree, args: seq<Cell>, fuel: nat)
    requires WellFormed(dag) && TreeOk(dag, arity, t) && |args| == arity
    requires forall v: seq<Cell> | |v| == arity :: ExecFrom(code, 0, Entry(v)) == EvalFunction(dag, arity, t, v)
    ensures Iterate(code, Entry(args), fuel) == EvalLoop(dag, arity, t, args, fuel)
    decreases fuel
  {
    hide ExecFrom, EvalFunction, Reversed, TreeOk, WellFormed, Entry;
    RestartAgain(dag, arity, t, args);
    match EvalFunction(dag, arity, t, args)
    case Restarted(next) =>
      if fuel != 0 {
        RunsAgree(code, dag, arity, t, Reversed(next.c), fuel - 1);
      }
    case _ =>
  }

  /** The right operand is parked on C or a small literal, and the operation has such a form. */
  predicate HasShortcut(dag: Dag, s: Schedule, id: nat)
    requires WellFormed(dag) && id < |dag| && dag[id].BinaryNode?
  {
    var n := dag[id];
    || (CReference(dag, s, n.r).Some? && HasCOperand(n.op))
    || (dag[n.r].Literal? && HasImmediate(n.op) && Signed8(dag[n.r].value))
  }

  // ----- how deep the operand stacks get -----

  /** How many cells an instruction adds to A and B together. */
  function Rise(i: Instr): int {
    match i
    case Push(_, _) => 1
    case Dup(_) => 1
    case Drop(_) => -1
    case Copy(_) => 1
    case CPush(_) => -1
    case CGet(_, _) => 1
    case CSet(_, _) => -1
    case Binary(_, _) => -1
    case _ => 0
  }

  function Climb(piece: seq<Instr>): int {
    if piece == [] then 0 else Climb(piece[..|piece| - 1]) + Rise(piece[|piece| - 1])
  }

  /** The most cells above the start that any prefix leaves. */
  function Peak(piece: seq<Instr>): int {
    if piece == [] then 0
    else
      var before := Peak(piece[..|piece| - 1]);
      if before >= Climb(piece) then before else Climb(piece)
  }

  function Height(st: Banks<Cell>): nat {
    |st.a| + |st.b|
  }

  lemma StepRises(i: Instr, st: Banks<Cell>)
    ensures var o := Step(i, st); o.Next? ==> Height(o.stacks) == Height(st) + Rise(i)
  {
    hide Combine, ApplyUnary, Fails;
  }

  /** Whatever the cells, the stacks are never deeper than the peak while the code runs. */
  lemma {:induction false} PeakBounds(piece: seq<Instr>, st: Banks<Cell>, k: nat)
    requires k <= |piece|
    ensures var o := Steps(piece[..k], Next(st));
      o.Next? ==> Height(o.stacks) == Height(st) + Climb(piece[..k]) <= Height(st) + Peak(piece)
    decreases |piece|
  {
    hide Step;
    if k < |piece| {
      PeakBounds(piece[..|piece| - 1], st, k);
      assert piece[..|piece| - 1][..k] == piece[..k];
    } else if k > 0 {
      var rest, i := piece[..k - 1], piece[k - 1];
      PeakBounds(rest, st, k - 1);
      assert rest[..k - 1] == rest && piece[..k] == piece == rest + [i];
      StepsConcat(rest, [i], Next(st));
      StepsOne(i, Steps(rest, Next(st)));
      if Steps(rest, Next(st)).Next? {
        StepRises(i, Steps(rest, Next(st)).stacks);
      }
    } else {
      PeakPositive(piece);
      assert piece[..0] == [];
    }
  }

  lemma {:induction false} PeakPositive(piece: seq<Instr>)
    ensures Peak(piece) >= 0
  {
    if piece != [] {
      PeakPositive(piece[..|piece| - 1]);
    }
  }

  lemma {:induction false} PeakConcat(p: seq<Instr>, q: seq<Instr>)
    ensures Climb(p + q) == Climb(p) + Climb(q)
    ensures Peak(p + q) == if Peak(p) >= Climb(p) + Peak(q) then Peak(p) else Climb(p) + Peak(q)
  {
    if q == [] {
      assert p + q == p;
      PeakReached(p);
    } else {
      var rest := q[..|q| - 1];
      PeakConcat(p, rest);
      assert (p + q)[..|p + q| - 1] == p + rest;
    }
  }

  lemma {:induction false} PeakReached(piece: seq<Instr>)
    ensures Peak(piece) >= Climb(piece)
  {
  }

  lemma PeakOne(i: Instr)
    ensures Climb([i]) == Rise(i) && Peak([i]) == if Rise(i) > 0 then Rise(i) else 0
  {
    assert [i][..0] == [];
  }

  /** The Ershov number of a node. */
  function Need(dag: Dag, id: nat): (n: nat)
    requires WellFormed(dag) && id < |dag|
    ensures n > 0
    decreases id
  {
    match dag[id]
    case Input(_) => 1
    case Literal(_) => 1
    case UnaryNode(_, x) => Need(dag, x)
    case CheckNode(_, x) => Need(dag, x)
    case BinaryNode(_, l, r) =>
      var m, n := Need(dag, l), Need(dag, r);
      if m == n then m + 1 else if m > n then m else n
  }

  predicate Numbered(dag: Dag, ershov: seq<nat>)
    requires WellFormed(dag)
  {
    |ershov| == |dag| && forall id | 0 <= id < |dag| :: ershov[id] == Need(dag, id)
  }

  /** The code leaves one cell more and never needs more than the node's number. */
  predicate Frugal(piece: seq<Instr>, dag: Dag, id: nat)
    requires WellFormed(dag) && id < |dag|
  {
    Climb(piece) == 1 && Peak(piece) <= Need(dag, id)
  }

  lemma FrugalOne(i: Instr, dag: Dag, id: nat)
    requires WellFormed(dag) && id < |dag| && Rise(i) == 1
    ensures Frugal([i], dag, id)
  {
    PeakOne(i);
  }

  /** One instruction more, on the operand. */
  lemma FrugalOn(p: seq<Instr>, i: Instr, dag: Dag, child: nat, id: nat)
    requires WellFormed(dag) && child < |dag| && id < |dag| && Rise(i) == 0 && Need(dag, child) <= Need(dag, id)
    requires Frugal(p, dag, child)
    ensures Frugal(p + [i], dag, id)
  {
    hide Rise, Climb, Peak, Need;
    PeakOne(i);
    PeakConcat(p, [i]);
  }

  lemma FrugalSame(p: seq<Instr>, x: Bank, dag: Dag, id: nat)
    requires WellFormed(dag) && id < |dag| && dag[id].BinaryNode? && dag[id].l == dag[id].r
    requires Frugal(p, dag, dag[id].l)
    ensures Frugal(p + [Copy(x)] + [Binary(x, dag[id].op)], dag, id)
  {
    hide Climb, Peak;
    PeakOne(Copy(x));
    PeakConcat(p, [Copy(x)]);
    PeakOne(Binary(x, dag[id].op));
    PeakConcat(p + [Copy(x)], [Binary(x, dag[id].op)]);
  }

  /** The operand that needs more goes first. */
  lemma FrugalPair(p: seq<Instr>, q: seq<Instr>, x: Bank, dag: Dag, first: nat, second: nat, id: nat)
    requires WellFormed(dag) && id < |dag| && dag[id].BinaryNode?
    requires (first == dag[id].l && second == dag[id].r) || (first == dag[id].r && second == dag[id].l)
    requires Need(dag, first) >= Need(dag, second) && Frugal(p, dag, first) && Frugal(q, dag, second)
    ensures Frugal(p + q + [Binary(x, dag[id].op)], dag, id)
  {
    hide Climb, Peak;
    PeakConcat(p, q);
    PeakOne(Binary(x, dag[id].op));
    PeakConcat(p + q, [Binary(x, dag[id].op)]);
  }

  /** The code leaves A and B as deep as it found them and never needs more than some node does. */
  ghost predicate Modest(piece: seq<Instr>, dag: Dag)
    requires WellFormed(dag)
  {
    Climb(piece) == 0 && forall n: nat | NoneNeeds(dag, n) :: Peak(piece) <= n
  }

  /** No node needs more than `n` cells. */
  predicate NoneNeeds(dag: Dag, n: nat)
    requires WellFormed(dag)
  {
    forall id | 0 <= id < |dag| :: Need(dag, id) <= n
  }

  lemma ModestNone(dag: Dag)
    requires WellFormed(dag)
    ensures Modest([], dag)
  {
  }

  lemma ModestMore(p: seq<Instr>, q: seq<Instr>, x: Bank, dag: Dag, id: nat)
    requires WellFormed(dag) && id < |dag| && Modest(p, dag) && Frugal(q, dag, id)
    ensures Modest(p + (q + [CPush(x)]), dag)
  {
    hide Climb, Peak, Need;
    PeakOne(CPush(x));
    PeakConcat(q, [CPush(x)]);
    PeakConcat(p, q + [CPush(x)]);
  }

  class Emitter {
    const dag: Dag
    const arity: nat
    const ershov: seq<nat>
    var schedule: Schedule
    var code: seq<Line>

    predicate Valid()
      reads this
    {
      && WellFormed(dag) && InputsBelow(dag, arity) && |ershov| == |dag|
      && schedule.temps + schedule.suffix + arity <= 255
    }

    constructor (dag: Dag, arity: nat, ershov: seq<nat>)
      requires WellFormed(dag) && InputsBelow(dag, arity) && |ershov| == |dag| && arity <= 255
      ensures Valid() && this.dag == dag && this.arity == arity
      ensures code == [] && schedule == Schedule(map[], 0, 0)
    {
      this.dag, this.arity, this.ershov := dag, arity, ershov;
      schedule, code := Schedule(map[], 0, 0), [];
    }

    method Emit(i: Instr)
      modifies this`code
      ensures code == old(code) + Plains([i])
    {
      code := code + [Plain(i)];
    }

    /** Push a node's value on `x`.  On success exactly `piece` was appended, and it computes the
        node; on failure whatever was appended follows the old code. */
    method EmitNode(id: nat, x: Bank) returns (ok: bool, ghost piece: seq<Instr>)
      requires Valid() && id < |dag| && (Parked(schedule, id) || Supported(dag, schedule, id))
      modifies this`code
      ensures old(code) <= code
      ensures ok && code == old(code) + Plains(piece) && Computes(piece, dag, schedule, arity, id, x)
      ensures Numbered(dag, ershov) ==> Frugal(piece, dag, id)
      decreases id, 1
    {
      hide Computes, Supported, Plains, Effect, Frugal, Numbered, Need;
      var n := dag[id];
      var reference := CReference(dag, schedule, id);
      piece := [];
      if reference.Some? {
        ReadReference(dag, schedule, arity, id, reference.value, x);
        FrugalOne(CGet(x, reference.value), dag, id);
        Emit(CGet(x, reference.value));
        return true, [CGet(x, reference.value)];
      }
      match n {
      case Input(_) => ok := false;
      case Literal(v) =>
        PushLiteral(dag, schedule, arity, id, x);
        FrugalOne(Push(x, v), dag, id);
        Emit(Push(x, v));
        return true, [Push(x, v)];
      case UnaryNode(_, _) => ok, piece := EmitOnOperand(id, x);
      case CheckNode(_, _) => ok, piece := EmitOnOperand(id, x);
      case BinaryNode(_, l, r) =>
        if l == r && CReference(dag, schedule, l).None? {
          ok, piece := EmitSame(id, x);
          return;
        }
        var before := |code|;
        ok, piece := EmitShortcut(id, x);
        if ok {
          return;
        }
        code := code[..before];
        ok, piece := EmitBinary(id, x);
      }
    }

    method EmitOnOperand(id: nat, x: Bank) returns (ok: bool, ghost piece: seq<Instr>)
      requires Valid() && id < |dag| && (dag[id].UnaryNode? || dag[id].CheckNode?)
      requires !Parked(schedule, id) && Supported(dag, schedule, id)
      modifies this`code
      ensures old(code) <= code
      ensures ok && code == old(code) + Plains(piece) && Computes(piece, dag, schedule, arity, id, x)
      ensures Numbered(dag, ershov) ==> Frugal(piece, dag, id)
      decreases id, 0
    {
      hide Computes, Plains, Frugal, Numbered;
      ok, piece := EmitNode(dag[id].x, x);
      if ok {
        var i := OperandInstr(dag[id], x);
        OnOperand(piece, dag, schedule, arity, id, x);
        if Numbered(dag, ershov) {
          FrugalOn(piece, i, dag, dag[id].x, id);
        }
        PlainsConcat(piece, [i]);
        Emit(i);
        piece := piece + [i];
      }
    }

    method EmitSame(id: nat, x: Bank) returns (ok: bool, ghost piece: seq<Instr>)
      requires Valid() && id < |dag| && dag[id].BinaryNode? && dag[id].l == dag[id].r
      requires !Parked(schedule, id) && Supported(dag, schedule, id)
      modifies this`code
      ensures old(code) <= code
      ensures ok && code == old(code) + Plains(piece) && Computes(piece, dag, schedule, arity, id, x)
      ensures Numbered(dag, ershov) ==> Frugal(piece, dag, id)
      decreases id, 0
    {
      hide Computes, Plains, Frugal, Numbered, Need;
      ok, piece := EmitNode(dag[id].l, x);
      if ok {
        var op := dag[id].op;
        SameOperand(piece, dag, schedule, arity, id, x);
        if Numbered(dag, ershov) {
          FrugalSame(piece, x, dag, id);
        }
        PlainsConcat(piece, [Copy(x)]);
        PlainsConcat(piece + [Copy(x)], [Binary(x, op)]);
        Emit(Copy(x));
        Emit(Binary(x, op));
        piece := piece + [Copy(x)] + [Binary(x, op)];
      }
    }

    /** Use an operand form when the right operand is on C or a small literal. */
    method EmitShortcut(id: nat, x: Bank) returns (ok: bool, ghost piece: seq<Instr>)
      requires Valid() && id < |dag| && dag[id].BinaryNode?
      requires !Parked(schedule, id) && Supported(dag, schedule, id)
      modifies this`code
      ensures old(code) <= code && (ok <==> HasShortcut(dag, schedule, id))
      ensures ok ==> code == old(code) + Plains(piece) && Computes(piece, dag, schedule, arity, id, x)
      ensures ok && Numbered(dag, ershov) ==> Frugal(piece, dag, id)
      decreases id, 0
    {
      hide Signed8, Computes, Plains, Frugal, Numbered;
      var n := dag[id];
      var reference := CReference(dag, schedule, n.r);
      piece := [];
      if reference.Some? && HasCOperand(n.op) {
        ok, piece := EmitNode(n.l, x);
        if ok {
          var i := COperand(x, n.op, reference.value);
          FromFrame(piece, reference.value, dag, schedule, arity, id, x);
          if Numbered(dag, ershov) {
            FrugalOn(piece, i, dag, n.l, id);
          }
          PlainsConcat(piece, [i]);
          Emit(i);
          piece := piece + [i];
        }
        return;
      }
      if dag[n.r].Literal? && HasImmediate(n.op) && Signed8(dag[n.r].value) {
        ok, piece := EmitNode(n.l, x);
        if ok {
          var i := Immediate(x, n.op, dag[n.r].value);
          FromLiteral(piece, dag, schedule, arity, id, x);
          if Numbered(dag, ershov) {
            FrugalOn(piece, i, dag, n.l, id);
          }
          PlainsConcat(piece, [i]);
          Emit(i);
          piece := piece + [i];
        }
        return;
      }
      ok := false;
    }

    /** Both operands on their stacks, the heavier first. */
    method EmitBinary(id: nat, x: Bank) returns (ok: bool, ghost piece: seq<Instr>)
      requires Valid() && id < |dag| && dag[id].BinaryNode?
      requires !Parked(schedule, id) && Supported(dag, schedule, id)
      modifies this`code
      ensures old(code) <= code
      ensures ok && code == old(code) + Plains(piece) && Computes(piece, dag, schedule, arity, id, x)
      ensures Numbered(dag, ershov) ==> Frugal(piece, dag, id)
      decreases id, 0
    {
      hide Computes, Plains, Frugal, Need;
      var n := dag[id];
      var i := Binary(x, n.op);
      ghost var p, q;
      var y := Opposite(x);
      var swap := ershov[n.r] > ershov[n.l];
      ok, p := EmitNode(if swap then n.r else n.l, if swap then y else x);
      piece := [];
      if !ok {
        return;
      }
      ok, q := EmitNode(if swap then n.l else n.r, if swap then x else y);
      if !ok {
        return;
      }
      if swap {
        RightFirst(p, q, dag, schedule, arity, id, x);
      } else {
        LeftFirst(p, q, dag, schedule, arity, id, x);
      }
      if Numbered(dag, ershov) {
        FrugalPair(p, q, x, dag, if swap then n.r else n.l, if swap then n.l else n.r, id);
      }
      PlainsConcat(p, q);
      PlainsConcat(p + q, [i]);
      Emit(i);
      piece := p + q + [i];
    }

    method EmitValue(o: Operand, x: Bank) returns (ok: bool, ghost piece: seq<Instr>)
      requires Valid() && OperandOk(dag, o) && EffectsParked(dag, schedule, |dag|)
      modifies this`code
      ensures old(code) <= code
      ensures ok && code == old(code) + Plains(piece) && Pushes(piece, dag, schedule, arity, o, x)
      ensures Numbered(dag, ershov) ==>
        Climb(piece) == 1 && Peak(piece) <= match o case Known(_) => 1 case NodeOperand(id) => Need(dag, id)
    {
      hide Pushes, Computes, Plains, Climb, Peak, Numbered, Need;
      match o {
      case Known(v) =>
        KnownPushes(v, dag, schedule, arity, x);
        PeakOne(Push(x, v));
        Emit(Push(x, v));
        return true, [Push(x, v)];
      case NodeOperand(id) =>
        EffectsQuiet(dag, schedule, |dag|, id);
        ok, piece := EmitNode(id, x);
        if ok {
          QuietPushes(piece, dag, schedule, arity, id, x);
        }
      }
    }

    /** Compute a node and park it on C. */
    method ParkNode(id: nat, ghost piece: seq<Instr>, ghost order: seq<nat>)
      returns (ghost piece': seq<Instr>, ghost order': seq<nat>)
      requires Valid() && id < |dag| && arity + schedule.temps < 255
      requires Ordered(dag, schedule, order) && schedule.suffix == 0
      requires EffectsParked(dag, schedule, id) && forall k | k in schedule.homes :: k < id
      requires code == Plains(piece) && Prepares(piece, dag, order, arity, id)
      modifies this
      ensures Valid() && Ordered(dag, schedule, order') && schedule.suffix == 0
      ensures schedule.temps == old(schedule.temps) + 1
      ensures EffectsParked(dag, schedule, id + 1) && forall k | k in schedule.homes :: k < id + 1
      ensures code == Plains(piece') && Prepares(piece', dag, order', arity, id + 1)
      ensures Numbered(dag, ershov) && Modest(piece, dag) ==> Modest(piece', dag)
    {
      hide Computes, Plains, Prepares, Effect, Modest, Numbered, Frugal;
      NextSupported(dag, schedule, id);
      var ok;
      ghost var more;
      ok, more := EmitNode(id, A);
      Emit(CPush(A));
      if Numbered(dag, ershov) && Modest(piece, dag) {
        ModestMore(piece, more, A, dag, id);
      }
      PreparePark(piece, more, dag, schedule, order, arity, id);
      PlainsConcat(more, [CPush(A)]);
      PlainsConcat(piece, more + [CPush(A)]);
      piece' := piece + (more + [CPush(A)]);
      schedule := Schedule(schedule.homes[id := schedule.temps], schedule.temps + 1, 0);
      order' := order + [id];
    }

    /** Compute and park the chosen nodes in order; every effect must be among them. */
    method Prologue(park: set<nat>) returns (ok: bool, ghost piece: seq<Instr>, ghost order: seq<nat>)
      requires Valid() && code == [] && schedule == Schedule(map[], 0, 0)
      requires arity <= 255 && forall id | 0 <= id < |dag| && Effect(dag, id) :: id in park
      modifies this
      ensures Valid()
      ensures ok <==> arity + ParkCount(dag, park, |dag|) <= 255
      ensures ok ==> schedule.temps == ParkCount(dag, park, |dag|)
      ensures ok ==> Ordered(dag, schedule, order) && EffectsParked(dag, schedule, |dag|) && schedule.suffix == 0
      ensures ok ==> code == Plains(piece) && Prepares(piece, dag, order, arity, |dag|)
      ensures Numbered(dag, ershov) ==> Modest(piece, dag)
    {
      hide Computes, Plains, Prepares, Effect, Modest, Numbered;
      piece, order := [], [];
      PrepareNone(dag, arity);
      ModestNone(dag);
      EmptyPlains();
      for id := 0 to |dag|
        invariant Valid() && Ordered(dag, schedule, order) && schedule.suffix == 0
        invariant EffectsParked(dag, schedule, id) && forall k | k in schedule.homes :: k < id
        invariant code == Plains(piece) && Prepares(piece, dag, order, arity, id)
        invariant schedule.temps == ParkCount(dag, park, id) && arity + schedule.temps <= 255
        invariant Numbered(dag, ershov) ==> Modest(piece, dag)
      {
        if Parks(dag, park, id) {
          if arity + schedule.temps >= 255 {
            ParkGrows(dag, park, id + 1, |dag|);
            return false, piece, order;
          }
          piece, order := ParkNode(id, piece, order);
        } else {
          LeafPure(id);
          PrepareSkip(piece, dag, order, arity, id);
        }
      }
      ok := true;
    }

    lemma EmptyPlains()
      ensures Plains([]) == []
    {
    }

    lemma LeafPure(id: nat)
      requires Valid() && id < |dag|
      ensures dag[id].Input? || dag[id].Literal? ==> !Effect(dag, id)
    {
    }

    /** Emit a branch condition; the jump's displacement is patched later. */
    method EmitCondition(control: Control) returns (c: Condition, ghost piece: seq<Instr>)
      requires Valid() && ControlOk(dag, control) && EffectsParked(dag, schedule, |dag|)
      modifies this`code
      ensures code == old(code) + Plains(piece) + [JumpIf(c, 0)]
      ensures Tests(piece, c, dag, schedule, arity, control)
    {
      hide Signed8, Pushes, Computes, Plains, Tests;
      var x := control.bank;
      var ok;
      ok, piece := EmitValue(control.left, x);
      match control {
      case ZeroControl(_, relation, _) => c := Zero(x, relation);
      case ImmediateControl(_, relation, reverse, _, v) => c := CompareImmediate(x, relation, reverse, v);
      case IntegerControl(_, relation, _, right) =>
        if right.Known? && Signed8(right.value) {
          c := CompareImmediate(x, relation, false, right.value);
        } else {
          ghost var more;
          ok, more := EmitValue(right, Opposite(x));
          TestsTwo(piece, more, dag, schedule, arity, control);
          PlainsConcat(piece, more);
          piece := piece + more;
          c := Compare(x, relation);
        }
      }
      if !c.Compare? {
        TestsOne(piece, c, dag, schedule, arity, control);
      }
      code := code + [JumpIf(c, 0)];
    }

    method EmitLeaf(x: Bank, results: seq<Operand>, ghost order: seq<nat>) returns (ok: bool, ghost tail: seq<Line>)
      requires Valid() && EffectsParked(dag, schedule, |dag|) && Ordered(dag, schedule, order) && schedule.suffix == 0
      requires TreeOk(dag, arity, Leaf(x, results))
      modifies this`code
      ensures ok <==> arity + schedule.temps <= 255 && |results| <= 255
      ensures ok ==> code == old(code) + tail && Realizes(tail, |old(code)|, dag, order, arity, Leaf(x, results))
    {
      hide Pushes, PushesAll, Realizes, Plains;
      ghost var piece: seq<Instr> := [];
      PushesNothing(dag, schedule, arity, x);
      EmptyPlains();
      var pushed: bool;
      for i := 0 to |results|
        invariant code == old(code) + Plains(piece)
        invariant PushesAll(piece, dag, schedule, arity, results[..i], x)
      {
        ghost var more;
        pushed, more := EmitValue(results[i], x);
        PushesMore(piece, more, dag, schedule, arity, results[..i], results[i], x);
        assert results[..i + 1] == results[..i] + [results[i]];
        PlainsConcat(piece, more);
        piece := piece + more;
      }
      assert results[..|results|] == results;
      ok := arity + schedule.temps <= 255 && |results| <= 255;
      LeafRealizes(piece, |code| - |Plains(piece)|, dag, schedule, order, arity, x, results);
      code := code + [Return(x, arity + schedule.temps, |results|)];
      tail := Plains(piece) + [Return(x, arity + schedule.temps, |results|)];
    }

    /** A back edge: all new arguments are computed before any old one is overwritten. */
    method EmitBack(results: seq<Operand>, ghost order: seq<nat>) returns (ghost tail: seq<Line>)
      requires Valid() && EffectsParked(dag, schedule, |dag|) && Ordered(dag, schedule, order) && schedule.suffix == 0
      requires TreeOk(dag, arity, Back(results))
      modifies this`code
      ensures code == old(code) + tail && Realizes(tail, |old(code)|, dag, order, arity, Back(results))
    {
      hide Pushes, Arrives, Realizes, Plains, StageState, Changed;
      ghost var piece: seq<Instr> := [];
      ghost var at := |code|;
      ArriveStart(dag, order, results);
      EmptyPlains();
      var d: nat := |results|;
      while d > 0
        invariant d <= |results| && code == old(code) + Plains(piece)
        invariant Arrives(piece, dag, order, results, Pushing(d))
      {
        d := d - 1;
        ghost var more: seq<Instr> := [];
        if Changed(dag, results[d], d) {
          var pushed: bool;
          pushed, more := EmitValue(results[d], A);
        }
        forall args: seq<Cell> | |args| == |results|
          ensures Steps(more, Next(StageState(dag, order, results, args, Pushing(d + 1)))) ==
            Next(StageState(dag, order, results, args, Pushing(d)))
        {
          PushStage(more, dag, schedule, order, results, d, args);
        }
        ArriveBy(piece, more, dag, order, results, Pushing(d + 1), Pushing(d));
        PlainsConcat(piece, more);
        piece := piece + more;
      }
      TurnAll(piece, order, results);
      while d < |results|
        invariant d <= |results| && code == old(code) + Plains(piece)
        invariant Arrives(piece, dag, order, results, Setting(d))
      {
        ghost var more: seq<Instr> := [];
        if Changed(dag, results[d], d) {
          Emit(CSet(A, schedule.temps + d));
          more := [CSet(A, schedule.temps + d)];
        }
        SetAll(piece, more, order, results, d);
        PlainsConcat(piece, more);
        piece := piece + more;
        d := d + 1;
      }
      DoneAll(piece, order, results);
      for i := 0 to schedule.temps
        invariant code == old(code) + Plains(piece)
        invariant Arrives(piece, dag, order, results, Popping(schedule.temps - i))
      {
        Emit(CPop);
        PopAll(piece, order, results, schedule.temps - i);
        PlainsConcat(piece, [CPop]);
        piece := piece + [CPop];
      }
      PlainsLength(piece);
      BackRealizes(piece, at, dag, order, arity, results);
      var back := -(|code| + 1);
      code := code + [Jump(back)];
      tail := Plains(piece) + [Jump(back)];
    }

    lemma TurnAll(piece: seq<Instr>, order: seq<nat>, results: seq<Operand>)
      requires WellFormed(dag) && (forall i | 0 <= i < |order| :: order[i] < |dag|)
      requires (forall i | 0 <= i < |results| :: OperandOk(dag, results[i]))
      requires Arrives(piece, dag, order, results, Pushing(0))
      ensures Arrives(piece, dag, order, results, Setting(0))
    {
      hide StageState, Steps;
      forall args: seq<Cell> | |args| == |results|
        ensures StageState(dag, order, results, args, Pushing(0)) == StageState(dag, order, results, args, Setting(0))
      {
        TurnStage(dag, order, results, args);
      }
    }

    lemma SetAll(piece: seq<Instr>, more: seq<Instr>, order: seq<nat>, results: seq<Operand>, k: nat)
      requires WellFormed(dag) && (forall i | 0 <= i < |order| :: order[i] < |dag|) && k < |results|
      requires (forall i | 0 <= i < |results| :: OperandOk(dag, results[i]))
      requires Arrives(piece, dag, order, results, Setting(k))
      requires more == if Changed(dag, results[k], k) then [CSet(A, |order| + k)] else []
      ensures Arrives(piece + more, dag, order, results, Setting(k + 1))
    {
      hide StageState, Steps, Changed, Arrives, Step;
      forall args: seq<Cell> | |args| == |results|
        ensures Steps(more, Next(StageState(dag, order, results, args, Setting(k)))) ==
          Next(StageState(dag, order, results, args, Setting(k + 1)))
      {
        var st := StageState(dag, order, results, args, Setting(k));
        if Changed(dag, results[k], k) {
          SetStage(dag, order, results, k, args);
          StepsOne(CSet(A, |order| + k), Next(st));
        } else {
          SameStage(dag, order, results, k, args);
          StepsEmpty(Next(st));
        }
      }
      ArriveBy(piece, more, dag, order, results, Setting(k), Setting(k + 1));
    }

    lemma DoneAll(piece: seq<Instr>, order: seq<nat>, results: seq<Operand>)
      requires WellFormed(dag) && (forall i | 0 <= i < |order| :: order[i] < |dag|)
      requires (forall i | 0 <= i < |results| :: OperandOk(dag, results[i]))
      requires Arrives(piece, dag, order, results, Setting(|results|))
      ensures Arrives(piece, dag, order, results, Popping(|order|))
    {
      hide StageState, Steps;
      forall args: seq<Cell> | |args| == |results|
        ensures StageState(dag, order, results, args, Setting(|results|)) ==
          StageState(dag, order, results, args, Popping(|order|))
      {
        DoneStage(dag, order, results, args);
      }
    }

    lemma PopAll(piece: seq<Instr>, order: seq<nat>, results: seq<Operand>, m: nat)
      requires WellFormed(dag) && (forall i | 0 <= i < |order| :: order[i] < |dag|)
      requires (forall i | 0 <= i < |results| :: OperandOk(dag, results[i])) && 0 < m <= |order|
      requires Arrives(piece, dag, order, results, Popping(m))
      ensures Arrives(piece + [CPop], dag, order, results, Popping(m - 1))
    {
      hide StageState, Steps, Arrives, Step;
      forall args: seq<Cell> | |args| == |results|
        ensures Steps([CPop], Next(StageState(dag, order, results, args, Popping(m)))) ==
          Next(StageState(dag, order, results, args, Popping(m - 1)))
      {
        PopStage(dag, order, results, m, args);
        StepsOne(CPop, Next(StageState(dag, order, results, args, Popping(m))));
      }
      ArriveBy(piece, [CPop], dag, order, results, Popping(m), Popping(m - 1));
    }

    /** Emit a whole decision tree after the prologue. */
    method EmitTree(t: Tree, ghost order: seq<nat>) returns (ok: bool, ghost tail: seq<Line>)
      requires Valid() && EffectsParked(dag, schedule, |dag|) && Ordered(dag, schedule, order) && schedule.suffix == 0
      requires TreeOk(dag, arity, t) && arity + schedule.temps <= 255
      modifies this`code
      ensures ok <==> LeavesFit(t)
      ensures ok ==> code == old(code) + tail && Realizes(tail, |old(code)|, dag, order, arity, t)
      decreases t
    {
      hide Tests, Realizes, Plains, Fuse;
      tail := [];
      match t {
      case Leaf(x, results) => ok, tail := EmitLeaf(x, results, order);
      case Back(results) =>
        tail := EmitBack(results, order);
        ok := true;
      case Fork(control, f, g) =>
        FuseMeaning(dag, schedule, control, []);
        var c, test := EmitCondition(Fuse(dag, schedule, control));
        FusedTests(test, c, dag, schedule, arity, control);
        var jump := |code| - 1;
        ghost var ft, gt;
        ok, ft := EmitTree(f, order);
        if !ok {
          return;
        }
        code := code[jump := JumpIf(c, |code| - (jump + 1))];
        ok, gt := EmitTree(g, order);
        if !ok {
          return;
        }
        PlainsLength(test);
        ForkRealizes(test, c, ft, gt, |old(code)|, dag, schedule, order, arity, control, f, g);
        tail := Plains(test) + [JumpIf(c, |ft|)] + ft + gt;
      }
    }
  }

  /** The nodes that take a place on C. */
  predicate Parks(dag: Dag, park: set<nat>, id: nat)
    requires id < |dag|
  {
    id in park && !dag[id].Input? && !dag[id].Literal?
  }

  function ParkCount(dag: Dag, park: set<nat>, n: nat): nat
    requires n <= |dag|
  {
    if n == 0 then 0 else ParkCount(dag, park, n - 1) + if Parks(dag, park, n - 1) then 1 else 0
  }

  lemma {:induction false} ParkGrows(dag: Dag, park: set<nat>, m: nat, n: nat)
    requires m <= n <= |dag|
    ensures ParkCount(dag, park, m) <= ParkCount(dag, park, n)
    decreases n
  {
    if m < n {
      ParkGrows(dag, park, m, n - 1);
    }
  }

  /** No leaf returns more than a byte can count. */
  predicate LeavesFit(t: Tree) {
    match t
    case Leaf(_, results) => |results| <= 255
    case Back(_) => true
    case Fork(_, f, g) => LeavesFit(f) && LeavesFit(g)
  }

  /** Re-project a function: for all arguments the emitted body returns the tree's values, traps
      for the first trapping effect's reason, or restarts with the new arguments. It fails exactly when
      the frame with its parked nodes, or a leaf, is larger than a byte can count. */
  method EmitFunction(dag: Dag, arity: nat, ershov: seq<nat>, park: set<nat>, t: Tree)
    returns (ok: bool, code: seq<Line>)
    requires WellFormed(dag) && InputsBelow(dag, arity) && |ershov| == |dag| && arity <= 255 && TreeOk(dag, arity, t)
    requires forall id | 0 <= id < |dag| && Effect(dag, id) :: id in park
    ensures ok <==> arity + ParkCount(dag, park, |dag|) <= 255 && LeavesFit(t)
    ensures ok ==> forall args: seq<Cell> | |args| == arity ::
      ExecFrom(code, 0, Entry(args)) == EvalFunction(dag, arity, t, args)
    ensures ok ==> forall args: seq<Cell>, fuel: nat | |args| == arity ::
      Iterate(code, Entry(args), fuel) == EvalLoop(dag, arity, t, args, fuel)
  {
    hide Prepares, Realizes, Plains, ExecFrom, EvalFunction, Ordered, EffectsParked;
    var e := new Emitter(dag, arity, ershov);
    ghost var p, order, tail;
    ok, p, order := e.Prologue(park);
    code := [];
    if ok {
      PlainsLength(p);
      OrderedBelow(dag, e.schedule, order);
      ok, tail := e.EmitTree(t, order);
      code := e.code;
      if ok {
        forall args: seq<Cell> | |args| == arity
          ensures ExecFrom(code, 0, Entry(args)) == EvalFunction(dag, arity, t, args)
        {
          FunctionRealized(p, tail, dag, order, arity, t, args);
        }
        forall args: seq<Cell>, fuel: nat | |args| == arity
          ensures Iterate(code, Entry(args), fuel) == EvalLoop(dag, arity, t, args, fuel)
        {
          RunsAgree(code, dag, arity, t, args, fuel);
        }
      }
    }
  }

  lemma OrderedBelow(dag: Dag, s: Schedule, order: seq<nat>)
    requires Ordered(dag, s, order)
    ensures forall i | 0 <= i < |order| :: order[i] < |dag|
  {
  }
}
