/** What one straight-line instruction does to symbolic stacks, and why the nodes it leaves compute
    the same thing.
 */
module SymbolicStep {
  import opened Words
  import opened Bytecode
  import opened ControlCode
  import opened ResidualCode

  // ----- denotation commutes with stack operations -----

  lemma SymAt(s: Banks<Sym>, env: Env, x: Stack)
    requires BanksKnown(s, env)
    ensures AllKnown(s.At(x), env) && DenoteBanks(s, env).At(x) == DenoteAll(s.At(x), env)
  {
  }

  lemma SymPut(s: Banks<Sym>, env: Env, x: Stack, l: seq<Sym>)
    requires BanksKnown(s, env) && AllKnown(l, env)
    ensures BanksKnown(s.Put(x, l), env)
    ensures DenoteBanks(s.Put(x, l), env) == DenoteBanks(s, env).Put(x, DenoteAll(l, env))
  {
  }

  lemma SymPeek(s: Banks<Sym>, env: Env, x: Stack, depth: nat)
    requires BanksKnown(s, env) && s.Has(x, depth)
    ensures Known(s.Peek(x, depth), env) && DenoteBanks(s, env).Has(x, depth)
    ensures DenoteBanks(s, env).Peek(x, depth) == Denote(s.Peek(x, depth), env)
  {
    SymAt(s, env, x);
  }

  lemma SymPush(s: Banks<Sym>, env: Env, x: Stack, v: Sym)
    requires BanksKnown(s, env) && Known(v, env)
    ensures BanksKnown(s.Push(x, v), env)
    ensures DenoteBanks(s.Push(x, v), env) == DenoteBanks(s, env).Push(x, Denote(v, env))
  {
    var l := s.At(x);
    SymAt(s, env, x);
    assert DenoteAll(l + [v], env) == DenoteAll(l, env) + [Denote(v, env)];
    SymPut(s, env, x, l + [v]);
  }

  lemma SymPop(s: Banks<Sym>, env: Env, x: Stack)
    requires BanksKnown(s, env) && s.Has(x, 0)
    ensures BanksKnown(s.Pop(x), env) && DenoteBanks(s, env).Has(x, 0)
    ensures DenoteBanks(s.Pop(x), env) == DenoteBanks(s, env).Pop(x)
  {
    var l := s.At(x);
    SymAt(s, env, x);
    assert DenoteAll(l[..|l| - 1], env) == DenoteAll(l, env)[..|l| - 1];
    SymPut(s, env, x, l[..|l| - 1]);
  }

  lemma SymReplace(s: Banks<Sym>, env: Env, x: Stack, depth: nat, v: Sym)
    requires BanksKnown(s, env) && s.Has(x, depth) && Known(v, env)
    ensures BanksKnown(s.Replace(x, depth, v), env) && DenoteBanks(s, env).Has(x, depth)
    ensures DenoteBanks(s.Replace(x, depth, v), env) == DenoteBanks(s, env).Replace(x, depth, Denote(v, env))
  {
    var l, i := s.At(x), |s.At(x)| - 1 - depth;
    SymAt(s, env, x);
    assert DenoteAll(l[i := v], env) == DenoteAll(l, env)[i := Denote(v, env)];
    SymPut(s, env, x, l[i := v]);
  }

  lemma SymReady(i: Instr, s: Banks<Sym>, env: Env)
    requires BanksKnown(s, env)
    ensures Ready(i, DenoteBanks(s, env)) <==> Ready(i, s)
  {
    forall x: Stack ensures |DenoteBanks(s, env).At(x)| == |s.At(x)| {
      SymAt(s, env, x);
    }
  }

  // ----- new ids disturb nothing older -----

  lemma OlderKept(s: Banks<Sym>, env: Env, id: nat, v: Cell)
    requires BanksKnown(s, env) && BanksOlder(s, id)
    ensures BanksKnown(s, env[id := v]) && DenoteBanks(s, env[id := v]) == DenoteBanks(s, env)
  {
    AllOlderKept(s.a, env, id, v);
    AllOlderKept(s.b, env, id, v);
    AllOlderKept(s.c, env, id, v);
  }

  lemma AllOlderKept(l: seq<Sym>, env: Env, id: nat, v: Cell)
    requires AllKnown(l, env) && AllOlder(l, id)
    ensures AllKnown(l, env[id := v]) && DenoteAll(l, env[id := v]) == DenoteAll(l, env)
  {
    forall i | 0 <= i < |l| ensures Known(l[i], env[id := v]) && Denote(l[i], env[id := v]) == Denote(l[i], env) {
      assert Known(l[i], env) && Older(l[i], id);
    }
  }

  lemma OlderMore(s: Banks<Sym>, n: nat, n': nat)
    requires BanksOlder(s, n) && n <= n'
    ensures BanksOlder(s, n')
  {
  }

  lemma OlderPeek(s: Banks<Sym>, n: nat, x: Stack, depth: nat)
    requires BanksOlder(s, n) && s.Has(x, depth)
    ensures Older(s.Peek(x, depth), n)
  {
  }

  lemma OlderPut(s: Banks<Sym>, n: nat, x: Stack, l: seq<Sym>)
    requires BanksOlder(s, n) && AllOlder(l, n)
    ensures BanksOlder(s.Put(x, l), n)
  {
  }

  lemma OlderPush(s: Banks<Sym>, n: nat, x: Stack, v: Sym)
    requires BanksOlder(s, n) && Older(v, n)
    ensures BanksOlder(s.Push(x, v), n)
  {
    OlderAt(s, n, x);
    OlderPut(s, n, x, s.At(x) + [v]);
  }

  lemma OlderAt(s: Banks<Sym>, n: nat, x: Stack)
    requires BanksOlder(s, n)
    ensures AllOlder(s.At(x), n)
  {
  }

  lemma OlderPop(s: Banks<Sym>, n: nat, x: Stack)
    requires BanksOlder(s, n) && s.Has(x, 0)
    ensures BanksOlder(s.Pop(x), n)
  {
    OlderAt(s, n, x);
    OlderPut(s, n, x, s.At(x)[..|s.At(x)| - 1]);
  }

  lemma OlderReplace(s: Banks<Sym>, n: nat, x: Stack, depth: nat, v: Sym)
    requires BanksOlder(s, n) && s.Has(x, depth) && Older(v, n)
    ensures BanksOlder(s.Replace(x, depth, v), n)
  {
    OlderAt(s, n, x);
    OlderPut(s, n, x, s.At(x)[|s.At(x)| - 1 - depth := v]);
  }

  // ----- realizing an instruction -----

  /** In one environment, the added nodes and the new stacks do what the instruction does. */
  ghost predicate RealizesAt(callees: Callees, i: Instr, s: Banks<Sym>, s': Banks<Sym>, added: seq<Node>, env: Env)
    requires BanksKnown(s, env)
  {
    match RunNodes(callees, added, env)
    case On(env') => BanksKnown(s', env') && Step(i, DenoteBanks(s, env)) == Next(DenoteBanks(s', env'))
    case Off(o) => o.Aborted? && Step(i, DenoteBanks(s, env)) == Bytecode.Outcome.Trap(o.reason)
  }

  /** In every environment. */
  ghost predicate Realizes(i: Instr, s: Banks<Sym>, s': Banks<Sym>, added: seq<Node>) {
    forall callees: Callees, env: Env | BanksKnown(s, env) :: RealizesAt(callees, i, s, s', added, env)
  }

  /** In every environment the instruction fails with this reason. */
  ghost predicate AlwaysTraps(i: Instr, s: Banks<Sym>, reason: nat) {
    forall env: Env | BanksKnown(s, env) :: Step(i, DenoteBanks(s, env)) == Bytecode.Outcome.Trap(reason)
  }

  lemma NoNodes(callees: Callees, i: Instr, s: Banks<Sym>, s': Banks<Sym>, env: Env)
    requires BanksKnown(s, env) && BanksKnown(s', env)
    requires Step(i, DenoteBanks(s, env)) == Next(DenoteBanks(s', env))
    ensures RealizesAt(callees, i, s, s', [], env)
  {
  }

  lemma PushRealizes(x: Bank, v: Cell, s: Banks<Sym>)
    ensures Realizes(Push(x, v), s, s.Push(x, Const(v)), [])
  {
    hide Step, DenoteBanks, BanksKnown, Banks.Push;
    forall callees: Callees, env: Env | BanksKnown(s, env)
      ensures RealizesAt(callees, Push(x, v), s, s.Push(x, Const(v)), [], env)
    {
      SymPush(s, env, x, Const(v));
      PushStep(x, v, DenoteBanks(s, env));
      NoNodes(callees, Push(x, v), s, s.Push(x, Const(v)), env);
    }
  }

  lemma DupRealizes(x: Bank, s: Banks<Sym>)
    requires s.Has(x, 0)
    ensures Realizes(Dup(x), s, s.Push(x, s.Peek(x, 0)), [])
  {
    hide Step, DenoteBanks, BanksKnown, Banks.Push, Banks.Peek;
    var s' := s.Push(x, s.Peek(x, 0));
    forall callees: Callees, env: Env | BanksKnown(s, env) ensures RealizesAt(callees, Dup(x), s, s', [], env) {
      SymPeek(s, env, x, 0);
      SymPush(s, env, x, s.Peek(x, 0));
      DupStep(x, DenoteBanks(s, env));
      NoNodes(callees, Dup(x), s, s', env);
    }
  }

  lemma DupStep(x: Bank, s: Banks<Cell>)
    requires s.Has(x, 0)
    ensures Step(Dup(x), s) == Next(s.Push(x, s.Peek(x, 0)))
  {
  }

  lemma DropRealizes(x: Bank, s: Banks<Sym>)
    requires s.Has(x, 0)
    ensures Realizes(Drop(x), s, s.Pop(x), [])
  {
    hide Step, DenoteBanks, BanksKnown, Banks.Pop;
    forall callees: Callees, env: Env | BanksKnown(s, env) ensures RealizesAt(callees, Drop(x), s, s.Pop(x), [], env) {
      SymPop(s, env, x);
      DropStep(x, DenoteBanks(s, env));
      NoNodes(callees, Drop(x), s, s.Pop(x), env);
    }
  }

  lemma CopyRealizes(x: Bank, s: Banks<Sym>)
    requires s.Has(x, 0)
    ensures Realizes(Copy(x), s, s.Push(Opposite(x), s.Peek(x, 0)), [])
  {
    hide Step, DenoteBanks, BanksKnown, Banks.Push, Banks.Peek;
    var s' := s.Push(Opposite(x), s.Peek(x, 0));
    forall callees: Callees, env: Env | BanksKnown(s, env) ensures RealizesAt(callees, Copy(x), s, s', [], env) {
      SymPeek(s, env, x, 0);
      SymPush(s, env, Opposite(x), s.Peek(x, 0));
      CopyStep(x, DenoteBanks(s, env));
      NoNodes(callees, Copy(x), s, s', env);
    }
  }

  lemma MoveStep(x: Bank, s: Banks<Cell>)
    requires s.Has(x, 0)
    ensures Step(Move(x), s) == Next(s.Pop(x).Push(Opposite(x), s.Peek(x, 0)))
  {
  }

  /** Moving the top of an operand stack to another stack. */
  lemma TransferRealizes(i: Instr, x: Bank, to: Stack, s: Banks<Sym>)
    requires s.Has(x, 0) && ((i == Move(x) && to == Opposite(x)) || (i == CPush(x) && to == C))
    ensures Realizes(i, s, s.Pop(x).Push(to, s.Peek(x, 0)), [])
  {
    hide Step, DenoteBanks, BanksKnown, Banks.Push, Banks.Pop, Banks.Peek;
    var s' := s.Pop(x).Push(to, s.Peek(x, 0));
    forall callees: Callees, env: Env | BanksKnown(s, env) ensures RealizesAt(callees, i, s, s', [], env) {
      SymPeek(s, env, x, 0);
      SymPop(s, env, x);
      SymPush(s.Pop(x), env, to, s.Peek(x, 0));
      if i == Move(x) {
        MoveStep(x, DenoteBanks(s, env));
      } else {
        CPushStep(x, DenoteBanks(s, env));
      }
      NoNodes(callees, i, s, s', env);
    }
  }

  lemma CPopRealizes(s: Banks<Sym>)
    requires s.Has(C, 0)
    ensures Realizes(CPop, s, s.Pop(C), [])
  {
    hide Step, DenoteBanks, BanksKnown, Banks.Pop;
    forall callees: Callees, env: Env | BanksKnown(s, env) ensures RealizesAt(callees, CPop, s, s.Pop(C), [], env) {
      SymPop(s, env, C);
      CPopStep(DenoteBanks(s, env));
      NoNodes(callees, CPop, s, s.Pop(C), env);
    }
  }

  lemma CGetRealizes(x: Bank, depth: nat, s: Banks<Sym>)
    requires s.Has(C, depth)
    ensures Realizes(CGet(x, depth), s, s.Push(x, s.Peek(C, depth)), [])
  {
    hide Step, DenoteBanks, BanksKnown, Banks.Push, Banks.Peek;
    var s' := s.Push(x, s.Peek(C, depth));
    forall callees: Callees, env: Env | BanksKnown(s, env) ensures RealizesAt(callees, CGet(x, depth), s, s', [], env) {
      SymPeek(s, env, C, depth);
      SymPush(s, env, x, s.Peek(C, depth));
      CGetStep(x, depth, DenoteBanks(s, env));
      NoNodes(callees, CGet(x, depth), s, s', env);
    }
  }

  lemma PopKeepsC(s: Banks<Sym>, x: Bank, depth: nat)
    requires s.Has(x, 0) && s.Has(C, depth)
    ensures s.Pop(x).Has(C, depth)
  {
  }

  lemma CSetRealizes(x: Bank, depth: nat, s: Banks<Sym>)
    requires s.Has(x, 0) && s.Has(C, depth)
    ensures s.Pop(x).Has(C, depth)
    ensures Realizes(CSet(x, depth), s, s.Pop(x).Replace(C, depth, s.Peek(x, 0)), [])
  {
    PopKeepsC(s, x, depth);
    hide Step, DenoteBanks, BanksKnown, Banks.Pop, Banks.Replace, Banks.Peek, Banks.Has;
    var s' := s.Pop(x).Replace(C, depth, s.Peek(x, 0));
    forall callees: Callees, env: Env | BanksKnown(s, env) ensures RealizesAt(callees, CSet(x, depth), s, s', [], env) {
      SymPeek(s, env, x, 0);
      SymPeek(s, env, C, depth);
      SymPop(s, env, x);
      SymReplace(s.Pop(x), env, C, depth, s.Peek(x, 0));
      CSetStep(x, depth, DenoteBanks(s, env));
      NoNodes(callees, CSet(x, depth), s, s', env);
    }
  }

  // ----- results -----

  /** A fresh id put on top stands for the value bound to it and disturbs nothing else. */
  lemma FreshOnTop(s: Banks<Sym>, env: Env, x: Bank, id: nat, v: Cell)
    requires BanksKnown(s, env) && BanksOlder(s, id) && s.Has(x, 0)
    ensures BanksKnown(s.Replace(x, 0, Value(id)), env[id := v]) && DenoteBanks(s, env).Has(x, 0)
    ensures DenoteBanks(s.Replace(x, 0, Value(id)), env[id := v]) == DenoteBanks(s, env).Replace(x, 0, v)
  {
    hide DenoteBanks, BanksKnown, BanksOlder, Banks.Replace, Banks.Has;
    OlderKept(s, env, id, v);
    SymReplace(s, env[id := v], x, 0, Value(id));
  }

  lemma OneNode(callees: Callees, n: Node, i: Instr, s: Banks<Sym>, s': Banks<Sym>, env: Env)
    requires BanksKnown(s, env)
    requires match RunNode(callees, n, env)
      case On(env') => BanksKnown(s', env') && Step(i, DenoteBanks(s, env)) == Next(DenoteBanks(s', env'))
      case Off(o) => o.Aborted? && Step(i, DenoteBanks(s, env)) == Bytecode.Outcome.Trap(o.reason)
    ensures RealizesAt(callees, i, s, s', [n], env)
  {
    hide Step, RunNode, DenoteBanks;
    RunNodesOne(callees, n, env);
  }

  lemma BinaryOperands(s: Banks<Sym>, x: Bank, env: Env)
    requires BanksKnown(s, env) && s.Has(x, 0) && s.Has(Opposite(x), 0)
    ensures Known(s.Peek(x, 0), env) && Known(s.Peek(Opposite(x), 0), env)
    ensures var t := DenoteBanks(s, env);
      && t.Has(x, 0) && t.Has(Opposite(x), 0)
      && t.Peek(x, 0) == Denote(s.Peek(x, 0), env) && t.Peek(Opposite(x), 0) == Denote(s.Peek(Opposite(x), 0), env)
    ensures s.Pop(Opposite(x)).Has(x, 0) && BanksKnown(s.Pop(Opposite(x)), env)
    ensures DenoteBanks(s.Pop(Opposite(x)), env) == DenoteBanks(s, env).Pop(Opposite(x))
  {
    SymPeek(s, env, x, 0);
    SymPeek(s, env, Opposite(x), 0);
    SymPop(s, env, Opposite(x));
  }

  lemma CombineKnown(op: BinaryOp, x: Cell, y: Cell)
    requires !Traps(op, y)
    ensures Combine(op, x, y) == Some(Apply(op, x, y))
  {
    hide Apply;
  }

  /** Both operands constant: the result is a constant, and no node is left. */
  lemma BinaryFolds(x: Bank, op: BinaryOp, s: Banks<Sym>)
    requires s.Has(x, 0) && s.Has(Opposite(x), 0) && s.Peek(x, 0).Const? && s.Peek(Opposite(x), 0).Const?
    requires !Traps(op, s.Peek(Opposite(x), 0).value)
    ensures s.Pop(Opposite(x)).Has(x, 0)
    ensures Realizes(Binary(x, op), s,
      s.Pop(Opposite(x)).Replace(x, 0, Const(Apply(op, s.Peek(x, 0).value, s.Peek(Opposite(x), 0).value))), [])
  {
    hide Step, DenoteBanks, BanksKnown, Banks.Pop, Banks.Replace, Banks.Peek, Banks.Has, Apply, Traps, Combine;
    PopKeepsOther(s, x);
    CombineKnown(op, s.Peek(x, 0).value, s.Peek(Opposite(x), 0).value);
    var t, v := s.Pop(Opposite(x)), Const(Apply(op, s.Peek(x, 0).value, s.Peek(Opposite(x), 0).value));
    forall callees: Callees, env: Env | BanksKnown(s, env)
      ensures RealizesAt(callees, Binary(x, op), s, t.Replace(x, 0, v), [], env)
    {
      BinaryOperands(s, x, env);
      SymReplace(t, env, x, 0, v);
      PlainBinaryStep(x, op, DenoteBanks(s, env));
      NoNodes(callees, Binary(x, op), s, t.Replace(x, 0, v), env);
    }
  }

  lemma PopKeepsOther(s: Banks<Sym>, x: Bank)
    requires s.Has(x, 0) && s.Has(Opposite(x), 0)
    ensures s.Pop(Opposite(x)).Has(x, 0)
  {
  }

  /** Otherwise one node computes it, or fails as the instruction does. */
  lemma BinaryRealizes(x: Bank, op: BinaryOp, s: Banks<Sym>, id: nat)
    requires s.Has(x, 0) && s.Has(Opposite(x), 0) && BanksOlder(s, id)
    ensures s.Pop(Opposite(x)).Has(x, 0)
    ensures Realizes(Binary(x, op), s, s.Pop(Opposite(x)).Replace(x, 0, Value(id)),
      [BinaryNode(id, op, s.Peek(x, 0), s.Peek(Opposite(x), 0))])
  {
    PopKeepsOther(s, x);
    OlderPop(s, id, Opposite(x));
    hide Step, DenoteBanks, BanksKnown, BanksOlder, Banks.Pop, Banks.Replace, Banks.Peek, Banks.Has, Combine, Known;
    hide Denote;
    var t := s.Pop(Opposite(x));
    var n := BinaryNode(id, op, s.Peek(x, 0), s.Peek(Opposite(x), 0));
    forall callees: Callees, env: Env | BanksKnown(s, env)
      ensures RealizesAt(callees, Binary(x, op), s, t.Replace(x, 0, Value(id)), [n], env)
    {
      BinaryOperands(s, x, env);
      PlainBinaryStep(x, op, DenoteBanks(s, env));
      var r := Combine(op, Denote(n.left, env), Denote(n.right, env));
      if r.Some? {
        FreshOnTop(t, env, x, id, r.value);
      }
      OneNode(callees, n, Binary(x, op), s, t.Replace(x, 0, Value(id)), env);
    }
  }

  /** The value an in-place operation puts on top. */
  predicate InPlace(i: Instr) {
    i.Unary? || (i.Immediate? && HasImmediate(i.op)) || (i.COperand? && HasCOperand(i.op))
  }

  function InPlaceValue(i: Instr, s: Banks<Cell>): Cell
    requires InPlace(i) && Ready(i, s)
  {
    match i
    case Unary(x, op) => ApplyUnary(op, s.Peek(x, 0))
    case Immediate(x, op, v) => Apply(op, s.Peek(x, 0), v)
    case COperand(x, op, depth) => Apply(op, s.Peek(x, 0), s.Peek(C, depth))
  }

  lemma InPlaceStep(i: Instr, s: Banks<Cell>)
    requires InPlace(i) && Ready(i, s)
    ensures s.Has(i.bank, 0) && Step(i, s) == Next(s.Replace(i.bank, 0, InPlaceValue(i, s)))
  {
    match i
    case Unary(x, op) => UnaryStep(x, op, s);
    case Immediate(x, op, v) => ImmediateStep(x, op, v, s);
    case COperand(x, op, depth) => PlainCOperandStep(x, op, depth, s);
  }

  /** Whether every input is a constant. */
  predicate InPlaceConst(i: Instr, s: Banks<Sym>)
    requires InPlace(i) && Ready(i, s)
  {
    s.Peek(i.bank, 0).Const? && (i.COperand? ==> s.Peek(C, i.depth).Const?)
  }

  function InPlaceFold(i: Instr, s: Banks<Sym>): Cell
    requires InPlace(i) && Ready(i, s) && InPlaceConst(i, s)
  {
    match i
    case Unary(x, op) => ApplyUnary(op, s.Peek(x, 0).value)
    case Immediate(x, op, v) => Apply(op, s.Peek(x, 0).value, v)
    case COperand(x, op, depth) => Apply(op, s.Peek(x, 0).value, s.Peek(C, depth).value)
  }

  function InPlaceNode(i: Instr, s: Banks<Sym>, id: nat): Node
    requires InPlace(i) && Ready(i, s)
  {
    match i
    case Unary(x, op) => UnaryNode(id, op, s.Peek(x, 0))
    case Immediate(x, op, v) => BinaryNode(id, op, s.Peek(x, 0), Const(v))
    case COperand(x, op, depth) => BinaryNode(id, op, s.Peek(x, 0), s.Peek(C, depth))
  }

  lemma InPlaceInputs(i: Instr, s: Banks<Sym>, env: Env)
    requires InPlace(i) && Ready(i, s) && BanksKnown(s, env)
    ensures s.Has(i.bank, 0) && Ready(i, DenoteBanks(s, env))
    ensures Known(s.Peek(i.bank, 0), env) && DenoteBanks(s, env).Has(i.bank, 0)
    ensures DenoteBanks(s, env).Peek(i.bank, 0) == Denote(s.Peek(i.bank, 0), env)
    ensures i.COperand? ==> s.Has(C, i.depth) && Known(s.Peek(C, i.depth), env) && DenoteBanks(s, env).Has(C, i.depth)
    ensures i.COperand? ==> DenoteBanks(s, env).Peek(C, i.depth) == Denote(s.Peek(C, i.depth), env)
  {
    SymReady(i, s, env);
    SymPeek(s, env, i.bank, 0);
    if i.COperand? {
      SymPeek(s, env, C, i.depth);
    }
  }

  lemma InPlaceFolds(i: Instr, s: Banks<Sym>)
    requires InPlace(i) && Ready(i, s) && InPlaceConst(i, s)
    ensures s.Has(i.bank, 0) && Realizes(i, s, s.Replace(i.bank, 0, Const(InPlaceFold(i, s))), [])
  {
    hide Step, DenoteBanks, BanksKnown, Banks.Replace, Banks.Peek, Apply, ApplyUnary;
    var v := Const(InPlaceFold(i, s));
    forall callees: Callees, env: Env | BanksKnown(s, env)
      ensures RealizesAt(callees, i, s, s.Replace(i.bank, 0, v), [], env)
    {
      InPlaceInputs(i, s, env);
      SymReplace(s, env, i.bank, 0, v);
      InPlaceStep(i, DenoteBanks(s, env));
      NoNodes(callees, i, s, s.Replace(i.bank, 0, v), env);
    }
  }

  lemma NoTrap(op: BinaryOp, x: Cell, y: Cell)
    requires HasImmediate(op) || HasCOperand(op)
    ensures Combine(op, x, y) == Some(Apply(op, x, y))
  {
    hide Apply;
  }

  lemma InPlaceRuns(callees: Callees, i: Instr, s: Banks<Sym>, id: nat, env: Env)
    requires InPlace(i) && Ready(i, s) && BanksKnown(s, env)
    ensures Ready(i, DenoteBanks(s, env))
    ensures RunNode(callees, InPlaceNode(i, s, id), env) == On(env[id := InPlaceValue(i, DenoteBanks(s, env))])
  {
    hide DenoteBanks, BanksKnown, Banks.Peek, Apply, ApplyUnary, Combine;
    InPlaceInputs(i, s, env);
    match i
    case Unary(_, _) =>
    case Immediate(x, op, v) => NoTrap(op, Denote(s.Peek(x, 0), env), v);
    case COperand(x, op, depth) => NoTrap(op, Denote(s.Peek(x, 0), env), Denote(s.Peek(C, depth), env));
  }

  lemma InPlaceRealizes(i: Instr, s: Banks<Sym>, id: nat)
    requires InPlace(i) && Ready(i, s) && BanksOlder(s, id)
    ensures s.Has(i.bank, 0) && Realizes(i, s, s.Replace(i.bank, 0, Value(id)), [InPlaceNode(i, s, id)])
  {
    hide Step, DenoteBanks, BanksKnown, BanksOlder, Banks.Replace, Banks.Peek, Apply, ApplyUnary, InPlaceNode, RunNode;
    var s' := s.Replace(i.bank, 0, Value(id));
    forall callees: Callees, env: Env | BanksKnown(s, env)
      ensures RealizesAt(callees, i, s, s', [InPlaceNode(i, s, id)], env)
    {
      InPlaceInputs(i, s, env);
      InPlaceStep(i, DenoteBanks(s, env));
      InPlaceRuns(callees, i, s, id, env);
      FreshOnTop(s, env, i.bank, id, InPlaceValue(i, DenoteBanks(s, env)));
      OneNode(callees, InPlaceNode(i, s, id), i, s, s', env);
    }
  }

  // ----- range checks -----

  lemma CheckKnown(x: Bank, op: CheckOp, s: Banks<Sym>)
    requires s.Has(x, 0) && s.Peek(x, 0).Const?
    ensures if Fails(op, s.Peek(x, 0).value) then AlwaysTraps(Check(x, op), s, REASON_CONVERSION)
      else Realizes(Check(x, op), s, s, [])
  {
    hide Step, DenoteBanks, BanksKnown, Banks.Peek, Fails;
    forall env: Env | BanksKnown(s, env)
      ensures Step(Check(x, op), DenoteBanks(s, env)) ==
        if Fails(op, s.Peek(x, 0).value) then Bytecode.Outcome.Trap(REASON_CONVERSION) else Next(DenoteBanks(s, env))
    {
      SymPeek(s, env, x, 0);
      CheckStep(x, op, DenoteBanks(s, env));
    }
    if !Fails(op, s.Peek(x, 0).value) {
      forall callees: Callees, env: Env | BanksKnown(s, env) ensures RealizesAt(callees, Check(x, op), s, s, [], env) {
        NoNodes(callees, Check(x, op), s, s, env);
      }
    }
  }

  lemma CheckRealizes(x: Bank, op: CheckOp, s: Banks<Sym>)
    requires s.Has(x, 0)
    ensures Realizes(Check(x, op), s, s, [CheckNode(op, s.Peek(x, 0))])
  {
    hide Step, DenoteBanks, BanksKnown, Banks.Peek, Fails;
    forall callees: Callees, env: Env | BanksKnown(s, env)
      ensures RealizesAt(callees, Check(x, op), s, s, [CheckNode(op, s.Peek(x, 0))], env)
    {
      SymPeek(s, env, x, 0);
      CheckStep(x, op, DenoteBanks(s, env));
      OneNode(callees, CheckNode(op, s.Peek(x, 0)), Check(x, op), s, s, env);
    }
  }
}
