/** The residual program: blocks with parameters, straight-line nodes and one terminator each. */
module ResidualCode {
  import opened Words
  import opened Bytecode
  import opened ControlCode

  /** A symbolic value: an exact constant or the result of some node or block parameter. */
  datatype Sym = Const(value: Cell) | Value(id: nat)

  type Env = map<nat, Cell>

  datatype Node =
    | BinaryNode(result: nat, op: BinaryOp, left: Sym, right: Sym)
    | UnaryNode(result: nat, unary: UnaryOp, input: Sym)
    | CheckNode(check: CheckOp, input: Sym)
    | CallNode(results: seq<nat>, callee: nat, arguments: seq<Sym>)

  /** A jump to a block of the same function, passing its parameters. */
  datatype Edge = Edge(target: nat, arguments: seq<Sym>)

  datatype Terminator =
    | JumpEdge(edge: Edge)
    | BranchEdge(relation: Relation, left: Sym, right: Sym, yes: Edge, no: Edge)
    | SwitchEdge(input: Sym, arms: seq<Edge>, fallback: Edge)
    | StopEdge(reason: nat)
    | ReturnEdge(values: seq<Sym>)
    | TailEdge(callee: nat, arguments: seq<Sym>)

  /** `base` is the first parameter's id; the parameters are numbered from it. */
  datatype Block = Block(base: nat, arity: nat, nodes: seq<Node>, exit: Terminator)

  predicate Known(v: Sym, env: Env) {
    v.Value? ==> v.id in env
  }

  function Denote(v: Sym, env: Env): Cell
    requires Known(v, env)
  {
    match v case Const(c) => c case Value(id) => env[id]
  }

  predicate AllKnown(l: seq<Sym>, env: Env) {
    forall i | 0 <= i < |l| :: Known(l[i], env)
  }

  function DenoteAll(l: seq<Sym>, env: Env): (r: seq<Cell>)
    requires AllKnown(l, env)
    ensures |r| == |l|
    ensures forall i | 0 <= i < |l| :: r[i] == Denote(l[i], env)
  {
    seq(|l|, (i: nat) requires i < |l| => Denote(l[i], env))
  }

  lemma KnownConcat(a: seq<Sym>, b: seq<Sym>, env: Env)
    ensures AllKnown(a + b, env) <==> AllKnown(a, env) && AllKnown(b, env)
  {
    hide Known;
    if AllKnown(a + b, env) {
      forall i | 0 <= i < |a| ensures Known(a[i], env) {
        assert (a + b)[i] == a[i];
      }
      forall i | 0 <= i < |b| ensures Known(b[i], env) {
        assert (a + b)[|a| + i] == b[i];
      }
    }
  }

  lemma DenoteConcat(a: seq<Sym>, b: seq<Sym>, env: Env)
    ensures AllKnown(a + b, env) <==> AllKnown(a, env) && AllKnown(b, env)
    ensures AllKnown(a, env) && AllKnown(b, env) ==> DenoteAll(a + b, env) == DenoteAll(a, env) + DenoteAll(b, env)
  {
    hide Known, Denote;
    KnownConcat(a, b, env);
    if AllKnown(a, env) && AllKnown(b, env) {
      var l, r := DenoteAll(a + b, env), DenoteAll(a, env) + DenoteAll(b, env);
      forall i | 0 <= i < |l| ensures l[i] == r[i] {
        assert (a + b)[i] == if i < |a| then a[i] else b[i - |a|];
      }
    }
  }

  predicate BanksKnown(s: Banks<Sym>, env: Env) {
    AllKnown(s.a, env) && AllKnown(s.b, env) && AllKnown(s.c, env)
  }

  function DenoteBanks(s: Banks<Sym>, env: Env): Banks<Cell>
    requires BanksKnown(s, env)
  {
    Banks(DenoteAll(s.a, env), DenoteAll(s.b, env), DenoteAll(s.c, env))
  }

  /** Ids used so far lie below `next`. */
  predicate Older(v: Sym, next: nat) {
    v.Value? ==> v.id < next
  }

  predicate AllOlder(l: seq<Sym>, next: nat) {
    forall i | 0 <= i < |l| :: Older(l[i], next)
  }

  predicate BanksOlder(s: Banks<Sym>, next: nat) {
    AllOlder(s.a, next) && AllOlder(s.b, next) && AllOlder(s.c, next)
  }

  // ----- running blocks -----

  datatype Progress = On(env: Env) | Off(ending: Ending)

  function Bound(env: Env, ids: seq<nat>, values: seq<Cell>): Env
    requires |ids| == |values|
  {
    if ids == [] then env else Bound(env, ids[..|ids| - 1], values[..|ids| - 1])[ids[|ids| - 1] := values[|ids| - 1]]
  }

  predicate NodeKnown(n: Node, env: Env) {
    match n
    case BinaryNode(_, _, l, r) => Known(l, env) && Known(r, env)
    case UnaryNode(_, _, x) => Known(x, env)
    case CheckNode(_, x) => Known(x, env)
    case CallNode(_, _, args) => AllKnown(args, env)
  }

  function RunNode(callees: Callees, n: Node, env: Env): Progress {
    if !NodeKnown(n, env) then Off(Wrong)
    else
      match n
      case BinaryNode(id, op, l, r) =>
        (match Combine(op, Denote(l, env), Denote(r, env))
         case None => Off(Aborted(REASON_DIVISION))
         case Some(v) => On(env[id := v]))
      case UnaryNode(id, op, x) => On(env[id := ApplyUnary(op, Denote(x, env))])
      case CheckNode(op, x) => if Fails(op, Denote(x, env)) then Off(Aborted(REASON_CONVERSION)) else On(env)
      case CallNode(ids, g, args) =>
        var o := Answer(callees(g, DenoteAll(args, env)), |ids|);
        if o.Returned? then On(Bound(env, ids, o.values)) else Off(o)
  }

  function RunNodes(callees: Callees, nodes: seq<Node>, env: Env): Progress {
    if nodes == [] then On(env)
    else
      match RunNodes(callees, nodes[..|nodes| - 1], env)
      case Off(o) => Off(o)
      case On(env') => RunNode(callees, nodes[|nodes| - 1], env')
  }

  lemma {:induction false} RunNodesConcat(callees: Callees, a: seq<Node>, b: seq<Node>, env: Env)
    ensures RunNodes(callees, a + b, env) ==
      match RunNodes(callees, a, env)
      case Off(o) => Progress.Off(o)
      case On(env') => RunNodes(callees, b, env')
  {
    hide RunNode;
    if b == [] {
      assert a + b == a;
    } else {
      var c := b[..|b| - 1];
      RunNodesConcat(callees, a, c, env);
      assert (a + b)[..|a + b| - 1] == a + c;
    }
  }

  lemma RunNodesOne(callees: Callees, n: Node, env: Env)
    ensures RunNodes(callees, [n], env) == RunNode(callees, n, env)
  {
    hide RunNode;
    assert [n][..0] == [];
  }

  /** Where control goes from a block. */
  datatype Exit =
    | Goto(target: nat, values: seq<Cell>)
    | Enter(callee: nat, arguments: seq<Cell>)
    | Finish(ending: Ending)

  function Follow(e: Edge, env: Env): Exit {
    if AllKnown(e.arguments, env) then Goto(e.target, DenoteAll(e.arguments, env)) else Finish(Wrong)
  }

  function Leave(t: Terminator, env: Env): Exit {
    match t
    case JumpEdge(e) => Follow(e, env)
    case BranchEdge(r, l, x, yes, no) =>
      if !Known(l, env) || !Known(x, env) then Finish(Wrong)
      else Follow(if Related(r, Denote(l, env), Denote(x, env)) then yes else no, env)
    case SwitchEdge(x, arms, fallback) =>
      if !Known(x, env) then Finish(Wrong)
      else
        var k := Denote(x, env) as nat;
        Follow(if k < |arms| then arms[k] else fallback, env)
    case StopEdge(reason) => Finish(Aborted(reason))
    case ReturnEdge(vs) => if AllKnown(vs, env) then Finish(Returned(DenoteAll(vs, env))) else Finish(Wrong)
    case TailEdge(g, vs) => if AllKnown(vs, env) then Enter(g, DenoteAll(vs, env)) else Finish(Wrong)
  }

  function LeaveNodes(p: Progress, t: Terminator): Exit {
    match p case Off(o) => Finish(o) case On(env) => Leave(t, env)
  }

  function ParameterAt(values: seq<Cell>, base: nat, i: nat): Cell
    requires base <= i < base + |values|
  {
    values[i - base]
  }

  function Parameters(base: nat, values: seq<Cell>): Env {
    map i: nat | base <= i < base + |values| :: ParameterAt(values, base, i)
  }

  function RunBlock(callees: Callees, b: Block, values: seq<Cell>): Exit {
    if |values| != b.arity then Finish(Wrong)
    else LeaveNodes(RunNodes(callees, b.nodes, Parameters(b.base, values)), b.exit)
  }
}
