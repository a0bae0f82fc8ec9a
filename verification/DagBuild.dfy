/** Building the value graph: structurally equal pure nodes are one node. */
module DagBuild {
  import opened Words
  import opened DagEmit

  /** The expression a node stands for; an effect is identified by the node itself. */
  datatype Expr =
    | InputExpr(argument: nat)
    | LiteralExpr(value: Cell)
    | UnaryExpr(unary: UnaryOp, x: Expr)
    | BinaryExpr(op: BinaryOp, l: Expr, r: Expr)
    | EffectExpr(id: nat)

  function Unfold(dag: Dag, id: nat): Expr
    requires WellFormed(dag) && id < |dag|
    decreases id
  {
    if Effect(dag, id) then EffectExpr(id) else
    match dag[id]
    case Input(a) => InputExpr(a)
    case Literal(v) => LiteralExpr(v)
    case UnaryNode(op, x) => UnaryExpr(op, Unfold(dag, x))
    case BinaryNode(op, l, r) => BinaryExpr(op, Unfold(dag, l), Unfold(dag, r))
    case CheckNode(_, _) => EffectExpr(id)
  }

  /** No two pure nodes are equal. */
  ghost predicate Unique(dag: Dag)
    requires WellFormed(dag)
  {
    forall i: nat, j: nat | i < j < |dag| && dag[i] == dag[j] :: Effect(dag, j)
  }

  lemma SameEffect(dag: Dag, i: nat, j: nat)
    requires WellFormed(dag) && i < |dag| && j < |dag| && dag[i] == dag[j]
    ensures Effect(dag, i) == Effect(dag, j)
  {
  }

  /** In a graph without duplicates, a node number is its expression. */
  lemma {:induction false} NumbersAreExpressions(dag: Dag, i: nat, j: nat)
    requires WellFormed(dag) && Unique(dag) && i < |dag| && j < |dag|
    ensures Unfold(dag, i) == Unfold(dag, j) <==> i == j
    decreases i
  {
    if Unfold(dag, i) == Unfold(dag, j) && !Effect(dag, i) {
      match dag[i] {
      case UnaryNode(_, x) => NumbersAreExpressions(dag, x, dag[j].x);
      case BinaryNode(_, l, r) =>
        NumbersAreExpressions(dag, l, dag[j].l);
        NumbersAreExpressions(dag, r, dag[j].r);
      case _ =>
      }
      assert dag[i] == dag[j];
      SameEffect(dag, i, j);
    }
  }

  /** Appending a node changes no earlier node's value, effect or expression. */
  lemma {:induction false} AppendKeeps(dag: Dag, n: Node, id: nat, args: seq<Cell>)
    requires WellFormed(dag) && Operands(n, |dag|) && id < |dag|
    ensures WellFormed(dag + [n])
    ensures Effect(dag + [n], id) == Effect(dag, id)
    ensures Eval(dag + [n], id, args) == Eval(dag, id, args)
    ensures Unfold(dag + [n], id) == Unfold(dag, id)
    decreases id
  {
    hide Apply, ApplyUnary;
    var d := dag + [n];
    assert forall k | 0 <= k < |dag| :: d[k] == dag[k];
    match dag[id] {
    case Input(_) =>
    case Literal(_) =>
    case UnaryNode(_, x) => AppendKeeps(dag, n, x, args);
    case CheckNode(_, x) => AppendKeeps(dag, n, x, args);
    case BinaryNode(_, l, r) =>
      AppendKeeps(dag, n, l, args);
      AppendKeeps(dag, n, r, args);
    }
  }

  predicate EffectNode(dag: Dag, n: Node)
    requires Operands(n, |dag|)
  {
    match n
    case CheckNode(_, _) => true
    case BinaryNode(op, _, r) => Divides(op) && !(dag[r].Literal? && dag[r].value != 0)
    case _ => false
  }

  class Sink {
    var nodes: Dag

    constructor ()
      ensures nodes == [] && Valid()
    {
      nodes := [];
    }

    ghost predicate Valid()
      reads this
    {
      WellFormed(nodes) && Unique(nodes)
    }

    /** The number of a node: an existing one for a pure node already present, else a new one. */
    method Number(n: Node) returns (id: nat)
      requires Valid() && Operands(n, |nodes|)
      modifies this
      ensures Valid() && id < |nodes| && nodes[id] == n
      ensures nodes == old(nodes) || (nodes == old(nodes) + [n] && id == |old(nodes)|)
      ensures nodes == old(nodes) <==> !EffectNode(old(nodes), n) && n in old(nodes)
    {
      if !EffectNode(nodes, n) {
        id := 0;
        while id < |nodes|
          invariant id <= |nodes| && n !in nodes[..id]
        {
          if nodes[id] == n {
            return;
          }
          id := id + 1;
        }
      }
      id := |nodes|;
      ghost var before := nodes;
      forall k: nat | k < |nodes|
        ensures Effect(nodes + [n], k) == Effect(nodes, k)
      {
        AppendKeeps(nodes, n, k, []);
      }
      nodes := nodes + [n];
    }
  }
}
