/** What a partly built residual block says about the bytecode it comes from. */
module Tracing {
  import opened Words
  import opened Bytecode
  import opened Facts
  import opened ControlCode
  import opened ResidualCode
  import opened Versions
  import opened SymbolicStep

  /** What is known about a call's arguments when the call is recorded. */
  function FactOf(v: Sym): Fact {
    match v case Const(c) => Constant(c) case Value(_) => Unknown
  }

  function FactsOf(l: seq<Sym>): (r: seq<Fact>)
    ensures |r| == |l| && forall i | 0 <= i < |l| :: r[i] == FactOf(l[i])
  {
    seq(|l|, (i: nat) requires i < |l| => FactOf(l[i]))
  }

  /** The fact is the least that holds of every value the argument can have. */
  lemma FactLeast(v: Sym, f: Fact)
    ensures (forall env: Env | Known(v, env) :: Describes(f, Denote(v, env))) <==> Leq(FactOf(v), f)
  {
    if v.Value? && forall env: Env | Known(v, env) :: Describes(f, Denote(v, env)) {
      var zero: Env, one: Env := map[v.id := 0], map[v.id := 1];
      assert Known(v, zero) && Denote(v, zero) == 0;
      assert Known(v, one) && Denote(v, one) == 1;
    } else if v.Const? {
      var none: Env := map[];
      assert Known(v, none) && Denote(v, none) == v.value;
    }
  }

  lemma FactsDescribe(l: seq<Sym>, env: Env)
    requires AllKnown(l, env)
    ensures DescribesAll(FactsOf(l), DenoteAll(l, env))
  {
    forall i | 0 <= i < |l| ensures Describes(FactsOf(l)[i], DenoteAll(l, env)[i]) {
      assert Known(l[i], env);
    }
  }

  /** The two answer alike whatever the recorded calls can ask. */
  ghost predicate AgreeOn(calls: seq<Call>, a: Callees, b: Callees) {
    forall k, args: seq<Cell> | 0 <= k < |calls| && DescribesAll(calls[k].facts, args) ::
      a(calls[k].target, args) == b(calls[k].target, args)
  }

  lemma AgreeOnFewer(calls: seq<Call>, more: seq<Call>, a: Callees, b: Callees)
    requires calls <= more && AgreeOn(more, a, b)
    ensures AgreeOn(calls, a, b)
  {
    forall k, args: seq<Cell> | 0 <= k < |calls| && DescribesAll(calls[k].facts, args)
      ensures a(calls[k].target, args) == b(calls[k].target, args)
    {
      assert more[k] == calls[k];
    }
  }

  function Begin(v: Version, values: seq<Cell>): State
    requires |values| == Arity(v.key)
  {
    At(v.pc, FilledAll(v.key, values))
  }

  /** For one choice of parameters: the nodes so far do what `steps` instructions do. */
  ghost predicate TracksAt(m: Module, ro: Callees, bo: Callees, v: Version, nodes: seq<Node>, s: Banks<Sym>,
    pc: nat, steps: nat, values: seq<Cell>)
    requires |values| == Arity(v.key)
  {
    var st := Run(m, bo, Begin(v, values), steps);
    match RunNodes(ro, nodes, Parameters(v.base, values))
    case On(env) => BanksKnown(s, env) && st == At(pc, DenoteBanks(s, env))
    case Off(o) => st == Done(o)
  }

  /** For every choice of parameters, and callees that agree on the recorded calls. */
  ghost predicate Tracks(m: Module, calls: seq<Call>, v: Version, nodes: seq<Node>, s: Banks<Sym>, pc: nat, steps: nat)
  {
    forall ro: Callees, bo: Callees, values: seq<Cell> | AgreeOn(calls, ro, bo) && |values| == Arity(v.key) ::
      TracksAt(m, ro, bo, v, nodes, s, pc, steps, values)
  }

  lemma TracksBegin(m: Module, calls: seq<Call>, v: Version)
    ensures Tracks(m, calls, v, [], NamedAll(v.key, v.base), v.pc, 0)
  {
    forall ro: Callees, bo: Callees, values: seq<Cell> | AgreeOn(calls, ro, bo) && |values| == Arity(v.key)
      ensures TracksAt(m, ro, bo, v, [], NamedAll(v.key, v.base), v.pc, 0, values)
    {
      EntryDenotes(v.key, v.base, values);
    }
  }

  lemma TracksMoreCalls(m: Module, calls: seq<Call>, more: seq<Call>, v: Version, nodes: seq<Node>, s: Banks<Sym>,
    pc: nat, steps: nat)
    requires Tracks(m, calls, v, nodes, s, pc, steps) && calls <= more
    ensures Tracks(m, more, v, nodes, s, pc, steps)
  {
    hide TracksAt, AgreeOn;
    forall ro: Callees, bo: Callees, values: seq<Cell> | AgreeOn(more, ro, bo) && |values| == Arity(v.key)
      ensures TracksAt(m, ro, bo, v, nodes, s, pc, steps, values)
    {
      AgreeOnFewer(calls, more, ro, bo);
    }
  }

  /** The instruction at `pc` is `i`. */
  predicate Here(m: Module, pc: nat, i: PInstr, next: nat) {
    pc < |m.code| && m.code[pc].Some? && m.code[pc].value.instr == i && next == pc + m.code[pc].value.length
  }

  lemma StepHere(m: Module, callees: Callees, pc: nat, i: PInstr, next: nat, s: Banks<Cell>)
    requires Here(m, pc, i, next) && Operands(i, s) && (i.CallTo? || i.TailTo? ==> i.callee < |m.functions|)
    ensures StepAt(m, callees, At(pc, s)) == Advance(m, callees, i, next, s)
  {
    hide Operands, Advance;
  }

  lemma SymOperands(i: PInstr, s: Banks<Sym>, env: Env)
    requires BanksKnown(s, env)
    ensures Operands(i, DenoteBanks(s, env)) <==> Operands(i, s)
  {
    forall x: Stack ensures |DenoteBanks(s, env).At(x)| == |s.At(x)| {
      SymAt(s, env, x);
    }
    if i.TailTo? || i.Return? {
      SymAt(s, env, Opposite(i.bank));
    }
  }

  /** One more straight-line instruction. */
  lemma TracksPlain(m: Module, calls: seq<Call>, v: Version, nodes: seq<Node>, s: Banks<Sym>, pc: nat, steps: nat,
    i: Instr, next: nat, s': Banks<Sym>, added: seq<Node>)
    requires Tracks(m, calls, v, nodes, s, pc, steps) && Here(m, pc, Plain(i), next)
    requires Ready(i, s) && Realizes(i, s, s', added)
    ensures Tracks(m, calls, v, nodes + added, s', next, steps + 1)
  {
    hide RunNodes, Realizes, AgreeOn, Arity, Parameters, DenoteBanks, BanksKnown, Step, StepAt, Begin, Ready;
    forall ro: Callees, bo: Callees, values: seq<Cell> | AgreeOn(calls, ro, bo) && |values| == Arity(v.key)
      ensures TracksAt(m, ro, bo, v, nodes + added, s', next, steps + 1, values)
    {
      var env := Parameters(v.base, values);
      RunNodesConcat(ro, nodes, added, env);
      assert TracksAt(m, ro, bo, v, nodes, s, pc, steps, values);
      match RunNodes(ro, nodes, env)
      case Off(o) => RunDone(m, bo, o, 1);
      case On(now) =>
        SymOperands(Plain(i), s, now);
        StepHere(m, bo, pc, Plain(i), next, DenoteBanks(s, now));
        RealizedAt(ro, i, s, s', added, now);
    }
  }

  lemma RealizedAt(callees: Callees, i: Instr, s: Banks<Sym>, s': Banks<Sym>, added: seq<Node>, env: Env)
    requires Realizes(i, s, s', added) && BanksKnown(s, env)
    ensures RealizesAt(callees, i, s, s', added, env)
  {
  }

  // ----- calls -----

  function FreshIds(id: nat, n: nat): (r: seq<nat>)
    ensures |r| == n && forall k | 0 <= k < n :: r[k] == id + k
  {
    seq(n, (k: nat) => id + k)
  }

  function Values(ids: seq<nat>): (r: seq<Sym>)
    ensures |r| == |ids| && forall k | 0 <= k < |ids| :: r[k] == Value(ids[k])
  {
    seq(|ids|, (k: nat) requires k < |ids| => Value(ids[k]))
  }

  lemma {:induction false} BoundKeeps(s: Banks<Sym>, env: Env, id: nat, n: nat, values: seq<Cell>)
    requires BanksKnown(s, env) && BanksOlder(s, id) && |values| == n
    ensures BanksKnown(s, Bound(env, FreshIds(id, n), values))
    ensures DenoteBanks(s, Bound(env, FreshIds(id, n), values)) == DenoteBanks(s, env)
  {
    hide BanksKnown, DenoteBanks, BanksOlder;
    if n > 0 {
      var ids := FreshIds(id, n);
      assert ids[..n - 1] == FreshIds(id, n - 1);
      BoundKeeps(s, env, id, n - 1, values[..n - 1]);
      OlderMore(s, id, id + n - 1);
      OlderKept(s, Bound(env, ids[..n - 1], values[..n - 1]), id + n - 1, values[n - 1]);
    } else {
      assert FreshIds(id, n) == [] && Bound(env, [], values) == env;
    }
  }

  lemma {:induction false} BoundValues(env: Env, id: nat, n: nat, values: seq<Cell>)
    requires |values| == n
    ensures Supplies(Bound(env, FreshIds(id, n), values), id, values)
  {
    if n > 0 {
      var ids := FreshIds(id, n);
      assert ids[..n - 1] == FreshIds(id, n - 1);
      BoundValues(env, id, n - 1, values[..n - 1]);
      var r := Bound(env, ids[..n - 1], values[..n - 1]);
      forall j: nat | id <= j < id + n - 1 ensures j in r && r[j] == ParameterAt(values, id, j) {
        assert ParameterAt(values[..n - 1], id, j) == ParameterAt(values, id, j);
      }
    }
  }

  lemma BoundDenotes(env: Env, id: nat, n: nat, values: seq<Cell>)
    requires |values| == n
    ensures var r := Bound(env, FreshIds(id, n), values);
      AllKnown(Values(FreshIds(id, n)), r) && DenoteAll(Values(FreshIds(id, n)), r) == values
  {
    BoundValues(env, id, n, values);
    hide Bound;
    var r, vs := Bound(env, FreshIds(id, n), values), Values(FreshIds(id, n));
    forall k | 0 <= k < n ensures Known(vs[k], r) && Denote(vs[k], r) == values[k] {
      var j := id + k;
      assert j in r && r[j] == ParameterAt(values, id, j);
    }
  }

  /** The stacks after a call: the arguments gone, the results on top. */
  function Called(s: Banks<Sym>, x: Bank, n: nat, ids: seq<nat>): Banks<Sym>
    requires n <= |s.At(x)|
  {
    s.Put(x, Under(s.At(x), n) + Values(ids))
  }

  lemma SymSplit(l: seq<Sym>, env: Env, n: nat)
    requires AllKnown(l, env) && n <= |l|
    ensures AllKnown(Under(l, n), env) && DenoteAll(Under(l, n), env) == Under(DenoteAll(l, env), n)
    ensures AllKnown(TopCells(l, n), env) && DenoteAll(TopCells(l, n), env) == TopCells(DenoteAll(l, env), n)
  {
  }

  lemma CalledDenotes(s: Banks<Sym>, x: Bank, n: nat, env: Env, id: nat, values: seq<Cell>)
    requires BanksKnown(s, env) && BanksOlder(s, id) && n <= |s.At(x)|
    ensures var ids := FreshIds(id, |values|);
      var r := Bound(env, ids, values);
      && BanksKnown(Called(s, x, n, ids), r) && n <= |DenoteBanks(s, env).At(x)|
      && DenoteBanks(Called(s, x, n, ids), r) ==
        DenoteBanks(s, env).Put(x, Under(DenoteBanks(s, env).At(x), n) + values)
  {
    hide BanksKnown, DenoteBanks, BanksOlder, AllKnown, DenoteAll, Bound, Under, Values, FreshIds;
    var ids := FreshIds(id, |values|);
    var r := Bound(env, ids, values);
    BoundKeeps(s, env, id, |values|, values);
    BoundDenotes(env, id, |values|, values);
    SymAt(s, r, x);
    SymSplit(s.At(x), r, n);
    DenoteConcat(Under(s.At(x), n), Values(ids), r);
    SymPut(s, r, x, Under(s.At(x), n) + Values(ids));
  }

  lemma CallAt(m: Module, ro: Callees, bo: Callees, i: PInstr, next: nat, s: Banks<Sym>, id: nat, env: Env)
    requires i.CallTo? && i.callee < |m.functions| && Operands(i, s) && BanksOlder(s, id) && BanksKnown(s, env)
    requires Operands(i, DenoteBanks(s, env))
    requires var args := TopCells(s.At(i.bank), i.count);
      AgreeOn([Call(i.callee, FactsOf(args))], ro, bo)
    ensures var ids := FreshIds(id, m.functions[i.callee].results);
      var n := CallNode(ids, i.callee, TopCells(s.At(i.bank), i.count));
      match RunNode(ro, n, env)
      case On(env') => BanksKnown(Called(s, i.bank, i.count, ids), env')
        && Advance(m, bo, i, next, DenoteBanks(s, env)) == At(next, DenoteBanks(Called(s, i.bank, i.count, ids), env'))
      case Off(o) => Advance(m, bo, i, next, DenoteBanks(s, env)) == Done(o)
  {
    hide BanksKnown, DenoteBanks, BanksOlder, Called, Bound, FreshIds, AllKnown, DenoteAll, FactsOf, DescribesAll;
    hide Banks.At, Banks.Put;
    var x, g, n := i.bank, i.callee, i.count;
    SymAt(s, env, x);
    SymSplit(s.At(x), env, n);
    var args := TopCells(s.At(x), n);
    FactsDescribe(args, env);
    AgreeOne(Call(g, FactsOf(args)), ro, bo, DenoteAll(args, env));
    var o := Answer(ro(g, DenoteAll(args, env)), m.functions[g].results);
    if o.Returned? {
      CalledDenotes(s, x, n, env, id, o.values);
    }
  }

  lemma AgreeOne(c: Call, a: Callees, b: Callees, args: seq<Cell>)
    requires AgreeOn([c], a, b) && DescribesAll(c.facts, args)
    ensures a(c.target, args) == b(c.target, args)
  {
    assert [c][0] == c;
  }

  lemma AgreeOnLast(calls: seq<Call>, c: Call, a: Callees, b: Callees)
    requires AgreeOn(calls + [c], a, b)
    ensures AgreeOn(calls, a, b) && AgreeOn([c], a, b)
  {
    hide DescribesAll;
    AgreeOnFewer(calls, calls + [c], a, b);
    forall k, args: seq<Cell> | 0 <= k < |[c]| && DescribesAll([c][k].facts, args)
      ensures a([c][k].target, args) == b([c][k].target, args)
    {
      assert (calls + [c])[|calls|] == c;
    }
  }

  /** One more call. */
  lemma TracksCall(m: Module, calls: seq<Call>, v: Version, nodes: seq<Node>, s: Banks<Sym>, pc: nat, steps: nat,
    i: PInstr, next: nat, id: nat)
    requires Tracks(m, calls, v, nodes, s, pc, steps) && Here(m, pc, i, next) && i.CallTo? && i.callee < |m.functions|
    requires Operands(i, s) && BanksOlder(s, id)
    ensures var ids, args := FreshIds(id, m.functions[i.callee].results), TopCells(s.At(i.bank), i.count);
      Tracks(m, calls + [Call(i.callee, FactsOf(args))], v, nodes + [CallNode(ids, i.callee, args)],
        Called(s, i.bank, i.count, ids), next, steps + 1)
  {
    hide RunNodes, RunNode, AgreeOn, Arity, Parameters, DenoteBanks, BanksKnown, StepAt, Advance, Begin, Operands;
    hide BanksOlder;
    hide Called, FactsOf, FreshIds;
    assert i.count <= |s.At(i.bank)| by { CallOperands(i, s); }
    var ids, args := FreshIds(id, m.functions[i.callee].results), TopCells(s.At(i.bank), i.count);
    var c, node, s' := Call(i.callee, FactsOf(args)), CallNode(ids, i.callee, args), Called(s, i.bank, i.count, ids);
    forall ro: Callees, bo: Callees, values: seq<Cell> | AgreeOn(calls + [c], ro, bo) && |values| == Arity(v.key)
      ensures TracksAt(m, ro, bo, v, nodes + [node], s', next, steps + 1, values)
    {
      AgreeOnLast(calls, c, ro, bo);
      var env := Parameters(v.base, values);
      RunNodesConcat(ro, nodes, [node], env);
      assert TracksAt(m, ro, bo, v, nodes, s, pc, steps, values);
      match RunNodes(ro, nodes, env)
      case Off(o) => RunDone(m, bo, o, 1);
      case On(now) =>
        RunNodesOne(ro, node, now);
        SymOperands(i, s, now);
        StepHere(m, bo, pc, i, next, DenoteBanks(s, now));
        CallAt(m, ro, bo, i, next, s, id, now);
    }
  }

  lemma CallOperands<T>(i: PInstr, s: Banks<T>)
    requires i.CallTo? && Operands(i, s)
    ensures i.count <= |s.At(i.bank)|
  {
  }
}
