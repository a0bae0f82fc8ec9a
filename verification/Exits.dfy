/** Block terminators, and what makes a finished block correct. */
module Exits {
  import opened Words
  import opened Bytecode
  import opened Facts
  import opened ControlCode
  import opened ResidualCode
  import opened Versions
  import opened SymbolicStep
  import opened Tracing

  /** Leaving a block this way is reaching this state of the bytecode. */
  ghost predicate Lands(m: Module, versions: seq<Version>, e: Exit, st: State) {
    match e
    case Goto(t, values) =>
      t < |versions| && |values| == Arity(versions[t].key) && st == Begin(versions[t], values)
    case Enter(g, args) =>
      g < |m.functions| && |args| == m.functions[g].arguments && st == At(m.functions[g].entry, Entered(args))
    case Finish(o) => st == Done(o)
  }

  /** A tail call out of the function is among the recorded calls. */
  predicate Recorded(calls: seq<Call>, t: Terminator) {
    t.TailEdge? ==> Call(t.callee, FactsOf(t.arguments)) in calls
  }

  /** Whatever its parameters, the block does what some fixed number of instructions does. */
  ghost predicate BlockOk(m: Module, calls: seq<Call>, versions: seq<Version>, v: Version, b: Block, steps: nat) {
    && steps > 0 && b.base == v.base && b.arity == Arity(v.key) && Recorded(calls, b.exit)
    && forall ro: Callees, bo: Callees, values: seq<Cell> | AgreeOn(calls, ro, bo) && |values| == Arity(v.key) ::
      Lands(m, versions, RunBlock(ro, b, values), Run(m, bo, Begin(v, values), steps))
  }

  lemma LandsMore(m: Module, versions: seq<Version>, more: seq<Version>, e: Exit, st: State)
    requires Lands(m, versions, e, st) && versions <= more
    ensures Lands(m, more, e, st)
  {
  }

  lemma BlockMore(m: Module, calls: seq<Call>, calls': seq<Call>, versions: seq<Version>, versions': seq<Version>,
    v: Version, b: Block, steps: nat)
    requires BlockOk(m, calls, versions, v, b, steps) && calls <= calls' && versions <= versions'
    ensures BlockOk(m, calls', versions', v, b, steps)
  {
    hide Lands, AgreeOn, RunBlock, Begin, Arity;
    forall ro: Callees, bo: Callees, values: seq<Cell> | AgreeOn(calls', ro, bo) && |values| == Arity(v.key)
      ensures Lands(m, versions', RunBlock(ro, b, values), Run(m, bo, Begin(v, values), steps))
    {
      AgreeOnFewer(calls, calls', ro, bo);
      LandsMore(m, versions, versions', RunBlock(ro, b, values), Run(m, bo, Begin(v, values), steps));
    }
  }

  // ----- what folding leaves -----

  /** A node that could not be computed while the block was built: some input is not a constant, or it
      fails. */
  predicate Remains(n: Node) {
    match n
    case BinaryNode(_, op, l, r) => l.Value? || r.Value? || Traps(op, r.value)
    case UnaryNode(_, _, input) => input.Value?
    case CheckNode(_, input) => input.Value?
    case CallNode(_, _, _) => true
  }

  predicate AllRemain(nodes: seq<Node>) {
    forall k | 0 <= k < |nodes| :: Remains(nodes[k])
  }

  /** A choice that could not be made while the block was built. */
  predicate Undecided(t: Terminator) {
    match t
    case BranchEdge(_, l, r, _, _) => l.Value? || r.Value?
    case SwitchEdge(input, _, _) => input.Value?
    case _ => true
  }

  predicate Reduced(b: Block) {
    AllRemain(b.nodes) && Undecided(b.exit)
  }

  lemma RemainMore(a: seq<Node>, b: seq<Node>)
    requires AllRemain(a) && AllRemain(b)
    ensures AllRemain(a + b)
  {
    hide Remains;
  }

  lemma RemainOne(n: Node)
    requires Remains(n)
    ensures AllRemain([n])
  {
    hide Remains;
  }

  /** With nothing bound, a node that remains is a call or fails. */
  lemma RemainsFails(callees: Callees, n: Node)
    requires Remains(n) && !n.CallNode?
    ensures !RunNode(callees, n, map[]).On?
  {
    hide Traps, Apply, ApplyUnary, Fails;
  }

  /** A block that takes no parameter, calls nothing and is not aborted keeps no node. */
  lemma NothingLeft(callees: Callees, b: Block)
    requires Reduced(b) && b.arity == 0 && forall k | 0 <= k < |b.nodes| :: !b.nodes[k].CallNode?
    requires RunNodes(callees, b.nodes, Parameters(b.base, [])).On?
    ensures b.nodes == []
  {
    hide Remains, RunNode, RunNodes, Undecided;
    var env := Parameters(b.base, []);
    assert env == map[];
    if b.nodes != [] {
      var n := b.nodes[0];
      assert b.nodes == [n] + b.nodes[1..];
      RunNodesConcat(callees, [n], b.nodes[1..], env);
      RunNodesOne(callees, n, env);
      RemainsFails(callees, n);
    }
  }

  // ----- edges -----

  /** The edge passes the context's cells to a version of the instruction at `pc` that relies on no
      constant the context does not hold. */
  ghost predicate EdgeTo(versions: seq<Version>, e: Edge, pc: nat, x: Context) {
    && e.target < |versions|
    && var v := versions[e.target];
      v.pc == pc && Covers(v.key, x) && |e.arguments| == Arity(v.key) && e.arguments == PassedContext(v.key, x)
  }

  function PassedContext(k: Key, x: Context): seq<Sym>
    requires Covers(k, x)
  {
    PassedAll(k, x.stacks)
  }

  lemma EdgeMore(versions: seq<Version>, more: seq<Version>, e: Edge, pc: nat, x: Context)
    requires EdgeTo(versions, e, pc, x) && versions <= more
    ensures EdgeTo(more, e, pc, x)
  {
  }

  lemma FollowLands(m: Module, versions: seq<Version>, e: Edge, pc: nat, x: Context, env: Env)
    requires EdgeTo(versions, e, pc, x) && BanksKnown(x.stacks, env)
    ensures Lands(m, versions, Follow(e, env), At(pc, DenoteBanks(x.stacks, env)))
  {
    hide Covers, DenoteBanks, BanksKnown, AllKnown, DenoteAll, Arity, FilledAll, PassedAll;
    EdgeFills(versions[e.target].key, x, env);
  }

  // ----- terminators -----

  /** In every environment the terminator goes where the instruction does. */
  ghost predicate ExitsWith(m: Module, versions: seq<Version>, i: PInstr, next: nat, s: Banks<Sym>, t: Terminator)
    requires Operands(i, s) && (i.CallTo? || i.TailTo? ==> i.callee < |m.functions|)
  {
    forall callees: Callees, env: Env | BanksKnown(s, env) && Operands(i, DenoteBanks(s, env)) ::
      Lands(m, versions, Leave(t, env), Advance(m, callees, i, next, DenoteBanks(s, env)))
  }

  lemma JumpExits(m: Module, versions: seq<Version>, target: nat, next: nat, x: Context, e: Edge)
    requires EdgeTo(versions, e, target, x)
    ensures ExitsWith(m, versions, Jump(target), next, x.stacks, JumpEdge(e))
  {
    hide EdgeTo, Lands, DenoteBanks, BanksKnown, Follow;
    forall callees: Callees, env: Env | BanksKnown(x.stacks, env)
      ensures Lands(m, versions, Leave(JumpEdge(e), env),
        Advance(m, callees, Jump(target), next, DenoteBanks(x.stacks, env)))
    {
      FollowLands(m, versions, e, target, x, env);
    }
  }

  predicate IsBranch(i: PInstr) {
    i.ZeroBranch? || i.PairBranch? || i.ImmediateBranch?
  }

  /** The relation and operands a branch compares. */
  function TestRelation(i: PInstr): Relation
    requires IsBranch(i)
  {
    match i
    case ZeroBranch(_, nonzero, _) => if nonzero then RelNE else RelEQ
    case PairBranch(_, r, _) => r
    case ImmediateBranch(_, r, _, _, _) => r
  }

  function TestLeft(i: PInstr, s: Banks<Sym>): Sym
    requires IsBranch(i) && Operands(i, s)
  {
    if i.ImmediateBranch? && i.reverse then Const(i.value) else s.Peek(i.bank, 0)
  }

  function TestRight(i: PInstr, s: Banks<Sym>): Sym
    requires IsBranch(i) && Operands(i, s)
  {
    match i
    case ZeroBranch(_, _, _) => Const(0)
    case PairBranch(x, _, _) => s.Peek(Opposite(x), 0)
    case ImmediateBranch(x, _, reverse, v, _) => if reverse then s.Peek(x, 0) else Const(v)
  }

  lemma TestDenotes(i: PInstr, s: Banks<Sym>, env: Env)
    requires IsBranch(i) && Operands(i, s) && BanksKnown(s, env)
    ensures Operands(i, DenoteBanks(s, env))
    ensures Known(TestLeft(i, s), env) && Known(TestRight(i, s), env)
    ensures Taken(i, DenoteBanks(s, env)) <==>
      Related(TestRelation(i), Denote(TestLeft(i, s), env), Denote(TestRight(i, s), env))
  {
    hide DenoteBanks, BanksKnown, Banks.Peek, Related;
    SymOperands(i, s, env);
    SymPeek(s, env, i.bank, 0);
    if i.PairBranch? {
      SymPeek(s, env, Opposite(i.bank), 0);
    }
  }

  lemma ConsumedDenotes(i: PInstr, s: Banks<Sym>, env: Env)
    requires (IsBranch(i) || i.Switch?) && Operands(i, s) && BanksKnown(s, env)
    ensures Operands(i, DenoteBanks(s, env)) && BanksKnown(Consumed(i, s), env)
    ensures DenoteBanks(Consumed(i, s), env) == Consumed(i, DenoteBanks(s, env))
  {
    SymOperands(i, s, env);
    SymPop(s, env, i.bank);
    if i.PairBranch? {
      PopBoth(s, i.bank);
      SymPop(s.Pop(i.bank), env, Opposite(i.bank));
    }
  }

  lemma PopBoth(s: Banks<Sym>, x: Bank)
    requires s.Has(x, 0) && s.Has(Opposite(x), 0)
    ensures s.Pop(x).Has(Opposite(x), 0)
  {
  }

  /** Both operands constant: the way is known. */
  lemma KnownExits(m: Module, versions: seq<Version>, i: PInstr, next: nat, s: Banks<Sym>, x: Context, e: Edge)
    requires IsBranch(i) && Operands(i, s) && TestLeft(i, s).Const? && TestRight(i, s).Const?
    requires x.stacks == Consumed(i, s)
    requires var taken := Related(TestRelation(i), TestLeft(i, s).value, TestRight(i, s).value);
      EdgeTo(versions, e, if taken then i.target else next, x)
    ensures ExitsWith(m, versions, i, next, s, JumpEdge(e))
  {
    hide EdgeTo, Lands, DenoteBanks, BanksKnown, Follow, Consumed, Taken, TestRelation, TestLeft, TestRight, Related;
    hide Operands;
    forall callees: Callees, env: Env | BanksKnown(s, env) && Operands(i, DenoteBanks(s, env))
      ensures Lands(m, versions, Leave(JumpEdge(e), env), Advance(m, callees, i, next, DenoteBanks(s, env)))
    {
      TestDenotes(i, s, env);
      ConsumedDenotes(i, s, env);
      var taken := Related(TestRelation(i), TestLeft(i, s).value, TestRight(i, s).value);
      FollowLands(m, versions, e, if taken then i.target else next, x, env);
    }
  }

  lemma BranchExits(m: Module, versions: seq<Version>, i: PInstr, next: nat, s: Banks<Sym>, x: Context, yes: Edge,
    no: Edge)
    requires IsBranch(i) && Operands(i, s) && x.stacks == Consumed(i, s)
    requires EdgeTo(versions, yes, i.target, x) && EdgeTo(versions, no, next, x)
    ensures ExitsWith(m, versions, i, next, s, BranchEdge(TestRelation(i), TestLeft(i, s), TestRight(i, s), yes, no))
  {
    hide EdgeTo, Lands, DenoteBanks, BanksKnown, Follow, Consumed, Taken, TestRelation, TestLeft, TestRight, Related;
    hide Operands;
    var t := BranchEdge(TestRelation(i), TestLeft(i, s), TestRight(i, s), yes, no);
    forall callees: Callees, env: Env | BanksKnown(s, env) && Operands(i, DenoteBanks(s, env))
      ensures Lands(m, versions, Leave(t, env), Advance(m, callees, i, next, DenoteBanks(s, env)))
    {
      TestDenotes(i, s, env);
      ConsumedDenotes(i, s, env);
      FollowLands(m, versions, yes, i.target, x, env);
      FollowLands(m, versions, no, next, x, env);
    }
  }

  ghost predicate ArmsTo(versions: seq<Version>, arms: seq<Edge>, targets: seq<nat>, x: Context) {
    |arms| == |targets| && forall k | 0 <= k < |arms| :: EdgeTo(versions, arms[k], targets[k], x)
  }

  lemma SwitchExits(m: Module, versions: seq<Version>, i: PInstr, next: nat, s: Banks<Sym>, x: Context,
    arms: seq<Edge>, fallback: Edge)
    requires i.Switch? && Operands(i, s) && x.stacks == Consumed(i, s)
    requires ArmsTo(versions, arms, i.targets, x) && EdgeTo(versions, fallback, next, x)
    ensures ExitsWith(m, versions, i, next, s, SwitchEdge(s.Peek(i.bank, 0), arms, fallback))
  {
    hide EdgeTo, Lands, DenoteBanks, BanksKnown, Follow, Operands, Banks.Peek, Banks.Pop, Banks.Has;
    SwitchOperand(i, s);
    var t := SwitchEdge(s.Peek(i.bank, 0), arms, fallback);
    forall callees: Callees, env: Env | BanksKnown(s, env) && Operands(i, DenoteBanks(s, env))
      ensures Lands(m, versions, Leave(t, env), Advance(m, callees, i, next, DenoteBanks(s, env)))
    {
      SymPeek(s, env, i.bank, 0);
      ConsumedDenotes(i, s, env);
      var k := Denote(s.Peek(i.bank, 0), env) as nat;
      FollowLands(m, versions, if k < |arms| then arms[k] else fallback, Chosen(k, i.targets, next), x, env);
    }
  }

  lemma SwitchOperand<T>(i: PInstr, s: Banks<T>)
    requires i.Switch? && Operands(i, s)
    ensures s.Has(i.bank, 0)
  {
  }

  /** The switch operand is a constant. */
  lemma SwitchKnownExits(m: Module, versions: seq<Version>, i: PInstr, next: nat, s: Banks<Sym>, x: Context, e: Edge)
    requires i.Switch? && Operands(i, s) && s.Peek(i.bank, 0).Const? && x.stacks == Consumed(i, s)
    requires EdgeTo(versions, e, Chosen(s.Peek(i.bank, 0).value as nat, i.targets, next), x)
    ensures ExitsWith(m, versions, i, next, s, JumpEdge(e))
  {
    hide EdgeTo, Lands, DenoteBanks, BanksKnown, Follow, Operands, Banks.Peek, Banks.Pop, Chosen;
    SwitchOperand(i, s);
    forall callees: Callees, env: Env | BanksKnown(s, env) && Operands(i, DenoteBanks(s, env))
      ensures Lands(m, versions, Leave(JumpEdge(e), env), Advance(m, callees, i, next, DenoteBanks(s, env)))
    {
      SymPeek(s, env, i.bank, 0);
      ConsumedDenotes(i, s, env);
      FollowLands(m, versions, e, Chosen(s.Peek(i.bank, 0).value as nat, i.targets, next), x, env);
    }
  }

  lemma StopExits(m: Module, versions: seq<Version>, reason: nat, next: nat, s: Banks<Sym>)
    ensures ExitsWith(m, versions, Stop(reason), next, s, StopEdge(reason))
  {
  }

  lemma ReturnExits(m: Module, versions: seq<Version>, i: PInstr, next: nat, s: Banks<Sym>)
    requires i.Return? && Operands(i, s)
    ensures ExitsWith(m, versions, i, next, s, ReturnEdge(s.At(i.bank)))
  {
    hide DenoteBanks, BanksKnown, AllKnown, DenoteAll, Operands, Banks.At;
    forall callees: Callees, env: Env | BanksKnown(s, env) && Operands(i, DenoteBanks(s, env))
      ensures Lands(m, versions, Leave(ReturnEdge(s.At(i.bank)), env),
        Advance(m, callees, i, next, DenoteBanks(s, env)))
    {
      SymAt(s, env, i.bank);
    }
  }

  /** A tail call that leaves the residual function. */
  lemma TailExits(m: Module, versions: seq<Version>, i: PInstr, next: nat, s: Banks<Sym>)
    requires i.TailTo? && i.callee < |m.functions| && Operands(i, s) && i.count == m.functions[i.callee].arguments
    ensures ExitsWith(m, versions, i, next, s, TailEdge(i.callee, s.At(i.bank)))
  {
    hide DenoteBanks, BanksKnown, AllKnown, DenoteAll, Banks.At, Entered;
    forall callees: Callees, env: Env | BanksKnown(s, env) && Operands(i, DenoteBanks(s, env))
      ensures Lands(m, versions, Leave(TailEdge(i.callee, s.At(i.bank)), env),
        Advance(m, callees, i, next, DenoteBanks(s, env)))
    {
      SymAt(s, env, i.bank);
    }
  }

  /** The stacks a tail call leaves for a callee embedded in the same residual function. */
  function TailStacks(l: seq<Sym>): Banks<Sym> {
    Banks([], [], Reversed(l))
  }

  lemma TailDenotes(l: seq<Sym>, env: Env)
    requires AllKnown(l, env)
    ensures BanksKnown(TailStacks(l), env) && DenoteBanks(TailStacks(l), env) == Entered(DenoteAll(l, env))
  {
    assert DenoteAll([], env) == [];
    assert DenoteAll(Reversed(l), env) == Reversed(DenoteAll(l, env));
  }

  /** A tail call that stays in the residual function. */
  lemma EmbeddedExits(m: Module, versions: seq<Version>, i: PInstr, next: nat, s: Banks<Sym>, x: Context, e: Edge)
    requires i.TailTo? && i.callee < |m.functions| && Operands(i, s) && x.stacks == TailStacks(s.At(i.bank))
    requires EdgeTo(versions, e, m.functions[i.callee].entry, x)
    ensures ExitsWith(m, versions, i, next, s, JumpEdge(e))
  {
    hide EdgeTo, Lands, DenoteBanks, BanksKnown, AllKnown, DenoteAll, Follow, Operands, Banks.At, TailStacks, Entered;
    forall callees: Callees, env: Env | BanksKnown(s, env) && Operands(i, DenoteBanks(s, env))
      ensures Lands(m, versions, Leave(JumpEdge(e), env), Advance(m, callees, i, next, DenoteBanks(s, env)))
    {
      SymAt(s, env, i.bank);
      TailDenotes(s.At(i.bank), env);
      FollowLands(m, versions, e, m.functions[i.callee].entry, x, env);
    }
  }

  // ----- closing a block -----

  /** A block whose last instruction is matched by its terminator. */
  lemma CloseBlock(m: Module, calls: seq<Call>, versions: seq<Version>, v: Version, nodes: seq<Node>, s: Banks<Sym>,
    pc: nat, steps: nat, i: PInstr, next: nat, t: Terminator)
    requires Tracks(m, calls, v, nodes, s, pc, steps) && Here(m, pc, i, next)
    requires Operands(i, s) && (i.CallTo? || i.TailTo? ==> i.callee < |m.functions|)
    requires ExitsWith(m, versions, i, next, s, t) && Recorded(calls, t)
    ensures BlockOk(m, calls, versions, v, Block(v.base, Arity(v.key), nodes, t), steps + 1)
  {
    hide Lands, AgreeOn, Arity, Parameters, DenoteBanks, BanksKnown, StepAt, Advance, Begin, Operands, RunNodes, Leave;
    var b := Block(v.base, Arity(v.key), nodes, t);
    forall ro: Callees, bo: Callees, values: seq<Cell> | AgreeOn(calls, ro, bo) && |values| == Arity(v.key)
      ensures Lands(m, versions, RunBlock(ro, b, values), Run(m, bo, Begin(v, values), steps + 1))
    {
      assert TracksAt(m, ro, bo, v, nodes, s, pc, steps, values);
      match RunNodes(ro, nodes, Parameters(v.base, values))
      case Off(o) => RunDone(m, bo, o, 1); LandsDone(m, versions, o);
      case On(env) =>
        SymOperands(i, s, env);
        StepHere(m, bo, pc, i, next, DenoteBanks(s, env));
    }
  }

  lemma LandsDone(m: Module, versions: seq<Version>, o: Ending)
    ensures Lands(m, versions, Finish(o), Done(o))
  {
  }

  /** A block that runs into the next leader. */
  lemma FallThrough(m: Module, calls: seq<Call>, versions: seq<Version>, v: Version, nodes: seq<Node>, x: Context,
    pc: nat, steps: nat, e: Edge)
    requires Tracks(m, calls, v, nodes, x.stacks, pc, steps) && steps > 0 && EdgeTo(versions, e, pc, x)
    ensures BlockOk(m, calls, versions, v, Block(v.base, Arity(v.key), nodes, JumpEdge(e)), steps)
  {
    hide Lands, AgreeOn, Arity, Parameters, DenoteBanks, BanksKnown, Run, Begin, RunNodes, Follow, EdgeTo;
    var b := Block(v.base, Arity(v.key), nodes, JumpEdge(e));
    forall ro: Callees, bo: Callees, values: seq<Cell> | AgreeOn(calls, ro, bo) && |values| == Arity(v.key)
      ensures Lands(m, versions, RunBlock(ro, b, values), Run(m, bo, Begin(v, values), steps))
    {
      assert TracksAt(m, ro, bo, v, nodes, x.stacks, pc, steps, values);
      match RunNodes(ro, nodes, Parameters(v.base, values))
      case Off(o) => LandsDone(m, versions, o);
      case On(env) => FollowLands(m, versions, e, pc, x, env);
    }
  }

  /** A range check known to fail ends the block. */
  lemma TrapExits(m: Module, versions: seq<Version>, i: Instr, next: nat, s: Banks<Sym>, reason: nat)
    requires Ready(i, s) && AlwaysTraps(i, s, reason)
    ensures ExitsWith(m, versions, Plain(i), next, s, StopEdge(reason))
  {
    hide Step, DenoteBanks, BanksKnown, Ready;
    forall callees: Callees, env: Env | BanksKnown(s, env) && Operands(Plain(i), DenoteBanks(s, env))
      ensures Lands(m, versions, Leave(StopEdge(reason), env), Advance(m, callees, Plain(i), next, DenoteBanks(s, env)))
    {
    }
  }
}
