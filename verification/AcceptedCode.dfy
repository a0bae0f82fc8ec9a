/** Well typed modules of scalar code have the stack depths that specialization relies on. */
module AcceptedCode {
  import opened Words
  import opened Bytecode
  import opened Shapes
  import opened TypedCode
  import opened TypedRuns
  import Verifier
  import Lowered = ControlCode

  /** The straight-line instructions on single cells. */
  function PlainOf(op: Op): Option<Instr> {
    match op
    case OpPush(x, v) => Some(Push(x, v))
    case OpDup(x) => Some(Dup(x))
    case OpDrop(x) => Some(Drop(x))
    case OpCopy(x) => Some(Copy(x))
    case OpMove(x) => Some(Move(x))
    case OpCPush(x, n) => if n == 1 then Some(CPush(x)) else None
    case OpCPop => Some(CPop)
    case OpCGet(x, depth, n) => if n == 1 then Some(CGet(x, depth)) else None
    case OpCSet(x, depth) => Some(CSet(x, depth))
    case OpBinary(x, o) => Some(Binary(x, o))
    case OpUnary(x, u) => Some(Unary(x, u))
    case OpCheck(x, k) => Some(Check(x, k))
    case OpImmediate(x, o, v) => if HasImmediate(o) then Some(Immediate(x, o, v)) else None
    case OpCOperand(x, o, depth) => if HasCOperand(o) then Some(COperand(x, o, depth)) else None
    case _ => None
  }

  /** An instruction as the verifier sees it and as the specializer does: operations on single cells,
      control inside the function and direct calls. */
  ghost predicate Lowers(w: Module, op: Op, i: Lowered.PInstr) {
    match op
    case OpBranch(x, r, t) => i == Lowered.PairBranch(x, r, t)
    case OpZeroBranch(x, nonzero, t) => i == Lowered.ZeroBranch(x, nonzero, t)
    case OpImmediateBranch(x, r, reverse, v, t) => i == Lowered.ImmediateBranch(x, r, reverse, v, t)
    case OpJump(t) => i == Lowered.Jump(t)
    case OpSwitch(x, ts) => i == Lowered.Switch(x, ts)
    case OpCall(x, t, n) => i.CallTo? && i == Lowered.CallTo(x, i.callee, n) && IsEntry(w, t, i.callee)
    case OpTailCall(x, t, frame, n) =>
      i.TailTo? && i == Lowered.TailTo(x, i.callee, frame, n) && IsEntry(w, t, i.callee)
    case OpReturn(x, frame, n) => i == Lowered.Return(x, frame, n)
    case OpAbort(reason) => i == Lowered.Stop(reason)
    case _ => i.Plain? && PlainOf(op) == Some(i.instr)
  }

  ghost predicate Matching(w: Module, m: Lowered.Module, pc: nat) {
    && pc < |w.code| && w.code[pc].Some? && pc < |m.code| && m.code[pc].Some?
    && m.code[pc].value.length == w.code[pc].value.length
    && Lowers(w, w.code[pc].value.op, m.code[pc].value.instr)
  }

  /** The same module in both forms. */
  ghost predicate Lowering(w: Module, m: Lowered.Module)
    requires Loaded(w)
  {
    && |m.code| == |w.code| && |m.functions| == |w.functions|
    && (forall f | 0 <= f < |m.functions| ::
      var g := w.functions[f];
      m.functions[f] == Lowered.Function(g.entry, |g.arguments|, |g.results|))
    && (forall f, pc | f in w.functions && StartIn(w, f, pc) :: Matching(w, m, pc))
  }

  predicate Scalars(s: Shape) {
    AllScalar(s.a) && AllScalar(s.b) && AllScalar(s.c)
  }

  function SpotOf(owner: nat, s: Shape): Lowered.Spot {
    Lowered.Spot(owner, |s.a|, |s.b|, |s.c|)
  }

  /** A place of function `f` whose typed shape is made of single cells. */
  ghost predicate Reached(w: Module, ts: seq<Typing>, f: nat, pc: nat)
    requires Loaded(w)
  {
    f < |ts| == |w.functions| && StartIn(w, w.functions[f], pc) && pc in ts[f] && Scalars(ts[f][pc])
  }

  ghost predicate Placed(w: Module, ts: seq<Typing>, pc: nat)
    requires Loaded(w)
  {
    exists f: nat :: Reached(w, ts, f, pc)
  }

  /** The depths of the typed shapes. */
  ghost function DepthsOf(w: Module, ts: seq<Typing>): Lowered.Depths
    requires Loaded(w)
  {
    map pc: nat | pc < |w.code| && Placed(w, ts, pc) :: var f: nat :| Reached(w, ts, f, pc); SpotOf(f, ts[f][pc])
  }

  lemma ReachedUnique(w: Module, ts: seq<Typing>, f: nat, g: nat, pc: nat)
    requires Loaded(w) && Reached(w, ts, f, pc) && Reached(w, ts, g, pc)
    ensures f == g
  {
    hide StartIn;
    StartSound(w, w.functions[f], pc);
    StartSound(w, w.functions[g], pc);
    if f < g {
      Ordered(w, f, g);
    } else if g < f {
      Ordered(w, g, f);
    }
  }

  lemma DepthsAt(w: Module, ts: seq<Typing>, f: nat, pc: nat)
    requires Loaded(w) && Reached(w, ts, f, pc)
    ensures pc < |w.code| && Lowered.Goes(DepthsOf(w, ts), pc, SpotOf(f, ts[f][pc]))
  {
    hide Loaded, StartIn;
    StartSound(w, w.functions[f], pc);
    forall g: nat | Reached(w, ts, g, pc) ensures g == f {
      ReachedUnique(w, ts, f, g, pc);
    }
  }

  // ----- instructions -----

  lemma FitsSpot(owner: nat, s: Shape)
    ensures Lowered.Fits(SpotOf(owner, s), s)
    ensures forall x: Stack :: Lowered.Depth(SpotOf(owner, s), x) == |s.At(x)|
  {
  }

  lemma CellScalar(c: Layout, depth: nat)
    requires AllScalar(c) && CellAt(c, depth).Some?
    ensures depth < |c|
  {
    CellInside(c, depth);
    DepthScalar(c);
  }

  lemma {:induction false} CellSetScalar(l: Layout, depth: nat, kind: Kind)
    requires CellAt(l, depth).Some? && AllScalar(l)
    ensures AllScalar(CellSet(l, depth, kind))
  {
    var rest, top := l[..|l| - 1], l[|l| - 1];
    if depth >= Span(top) {
      CellSetScalar(rest, depth - Span(top), kind);
    }
  }

  lemma {:induction false} PouredScalar(to: Layout, from: Layout, n: nat)
    requires n <= |from| && AllScalar(from) && AllScalar(to)
    ensures AllScalar(Poured(to, from, n)) && |Poured(to, from, n)| == |to| + n
    decreases n
  {
    if n > 0 {
      PouredScalar(to + [from[|from| - 1]], from[..|from| - 1], n - 1);
    }
  }

  /** A straight-line instruction finds its operands and leaves the depths of the shape it leaves. */
  ghost predicate PlainOk(p: Instr, owner: nat, s: Shape, s': Shape) {
    Scalars(s') && Ready(p, s) && Lowered.HasForm(p) &&
    (Ready(p, Lowered.Blank(SpotOf(owner, s))) ==> Lowered.AfterDepth(p, SpotOf(owner, s)) == SpotOf(owner, s'))
  }

  lemma MovingOk(op: Op, p: Instr, owner: nat, s: Shape)
    requires Moving(op) && PlainOf(op) == Some(p) && Scalars(s) && TransferMoving(op, s).Some?
    ensures PlainOk(p, owner, s, TransferMoving(op, s).value)
  {
    hide Scalars, SpotOf, Lowered.Blank, Lowered.Depth, Lowered.WithDepth;
    hide Banks.Has, Banks.Peek, Banks.Push, Banks.Pop;
    var x, y := op.bank, Opposite(op.bank);
    FitsSpot(owner, s);
    if op.OpPush? {
      PushScalars(s, x, Scalar(Int), owner);
    } else {
      PopScalars(s, x, owner);
      match op
      case OpDup(_) => PushScalars(s, x, s.Peek(x, 0), owner);
      case OpDrop(_) =>
      case OpCopy(_) => PushScalars(s, y, s.Peek(x, 0), owner);
      case OpMove(_) =>
        PushScalars(s.Pop(x), y, s.Peek(x, 0), owner);
        OtherDepth(SpotOf(owner, s), x, y, Lowered.Depth(SpotOf(owner, s), x) - 1);
    }
  }

  lemma PushScalars(s: Shape, x: Stack, e: Entry, owner: nat)
    requires Scalars(s) && e.Scalar?
    ensures Scalars(s.Push(x, e))
    ensures SpotOf(owner, s.Push(x, e))
      == Lowered.WithDepth(SpotOf(owner, s), x, Lowered.Depth(SpotOf(owner, s), x) + 1)
  {
  }

  lemma PopScalars(s: Shape, x: Stack, owner: nat)
    requires Scalars(s) && s.Has(x, 0)
    ensures s.Peek(x, 0).Scalar? && Scalars(s.Pop(x)) && Lowered.Depth(SpotOf(owner, s), x) > 0
    ensures SpotOf(owner, s.Pop(x)) == Lowered.WithDepth(SpotOf(owner, s), x, Lowered.Depth(SpotOf(owner, s), x) - 1)
  {
  }

  lemma OtherDepth(d: Lowered.Spot, x: Stack, y: Stack, n: nat)
    requires x != y
    ensures Lowered.Depth(Lowered.WithDepth(d, x, n), y) == Lowered.Depth(d, y)
  {
  }

  lemma CSetOk(x: Bank, depth: nat, owner: nat, s: Shape)
    requires Scalars(s) && TransferFraming(OpCSet(x, depth), s).Some?
    ensures PlainOk(CSet(x, depth), owner, s, TransferFraming(OpCSet(x, depth), s).value)
  {
    hide CellAt, CellSet, Lowered.Blank;
    CellScalar(s.c, depth);
    CellSetScalar(s.c, depth, s.Peek(x, 0).kind);
  }

  lemma CGetOk(x: Bank, depth: nat, owner: nat, s: Shape)
    requires Scalars(s) && TransferFraming(OpCGet(x, depth, 1), s).Some?
    ensures PlainOk(CGet(x, depth), owner, s, TransferFraming(OpCGet(x, depth, 1), s).value)
  {
    hide CellAt, Lowered.Blank;
    assert Gathered(s.c, depth, 0) == Some([]);
    CellScalar(s.c, depth);
  }

  lemma CPushOk(x: Bank, owner: nat, s: Shape)
    requires Scalars(s) && TransferFraming(OpCPush(x, 1), s).Some?
    ensures PlainOk(CPush(x), owner, s, TransferFraming(OpCPush(x, 1), s).value)
  {
    hide Lowered.Blank;
    PouredScalar(s.c, s.At(x), 1);
  }

  lemma FramingOk(op: Op, p: Instr, owner: nat, s: Shape)
    requires Framing(op) && PlainOf(op) == Some(p) && Scalars(s) && TransferFraming(op, s).Some?
    ensures PlainOk(p, owner, s, TransferFraming(op, s).value)
  {
    if op.OpCPop? {
      hide Lowered.Blank;
    } else {
      hide PlainOk, TransferFraming, Scalars;
      match op
      case OpCSet(x, depth) => CSetOk(x, depth, owner, s);
      case OpCGet(x, depth, _) => CGetOk(x, depth, owner, s);
      case OpCPush(x, _) => CPushOk(x, owner, s);
    }
  }

  lemma ComputingOk(op: Op, p: Instr, owner: nat, s: Shape)
    requires Computing(op) && PlainOf(op) == Some(p) && Scalars(s) && TransferComputing(op, s).Some?
    ensures PlainOk(p, owner, s, TransferComputing(op, s).value)
  {
    hide CellAt, Lowered.Blank;
    if op.OpBinary? {
      hide *;
      BinaryOk(op.bank, op.op, owner, s);
      BinaryPlain(op.bank, op.op);
    } else {
      hide Banks.Push, Banks.Pop, Banks.Put, HasImmediate, HasCOperand, AllScalar;
      if op.OpCOperand? {
        CellScalar(s.c, op.depth);
      }
    }
  }

  lemma BinaryPlain(x: Bank, o: BinaryOp)
    ensures PlainOf(OpBinary(x, o)) == Some(Binary(x, o))
  {
  }

  lemma BinaryOk(x: Bank, o: BinaryOp, owner: nat, s: Shape)
    requires Scalars(s) && TransferComputing(OpBinary(x, o), s).Some?
    ensures PlainOk(Binary(x, o), owner, s, TransferComputing(OpBinary(x, o), s).value)
  {
    hide Lowered.Blank;
  }

  lemma PlainKind(op: Op)
    requires PlainOf(op).Some?
    ensures Moving(op) || Framing(op) || Computing(op)
  {
  }

  /** The depths agree wherever a straight-line instruction may go. */
  lemma PlainFlows(m: Lowered.Module, t: Lowered.Depths, f: Function, g: Option<Function>, op: Op, p: Instr,
    next: nat, owner: nat, s: Shape)
    requires PlainOf(op) == Some(p) && Scalars(s) && Transfer(f, g, op, s).Some?
    requires Lowered.Goes(t, next, SpotOf(owner, Transfer(f, g, op, s).value))
    ensures Scalars(Transfer(f, g, op, s).value) && Lowered.Flows(m, t, Lowered.Plain(p), next, SpotOf(owner, s))
  {
    hide TransferMoving, TransferFraming, TransferComputing, Scalars, Lowered.AfterDepth, Ready, Lowered.Blank;
    hide Lowered.HasForm, PlainOf;
    PlainKind(op);
    FitsSpot(owner, s);
    Lowered.FitsReady(p, SpotOf(owner, s), s);
    if Moving(op) {
      MovingOk(op, p, owner, s);
    } else if Framing(op) {
      FramingOk(op, p, owner, s);
    } else {
      ComputingOk(op, p, owner, s);
    }
  }

  lemma PairFlows(m: Lowered.Module, t: Lowered.Depths, op: Op, next: nat, owner: nat, s: Shape)
    requires op.OpBranch? && Scalars(s) && TransferBranching(op, s).Some?
    requires var d := SpotOf(owner, TransferBranching(op, s).value);
      Lowered.Goes(t, next, d) && Lowered.Goes(t, op.target, d)
    ensures Scalars(TransferBranching(op, s).value)
    ensures Lowered.Flows(m, t, Lowered.PairBranch(op.bank, op.relation, op.target), next, SpotOf(owner, s))
  {
    hide Lowered.Blank;
    var i := Lowered.PairBranch(op.bank, op.relation, op.target);
    FitsSpot(owner, s);
    Lowered.FitsOperands(i, SpotOf(owner, s), s);
  }

  lemma ZeroFlows(m: Lowered.Module, t: Lowered.Depths, op: Op, next: nat, owner: nat, s: Shape)
    requires op.OpZeroBranch? && Scalars(s) && TransferBranching(op, s).Some?
    requires var d := SpotOf(owner, TransferBranching(op, s).value);
      Lowered.Goes(t, next, d) && Lowered.Goes(t, op.target, d)
    ensures Scalars(TransferBranching(op, s).value)
    ensures Lowered.Flows(m, t, Lowered.ZeroBranch(op.bank, op.nonzero, op.target), next, SpotOf(owner, s))
  {
    hide Lowered.Blank;
    var i := Lowered.ZeroBranch(op.bank, op.nonzero, op.target);
    FitsSpot(owner, s);
    Lowered.FitsOperands(i, SpotOf(owner, s), s);
  }

  lemma ImmediateFlows(m: Lowered.Module, t: Lowered.Depths, op: Op, next: nat, owner: nat, s: Shape)
    requires op.OpImmediateBranch? && Scalars(s) && TransferBranching(op, s).Some?
    requires var d := SpotOf(owner, TransferBranching(op, s).value);
      Lowered.Goes(t, next, d) && Lowered.Goes(t, op.target, d)
    ensures Scalars(TransferBranching(op, s).value)
    ensures var i := Lowered.ImmediateBranch(op.bank, op.relation, op.reverse, op.value, op.target);
      Lowered.Flows(m, t, i, next, SpotOf(owner, s))
  {
    hide Lowered.Blank;
    var i := Lowered.ImmediateBranch(op.bank, op.relation, op.reverse, op.value, op.target);
    FitsSpot(owner, s);
    Lowered.FitsOperands(i, SpotOf(owner, s), s);
  }

  lemma SwitchFlows(m: Lowered.Module, t: Lowered.Depths, op: Op, next: nat, owner: nat, s: Shape)
    requires op.OpSwitch? && Scalars(s) && TransferBranching(op, s).Some?
    requires var d := SpotOf(owner, TransferBranching(op, s).value);
      Lowered.Goes(t, next, d) && forall p | p in op.targets :: Lowered.Goes(t, p, d)
    ensures Scalars(TransferBranching(op, s).value)
    ensures Lowered.Flows(m, t, Lowered.Switch(op.bank, op.targets), next, SpotOf(owner, s))
  {
    hide Lowered.Blank;
    var i := Lowered.Switch(op.bank, op.targets);
    FitsSpot(owner, s);
    Lowered.FitsOperands(i, SpotOf(owner, s), s);
  }

  lemma BranchPlaces(op: Op, next: nat)
    ensures forall p | p in Targets(op) :: p in Successors(op, next)
    ensures !Terminal(op) ==> next in Successors(op, next)
    ensures PlainOf(op).Some? ==> !Terminal(op) && !Branching(op)
  {
  }

  /** Where a branch may go, the depths are those of the shape it leaves. */
  lemma BranchFlows(w: Module, m: Lowered.Module, t: Lowered.Depths, op: Op, i: Lowered.PInstr, next: nat,
    owner: nat, s: Shape)
    requires Branching(op) && Lowers(w, op, i) && Scalars(s) && TransferBranching(op, s).Some?
    requires forall p | p in Successors(op, next) ::
      Lowered.Goes(t, p, SpotOf(owner, TransferBranching(op, s).value))
    ensures Scalars(TransferBranching(op, s).value) && Lowered.Flows(m, t, i, next, SpotOf(owner, s))
  {
    hide PlainOf, Successors, Lowered.Goes, Scalars, SpotOf;
    BranchPlaces(op, next);
    if op.OpBranch? {
      assert op.target in Targets(op);
      PairFlows(m, t, op, next, owner, s);
    } else if op.OpZeroBranch? {
      assert op.target in Targets(op);
      ZeroFlows(m, t, op, next, owner, s);
    } else if op.OpImmediateBranch? {
      assert op.target in Targets(op);
      ImmediateFlows(m, t, op, next, owner, s);
    } else if op.OpSwitch? {
      SwitchFlows(m, t, op, next, owner, s);
    } else if op.OpJump? {
      assert op.target in Targets(op);
    }
  }

  /** The callee of a lowered call. */
  lemma CalleeIs(w: Module, f: Function, op: Op, g: nat)
    requires Loaded(w) && IsCall(op) && CallFits(w, f, op) && IsEntry(w, op.target, g)
    ensures g < |w.functions| && Callee(w, op) == Some(w.functions[g]) && op.count == |w.functions[g].arguments|
  {
    var h: nat :| IsEntry(w, op.target, h) && CalleeFits(w, f, op, w.functions[h]);
    EntryUnique(w, op.target, g, h);
    EntryUnique(w, op.target, g, FunctionAt(w, op.target).value);
  }

  lemma CallFlows(m: Lowered.Module, t: Lowered.Depths, op: Op, i: Lowered.PInstr, g: Function, next: nat, owner: nat,
    s: Shape)
    requires op.OpCall? && i.CallTo? && i == Lowered.CallTo(op.bank, i.callee, op.count) && i.callee < |m.functions|
    requires m.functions[i.callee] == Lowered.Function(g.entry, |g.arguments|, |g.results|) && op.count == |g.arguments|
    requires Scalars(s) && CallShape(s, op.bank, g).Some?
    requires Lowered.Goes(t, next, SpotOf(owner, CallShape(s, op.bank, g).value))
    ensures Scalars(CallShape(s, op.bank, g).value) && Lowered.Flows(m, t, i, next, SpotOf(owner, s))
  {
    CallScalars(op.bank, g, owner, s);
    hide Lowered.Blank, CallShape, Scalars, SpotOf, Lowered.WithDepth, Banks.At, AllScalar, Lowered.Goes, Lowered.Depth;
    FitsSpot(owner, s);
    Lowered.FitsOperands(i, SpotOf(owner, s), s);
  }

  lemma CallScalars(x: Bank, g: Function, owner: nat, s: Shape)
    requires Scalars(s) && CallShape(s, x, g).Some?
    ensures |g.arguments| <= |s.At(x)| && Lowered.Depth(SpotOf(owner, s), x) == |s.At(x)|
    ensures Scalars(CallShape(s, x, g).value)
    ensures SpotOf(owner, CallShape(s, x, g).value)
      == Lowered.WithDepth(SpotOf(owner, s), x, |s.At(x)| - |g.arguments| + |g.results|)
  {
  }

  lemma TailFlows(m: Lowered.Module, t: Lowered.Depths, op: Op, i: Lowered.PInstr, g: Function, next: nat, owner: nat,
    s: Shape)
    requires op.OpTailCall? && i.TailTo? && i == Lowered.TailTo(op.bank, i.callee, op.frame, op.count)
    requires i.callee < |m.functions|
    requires m.functions[i.callee] == Lowered.Function(g.entry, |g.arguments|, |g.results|) && op.count == |g.arguments|
    requires Scalars(s) && TailShape(s, op.bank, op.frame, g).Some?
    ensures Lowered.Flows(m, t, i, next, SpotOf(owner, s))
  {
    hide Lowered.Blank;
    FitsSpot(owner, s);
    DepthScalar(s.c);
    Lowered.FitsOperands(i, SpotOf(owner, s), s);
  }

  lemma ReturnFlows(m: Lowered.Module, t: Lowered.Depths, f: Function, g: Option<Function>, op: Op, next: nat,
    owner: nat, s: Shape)
    requires op.OpReturn? && Scalars(s) && TransferLeaving(f, g, op, s).Some?
    ensures Lowered.Flows(m, t, Lowered.Return(op.bank, op.frame, op.count), next, SpotOf(owner, s))
  {
    hide Lowered.Blank;
    FitsSpot(owner, s);
    DepthScalar(s.c);
    Lowered.FitsOperands(Lowered.Return(op.bank, op.frame, op.count), SpotOf(owner, s), s);
  }

  /** Calls and returns. */
  lemma LeaveFlows(w: Module, m: Lowered.Module, t: Lowered.Depths, f: Function, op: Op, i: Lowered.PInstr, next: nat,
    owner: nat, s: Shape)
    requires Loaded(w) && f in w.functions && Lowering(w, m) && Leaving(op) && Lowers(w, op, i) && Fits(w, f, op)
    requires Scalars(s) && TransferLeaving(f, Callee(w, op), op, s).Some?
    requires forall p | p in Successors(op, next) ::
      Lowered.Goes(t, p, SpotOf(owner, TransferLeaving(f, Callee(w, op), op, s).value))
    ensures op.OpCall? ==> Scalars(TransferLeaving(f, Callee(w, op), op, s).value)
    ensures Lowered.Flows(m, t, i, next, SpotOf(owner, s))
  {
    hide Loaded, Callee, CallFits, CallShape, TailShape, Scalars, SpotOf, Lowered.Goes, Lowered.Flows, Matching;
    if op.OpReturn? {
      ReturnFlows(m, t, f, Callee(w, op), op, next, owner, s);
    } else if op.OpCall? || op.OpTailCall? {
      CalleeIs(w, f, op, i.callee);
      if op.OpCall? {
        assert next in Successors(op, next);
        CallFlows(m, t, op, i, w.functions[i.callee], next, owner, s);
      } else {
        TailFlows(m, t, op, i, w.functions[i.callee], next, owner, s);
      }
    }
  }

  lemma OpFlows(w: Module, m: Lowered.Module, t: Lowered.Depths, f: Function, op: Op, i: Lowered.PInstr, next: nat,
    owner: nat, s: Shape)
    requires Loaded(w) && f in w.functions && Lowering(w, m) && Lowers(w, op, i) && Fits(w, f, op)
    requires Scalars(s) && Transfer(f, Callee(w, op), op, s).Some?
    requires forall p | p in Successors(op, next) ::
      Lowered.Goes(t, p, SpotOf(owner, Transfer(f, Callee(w, op), op, s).value))
    ensures !Terminal(op) || op.OpJump? ==> Scalars(Transfer(f, Callee(w, op), op, s).value)
    ensures Lowered.Flows(m, t, i, next, SpotOf(owner, s))
  {
    hide TransferMoving, TransferFraming, TransferComputing, TransferBranching, TransferLeaving;
    hide Loaded, Callee, Scalars, SpotOf, Lowered.Goes, Lowered.Flows, Lowering, Fits, Successors;
    BranchPlaces(op, next);
    if Branching(op) {
      BranchFlows(w, m, t, op, i, next, owner, s);
    } else if Leaving(op) {
      LeaveFlows(w, m, t, f, op, i, next, owner, s);
    } else {
      PlainFlows(m, t, f, Callee(w, op), op, i.instr, next, owner, s);
    }
  }

  /** Single cells stay single cells. */
  lemma StillScalars(w: Module, m: Lowered.Module, f: Function, op: Op, i: Lowered.PInstr, next: nat, owner: nat,
    s: Shape, p: nat)
    requires Loaded(w) && f in w.functions && Lowering(w, m) && Lowers(w, op, i) && Fits(w, f, op)
    requires Scalars(s) && Transfer(f, Callee(w, op), op, s).Some? && p in Successors(op, next)
    ensures Scalars(Transfer(f, Callee(w, op), op, s).value)
  {
    hide Loaded, Callee, Scalars, SpotOf, Lowering, Fits, Lowers, Transfer;
    var d := SpotOf(owner, Transfer(f, Callee(w, op), op, s).value);
    OpFlows(w, m, map q | q in Successors(op, next) :: d, f, op, i, next, owner, s);
  }

  // ----- whole modules -----

  lemma PlaceFlows(w: Module, m: Lowered.Module, ts: seq<Typing>, f: nat, pc: nat)
    requires Loaded(w) && AllTyped(w, ts) && Lowering(w, m) && Reached(w, ts, f, pc)
    ensures pc in DepthsOf(w, ts) && Lowered.FlowsAt(m, DepthsOf(w, ts), pc)
  {
    hide Loaded, StaticOk, StartIn, Callee, Transfer, Successors, DepthsOf, Lowered.Flows, Lowered.Goes, SpotOf;
    hide Scalars;
    hide Lowers, Fits;
    var g := w.functions[f];
    DepthsAt(w, ts, f, pc);
    PlaceIs(w, ts, f, pc);
    LoweredAt(w, m, f, pc);
    var d := w.code[pc].value;
    var i, next := m.code[pc].value.instr, pc + d.length;
    var s' := Transfer(g, Callee(w, d.op), d.op, ts[f][pc]);
    forall p | p in Successors(d.op, next) ensures Lowered.Goes(DepthsOf(w, ts), p, SpotOf(f, s'.value)) {
      StillScalars(w, m, g, d.op, i, next, f, ts[f][pc], p);
      assert Arrives(g, ts[f], p, s'.value);
      Verifier.EdgeStart(w, g, pc, p);
      DepthsAt(w, ts, f, p);
    }
    OpFlows(w, m, DepthsOf(w, ts), g, d.op, i, next, f, ts[f][pc]);
    SpotGoes(DepthsOf(w, ts), pc, f, ts[f][pc]);
  }

  lemma SpotGoes(t: Lowered.Depths, pc: nat, f: nat, s: Shape)
    requires Lowered.Goes(t, pc, SpotOf(f, s))
    ensures pc in t && t[pc] == SpotOf(f, s) && t[pc].owner == f
  {
  }

  lemma PlaceIs(w: Module, ts: seq<Typing>, f: nat, pc: nat)
    requires Loaded(w) && AllTyped(w, ts) && Reached(w, ts, f, pc)
    ensures pc < |w.code| && w.code[pc].Some? && w.code[pc].value.length > 0
    ensures Fits(w, w.functions[f], w.code[pc].value.op)
    ensures var d := w.code[pc].value;
      TypedCode.Flows(w.functions[f], ts[f], Successors(d.op, pc + d.length),
        Transfer(w.functions[f], Callee(w, d.op), d.op, ts[f][pc]))
  {
    hide Callee, Transfer, Successors, TypedCode.Flows, Fits, StartIn;
    StartSound(w, w.functions[f], pc);
    assert FitsAt(w, w.functions[f], pc);
    assert TypedAt(w, w.functions[f], ts[f], pc);
  }

  lemma LoweredAt(w: Module, m: Lowered.Module, f: nat, pc: nat)
    requires Loaded(w) && Lowering(w, m) && f < |w.functions| && StartIn(w, w.functions[f], pc)
    ensures |m.code| == |w.code| && |m.functions| == |w.functions| && Matching(w, m, pc)
  {
    hide Matching, StartIn;
    assert w.functions[f] in w.functions;
  }

  lemma EntryReached(w: Module, m: Lowered.Module, ts: seq<Typing>, f: nat)
    requires Loaded(w) && AllTyped(w, ts) && Lowering(w, m) && f < |w.functions|
    ensures Reached(w, ts, f, w.functions[f].entry)
    ensures |m.functions| == |w.functions| && m.functions[f].entry == w.functions[f].entry
    ensures SpotOf(f, ts[f][w.functions[f].entry]) == Lowered.EntrySpot(m, f)
  {
    hide StaticOk, TypedAt, Matching, StartIn;
    var g := w.functions[f];
    assert Types(w, g, ts[f]);
    EntryStart(w, f);
    PouredScalar([], Lift(g.arguments), |g.arguments|);
  }

  lemma EntryStart(w: Module, f: nat)
    requires Loaded(w) && StaticOk(w) && f < |w.functions|
    ensures StartIn(w, w.functions[f], w.functions[f].entry)
  {
    hide FitsAt;
    assert Starts(w, w.functions[f]).Some?;
  }

  /** What the verifier accepts, the specializer can take: the shapes it found give depths at which every
      instruction finds its operands and on which all paths agree. */
  lemma AcceptedChecked(w: Module, m: Lowered.Module, ts: seq<Typing>)
    requires Loaded(w) && AllTyped(w, ts) && Lowering(w, m)
    ensures Lowered.Checked(m, DepthsOf(w, ts))
  {
    hide *;
    var t := DepthsOf(w, ts);
    forall f | 0 <= f < |m.functions| ensures Lowered.Goes(t, m.functions[f].entry, Lowered.EntrySpot(m, f)) {
      SameCount(w, m);
      EntryReached(w, m, ts, f);
      DepthsAt(w, ts, f, w.functions[f].entry);
    }
    forall pc | pc in t ensures Lowered.FlowsAt(m, t, pc) {
      var f := PlaceOf(w, ts, pc);
      PlaceFlows(w, m, ts, f, pc);
    }
    MakeChecked(m, t);
  }

  lemma SameCount(w: Module, m: Lowered.Module)
    requires Loaded(w) && Lowering(w, m)
    ensures |m.functions| == |w.functions|
  {
  }

  ghost function PlaceOf(w: Module, ts: seq<Typing>, pc: nat): (f: nat)
    requires Loaded(w) && pc in DepthsOf(w, ts)
    ensures Reached(w, ts, f, pc)
  {
    assert Placed(w, ts, pc);
    var f: nat :| Reached(w, ts, f, pc);
    f
  }

  lemma MakeChecked(m: Lowered.Module, t: Lowered.Depths)
    requires forall f | 0 <= f < |m.functions| :: Lowered.Goes(t, m.functions[f].entry, Lowered.EntrySpot(m, f))
    requires forall pc | pc in t :: Lowered.FlowsAt(m, t, pc)
    ensures Lowered.Checked(m, t)
  {
    hide Lowered.Goes, Lowered.FlowsAt;
  }
}
