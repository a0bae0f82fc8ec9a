/** Whole functions of bytecode: control, calls and returns around the straight-line instructions. */
module ControlCode {
  import opened Words
  import opened Bytecode

  datatype PInstr =
    | Plain(instr: Instr)
    | Jump(target: nat)
    | ZeroBranch(bank: Bank, nonzero: bool, target: nat)
    | PairBranch(bank: Bank, relation: Relation, target: nat)
    | ImmediateBranch(bank: Bank, relation: Relation, reverse: bool, value: Cell, target: nat)
    | Switch(bank: Bank, targets: seq<nat>)
    | CallTo(bank: Bank, callee: nat, count: nat)
    | TailTo(bank: Bank, callee: nat, frame: nat, count: nat)
    | Return(bank: Bank, frame: nat, count: nat)
    | Stop(reason: nat)

  datatype Located = Located(instr: PInstr, length: nat)

  datatype Function = Function(entry: nat, arguments: nat, results: nat)

  datatype Module = Module(code: seq<Option<Located>>, functions: seq<Function>)

  /** How a call, or a whole run, ends. `Silent` is a run that has not ended. */
  datatype Ending = Returned(values: seq<Cell>) | Aborted(reason: nat) | Silent | Wrong

  /** What calling a function with given arguments does. */
  type Callees = (nat, seq<Cell>) -> Ending

  datatype State = At(pc: nat, stacks: Banks<Cell>) | Done(ending: Ending)

  function Entered(arguments: seq<Cell>): Banks<Cell> {
    Banks([], [], Reversed(arguments))
  }

  /** Argument k is at depth k of the frame, and nothing is on the operand stacks. */
  lemma EnteredIs(arguments: seq<Cell>, k: nat)
    requires k < |arguments|
    ensures var s := Entered(arguments);
      s.Has(C, k) && s.Peek(C, k) == arguments[k] && |s.c| == |arguments| && s.a == [] && s.b == []
  {
  }

  /** The results a call may push, or the way the caller's run ends. */
  function Answer(o: Ending, results: nat): Ending {
    if o.Returned? && |o.values| != results then Wrong else o
  }

  /** The callee's arguments, the last of them on top. */
  function TopCells<T>(l: seq<T>, count: nat): (r: seq<T>)
    requires count <= |l|
    ensures |r| == count
  {
    l[|l| - count..]
  }

  function Under<T>(l: seq<T>, count: nat): seq<T>
    requires count <= |l|
  {
    l[..|l| - count]
  }

  predicate Taken(i: PInstr, s: Banks<Cell>)
    requires i.ZeroBranch? || i.PairBranch? || i.ImmediateBranch?
    requires s.Has(i.bank, 0) && (i.PairBranch? ==> s.Has(Opposite(i.bank), 0))
  {
    match i
    case ZeroBranch(x, nonzero, _) => Related(if nonzero then RelNE else RelEQ, s.Peek(x, 0), 0)
    case PairBranch(x, r, _) => Related(r, s.Peek(x, 0), s.Peek(Opposite(x), 0))
    case ImmediateBranch(x, r, reverse, v, _) =>
      if reverse then Related(r, v, s.Peek(x, 0)) else Related(r, s.Peek(x, 0), v)
  }

  function Consumed<T>(i: PInstr, s: Banks<T>): Banks<T>
    requires i.ZeroBranch? || i.PairBranch? || i.ImmediateBranch? || i.Switch?
    requires s.Has(i.bank, 0) && (i.PairBranch? ==> s.Has(Opposite(i.bank), 0))
  {
    if i.PairBranch? then s.Pop(i.bank).Pop(Opposite(i.bank)) else s.Pop(i.bank)
  }

  predicate Operands<T>(i: PInstr, s: Banks<T>) {
    match i
    case Plain(p) => Ready(p, s)
    case Jump(_) => true
    case ZeroBranch(x, _, _) => s.Has(x, 0)
    case PairBranch(x, _, _) => s.Has(x, 0) && s.Has(Opposite(x), 0)
    case ImmediateBranch(x, _, _, _, _) => s.Has(x, 0)
    case Switch(x, _) => s.Has(x, 0)
    case CallTo(x, _, n) => n <= |s.At(x)|
    case TailTo(x, _, frame, n) => n == |s.At(x)| && s.At(Opposite(x)) == [] && |s.c| == frame
    case Return(x, frame, n) => n == |s.At(x)| && s.At(Opposite(x)) == [] && |s.c| == frame
    case Stop(_) => true
  }

  function AfterPlain(i: Instr, s: Banks<Cell>, next: nat): State {
    match Step(i, s)
    case Next(s') => At(next, s')
    case Trap(reason) => Done(Aborted(reason))
    case Stuck => Done(Wrong)
  }

  /** One instruction of an activation; calls are answered by `callees`. */
  function Advance(m: Module, callees: Callees, i: PInstr, next: nat, s: Banks<Cell>): State
    requires Operands(i, s) && (i.CallTo? || i.TailTo? ==> i.callee < |m.functions|)
  {
    match i
    case Plain(p) => AfterPlain(p, s, next)
    case Jump(t) => At(t, s)
    case Switch(x, ts) => At(Chosen(s.Peek(x, 0) as nat, ts, next), s.Pop(x))
    case CallTo(x, g, n) =>
      var o := Answer(callees(g, TopCells(s.At(x), n)), m.functions[g].results);
      if o.Returned? then At(next, s.Put(x, Under(s.At(x), n) + o.values)) else Done(o)
    case TailTo(x, g, _, n) => At(m.functions[g].entry, Entered(s.At(x)))
    case Return(x, _, _) => Done(Returned(s.At(x)))
    case Stop(reason) => Done(Aborted(reason))
    case _ => At(if Taken(i, s) then i.target else next, Consumed(i, s))
  }

  function StepAt(m: Module, callees: Callees, st: State): State {
    match st
    case Done(_) => st
    case At(pc, s) =>
      if pc >= |m.code| || m.code[pc].None? then Done(Wrong)
      else
        var i := m.code[pc].value.instr;
        if !Operands(i, s) || ((i.CallTo? || i.TailTo?) && i.callee >= |m.functions|) then Done(Wrong)
        else Advance(m, callees, i, pc + m.code[pc].value.length, s)
  }

  function Run(m: Module, callees: Callees, st: State, steps: nat): State {
    if steps == 0 then st else StepAt(m, callees, Run(m, callees, st, steps - 1))
  }

  lemma {:induction false} RunDone(m: Module, callees: Callees, o: Ending, steps: nat)
    ensures Run(m, callees, Done(o), steps) == Done(o)
  {
    if steps > 0 {
      RunDone(m, callees, o, steps - 1);
    }
  }

  lemma {:induction false} RunThen(m: Module, callees: Callees, st: State, j: nat, k: nat)
    ensures Run(m, callees, st, j + k) == Run(m, callees, Run(m, callees, st, j), k)
  {
    hide StepAt;
    if k > 0 {
      RunThen(m, callees, st, j, k - 1);
    }
  }

  // ----- stack depths -----

  /** The function an instruction belongs to and the depths of the three stacks before it. */
  datatype Spot = Spot(owner: nat, a: nat, b: nat, c: nat)

  type Depths = map<nat, Spot>

  /** Stacks of nothing in particular, of the given depths. */
  function Blank(d: Spot): Banks<()> {
    Banks(seq(d.a, _ => ()), seq(d.b, _ => ()), seq(d.c, _ => ()))
  }

  predicate Fits<T>(d: Spot, s: Banks<T>) {
    |s.a| == d.a && |s.b| == d.b && |s.c| == d.c
  }

  function Depth(d: Spot, x: Stack): nat {
    match x case A => d.a case B => d.b case C => d.c
  }

  function WithDepth(d: Spot, x: Stack, n: nat): Spot {
    match x
    case A => d.(a := n)
    case B => d.(b := n)
    case C => d.(c := n)
  }

  /** The depths after a straight-line instruction. */
  function AfterDepth(i: Instr, d: Spot): Spot
    requires Ready(i, Blank(d))
  {
    match i
    case Push(x, _) => WithDepth(d, x, Depth(d, x) + 1)
    case Dup(x) => WithDepth(d, x, Depth(d, x) + 1)
    case Drop(x) => WithDepth(d, x, Depth(d, x) - 1)
    case Copy(x) => WithDepth(d, Opposite(x), Depth(d, Opposite(x)) + 1)
    case Move(x) => WithDepth(WithDepth(d, x, Depth(d, x) - 1), Opposite(x), Depth(d, Opposite(x)) + 1)
    case CPush(x) => WithDepth(WithDepth(d, x, Depth(d, x) - 1), C, d.c + 1)
    case CPop => WithDepth(d, C, d.c - 1)
    case CGet(x, _) => WithDepth(d, x, Depth(d, x) + 1)
    case CSet(x, _) => WithDepth(d, x, Depth(d, x) - 1)
    case Binary(x, _) => WithDepth(d, Opposite(x), Depth(d, Opposite(x)) - 1)
    case _ => d
  }

  predicate Goes(t: Depths, pc: nat, d: Spot) {
    pc in t && t[pc] == d
  }

  /** The depths are known at every place the instruction may go to, and agree there. */
  predicate Flows(m: Module, t: Depths, i: PInstr, next: nat, d: Spot) {
    Operands(i, Blank(d)) &&
    match i
    case Plain(p) => HasForm(p) && Goes(t, next, AfterDepth(p, d))
    case Jump(target) => Goes(t, target, d)
    case Switch(x, ts) =>
      var after := WithDepth(d, x, Depth(d, x) - 1);
      Goes(t, next, after) && forall p | p in ts :: Goes(t, p, after)
    case CallTo(x, g, n) =>
      && g < |m.functions| && n == m.functions[g].arguments
      && Goes(t, next, WithDepth(d, x, Depth(d, x) - n + m.functions[g].results))
    case TailTo(x, g, _, n) => g < |m.functions| && n == m.functions[g].arguments
    case Return(_, _, _) => true
    case Stop(_) => true
    case PairBranch(x, _, target) =>
      var after := WithDepth(WithDepth(d, x, Depth(d, x) - 1), Opposite(x), Depth(d, Opposite(x)) - 1);
      Goes(t, next, after) && Goes(t, target, after)
    case _ =>
      var after := WithDepth(d, i.bank, Depth(d, i.bank) - 1);
      Goes(t, next, after) && Goes(t, i.target, after)
  }

  /** Immediate and C-operand forms exist only for operations that cannot trap. */
  predicate HasForm(i: Instr) {
    (i.Immediate? ==> HasImmediate(i.op)) && (i.COperand? ==> HasCOperand(i.op))
  }

  predicate FlowsAt(m: Module, t: Depths, pc: nat)
    requires pc in t
  {
    && t[pc].owner < |m.functions|
    && pc < |m.code| && m.code[pc].Some? && m.code[pc].value.length > 0
    && Flows(m, t, m.code[pc].value.instr, pc + m.code[pc].value.length, t[pc])
  }

  function EntrySpot(m: Module, f: nat): Spot
    requires f < |m.functions|
  {
    Spot(f, 0, 0, m.functions[f].arguments)
  }

  /** Stack depths for a verified module: each instruction finds its operands and every path to it
      agrees. */
  predicate Checked(m: Module, t: Depths) {
    && (forall f | 0 <= f < |m.functions| :: Goes(t, m.functions[f].entry, EntrySpot(m, f)))
    && (forall pc | pc in t :: FlowsAt(m, t, pc))
  }

  lemma FitsAt<T>(d: Spot, s: Banks<T>, x: Stack)
    requires Fits(d, s)
    ensures |s.At(x)| == Depth(d, x) == |Blank(d).At(x)|
  {
  }

  lemma FitsOperands<T>(i: PInstr, d: Spot, s: Banks<T>)
    requires Fits(d, s)
    ensures Operands(i, s) <==> Operands(i, Blank(d))
  {
    forall x: Stack ensures |s.At(x)| == |Blank(d).At(x)| {
      FitsAt(d, s, x);
    }
    if i.TailTo? || i.Return? {
      FitsAt(d, s, Opposite(i.bank));
    }
  }

  lemma FitsPut<T>(d: Spot, s: Banks<T>, x: Stack, l: seq<T>)
    requires Fits(d, s)
    ensures Fits(WithDepth(d, x, |l|), s.Put(x, l))
  {
  }

  lemma FitsPush<T>(d: Spot, s: Banks<T>, x: Stack, v: T)
    requires Fits(d, s)
    ensures Fits(WithDepth(d, x, Depth(d, x) + 1), s.Push(x, v))
  {
    FitsAt(d, s, x);
    FitsPut(d, s, x, s.At(x) + [v]);
  }

  lemma FitsPop<T>(d: Spot, s: Banks<T>, x: Stack)
    requires Fits(d, s) && s.Has(x, 0)
    ensures Depth(d, x) > 0 && Fits(WithDepth(d, x, Depth(d, x) - 1), s.Pop(x))
  {
    FitsAt(d, s, x);
    FitsPut(d, s, x, s.At(x)[..|s.At(x)| - 1]);
  }

  lemma FitsReplace<T>(d: Spot, s: Banks<T>, x: Stack, depth: nat, v: T)
    requires Fits(d, s) && s.Has(x, depth)
    ensures Fits(d, s.Replace(x, depth, v))
  {
    FitsAt(d, s, x);
    FitsPut(d, s, x, s.At(x)[|s.At(x)| - 1 - depth := v]);
  }

  lemma FitsReady<T>(i: Instr, d: Spot, s: Banks<T>)
    requires Fits(d, s)
    ensures Ready(i, s) <==> Ready(i, Blank(d))
  {
    forall x: Stack ensures |s.At(x)| == |Blank(d).At(x)| {
      FitsAt(d, s, x);
    }
  }
}
