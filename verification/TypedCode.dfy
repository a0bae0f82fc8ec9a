/** Modules of bytecode and what it means for them to be well typed. */
module TypedCode {
  import opened Words
  import opened Bytecode
  import opened Shapes

  /** An instruction as the verifier sees it, with branch targets as absolute positions. */
  datatype Op =
    | OpPush(bank: Bank, value: Cell)
    | OpDup(bank: Bank)
    | OpDrop(bank: Bank)
    | OpCopy(bank: Bank)
    | OpMove(bank: Bank)
    | OpCPush(bank: Bank, count: nat)
    | OpCPop
    | OpCGet(bank: Bank, depth: nat, count: nat)
    | OpCSet(bank: Bank, depth: nat)
    | OpBinary(bank: Bank, op: BinaryOp)
    | OpUnary(bank: Bank, unary: UnaryOp)
    | OpCheck(bank: Bank, check: CheckOp)
    | OpImmediate(bank: Bank, op: BinaryOp, value: Cell)
    | OpCOperand(bank: Bank, op: BinaryOp, depth: nat)
    | OpConvert(bank: Bank, from: Kind, to: Kind)
    | OpFloatBinary(bank: Bank, compares: bool)
    | OpFloatBranch(bank: Bank, target: nat)
    | OpBranch(bank: Bank, relation: Relation, target: nat)
    | OpZeroBranch(bank: Bank, nonzero: bool, target: nat)
    | OpImmediateBranch(bank: Bank, relation: Relation, reverse: bool, value: Cell, target: nat)
    | OpJump(target: nat)
    | OpSwitch(bank: Bank, targets: seq<nat>)
    | OpAllocate(bytes: nat)
    | OpFree(bytes: nat)
    | OpFrameLoad(bank: Bank, offset: nat, width: nat, kind: Kind)
    | OpFrameStore(bank: Bank, offset: nat, width: nat)
    | OpFrameAddress(bank: Bank, offset: nat, width: nat)
    | OpLoad(bank: Bank, kind: Kind)
    | OpStore(bank: Bank, width: nat)
    | OpCall(bank: Bank, target: nat, count: nat)
    | OpTailCall(bank: Bank, target: nat, frame: nat, count: nat)
    | OpReturn(bank: Bank, frame: nat, count: nat)
    | OpHalt(bank: Bank)
    | OpAbort(reason: nat)

  datatype Decoded = Decoded(op: Op, length: nat)

  datatype Function = Function(entry: nat, end: nat, arguments: seq<Kind>, results: seq<Kind>, hidden: nat)

  /** `code[pc]` is what decoding at `pc` gives, for every byte position. */
  datatype Module = Module(code: seq<Option<Decoded>>, functions: seq<Function>)

  /** What the module reader has already made sure of: functions lie end to end. */
  predicate Loaded(m: Module) {
    && m.functions != [] && m.functions[0].entry == 0 && m.functions[|m.functions| - 1].end == |m.code|
    && (forall f | 0 <= f < |m.functions| :: m.functions[f].entry < m.functions[f].end <= |m.code|)
    && (forall f | 0 < f < |m.functions| :: m.functions[f - 1].end == m.functions[f].entry)
    && (forall pc | 0 <= pc < |m.code| && m.code[pc].Some? :: m.code[pc].value.length > 0)
    && (forall pc | 0 <= pc < |m.code| && m.code[pc].Some? :: SmallOperands(m.code[pc].value.op))
  }

  /** Byte-sized operands. */
  predicate SmallOperands(i: Op) {
    match i
    case OpCSet(_, depth) => depth < 256
    case _ => true
  }

  lemma {:induction false} Ordered(m: Module, f: nat, g: nat)
    requires Loaded(m) && f < g < |m.functions|
    ensures m.functions[f].end <= m.functions[g].entry
    decreases g
  {
    if f + 1 < g {
      Ordered(m, f, g - 1);
    }
    assert m.functions[g - 1].end == m.functions[g].entry;
  }

  ghost predicate IsEntry(m: Module, pc: nat, f: nat) {
    f < |m.functions| && m.functions[f].entry == pc
  }

  /** The function that starts at `pc`. */
  ghost function FunctionAt(m: Module, pc: nat): (r: Option<nat>)
    ensures r.Some? ==> IsEntry(m, pc, r.value)
  {
    if f: nat :| IsEntry(m, pc, f) then Some(f) else None
  }

  // ----- instruction starts -----

  /** The instruction starts from `pc` to the function's end, if every instruction there decodes
      within it. */
  function Scan(m: Module, end: nat, pc: nat): Option<set<nat>>
    requires end <= |m.code| && forall p | 0 <= p < |m.code| && m.code[p].Some? :: m.code[p].value.length > 0
    decreases end - pc
  {
    if pc >= end then Some({})
    else if m.code[pc].None? || pc + m.code[pc].value.length > end then None
    else
      match Scan(m, end, pc + m.code[pc].value.length)
      case None => None
      case Some(rest) => Some({pc} + rest)
  }

  function Starts(m: Module, f: Function): Option<set<nat>>
    requires Loaded(m) && f in m.functions
  {
    Scan(m, f.end, f.entry)
  }

  predicate AllScan(m: Module)
    requires Loaded(m)
  {
    forall f | f in m.functions :: Starts(m, f).Some?
  }

  predicate StartIn(m: Module, f: Function, pc: nat)
    requires Loaded(m) && f in m.functions
  {
    Starts(m, f).Some? && pc in Starts(m, f).value
  }

  lemma {:induction false} ScanMember(m: Module, end: nat, pc: nat, p: nat)
    requires end <= |m.code| && forall p | 0 <= p < |m.code| && m.code[p].Some? :: m.code[p].value.length > 0
    requires Scan(m, end, pc).Some? && p in Scan(m, end, pc).value
    ensures pc <= p < end && m.code[p].Some? && p + m.code[p].value.length <= end
    ensures p + m.code[p].value.length < end ==> p + m.code[p].value.length in Scan(m, end, pc).value
    decreases end - pc
  {
    var next := pc + m.code[pc].value.length;
    if p != pc {
      ScanMember(m, end, next, p);
    }
  }

  /** Decoding from a start gives an instruction that lies in the function, and the next
      instruction is a start too unless the function ends. */
  lemma StartSound(m: Module, f: Function, pc: nat)
    requires Loaded(m) && f in m.functions && StartIn(m, f, pc)
    ensures f.entry <= pc < f.end <= |m.code| && m.code[pc].Some? && pc + m.code[pc].value.length <= f.end
    ensures pc + m.code[pc].value.length < f.end ==> StartIn(m, f, pc + m.code[pc].value.length)
  {
    ScanMember(m, f.end, f.entry, pc);
  }

  ghost predicate HasHalt(m: Module, f: Function)
    requires Loaded(m) && f in m.functions
  {
    exists pc :: StartIn(m, f, pc) && IsHalt(m, pc)
  }

  predicate IsHalt(m: Module, pc: nat) {
    pc < |m.code| && m.code[pc].Some? && m.code[pc].value.op.OpHalt?
  }

  // ----- checks that hold of every instruction, reachable or not -----

  function Targets(i: Op): seq<nat> {
    match i
    case OpBranch(_, _, t) => [t]
    case OpFloatBranch(_, t) => [t]
    case OpZeroBranch(_, _, t) => [t]
    case OpImmediateBranch(_, _, _, _, t) => [t]
    case OpJump(t) => [t]
    case OpSwitch(_, ts) => ts
    case _ => []
  }

  predicate IsCall(i: Op) {
    i.OpCall? || i.OpTailCall?
  }

  predicate SameResults(f: Function, g: Function) {
    f.results == g.results && f.hidden == g.hidden
  }

  ghost predicate CallFits(m: Module, f: Function, i: Op)
    requires Loaded(m) && IsCall(i)
  {
    exists g: nat :: IsEntry(m, i.target, g) && CalleeFits(m, f, i, m.functions[g])
  }

  ghost predicate CalleeFits(m: Module, f: Function, i: Op, g: Function)
    requires Loaded(m) && IsCall(i) && g in m.functions
  {
    && !HasHalt(m, g) && i.count == |g.arguments|
    && (i.OpTailCall? ==> SameResults(f, g))
  }

  ghost predicate Fits(m: Module, f: Function, i: Op)
    requires Loaded(m) && f in m.functions
  {
    && (forall t | t in Targets(i) :: StartIn(m, f, t))
    && (IsCall(i) ==> CallFits(m, f, i))
    && (i.OpAbort? ==> i.reason != 0)
  }

  ghost predicate FitsAt(m: Module, f: Function, pc: nat)
    requires Loaded(m) && f in m.functions && StartIn(m, f, pc)
  {
    StartSound(m, f, pc);
    Fits(m, f, m.code[pc].value.op)
  }

  ghost predicate StaticOk(m: Module)
    requires Loaded(m)
  {
    AllScan(m) && forall f, pc | f in m.functions && StartIn(m, f, pc) :: FitsAt(m, f, pc)
  }

  // ----- what each instruction does to the shapes of the stacks -----

  type Shape = Banks<Entry>

  predicate TopIs(l: Layout, kind: Kind) {
    l != [] && l[|l| - 1] == Scalar(kind)
  }

  function Init(l: Layout): Layout
    requires l != []
  {
    l[..|l| - 1]
  }

  function Last(l: Layout): Entry
    requires l != []
  {
    l[|l| - 1]
  }

  /** `count` cells moved one at a time from the end of `from` to the end of `to`. */
  function Poured<T>(to: seq<T>, from: seq<T>, count: nat): seq<T>
    requires count <= |from|
    decreases count
  {
    if count == 0 then to else Poured(to + [from[|from| - 1]], from[..|from| - 1], count - 1)
  }

  /** They arrive in the opposite order. */
  lemma {:induction false} PouredIs<T>(to: seq<T>, from: seq<T>, count: nat)
    requires count <= |from|
    ensures |Poured(to, from, count)| == |to| + count && to <= Poured(to, from, count)
    ensures forall j | |to| <= j < |to| + count :: Poured(to, from, count)[j] == from[|from| - 1 - (j - |to|)]
    decreases count
  {
    if count > 0 {
      PouredIs(to + [from[|from| - 1]], from[..|from| - 1], count - 1);
    }
  }

  /** The kinds of `count` cells from `depth` on. */
  function Gathered(c: Layout, depth: nat, count: nat): Option<Layout> {
    if count == 0 then Some([])
    else
      match Gathered(c, depth, count - 1)
      case None => None
      case Some(l) =>
        (match CellAt(c, depth + count - 1)
         case None => None
         case Some(k) => Some(l + [Scalar(k)]))
  }

  function Guard(ok: bool, s: Shape): Option<Shape> {
    if ok then Some(s) else None
  }

  predicate TestsEquality(op: BinaryOp) {
    op == EQ || op == NE
  }

  /** Two integers, or two addresses where only equality is asked. */
  predicate PairOk(identity: bool, x: Layout, y: Layout) {
    (identity && TopIs(x, Addr) && TopIs(y, Addr)) || (TopIs(x, Int) && TopIs(y, Int))
  }

  predicate StoreOk(l: Layout, width: nat) {
    l != [] && (width < 8 ==> TopIs(l, Int))
  }

  function Replaced(s: Shape, x: Stack, kind: Kind): Shape
    requires s.Has(x, 0)
  {
    s.Put(x, Init(s.At(x)) + [Scalar(kind)])
  }

  predicate EndsWith(l: Layout, kinds: seq<Kind>) {
    |kinds| <= |l| && l[|l| - |kinds|..] == Lift(kinds)
  }

  function CallShape(s: Shape, x: Bank, g: Function): Option<Shape> {
    var l := s.At(x);
    if EndsWith(l, g.arguments) then Some(s.Put(x, l[..|l| - |g.arguments|] + Lift(g.results))) else None
  }

  function TailShape(s: Shape, x: Bank, frame: nat, g: Function): Option<Shape> {
    if s.At(x) == Lift(g.arguments) && s.At(Opposite(x)) == [] && Depth(s.c) == frame
    then Some(s.Put(x, [])) else None
  }

  predicate Moving(i: Op) {
    i.OpPush? || i.OpDup? || i.OpDrop? || i.OpCopy? || i.OpMove?
  }

  predicate Framing(i: Op) {
    i.OpCPush? || i.OpCPop? || i.OpCGet? || i.OpCSet? || i.OpAllocate? || i.OpFree?
  }

  predicate Computing(i: Op) {
    i.OpBinary? || i.OpUnary? || i.OpCheck? || i.OpImmediate? || i.OpCOperand? || i.OpConvert? || i.OpFloatBinary?
  }

  predicate Branching(i: Op) {
    || i.OpFloatBranch? || i.OpBranch? || i.OpZeroBranch? || i.OpImmediateBranch?
    || i.OpJump? || i.OpSwitch? || i.OpAbort?
  }

  predicate Touching(i: Op) {
    i.OpFrameLoad? || i.OpFrameStore? || i.OpFrameAddress? || i.OpLoad? || i.OpStore?
  }

  predicate Leaving(i: Op) {
    i.OpCall? || i.OpTailCall? || i.OpReturn? || i.OpHalt?
  }

  /** Copies and moves between the operand stacks. */
  function TransferMoving(i: Op, s: Shape): Option<Shape>
    requires Moving(i)
  {
    match i
    case OpPush(x, _) => Some(s.Push(x, Scalar(Int)))
    case OpDup(x) => if s.Has(x, 0) then Some(s.Push(x, s.Peek(x, 0))) else None
    case OpDrop(x) => if s.Has(x, 0) then Some(s.Pop(x)) else None
    case OpCopy(x) => if s.Has(x, 0) then Some(s.Push(Opposite(x), s.Peek(x, 0))) else None
    case OpMove(x) => if s.Has(x, 0) then Some(s.Pop(x).Push(Opposite(x), s.Peek(x, 0))) else None
  }

  /** The frame stack. */
  function TransferFraming(i: Op, s: Shape): Option<Shape>
    requires Framing(i)
  {
    match i
    case OpCPush(x, n) =>
      var l := s.At(x);
      if n <= |l| then Some(s.Put(x, l[..|l| - n]).Put(C, Poured(s.c, l, n))) else None
    case OpCPop => if s.c != [] && Last(s.c).Scalar? then Some(s.Pop(C)) else None
    case OpCGet(x, depth, n) =>
      (match Gathered(s.c, depth, n)
       case None => None
       case Some(l) => Some(s.Put(x, s.At(x) + l)))
    case OpCSet(x, depth) =>
      if s.Has(x, 0) && s.Peek(x, 0).Scalar? && CellAt(s.c, depth).Some?
      then Some(s.Pop(x).Put(C, CellSet(s.c, depth, s.Peek(x, 0).kind))) else None
    case OpAllocate(n) => Some(if n > 0 then s.Push(C, Block(n)) else s)
    case OpFree(n) =>
      if n == 0 then Some(s) else if s.c != [] && Last(s.c) == Block(n) then Some(s.Pop(C)) else None
  }

  /** Scalar operations. */
  function TransferComputing(i: Op, s: Shape): Option<Shape>
    requires Computing(i)
  {
    match i
    case OpBinary(x, op) =>
      if PairOk(TestsEquality(op), s.At(x), s.At(Opposite(x)))
      then Some(Replaced(s.Pop(Opposite(x)), x, Int)) else None
    case OpUnary(x, _) => Guard(TopIs(s.At(x), Int), s)
    case OpCheck(x, _) => Guard(TopIs(s.At(x), Int), s)
    case OpImmediate(x, _, _) => Guard(TopIs(s.At(x), Int), s)
    case OpCOperand(x, _, depth) => Guard(TopIs(s.At(x), Int) && CellAt(s.c, depth) == Some(Int), s)
    case OpConvert(x, from, to) => if TopIs(s.At(x), from) then Some(Replaced(s, x, to)) else None
    case OpFloatBinary(x, compares) =>
      if TopIs(s.At(x), Float) && TopIs(s.At(Opposite(x)), Float)
      then Some(Replaced(s.Pop(Opposite(x)), x, if compares then Int else Float)) else None
  }

  /** Control inside the function. */
  function TransferBranching(i: Op, s: Shape): Option<Shape>
    requires Branching(i)
  {
    match i
    case OpFloatBranch(x, _) =>
      if TopIs(s.At(x), Float) && TopIs(s.At(Opposite(x)), Float) then Some(s.Pop(x).Pop(Opposite(x))) else None
    case OpBranch(x, r, _) =>
      if PairOk(r == RelEQ || r == RelNE, s.At(x), s.At(Opposite(x))) then Some(s.Pop(x).Pop(Opposite(x))) else None
    case OpZeroBranch(x, _, _) => if TopIs(s.At(x), Int) then Some(s.Pop(x)) else None
    case OpImmediateBranch(x, _, _, _, _) => if TopIs(s.At(x), Int) then Some(s.Pop(x)) else None
    case OpJump(_) => Some(s)
    case OpSwitch(x, _) => if TopIs(s.At(x), Int) then Some(s.Pop(x)) else None
    case OpAbort(_) => Some(s)
  }

  /** Memory. */
  function TransferTouching(i: Op, s: Shape): Option<Shape>
    requires Touching(i)
  {
    match i
    case OpFrameLoad(x, offset, width, kind) =>
      if FrameBytes(s.c, 0, offset, width) then Some(s.Push(x, Scalar(kind))) else None
    case OpFrameStore(x, offset, width) =>
      if FrameBytes(s.c, 0, offset, width) && StoreOk(s.At(x), width) then Some(s.Pop(x)) else None
    case OpFrameAddress(x, offset, width) =>
      if FrameBytes(s.c, 0, offset, width) then Some(s.Push(x, Scalar(Addr))) else None
    case OpLoad(x, kind) => if TopIs(s.At(x), Addr) then Some(Replaced(s, x, kind)) else None
    case OpStore(x, width) =>
      if TopIs(s.At(x), Addr) && StoreOk(s.At(Opposite(x)), width) then Some(s.Pop(x).Pop(Opposite(x))) else None
  }

  /** Calls and leaving the function; `g` is the function called. */
  function TransferLeaving(f: Function, g: Option<Function>, i: Op, s: Shape): Option<Shape>
    requires Leaving(i)
  {
    match i
    case OpCall(x, _, _) => if g.Some? then CallShape(s, x, g.value) else None
    case OpTailCall(x, _, frame, _) => if g.Some? then TailShape(s, x, frame, g.value) else None
    case OpReturn(x, frame, n) =>
      Guard(Depth(s.c) == frame && s.At(Opposite(x)) == [] && n == |f.results| && s.At(x) == Lift(f.results), s)
    case OpHalt(x) => Guard(s.c == [] && s.At(Opposite(x)) == [] && s.At(x) == Lift(f.results), s)
  }

  /** The shape after an instruction, or nothing when the instruction does not fit the shape. */
  function Transfer(f: Function, g: Option<Function>, i: Op, s: Shape): Option<Shape> {
    if Moving(i) then TransferMoving(i, s)
    else if Framing(i) then TransferFraming(i, s)
    else if Computing(i) then TransferComputing(i, s)
    else if Branching(i) then TransferBranching(i, s)
    else if Touching(i) then TransferTouching(i, s)
    else TransferLeaving(f, g, i, s)
  }

  predicate Terminal(i: Op) {
    i.OpJump? || i.OpTailCall? || i.OpReturn? || i.OpHalt? || i.OpAbort?
  }

  /** Where control may go next inside the function. */
  function Successors(i: Op, next: nat): seq<nat> {
    Targets(i) + if Terminal(i) then [] else [next]
  }

  function EntryShape(f: Function): Shape {
    Banks([], [], Poured([], Lift(f.arguments), |f.arguments|))
  }

  // ----- typings -----

  type Typing = map<nat, Shape>

  ghost function Callee(m: Module, i: Op): Option<Function> {
    if !IsCall(i) then None
    else match FunctionAt(m, i.target) case None => None case Some(g) => Some(m.functions[g])
  }

  predicate Arrives(f: Function, t: Typing, p: nat, s: Shape) {
    p < f.end && p in t && t[p] == s
  }

  /** The instruction fits, and every place it may go to has the shape it leaves. */
  predicate Flows(f: Function, t: Typing, targets: seq<nat>, s: Option<Shape>) {
    s.Some? && forall p | p in targets :: Arrives(f, t, p, s.value)
  }

  ghost predicate TypedAt(m: Module, f: Function, t: Typing, pc: nat)
    requires pc in t
  {
    pc < |m.code| && m.code[pc].Some? &&
    var d := m.code[pc].value;
    Flows(f, t, Successors(d.op, pc + d.length), Transfer(f, Callee(m, d.op), d.op, t[pc]))
  }

  /** One shape for each reachable instruction, agreeing along every edge. */
  ghost predicate Types(m: Module, f: Function, t: Typing) {
    && f.entry in t && t[f.entry] == EntryShape(f)
    && forall pc | pc in t :: f.entry <= pc < f.end && TypedAt(m, f, t, pc)
  }

  ghost predicate Typeable(m: Module, f: Function) {
    exists t :: Types(m, f, t)
  }

  ghost predicate WellTyped(m: Module)
    requires Loaded(m)
  {
    StaticOk(m) && forall f | f in m.functions :: Typeable(m, f)
  }
}
