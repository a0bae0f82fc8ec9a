/** Straight-line code generation over a register cache.

    Every logical stack slot is described at compile time by a constant, a register (shared by
    any number of slots) or a memory home.  The cache emits machine forms and updates the
    descriptions; it never sees a cell.  `start` is an arbitrary machine the emitted code will
    be run on and `now` is that machine after the code emitted so far; both are ghost, so the
    code cannot depend on them and every contract below holds for every start machine.
 */
module RegisterCache {
  import opened Words
  import opened Bytecode

  datatype Address = Address(stack: Stack, home: int)

  datatype Place = Constant(value: Cell) | Register(reg: nat) | Home(at: Address)

  /** `dst` is where the value must be stored when its slot is spilled. */
  datatype Value = Value(place: Place, dst: Address)

  type Slots = Banks<Value>

  datatype Form =
    | ConstForm(dst: nat, value: Cell)
    | LoadForm(dst: nat, at: Address)
    | StoreForm(at: Address, src: nat)
    | MoveForm(dst: nat, src: nat)
    | BinaryForm(op: BinaryOp, dst: nat, src: nat)
    | Binary32Form(op: BinaryOp, dst: nat, src: nat)
    | ImmediateForm(op: BinaryOp, dst: nat, value: Cell)
    | Immediate32Form(op: BinaryOp, dst: nat, value: Cell)
    | UnaryForm(unary: UnaryOp, dst: nat)
    | CheckForm(check: CheckOp, src: nat)
    | AbortForm(reason: nat)

  datatype Machine = Machine(regs: seq<Cell>, mem: map<Address, Cell>, trap: Option<nat>) {
    function Fetch(at: Address): Cell {
      if at in mem then mem[at] else 0
    }

    function SetReg(r: nat, v: Cell): Machine
      requires r < |regs|
    {
      this.(regs := regs[r := v])
    }

    function Finish(r: nat, v: Option<Cell>): Machine
      requires r < |regs|
    {
      match v case None => this.(trap := Some(REASON_DIVISION)) case Some(c) => SetReg(r, c)
    }
  }

  predicate Encodable(f: Form, registers: nat) {
    match f
    case ConstForm(r, _) => r < registers
    case LoadForm(r, _) => r < registers
    case StoreForm(_, r) => r < registers
    case MoveForm(d, r) => d < registers && r < registers
    case BinaryForm(_, d, r) => d < registers && r < registers
    case Binary32Form(op, d, r) => d < registers && r < registers && Narrows(op)
    case ImmediateForm(op, r, _) => r < registers
    case Immediate32Form(op, r, v) => r < registers && (Narrows(op) || (op == SHL && v < 32))
    case UnaryForm(_, r) => r < registers
    case CheckForm(_, r) => r < registers
    case AbortForm(_) => true
  }

  /** One machine form.  A trapped machine stays as it is. */
  function Exec(f: Form, m: Machine): (n: Machine)
    requires Encodable(f, |m.regs|)
    ensures |n.regs| == |m.regs|
  {
    if m.trap.Some? then m else
    match f
    case ConstForm(r, v) => m.SetReg(r, v)
    case LoadForm(r, at) => m.SetReg(r, m.Fetch(at))
    case StoreForm(at, r) => m.(mem := m.mem[at := m.regs[r]])
    case MoveForm(d, r) => m.SetReg(d, m.regs[r])
    case BinaryForm(op, d, r) => m.Finish(d, Combine(op, m.regs[d], m.regs[r]))
    case Binary32Form(op, d, r) => m.SetReg(d, ApplyNarrow(op, m.regs[d], m.regs[r]))
    case ImmediateForm(op, r, v) => m.Finish(r, Combine(op, m.regs[r], v))
    case Immediate32Form(op, r, v) =>
      m.SetReg(r, if op == SHL then ShiftLeftNarrow(m.regs[r], v) else ApplyNarrow(op, m.regs[r], v))
    case UnaryForm(op, r) => m.SetReg(r, ApplyUnary(op, m.regs[r]))
    case CheckForm(op, r) => if Fails(op, m.regs[r]) then m.(trap := Some(REASON_CONVERSION)) else m
    case AbortForm(reason) => m.(trap := Some(reason))
  }

  predicate AllEncodable(code: seq<Form>, registers: nat) {
    forall i | 0 <= i < |code| :: Encodable(code[i], registers)
  }

  function Run(code: seq<Form>, m: Machine): (n: Machine)
    requires AllEncodable(code, |m.regs|)
    ensures |n.regs| == |m.regs|
  {
    if code == [] then m else Exec(code[|code| - 1], Run(code[..|code| - 1], m))
  }

  lemma RunAppend(code: seq<Form>, f: Form, m: Machine)
    requires AllEncodable(code, |m.regs|) && Encodable(f, |m.regs|)
    ensures AllEncodable(code + [f], |m.regs|)
    ensures Run(code + [f], m) == Exec(f, Run(code, m))
  {
    assert (code + [f])[..|code|] == code;
  }

  /** Where slot `i` of a stack lives in memory; `shift` is the frame's bias minus its origin. */
  function Canonical(s: Stack, i: nat, shift: int): Address {
    Address(s, if s == C then i + shift else i)
  }

  predicate SlotOk(v: Value, s: Stack, i: nat, shift: int, registers: nat) {
    && v.dst == Canonical(s, i, shift)
    && (v.place.Register? ==> v.place.reg < registers)
    && (v.place.Home? ==> v.place.at == v.dst)
  }

  ghost predicate AllOk(x: Slots, shift: int, registers: nat) {
    forall s: Stack, i | 0 <= i < |x.At(s)| :: SlotOk(x.At(s)[i], s, i, shift, registers)
  }

  function Read(p: Place, m: Machine): Cell
    requires p.Register? ==> p.reg < |m.regs|
  {
    match p
    case Constant(v) => v
    case Register(r) => m.regs[r]
    case Home(at) => m.Fetch(at)
  }

  /** The descriptions `x` on machine `m` stand for exactly the stacks `cells`. */
  ghost predicate Denotes(x: Slots, m: Machine, cells: Banks<Cell>, shift: int)
  {
    && AllOk(x, shift, |m.regs|)
    && (forall s: Stack :: |x.At(s)| == |cells.At(s)|)
    && (forall s: Stack, i | 0 <= i < |x.At(s)| :: Read(x.At(s)[i].place, m) == cells.At(s)[i])
  }

  ghost predicate Unused(x: Slots, r: nat) {
    forall s: Stack, i | 0 <= i < |x.At(s)| :: x.At(s)[i].place != Register(r)
  }

  /** `y` is `x` with some of the slots held in register `r` spilled. */
  ghost predicate SpilledFrom(x: Slots, y: Slots, r: nat) {
    && (forall s: Stack :: |x.At(s)| == |y.At(s)|)
    && (forall s: Stack, i | 0 <= i < |x.At(s)| ::
          y.At(s)[i] == x.At(s)[i] || (x.At(s)[i].place == Register(r) && y.At(s)[i].place.Home?))
  }

  function CountIn(q: seq<Value>, r: nat): nat {
    if q == [] then 0
    else CountIn(q[..|q| - 1], r) + (if q[|q| - 1].place == Register(r) then 1 else 0)
  }

  lemma {:induction false} CountZero(q: seq<Value>, r: nat)
    ensures CountIn(q, r) == 0 <==> forall i | 0 <= i < |q| :: q[i].place != Register(r)
  {
    if q != [] {
      var p := q[..|q| - 1];
      CountZero(p, r);
      assert forall i | 0 <= i < |p| :: q[i] == p[i];
    }
  }

  lemma {:induction false} CountOne(q: seq<Value>, r: nat, k: nat)
    requires k < |q| && q[k].place == Register(r)
    ensures CountIn(q, r) >= 1
    ensures CountIn(q, r) == 1 <==> forall i | 0 <= i < |q| && i != k :: q[i].place != Register(r)
  {
    var p := q[..|q| - 1];
    if k == |q| - 1 {
      CountZero(p, r);
      assert forall i | 0 <= i < |p| :: q[i] == p[i];
    } else {
      CountOne(p, r, k);
      assert forall i | 0 <= i < |p| :: q[i] == p[i];
    }
  }

  /** Storing a register-held slot at its own home changes no denotation. */
  lemma PublishKeeps(x: Slots, m: Machine, cells: Banks<Cell>, shift: int, s: Stack, i: nat)
    requires Denotes(x, m, cells, shift) && i < |x.At(s)| && x.At(s)[i].place.Register?
    ensures var v := x.At(s)[i];
      Denotes(x.Put(s, x.At(s)[i := Value(Home(v.dst), v.dst)]),
              m.(mem := m.mem[v.dst := m.regs[v.place.reg]]), cells, shift)
  {
    hide Banks.At, Banks.Put;
    var v := x.At(s)[i];
    var y := x.Put(s, x.At(s)[i := Value(Home(v.dst), v.dst)]);
    var n := m.(mem := m.mem[v.dst := m.regs[v.place.reg]]);
    assert AllOk(y, shift, |n.regs|);
    forall t: Stack, j | 0 <= j < |y.At(t)|
      ensures Read(y.At(t)[j].place, n) == cells.At(t)[j]
    {
      if t != s || j != i {
        assert y.At(t)[j] == x.At(t)[j] && SlotOk(x.At(t)[j], t, j, shift, |m.regs|);
      }
    }
  }

  /** Overwriting a register no slot uses changes no denotation. */
  lemma ScratchKeeps(x: Slots, m: Machine, cells: Banks<Cell>, shift: int, r: nat, v: Cell)
    requires Denotes(x, m, cells, shift) && r < |m.regs| && Unused(x, r)
    ensures Denotes(x, m.SetReg(r, v), cells, shift)
  {
  }

  /** Describing slot `i` by a register that holds its cell changes no denotation. */
  lemma DescribeKeeps(x: Slots, m: Machine, cells: Banks<Cell>, shift: int, s: Stack, i: nat, r: nat)
    requires Denotes(x, m, cells, shift) && i < |x.At(s)| && r < |m.regs|
    requires m.regs[r] == cells.At(s)[i]
    ensures Denotes(x.Put(s, x.At(s)[i := Value(Register(r), x.At(s)[i].dst)]), m, cells, shift)
  {
    hide Banks.At, Banks.Put;
    var y := x.Put(s, x.At(s)[i := Value(Register(r), x.At(s)[i].dst)]);
    assert AllOk(y, shift, |m.regs|);
  }

  lemma PushKeeps(x: Slots, m: Machine, cells: Banks<Cell>, shift: int, s: Stack, p: Place)
    requires Denotes(x, m, cells, shift)
    requires !p.Home? && (p.Register? ==> p.reg < |m.regs|)
    ensures Denotes(x.Push(s, Value(p, Canonical(s, |x.At(s)|, shift))), m, cells.Push(s, Read(p, m)), shift)
  {
    hide Banks.At, Banks.Put;
    var y := x.Push(s, Value(p, Canonical(s, |x.At(s)|, shift)));
    assert AllOk(y, shift, |m.regs|);
  }

  lemma PopKeeps(x: Slots, m: Machine, cells: Banks<Cell>, shift: int, s: Stack)
    requires Denotes(x, m, cells, shift) && x.Has(s, 0)
    ensures cells.Has(s, 0) && Denotes(x.Pop(s), m, cells.Pop(s), shift)
  {
    hide Banks.At, Banks.Put;
    assert AllOk(x.Pop(s), shift, |m.regs|);
  }

  lemma ReplaceKeeps(x: Slots, m: Machine, cells: Banks<Cell>, shift: int, s: Stack, depth: nat, p: Place)
    requires Denotes(x, m, cells, shift) && x.Has(s, depth)
    requires !p.Home? && (p.Register? ==> p.reg < |m.regs|)
    ensures cells.Has(s, depth)
    ensures Denotes(x.Replace(s, depth, Value(p, x.Peek(s, depth).dst)), m, cells.Replace(s, depth, Read(p, m)), shift)
  {
    hide Banks.At, Banks.Put;
    var y := x.Replace(s, depth, Value(p, x.Peek(s, depth).dst));
    assert AllOk(y, shift, |m.regs|);
  }

  /** Register `r` describes slot `i` of `s` and no other slot. */
  ghost predicate OwnedBy(x: Slots, r: nat, s: Stack, i: nat) {
    && i < |x.At(s)| && x.At(s)[i].place == Register(r)
    && (forall t: Stack, j | 0 <= j < |x.At(t)| && (t != s || j != i) :: x.At(t)[j].place != Register(r))
  }

  /** Computing into a register owned by one slot changes that slot's cell only. */
  lemma ComputeKeeps(x: Slots, m: Machine, cells: Banks<Cell>, shift: int, s: Stack, i: nat, r: nat, v: Cell)
    requires Denotes(x, m, cells, shift) && OwnedBy(x, r, s, i) && r < |m.regs|
    ensures Denotes(x, m.SetReg(r, v), cells.Put(s, cells.At(s)[i := v]), shift)
  {
    hide Banks.At, Banks.Put;
    assert AllOk(x, shift, |m.SetReg(r, v).regs|);
  }

  lemma ReadyAgrees(i: Instr, x: Slots, m: Machine, cells: Banks<Cell>, shift: int)
    requires Denotes(x, m, cells, shift)
    ensures Ready(i, x) <==> Ready(i, cells)
  {
    hide Banks.At;
  }

  ghost predicate SameShape(x: Slots, y: Slots) {
    forall s: Stack :: |x.At(s)| == |y.At(s)|
  }

  lemma SomeCells(x: Slots, m: Machine, shift: int) returns (cells: Banks<Cell>)
    requires AllOk(x, shift, |m.regs|)
    ensures Denotes(x, m, cells, shift)
  {
    assert x.At(A) == x.a && x.At(B) == x.b && x.At(C) == x.c;
    cells := Banks(
      seq(|x.a|, i requires 0 <= i < |x.a| => Read(x.At(A)[i].place, m)),
      seq(|x.b|, i requires 0 <= i < |x.b| => Read(x.At(B)[i].place, m)),
      seq(|x.c|, i requires 0 <= i < |x.c| => Read(x.At(C)[i].place, m)));
  }

  lemma OwnedStays(x: Slots, y: Slots, s: Stack, i: nat, d: nat, t: Stack, j: nat, r: nat)
    requires OwnedBy(x, d, s, i) && (s != t || i != j) && r != d
    requires j < |x.At(t)| && j < |y.At(t)| && y.At(t)[j].place == Register(r)
    requires SpilledFrom(x, y.Put(t, y.At(t)[j := x.At(t)[j]]), r)
    ensures OwnedBy(y, d, s, i)
  {
    hide Banks.At, Banks.Put;
    var z := y.Put(t, y.At(t)[j := x.At(t)[j]]);
    assert forall u: Stack, k | 0 <= k < |y.At(u)| && (u != t || k != j) :: y.At(u)[k] == z.At(u)[k];
  }

  lemma AllSame(x: Slots, s: Stack, i: nat, r: nat)
    requires i < |x.At(s)|
    ensures SameShape(x, x) && SpilledFrom(x, x.Put(s, x.At(s)[i := x.At(s)[i]]), r)
  {
    assert x.At(s)[i := x.At(s)[i]] == x.At(s);
  }

  /** A slot that is not in the register is not touched when that is spilled. */
  lemma StillThere(x: Slots, y: Slots, r: nat, s: Stack, i: nat)
    requires SpilledFrom(x, y, r) && i < |x.At(s)| && !x.At(s)[i].place.Register?
    ensures i < |y.At(s)| && y.At(s)[i] == x.At(s)[i]
  {
    hide Banks.At;
  }

  lemma OwnedPlace(x: Slots, r: nat, s: Stack, i: nat)
    requires OwnedBy(x, r, s, i)
    ensures i < |x.At(s)| && x.At(s)[i].place == Register(r)
  {
    hide Banks.At;
  }

  lemma PutBack(x: Slots, s: Stack, i: nat, v: Value)
    requires i < |x.At(s)|
    ensures var y := x.Put(s, x.At(s)[i := v]);
      i < |y.At(s)| && y.At(s)[i] == v && y.Put(s, y.At(s)[i := x.At(s)[i]]) == x
  {
    assert x.At(s)[i := v][i := x.At(s)[i]] == x.At(s);
  }

  lemma ShapeTrans(x: Slots, y: Slots, z: Slots)
    requires SameShape(x, y) && SameShape(y, z)
    ensures SameShape(x, z)
  {
    hide Banks.At;
  }

  lemma NowOwned(x: Slots, r: nat, s: Stack, i: nat, dst: Address)
    requires Unused(x, r) && i < |x.At(s)|
    ensures var y := x.Put(s, x.At(s)[i := Value(Register(r), dst)]); SameShape(x, y) && OwnedBy(y, r, s, i)
  {
    hide Banks.At, Banks.Put;
  }

  lemma NowOk(x: Slots, shift: int, registers: nat, r: nat, s: Stack, i: nat)
    requires AllOk(x, shift, registers) && i < |x.At(s)| && r < registers
    ensures AllOk(x.Put(s, x.At(s)[i := Value(Register(r), x.At(s)[i].dst)]), shift, registers)
  {
    hide Banks.At, Banks.Put;
  }

  /** `y` has the slots of `x` and holds constants only where `x` does. */
  ghost predicate Weaker(x: Slots, y: Slots) {
    && SameShape(x, y)
    && forall t: Stack, j | 0 <= j < |y.At(t)| :: y.At(t)[j].place.Constant? ==> x.At(t)[j].place.Constant?
  }

  lemma MaterializedWeaker(x: Slots, y: Slots, s: Stack, i: nat, r: nat)
    requires SameShape(x, y) && i < |x.At(s)| && y.At(s)[i].place == Register(r)
    requires SpilledFrom(x, y.Put(s, y.At(s)[i := x.At(s)[i]]), r)
    ensures Weaker(x, y)
  {
    hide Banks.At, Banks.Put;
    var z := y.Put(s, y.At(s)[i := x.At(s)[i]]);
    assert forall u: Stack, k | 0 <= k < |y.At(u)| && (u != s || k != i) :: y.At(u)[k] == z.At(u)[k];
  }

  // ----- constants -----

  /** What is known of each cell when the code is compiled. */
  type Knowledge = Banks<Option<Cell>>

  function PlaceKnown(p: Place): Option<Cell> {
    match p case Constant(v) => Some(v) case _ => None
  }

  /** Exactly the slots `k` gives a cell for are described by a constant, and by that one. */
  ghost predicate Tells(x: Slots, k: Knowledge) {
    && (forall s: Stack :: |x.At(s)| == |k.At(s)|)
    && forall s: Stack, i | 0 <= i < |x.At(s)| :: PlaceKnown(x.At(s)[i].place) == k.At(s)[i]
  }

  function Knowns(q: seq<Value>): (r: seq<Option<Cell>>)
    ensures |r| == |q| && forall i | 0 <= i < |q| :: r[i] == PlaceKnown(q[i].place)
  {
    seq(|q|, (i: nat) requires i < |q| => PlaceKnown(q[i].place))
  }

  function AllKnowns(x: Slots): Knowledge {
    Banks(Knowns(x.a), Knowns(x.b), Knowns(x.c))
  }

  lemma AllTold(x: Slots)
    ensures Tells(x, AllKnowns(x))
    ensures forall k: Knowledge :: Tells(x, k) <==> k == AllKnowns(x)
  {
    forall k: Knowledge | Tells(x, k) ensures k == AllKnowns(x) {
      assert k.At(A) == AllKnowns(x).a && k.At(B) == AllKnowns(x).b && k.At(C) == AllKnowns(x).c;
    }
  }

  /** One slot is brought into a register. */
  function Forget(k: Knowledge, s: Stack, i: nat): Knowledge
    requires i < |k.At(s)|
  {
    k.Put(s, k.At(s)[i := None])
  }

  lemma ForgetTwice(k: Knowledge, s: Stack, i: nat)
    requires i < |k.At(s)|
    ensures i < |Forget(k, s, i).At(s)| && Forget(Forget(k, s, i), s, i) == Forget(k, s, i)
  {
    assert k.At(s)[i := None][i := None] == k.At(s)[i := None];
  }

  lemma TellsPush(x: Slots, k: Knowledge, s: Stack, v: Value)
    requires Tells(x, k)
    ensures Tells(x.Push(s, v), k.Push(s, PlaceKnown(v.place)))
  {
    hide Banks.At, Banks.Put;
  }

  lemma TellsPop(x: Slots, k: Knowledge, s: Stack)
    requires Tells(x, k) && x.Has(s, 0)
    ensures k.Has(s, 0) && Tells(x.Pop(s), k.Pop(s))
  {
    hide Banks.At, Banks.Put;
  }

  lemma TellsReplace(x: Slots, k: Knowledge, s: Stack, depth: nat, v: Value)
    requires Tells(x, k) && x.Has(s, depth)
    ensures k.Has(s, depth) && Tells(x.Replace(s, depth, v), k.Replace(s, depth, PlaceKnown(v.place)))
  {
    hide Banks.At, Banks.Put;
  }

  lemma TellsPut(x: Slots, k: Knowledge, s: Stack, i: nat, v: Value)
    requires Tells(x, k) && i < |x.At(s)|
    ensures i < |k.At(s)|
    ensures Tells(x.Put(s, x.At(s)[i := v]), k.Put(s, k.At(s)[i := PlaceKnown(v.place)]))
  {
    hide Banks.At, Banks.Put;
  }

  lemma TellsPeek(x: Slots, k: Knowledge, s: Stack, depth: nat)
    requires Tells(x, k) && x.Has(s, depth)
    ensures k.Has(s, depth) && k.Peek(s, depth) == PlaceKnown(x.Peek(s, depth).place)
  {
    hide Banks.Put;
  }

  lemma TellsLength(x: Slots, k: Knowledge, s: Stack)
    requires Tells(x, k)
    ensures |x.At(s)| == |k.At(s)|
  {
  }

  lemma TellsHas(x: Slots, k: Knowledge, s: Stack, depth: nat)
    requires Tells(x, k)
    ensures x.Has(s, depth) <==> k.Has(s, depth)
  {
  }

  lemma TellsAt(x: Slots, k: Knowledge, s: Stack, i: nat)
    requires Tells(x, k) && i < |x.At(s)|
    ensures i < |k.At(s)| && k.At(s)[i] == PlaceKnown(x.At(s)[i].place)
  {
  }

  lemma SameAgain(k: Knowledge, s: Stack, i: nat)
    requires i < |k.At(s)|
    ensures k.Put(s, k.At(s)[i := k.At(s)[i]]) == k
  {
    assert k.At(s)[i := k.At(s)[i]] == k.At(s);
  }

  lemma TellsReady(i: Instr, x: Slots, k: Knowledge)
    requires Tells(x, k)
    ensures Ready(i, x) <==> Ready(i, k)
  {
    hide Banks.At;
  }

  function KnownBoth(op: BinaryOp, x: Option<Cell>, y: Option<Cell>): Option<Cell> {
    if x.Some? && y.Some? && !Traps(op, y.value) then Some(Apply(op, x.value, y.value)) else None
  }

  /** What is known after an instruction: constants move with the cells, and an operation on constants
      that does not trap gives one. A frame cell that an instruction has to read from a register stays
      there. */
  function Folded(i: Instr, k: Knowledge): Knowledge
    requires Ready(i, k)
  {
    match i
    case Push(x, v) => k.Push(x, Some(v))
    case Dup(x) => k.Push(x, k.Peek(x, 0))
    case Drop(x) => k.Pop(x)
    case Copy(x) => k.Push(Opposite(x), k.Peek(x, 0))
    case Move(x) => k.Pop(x).Push(Opposite(x), k.Peek(x, 0))
    case CPush(x) => k.Pop(x).Push(C, k.Peek(x, 0))
    case CPop => k.Pop(C)
    case CGet(x, depth) => k.Push(x, k.Peek(C, depth))
    case CSet(x, depth) => k.Pop(x).Replace(C, depth, k.Peek(x, 0))
    case Unary(x, op) =>
      k.Replace(x, 0, match k.Peek(x, 0) case Some(v) => Some(ApplyUnary(op, v)) case None => None)
    case Immediate(x, op, v) => k.Replace(x, 0, KnownBoth(op, k.Peek(x, 0), Some(v)))
    case COperand(x, op, depth) =>
      var v := KnownBoth(op, k.Peek(x, 0), k.Peek(C, depth));
      if v.Some? then k.Replace(x, 0, v) else k.Replace(x, 0, None).Replace(C, depth, None)
    case Binary(x, op) =>
      k.Replace(x, 0, KnownBoth(op, k.Peek(x, 0), k.Peek(Opposite(x), 0))).Pop(Opposite(x))
    case Check(_, _) => k
  }

  /** What is known after an instruction, and after the ZX32 that it absorbs. */
  ghost predicate Absorbed(i: Instr, fused: bool, k: Knowledge, k': Knowledge) {
    && Ready(i, k) && (fused ==> (i.Binary? || i.Immediate? || i.COperand?) && Ready(Unary(i.bank, ZX32), Folded(i, k)))
    && k' == if fused then Folded(Unary(i.bank, ZX32), Folded(i, k)) else Folded(i, k)
  }

  /** Whether what is known makes code unnecessary. */
  predicate Silent(i: Instr, k: Knowledge)
    requires Ready(i, k)
  {
    match i
    case Push(_, _) => true
    case Drop(_) => true
    case CPop => true
    case CGet(_, depth) => k.Peek(C, depth).Some?
    case COperand(x, op, depth) => KnownBoth(op, k.Peek(x, 0), k.Peek(C, depth)).Some?
    case Binary(x, op) => KnownBoth(op, k.Peek(x, 0), k.Peek(Opposite(x), 0)).Some?
    case Check(x, op) => k.Peek(x, 0).Some? && !Fails(op, k.Peek(x, 0).value)
    case _ => k.Peek(i.bank, 0).Some?
  }

  lemma RewrittenKnown(k: Knowledge, x: Bank, v: Option<Cell>, w: Option<Cell>)
    requires k.Has(x, 0)
    ensures k.Replace(x, 0, v).Has(x, 0) && k.Replace(x, 0, v).Peek(x, 0) == v
    ensures k.Replace(x, 0, v).Replace(x, 0, w) == k.Replace(x, 0, w)
  {
    assert k.At(x)[|k.At(x)| - 1 := v][|k.At(x)| - 1 := w] == k.At(x)[|k.At(x)| - 1 := w];
  }

  lemma UnaryKnown(x: Bank, op: UnaryOp, k: Knowledge)
    requires k.Has(x, 0)
    ensures Ready(Unary(x, op), k) && (Silent(Unary(x, op), k) <==> k.Peek(x, 0).Some?)
    ensures Folded(Unary(x, op), k) ==
      k.Replace(x, 0, match k.Peek(x, 0) case Some(v) => Some(ApplyUnary(op, v)) case None => None)
  {
    hide Banks.Replace, Banks.Peek, ApplyUnary;
  }

  lemma ImmediateFolds(x: Bank, op: BinaryOp, v: Cell, k: Knowledge)
    requires k.Has(x, 0)
    ensures Ready(Immediate(x, op, v), k) && (Silent(Immediate(x, op, v), k) <==> k.Peek(x, 0).Some?)
    ensures Folded(Immediate(x, op, v), k) == k.Replace(x, 0, KnownBoth(op, k.Peek(x, 0), Some(v)))
  {
    hide Banks.Replace, Banks.Peek, KnownBoth;
  }

  lemma COperandFolds(x: Bank, op: BinaryOp, depth: nat, k: Knowledge)
    requires k.Has(x, 0) && k.Has(C, depth)
    ensures Ready(COperand(x, op, depth), k) && k.Replace(x, 0, None).Has(C, depth)
    ensures var v := KnownBoth(op, k.Peek(x, 0), k.Peek(C, depth));
      && (Silent(COperand(x, op, depth), k) <==> v.Some?)
      && Folded(COperand(x, op, depth), k) ==
        if v.Some? then k.Replace(x, 0, v) else k.Replace(x, 0, None).Replace(C, depth, None)
  {
    OtherStack(k, x, depth);
    hide Banks.Replace, Banks.Peek, Banks.Has, KnownBoth;
  }

  lemma BinaryFolds(x: Bank, op: BinaryOp, k: Knowledge)
    requires k.Has(x, 0) && k.Has(Opposite(x), 0)
    ensures Ready(Binary(x, op), k)
    ensures var v := KnownBoth(op, k.Peek(x, 0), k.Peek(Opposite(x), 0));
      && k.Replace(x, 0, v).Has(Opposite(x), 0)
      && (Silent(Binary(x, op), k) <==> v.Some?)
      && Folded(Binary(x, op), k) == k.Replace(x, 0, v).Pop(Opposite(x))
  {
    BinaryPops(k, x, KnownBoth(op, k.Peek(x, 0), k.Peek(Opposite(x), 0)));
    hide Banks.Replace, Banks.Peek, Banks.Has, Banks.Pop, KnownBoth;
  }

  lemma CheckFolds(x: Bank, op: CheckOp, k: Knowledge)
    requires k.Has(x, 0)
    ensures Ready(Check(x, op), k) && Folded(Check(x, op), k) == k
    ensures Silent(Check(x, op), k) <==> k.Peek(x, 0).Some? && !Fails(op, k.Peek(x, 0).value)
    ensures |k.At(x)| > 0 && k.Peek(x, 0) == k.At(x)[|k.At(x)| - 1]
  {
    hide Fails;
  }

  lemma PairKnown(op: BinaryOp, x: Option<Cell>, y: Option<Cell>)
    ensures x.None? || y.None? ==> KnownBoth(op, x, y) == None
    ensures (HasImmediate(op) || HasCOperand(op)) && x.Some? && y.Some? ==>
      !Traps(op, y.value) && KnownBoth(op, x, y) == Some(Apply(op, x.value, y.value))
  {
    hide Apply;
  }

  lemma NeverAbsorbed(i: Instr, k: Knowledge, k': Knowledge)
    requires Ready(i, k) && k' == Folded(i, k)
    ensures Absorbed(i, false, k, k')
  {
    hide Folded, Ready;
  }

  lemma PopFolds(s: Stack, k: Knowledge)
    requires k.Has(s, 0)
    ensures var i := if s == C then CPop else Drop(s); Ready(i, k) && Folded(i, k) == k.Pop(s)
  {
  }

  lemma PushFolds(x: Bank, v: Cell, k: Knowledge)
    ensures Ready(Push(x, v), k) && Folded(Push(x, v), k) == k.Push(x, Some(v))
  {
  }

  /** What is known after a sequence of instructions. */
  ghost function FoldAll(block: seq<Instr>, k: Knowledge): Option<Knowledge> {
    if block == [] then Some(k)
    else
      var i := block[|block| - 1];
      match FoldAll(block[..|block| - 1], k)
      case None => None
      case Some(now) => if Ready(i, now) then Some(Folded(i, now)) else None
  }

  /** No instruction of the sequence needs code. */
  ghost predicate AllSilent(block: seq<Instr>, k: Knowledge) {
    block == [] ||
    var i, now := block[|block| - 1], FoldAll(block[..|block| - 1], k);
    AllSilent(block[..|block| - 1], k) && now.Some? && Ready(i, now.value) && Silent(i, now.value)
  }

  lemma FoldNone(block: seq<Instr>, k: Knowledge)
    ensures FoldAll(block[..0], k) == Some(k)
  {
  }

  lemma FoldNext(block: seq<Instr>, n: nat, k: Knowledge, now: Knowledge)
    requires n < |block| && FoldAll(block[..n], k) == Some(now) && Ready(block[n], now)
    ensures FoldAll(block[..n + 1], k) == Some(Folded(block[n], now))
    ensures AllSilent(block[..n + 1], k) <==> AllSilent(block[..n], k) && Silent(block[n], now)
  {
    assert block[..n + 1][..n] == block[..n];
    hide Folded, Ready, Silent;
  }

  /** One instruction, or one and the ZX32 it absorbs. */
  lemma FoldStep(block: seq<Instr>, n: nat, fused: bool, k: Knowledge, now: Knowledge, now': Knowledge)
    requires n < |block| && FoldAll(block[..n], k) == Some(now) && Absorbed(block[n], fused, now, now')
    requires fused ==> n + 1 < |block| && block[n + 1] == Unary(block[n].bank, ZX32)
    ensures var m := if fused then n + 2 else n + 1;
      FoldAll(block[..m], k) == Some(now') && (AllSilent(block[..m], k) ==> AllSilent(block[..n], k))
    ensures Ready(block[n], now)
    ensures AllSilent(block[..if fused then n + 2 else n + 1], k) ==> Silent(block[n], now)
  {
    hide Folded, Ready, Silent, FoldAll, AllSilent;
    FoldNext(block, n, k, now);
    if fused {
      FoldNext(block, n + 1, k, Folded(block[n], now));
    }
  }

  lemma NotAbsorbed(i: Instr, k: Knowledge)
    requires Ready(i, k)
    ensures Absorbed(i, false, k, Folded(i, k))
  {
    hide Folded, Ready;
  }

  /** A value that is not known is not known when it is extended either. */
  lemma AbsorbedUnknown(i: Instr, fused: bool, k: Knowledge, below: Knowledge)
    requires Ready(i, k) && (i.Binary? || i.Immediate? || i.COperand?)
    requires below.Has(i.bank, 0) && Folded(i, k) == below.Replace(i.bank, 0, None)
    ensures Absorbed(i, fused, k, Folded(i, k))
  {
    RewrittenKnown(below, i.bank, None, None);
    UnaryKnown(i.bank, ZX32, below.Replace(i.bank, 0, None));
    hide Folded, Ready, Banks.Replace, Banks.Peek, Banks.Has, ApplyUnary;
  }

  lemma AbsorbedKnown(i: Instr, k: Knowledge, below: Knowledge, v: Cell)
    requires Ready(i, k) && (i.Binary? || i.Immediate? || i.COperand?)
    requires below.Has(i.bank, 0) && Folded(i, k) == below.Replace(i.bank, 0, Some(v))
    ensures Absorbed(i, true, k, below.Replace(i.bank, 0, Some(Low32(v))))
  {
    RewrittenKnown(below, i.bank, Some(v), Some(Low32(v)));
    UnaryKnown(i.bank, ZX32, below.Replace(i.bank, 0, Some(v)));
    ZeroExtends(v);
    hide Folded, Ready, Banks.Replace, Banks.Peek, Banks.Has, ApplyUnary, Low32;
  }

  lemma ImmediateKnown(x: Bank, op: BinaryOp, v: Cell, k: Knowledge, fused: bool)
    requires k.Has(x, 0) && HasImmediate(op)
    ensures Ready(Immediate(x, op, v), k) && (Silent(Immediate(x, op, v), k) <==> k.Peek(x, 0).Some?)
    ensures !Traps(op, v)
    ensures match k.Peek(x, 0)
      case Some(w) => Absorbed(Immediate(x, op, v), false, k, k.Replace(x, 0, Some(Apply(op, w, v))))
      case None => Absorbed(Immediate(x, op, v), fused, k, k.Replace(x, 0, None))
  {
    ImmediateFolds(x, op, v, k);
    PairKnown(op, k.Peek(x, 0), Some(v));
    PairKnown(op, Some(v), Some(v));
    hide *;
    NotAbsorbed(Immediate(x, op, v), k);
    if k.Peek(x, 0).None? {
      AbsorbedUnknown(Immediate(x, op, v), fused, k, k);
    }
  }

  lemma COperandKnown(x: Bank, op: BinaryOp, depth: nat, k: Knowledge, fused: bool)
    requires k.Has(x, 0) && k.Has(C, depth) && HasCOperand(op)
    ensures Ready(COperand(x, op, depth), k) && k.Replace(x, 0, None).Has(C, depth)
    ensures k.Peek(C, depth).Some? ==> !Traps(op, k.Peek(C, depth).value)
    ensures Silent(COperand(x, op, depth), k) <==> k.Peek(x, 0).Some? && k.Peek(C, depth).Some?
    ensures
      if k.Peek(x, 0).Some? && k.Peek(C, depth).Some? then
        Absorbed(COperand(x, op, depth), false, k,
          k.Replace(x, 0, Some(Apply(op, k.Peek(x, 0).value, k.Peek(C, depth).value))))
      else Absorbed(COperand(x, op, depth), fused, k, k.Replace(x, 0, None).Replace(C, depth, None))
  {
    COperandFolds(x, op, depth, k);
    OtherStack(k, x, depth);
    PairKnown(op, k.Peek(x, 0), k.Peek(C, depth));
    PairKnown(op, k.Peek(C, depth), k.Peek(C, depth));
    hide *;
    NotAbsorbed(COperand(x, op, depth), k);
    if k.Peek(x, 0).None? || k.Peek(C, depth).None? {
      AbsorbedUnknown(COperand(x, op, depth), fused, k, k.Replace(C, depth, None));
    }
  }

  lemma OtherStack(k: Knowledge, x: Bank, depth: nat)
    requires k.Has(x, 0) && k.Has(C, depth)
    ensures k.Replace(x, 0, None).Has(C, depth) && k.Replace(C, depth, None).Has(x, 0)
    ensures k.Replace(x, 0, None).Replace(C, depth, None) == k.Replace(C, depth, None).Replace(x, 0, None)
  {
  }

  lemma BinaryKnown(x: Bank, op: BinaryOp, k: Knowledge, fused: bool)
    requires k.Has(x, 0) && k.Has(Opposite(x), 0)
    ensures Ready(Binary(x, op), k) && k.Replace(x, 0, None).Has(Opposite(x), 0)
    ensures k.Replace(x, 0, None).Replace(Opposite(x), 0, None).Has(Opposite(x), 0)
    ensures forall v :: k.Replace(x, 0, v).Has(Opposite(x), 0)
    ensures var v := KnownBoth(op, k.Peek(x, 0), k.Peek(Opposite(x), 0));
      && (Silent(Binary(x, op), k) <==> v.Some?)
      && Absorbed(Binary(x, op), fused, k,
          if v.Some? then k.Replace(x, 0, Some(if fused then Low32(v.value) else v.value)).Pop(Opposite(x))
          else k.Replace(x, 0, None).Replace(Opposite(x), 0, None).Pop(Opposite(x)))
  {
    var y := Opposite(x);
    var v := KnownBoth(op, k.Peek(x, 0), k.Peek(y, 0));
    forall w ensures k.Replace(x, 0, w).Has(y, 0) {
      BinaryPops(k, x, w);
    }
    BinaryPops(k, x, v);
    BinaryPops(k, x, None);
    BinaryFolds(x, op, k);
    hide *;
    NotAbsorbed(Binary(x, op), k);
    if v.None? {
      AbsorbedUnknown(Binary(x, op), fused, k, k.Pop(y));
    } else if fused {
      BinaryPops(k, x, Some(Low32(v.value)));
      AbsorbedKnown(Binary(x, op), k, k.Pop(y), v.value);
    }
  }

  lemma ZeroExtends(v: Cell)
    ensures ApplyUnary(ZX32, v) == Low32(v)
  {
    hide Low32;
  }

  lemma BinaryPops(k: Knowledge, x: Bank, v: Option<Cell>)
    requires k.Has(x, 0) && k.Has(Opposite(x), 0)
    ensures k.Pop(Opposite(x)).Has(x, 0)
    ensures k.Replace(x, 0, v).Has(Opposite(x), 0)
    ensures k.Replace(x, 0, v).Pop(Opposite(x)) == k.Pop(Opposite(x)).Replace(x, 0, v)
    ensures k.Replace(x, 0, v).Replace(Opposite(x), 0, None).Has(Opposite(x), 0)
    ensures k.Replace(x, 0, v).Replace(Opposite(x), 0, None).Pop(Opposite(x)) == k.Replace(x, 0, v).Pop(Opposite(x))
  {
    var y := Opposite(x);
    assert k.At(y)[|k.At(y)| - 1 := None][..|k.At(y)| - 1] == k.At(y)[..|k.At(y)| - 1];
  }

  lemma TransferKnown(i: Instr, k: Knowledge)
    requires IsTransfer(i) && Ready(i, k)
    ensures var r := RouteOf(i);
      && k.Has(r.from, r.depth)
      && Folded(i, k) == (if r.consume then k.Pop(r.from) else k).Push(r.to, k.Peek(r.from, r.depth))
      && (Silent(i, k) <==> k.Peek(r.from, r.depth).Some?)
  {
  }

  /** Where a transfer reads, whether it consumes, and where it pushes. */
  datatype Route = Route(from: Stack, depth: nat, consume: bool, to: Stack)

  predicate IsTransfer(i: Instr) {
    i.Dup? || i.Copy? || i.Move? || i.CPush? || i.CGet?
  }

  function RouteOf(i: Instr): (r: Route)
    requires IsTransfer(i)
    ensures r.consume ==> r.depth == 0
  {
    match i
    case Dup(x) => Route(x, 0, false, x)
    case Copy(x) => Route(x, 0, false, Opposite(x))
    case Move(x) => Route(x, 0, true, Opposite(x))
    case CPush(x) => Route(x, 0, true, C)
    case CGet(x, depth) => Route(C, depth, false, x)
  }

  lemma TransferStep(i: Instr, s: Banks<Cell>)
    requires IsTransfer(i) && Ready(i, s)
    ensures var r := RouteOf(i);
      && s.Has(r.from, r.depth)
      && Step(i, s) == Next((if r.consume then s.Pop(r.from) else s).Push(r.to, s.Peek(r.from, r.depth)))
  {
  }

  lemma OwnedRead(x: Slots, m: Machine, cells: Banks<Cell>, shift: int, s: Stack, i: nat, r: nat)
    requires Denotes(x, m, cells, shift) && OwnedBy(x, r, s, i)
    ensures r < |m.regs| && i < |cells.At(s)| && m.regs[r] == cells.At(s)[i]
  {
    assert SlotOk(x.At(s)[i], s, i, shift, |m.regs|);
  }

  /** True when a following ZX32 can be fused into the immediate form. */
  predicate NarrowsImmediate(op: BinaryOp) {
    Narrows(op) || op == SHL
  }

  function SelectImmediate(op: BinaryOp, r: nat, v: Cell, narrow: bool): Form
    requires narrow ==> NarrowsImmediate(op)
  {
    if op in {SHL, SHR, SAR} && v >= (if narrow then 32 else 64) then
      if op == SAR then ImmediateForm(op, r, 63) else ConstForm(r, 0)
    else if narrow then Immediate32Form(op, r, v)
    else ImmediateForm(op, r, v)
  }

  lemma LargeShiftLeft(x: Cell, v: Cell)
    requires v >= 64
    ensures Apply(SHL, x, v) == 0
  {}

  lemma LargeShiftRight(x: Cell, v: Cell)
    requires v >= 64
    ensures Apply(SHR, x, v) == 0
  {}

  lemma LargeShiftArithmetic(x: Cell, v: Cell)
    requires v >= 64
    ensures Apply(SAR, x, v) == Apply(SAR, x, 63)
  {}

  /** The cell the selected immediate form leaves in its register. */
  function SelectedValue(op: BinaryOp, x: Cell, v: Cell, narrow: bool): Cell
    requires HasImmediate(op) && (narrow ==> NarrowsImmediate(op))
  {
    if op in {SHL, SHR, SAR} && v >= (if narrow then 32 else 64) then
      if op == SAR then Apply(op, x, 63) else 0
    else if narrow then (if op == SHL then ShiftLeftNarrow(x, v) else ApplyNarrow(op, x, v))
    else Apply(op, x, v)
  }

  /** Large shift counts and fused zero-extensions select forms with the right value. */
  lemma SelectedMeaning(op: BinaryOp, x: Cell, v: Cell, narrow: bool)
    requires HasImmediate(op) && (narrow ==> NarrowsImmediate(op))
    ensures SelectedValue(op, x, v, narrow) == if narrow then Low32(Apply(op, x, v)) else Apply(op, x, v)
  {
    hide Apply, ApplyNarrow, Low32, ShiftLeftNarrow;
    if narrow {
      if op == SHL {
        if v >= 32 {
          ShiftFusionLarge(x, v);
        } else {
          ShiftFusion(x, v);
        }
      } else {
        NarrowFusion(op, x, v);
      }
    } else if op == SHL && v >= 64 {
      LargeShiftLeft(x, v);
    } else if op == SHR && v >= 64 {
      LargeShiftRight(x, v);
    } else if op == SAR && v >= 64 {
      LargeShiftArithmetic(x, v);
    }
  }

  lemma SelectedExec(op: BinaryOp, r: nat, v: Cell, narrow: bool, m: Machine)
    requires HasImmediate(op) && (narrow ==> NarrowsImmediate(op)) && r < |m.regs|
    ensures Encodable(SelectImmediate(op, r, v, narrow), |m.regs|)
    ensures m.trap.None? ==>
      Exec(SelectImmediate(op, r, v, narrow), m) == m.SetReg(r, SelectedValue(op, m.regs[r], v, narrow))
  {
    hide Apply, ApplyNarrow, ShiftLeftNarrow;
  }

  lemma ReplaceTwice(s: Banks<Cell>, x: Bank, v: Cell, w: Cell)
    requires s.Has(x, 0)
    ensures s.Replace(x, 0, v).Replace(x, 0, w) == s.Replace(x, 0, w)
  {
    assert s.At(x)[|s.At(x)| - 1 := v][|s.At(x)| - 1 := w] == s.At(x)[|s.At(x)| - 1 := w];
  }

  /** An instruction that replaces the top of `x` by `v`, followed by ZX32 on `x`. */
  lemma FusedReplace(i: Instr, s: Banks<Cell>, x: Bank, v: Cell)
    requires s.Has(x, 0) && Step(i, s) == Next(s.Replace(x, 0, v))
    ensures After(Unary(x, ZX32), Step(i, s)) == Next(s.Replace(x, 0, Low32(v)))
  {
    ReplaceTwice(s, x, v, Low32(v));
  }

  lemma COperandStep(x: Bank, op: BinaryOp, depth: nat, s: Banks<Cell>)
    requires s.Has(x, 0) && s.Has(C, depth) && HasCOperand(op)
    ensures var v := Apply(op, s.Peek(x, 0), s.Peek(C, depth));
      && Step(COperand(x, op, depth), s) == Next(s.Replace(x, 0, v))
      && After(Unary(x, ZX32), Step(COperand(x, op, depth), s)) == Next(s.Replace(x, 0, Low32(v)))
  {
    hide Apply, Low32;
    FusedReplace(COperand(x, op, depth), s, x, Apply(op, s.Peek(x, 0), s.Peek(C, depth)));
  }

  lemma PopReplaceCommute(s: Banks<Cell>, x: Bank, v: Cell)
    requires s.Has(x, 0) && s.Has(Opposite(x), 0)
    ensures s.Replace(x, 0, v).Has(Opposite(x), 0) && s.Pop(Opposite(x)).Has(x, 0)
    ensures s.Replace(x, 0, v).Pop(Opposite(x)) == s.Pop(Opposite(x)).Replace(x, 0, v)
  {
  }

  /** A binary operation as the compiler performs it: compute on `x`, then drop the other operand. */
  lemma BinaryStep(x: Bank, op: BinaryOp, s: Banks<Cell>)
    requires s.Has(x, 0) && s.Has(Opposite(x), 0)
    ensures var o := Step(Binary(x, op), s);
      match Combine(op, s.Peek(x, 0), s.Peek(Opposite(x), 0))
      case None => o == Outcome.Trap(REASON_DIVISION)
      case Some(v) =>
        && o == After(Drop(Opposite(x)), Next(s.Replace(x, 0, v)))
        && After(Unary(x, ZX32), o) == After(Drop(Opposite(x)), Next(s.Replace(x, 0, Low32(v))))
  {
    hide Combine, Low32, Banks.At, Banks.Put, Step;
    PlainBinaryStep(x, op, s);
    match Combine(op, s.Peek(x, 0), s.Peek(Opposite(x), 0))
    case None =>
    case Some(v) =>
      var t := s.Pop(Opposite(x));
      PopReplaceCommute(s, x, v);
      PopReplaceCommute(s, x, Low32(v));
      DropStep(Opposite(x), s.Replace(x, 0, v));
      DropStep(Opposite(x), s.Replace(x, 0, Low32(v)));
      UnaryStep(x, ZX32, t.Replace(x, 0, v));
      ReplaceTwice(t, x, v, Low32(v));
  }

  lemma LoadsPlace(p: Place, r: nat, m: Machine)
    requires r < |m.regs| && m.trap.None? && !p.Register?
    ensures Exec(if p.Constant? then ConstForm(r, p.value) else LoadForm(r, p.at), m) == m.SetReg(r, Read(p, m))
  {
  }

  lemma Untrapped(op: BinaryOp)
    requires HasCOperand(op)
    ensures forall y :: !Traps(op, y)
  {
  }

  lemma Combined(op: BinaryOp, x: Cell, y: Cell)
    requires !Traps(op, y)
    ensures Combine(op, x, y) == Some(Apply(op, x, y))
  {
    hide Apply;
  }

  lemma CheckExec(op: CheckOp, r: nat, m: Machine)
    requires r < |m.regs| && m.trap.None?
    ensures Exec(CheckForm(op, r), m) == if Fails(op, m.regs[r]) then m.(trap := Some(REASON_CONVERSION)) else m
  {
    hide Fails;
  }

  lemma BinaryExec(op: BinaryOp, d: nat, r: nat, m: Machine)
    requires d < |m.regs| && r < |m.regs| && m.trap.None?
    ensures Exec(BinaryForm(op, d, r), m) == m.Finish(d, Combine(op, m.regs[d], m.regs[r]))
  {
    hide Combine;
  }

  lemma Binary32Exec(op: BinaryOp, d: nat, r: nat, m: Machine)
    requires d < |m.regs| && r < |m.regs| && m.trap.None? && Narrows(op)
    ensures Exec(Binary32Form(op, d, r), m) == m.Finish(d, Some(Low32(Apply(op, m.regs[d], m.regs[r]))))
  {
    hide ApplyNarrow, Low32, Apply;
    NarrowFusion(op, m.regs[d], m.regs[r]);
  }

  ghost predicate IsHome(x: Slots, at: Address, shift: int) {
    exists s: Stack, i: nat :: i < |x.At(s)| && at == Canonical(s, i, shift)
  }

  /** Memory outside the homes of the described slots is the same in both machines. */
  ghost predicate OutsideKept(x: Slots, m: Machine, n: Machine, shift: int) {
    forall at: Address | !IsHome(x, at, shift) :: n.Fetch(at) == m.Fetch(at)
  }

  /** The operations an immediate or C-operand instruction can carry. */
  predicate Encoded(i: Instr) {
    && (i.Immediate? ==> HasImmediate(i.op))
    && (i.COperand? ==> HasCOperand(i.op))
  }

  /** Where the frames held on C so far put the current one: cell `origin` is at home `bias`. */
  datatype Frame = Frame(origin: nat, bias: int) {
    function Shift(): int {
      bias - origin as int
    }
  }

  /** A frame of arguments only. */
  function EntryFrame(arguments: nat): Frame {
    Frame(arguments, 0)
  }

  function EntryShift(arguments: nat): int {
    EntryFrame(arguments).Shift()
  }

  /** The frame of a callee whose arguments are pushed on the `base` cells held so far. */
  function CalleeFrame(x: Frame, base: nat, arguments: nat): Frame {
    Frame(base + arguments, x.bias + base - x.origin + arguments)
  }

  function EntryStacks(arguments: nat, m: Machine): Banks<Cell> {
    Banks([], [], seq(arguments, (i: nat) => m.Fetch(Canonical(C, i, EntryShift(arguments)))))
  }

  function EntrySlots(arguments: nat): Slots {
    Banks([], [], seq(arguments, (i: nat) =>
      Value(Home(Canonical(C, i, EntryShift(arguments))), Canonical(C, i, EntryShift(arguments)))))
  }

  /** Argument k of a function is at home -1 - k of C, just below its frame. */
  lemma ArgumentHome(arguments: nat, k: nat)
    requires k < arguments
    ensures EntrySlots(arguments).Has(C, k)
    ensures EntrySlots(arguments).Peek(C, k) == Value(Home(Address(C, -1 - k)), Address(C, -1 - k))
  {
  }

  lemma ArgumentCell(arguments: nat, m: Machine, k: nat)
    requires k < arguments
    ensures EntryStacks(arguments, m).Has(C, k) && EntryStacks(arguments, m).Peek(C, k) == m.Fetch(Address(C, -1 - k))
  {
  }

  /** The homes of a callee's arguments are those just below its frame, and the ones into which the caller's
      frame continues: argument zero is the last of them. No cell's home moves when the callee is entered. */
  lemma CalleeHomes(x: Frame, base: nat, arguments: nat, k: nat, i: nat)
    requires k < arguments
    ensures var y, at := CalleeFrame(x, base, arguments), base + arguments - 1 - k;
      && Canonical(C, at, y.Shift()) == Address(C, y.bias - 1 - k)
      && Canonical(C, at, y.Shift()) == Address(C, Canonical(C, base, x.Shift()).home + (arguments - 1 - k))
      && Canonical(C, i, y.Shift()) == Canonical(C, i, x.Shift())
  {
  }

  /** No two cells share a home, on one stack or on two, in one frame or in two. */
  lemma HomesApart(x: Frame, base: nat, arguments: nat, s: Stack, i: nat, t: Stack, j: nat)
    ensures Canonical(s, i, x.Shift()) == Canonical(t, j, CalleeFrame(x, base, arguments).Shift()) <==> s == t && i == j
  {
  }

  lemma EntryDenotes(arguments: nat, m: Machine)
    ensures Denotes(EntrySlots(arguments), m, EntryStacks(arguments, m), EntryShift(arguments))
  {
    hide EntryShift;
  }

  class Cache {
    const registers: nat
    const shift: int
    var slots: Slots
    var code: seq<Form>
    ghost var start: Machine
    ghost var now: Machine
    ghost var logical: Outcome
    /** What is known of the cells described so far. */
    ghost var known: Knowledge

    ghost predicate Consistent()
      reads this
    {
      && 2 <= registers == |start.regs| == |now.regs|
      && AllEncodable(code, registers)
      && now == Run(code, start)
      && AllOk(slots, shift, registers)
    }

    /** The entry of a block version: the machine holds the stacks as `entry` describes them. */
    constructor Enter(registers: nat, entry: Slots, shift: int, ghost start: Machine, ghost cells: Banks<Cell>)
      requires 2 <= registers == |start.regs| && start.trap.None? && Denotes(entry, start, cells, shift)
      ensures Valid() && fresh(this) && this.registers == registers && this.start == start && code == []
      ensures this.shift == shift && logical == Next(cells) && slots == entry && known == AllKnowns(entry)
    {
      this.registers := registers;
      this.shift := shift;
      this.code := [];
      this.start := start;
      this.now := start;
      this.logical := Next(cells);
      this.slots := entry;
      this.known := AllKnowns(entry);
      new;
      AllTold(entry);
    }

    /** Running the code emitted so far leaves exactly the stacks the bytecode leaves. */
    ghost predicate Valid()
      reads this
    {
      && Consistent() && Tells(slots, known)
      && match logical
         case Next(cells) => now.trap.None? && Denotes(slots, now, cells, shift)
         case Trap(reason) => now.trap == Some(reason)
         case Stuck => false
    }

    method Emit(f: Form)
      requires Consistent() && Encodable(f, registers)
      modifies this`code, this`now
      ensures Consistent()
      ensures code == old(code) + [f] && now == Exec(f, old(now))
    {
      RunAppend(code, f, start);
      code := code + [f];
      now := Exec(f, now);
    }

    method UsesIn(q: seq<Value>, r: nat) returns (n: nat)
      ensures n == CountIn(q, r)
    {
      n := 0;
      for i := 0 to |q|
        invariant n == CountIn(q[..i], r)
      {
        assert q[..i + 1][..i] == q[..i];
        n := n + if q[i].place == Register(r) then 1 else 0;
      }
      assert q[..|q|] == q;
    }

    method RegUses(r: nat) returns (n: nat)
      ensures n == 0 <==> Unused(slots, r)
      ensures forall s: Stack, i | 0 <= i < |slots.At(s)| && slots.At(s)[i].place == Register(r) ::
        n == 1 <==> OwnedBy(slots, r, s, i)
    {
      var a := UsesIn(slots.a, r);
      var b := UsesIn(slots.b, r);
      var c := UsesIn(slots.c, r);
      n := a + b + c;
      CountZero(slots.a, r);
      CountZero(slots.b, r);
      CountZero(slots.c, r);
      assert slots.At(A) == slots.a && slots.At(B) == slots.b && slots.At(C) == slots.c;
      forall t: Stack, i | 0 <= i < |slots.At(t)| && slots.At(t)[i].place == Register(r)
        ensures n == 1 <==> OwnedBy(slots, r, t, i)
      {
        CountOne(slots.At(t), r, i);
      }
    }

    method SpillSlot(s: Stack, i: nat)
      requires Valid() && i < |slots.At(s)| && slots.At(s)[i].place.Register?
      modifies this`slots, this`code, this`now
      ensures Valid() && now.regs == old(now.regs)
      ensures SameShape(old(slots), slots) && OutsideKept(slots, old(now), now, shift)
      ensures var v := old(slots.At(s)[i]);
        slots == old(slots).Put(s, old(slots.At(s))[i := Value(Home(v.dst), v.dst)])
    {
      hide Banks.At, Banks.Put, Run;
      var v := slots.At(s)[i];
      if logical.Next? {
        PublishKeeps(slots, now, logical.stacks, shift, s, i);
      }
      assert SlotOk(v, s, i, shift, registers);
      TellsPut(slots, known, s, i, Value(Home(v.dst), v.dst));
      TellsAt(slots, known, s, i);
      SameAgain(known, s, i);
      slots := slots.Put(s, slots.At(s)[i := Value(Home(v.dst), v.dst)]);
      Emit(StoreForm(v.dst, v.place.reg));
    }

    method SpillStack(s: Stack, r: nat)
      requires Valid() && r < registers
      modifies this`slots, this`code, this`now
      ensures Valid() && now.regs == old(now.regs)
      ensures SameShape(old(slots), slots) && OutsideKept(slots, old(now), now, shift)
      ensures SpilledFrom(old(slots), slots, r)
      ensures forall i | 0 <= i < |slots.At(s)| :: slots.At(s)[i].place != Register(r)
      ensures forall t: Stack | t != s :: slots.At(t) == old(slots.At(t))
    {
      hide Banks.At, Banks.Put, Denotes, Run, AllOk, Exec, Tells;
      for i := 0 to |slots.At(s)|
        invariant SameShape(old(slots), slots) && OutsideKept(slots, old(now), now, shift)
        invariant Valid() && now.regs == old(now.regs)
        invariant SpilledFrom(old(slots), slots, r)
        invariant forall j | 0 <= j < i :: slots.At(s)[j].place != Register(r)
        invariant forall t: Stack | t != s :: slots.At(t) == old(slots.At(t))
      {
        if slots.At(s)[i].place == Register(r) {
          SpillSlot(s, i);
        }
      }
    }

    method SpillReg(r: nat)
      requires Valid() && r < registers
      modifies this`slots, this`code, this`now
      ensures Valid() && now.regs == old(now.regs)
      ensures SameShape(old(slots), slots) && OutsideKept(slots, old(now), now, shift)
      ensures SpilledFrom(old(slots), slots, r) && Unused(slots, r)
    {
      hide Banks.At, Banks.Put, Denotes, Run, AllOk, Exec, Tells;
      SpillStack(A, r);
      SpillStack(B, r);
      SpillStack(C, r);
    }

    /** A register no slot uses, other than the masked one; spills only when none is free. */
    method FreeReg(mask: Option<nat>) returns (r: nat)
      requires Valid()
      modifies this`slots, this`code, this`now
      ensures Valid() && now.regs == old(now.regs)
      ensures SameShape(old(slots), slots) && OutsideKept(slots, old(now), now, shift)
      ensures r < registers && mask != Some(r) && Unused(slots, r)
      ensures SpilledFrom(old(slots), slots, r)
      ensures (exists q | 0 <= q < registers :: mask != Some(q) && Unused(old(slots), q)) ==>
        code == old(code) && slots == old(slots)
    {
      hide Banks.At, Banks.Put, Denotes, Run, AllOk, Exec, Tells, Unused;
      r := 0;
      while r < registers
        invariant slots == old(slots) && Valid() && now == old(now) && code == old(code)
        invariant forall q | 0 <= q < r && q < registers :: mask == Some(q) || !Unused(slots, q)
      {
        if mask != Some(r) {
          var n := RegUses(r);
          if n == 0 {
            return;
          }
        }
        r := r + 1;
      }
      r := 0;
      while r < registers
        invariant r <= 1 && (r == 1 ==> mask == Some(0))
        invariant slots == old(slots) && Valid() && now == old(now)
      {
        if mask != Some(r) {
          SpillReg(r);
          return;
        }
        r := r + 1;
      }
      assert false;
    }

    /** Emit a form that copies slot `i`'s cell into the free register `r`. */
    method LoadInto(s: Stack, i: nat, r: nat, f: Form)
      requires Valid() && i < |slots.At(s)| && r < registers && Unused(slots, r) && Encodable(f, registers)
      requires SlotOk(slots.At(s)[i], s, i, shift, registers)
      requires now.trap.None? ==> Exec(f, now) == now.SetReg(r, Read(slots.At(s)[i].place, now))
      modifies this`slots, this`code, this`now, this`known
      ensures Valid()
      ensures slots == old(slots).Put(s, old(slots.At(s))[i := Value(Register(r), old(slots.At(s)[i].dst))])
      ensures SameShape(old(slots), slots) && OwnedBy(slots, r, s, i)
      ensures i < |old(known).At(s)| && known == Forget(old(known), s, i)
    {
      hide Banks.At, Banks.Put, Run, Tells, Unused, OwnedBy, SameShape, Denotes, AllOk, SlotOk, SpilledFrom;
      var v := slots.At(s)[i];
      DescribedAt(s, i);
      NowOwned(slots, r, s, i, v.dst);
      NowOk(slots, shift, registers, r, s, i);
      if logical.Next? {
        ScratchKeeps(slots, now, logical.stacks, shift, r, Read(v.place, now));
        DescribeKeeps(slots, now.SetReg(r, Read(v.place, now)), logical.stacks, shift, s, i, r);
      }
      Emit(f);
      TellsPut(slots, known, s, i, Value(Register(r), v.dst));
      known := Forget(known, s, i);
      slots := slots.Put(s, slots.At(s)[i := Value(Register(r), v.dst)]);
    }

    lemma SlotAt(s: Stack, i: nat)
      requires Valid() && i < |slots.At(s)|
      ensures SlotOk(slots.At(s)[i], s, i, shift, registers)
    {
      hide Banks.At, Banks.Put, Run, Tells, Denotes, SlotOk;
    }

    /** A register that describes a slot holds its cell. */
    lemma HeldCell(s: Stack, i: nat)
      requires Valid() && i < |slots.At(s)| && slots.At(s)[i].place.Register?
      ensures slots.At(s)[i].place.reg < registers
      ensures logical.Next? ==>
        i < |logical.stacks.At(s)| && now.regs[slots.At(s)[i].place.reg] == logical.stacks.At(s)[i]
    {
      hide Banks.At, Banks.Put, Run, Tells;
      SlotAt(s, i);
    }

    lemma DescribedAt(s: Stack, i: nat)
      requires Valid() && i < |slots.At(s)|
      ensures var p := slots.At(s)[i].place;
        && (p.Register? ==> p.reg < registers == |now.regs|)
        && (logical.Next? ==> i < |logical.stacks.At(s)| && Read(p, now) == logical.stacks.At(s)[i])
    {
      hide Banks.At, Banks.Put, Run, Tells;
      SlotAt(s, i);
    }

    /** A description stands for its cell. */
    lemma DescribedCell(s: Stack, depth: nat)
      requires Valid() && slots.Has(s, depth)
      ensures var p := slots.Peek(s, depth).place;
        && (p.Register? ==> p.reg < registers == |now.regs|)
        && (logical.Next? ==> logical.stacks.Has(s, depth) && Read(p, now) == logical.stacks.Peek(s, depth))
    {
      hide Banks.At, Banks.Put, Run, Tells;
      SlotAt(s, |slots.At(s)| - 1 - depth);
    }

    lemma SlotParts(s: Stack, i: nat)
      requires Valid() && i < |slots.At(s)|
      ensures slots.At(s)[i].place.Register? ==> slots.At(s)[i].place.reg < registers
    {
      hide Banks.At, Banks.Put, Run, Tells, Denotes, AllOk;
      SlotAt(s, i);
    }

    /** Bring a slot into a register. */
    method Materialize(s: Stack, i: nat, mask: Option<nat>) returns (r: nat)
      requires Valid() && i < |slots.At(s)|
      modifies this`slots, this`code, this`now, this`known
      ensures Valid() && r < registers
      ensures SameShape(old(slots), slots)
      ensures i < |slots.At(s)| && slots.At(s)[i].place == Register(r)
      ensures old(slots.At(s)[i].place.Register?) ==> slots == old(slots) && now == old(now)
      ensures !old(slots.At(s)[i].place.Register?) ==> mask != Some(r) && OwnedBy(slots, r, s, i)
      ensures SpilledFrom(old(slots), slots.Put(s, slots.At(s)[i := old(slots.At(s)[i])]), r)
      ensures logical.Next? ==> i < |logical.stacks.At(s)| && now.regs[r] == logical.stacks.At(s)[i]
      ensures i < |old(known).At(s)| && known == Forget(old(known), s, i)
    {
      hide Banks.At, Banks.Put, Run, Tells, Denotes, AllOk, Exec, SpilledFrom, SameShape, Unused, OwnedBy, SlotOk;
      SlotAt(s, i);
      SlotParts(s, i);
      ghost var before := slots;
      var v := slots.At(s)[i];
      TellsAt(slots, known, s, i);
      if v.place.Register? {
        SameAgain(known, s, i);
        HeldCell(s, i);
        AllSame(slots, s, i, v.place.reg);
        return v.place.reg;
      }
      r := FreeReg(mask);
      StillThere(before, slots, r, s, i);
      SlotAt(s, i);
      ghost var between := slots;
      if now.trap.None? {
        LoadsPlace(v.place, r, now);
      }
      LoadInto(s, i, r, if v.place.Constant? then ConstForm(r, v.place.value) else LoadForm(r, v.place.at));
      OwnedPlace(slots, r, s, i);
      HeldCell(s, i);
      PutBack(between, s, i, slots.At(s)[i]);
      ShapeTrans(before, between, slots);
    }

    /** Give slot `i`, which shares register `q`, a register of its own. */
    method Unshare(s: Stack, i: nat, q: nat) returns (r: nat)
      requires Valid() && i < |slots.At(s)| && slots.At(s)[i].place == Register(q)
      modifies this`slots, this`code, this`now, this`known
      ensures Valid() && r < registers && SameShape(old(slots), slots)
      ensures OwnedBy(slots, r, s, i)
      ensures i < |old(known).At(s)| && known == Forget(old(known), s, i)
    {
      hide Banks.At, Banks.Put, Run, Denotes;
      assert SlotOk(slots.At(s)[i], s, i, shift, registers);
      r := FreeReg(Some(q));
      assert slots.At(s)[i] == old(slots.At(s)[i]);
      LoadInto(s, i, r, MoveForm(r, q));
    }

    /** Bring a slot into a register no other slot shares. */
    method Writable(s: Stack, i: nat) returns (r: nat)
      requires Valid() && i < |slots.At(s)|
      modifies this`slots, this`code, this`now, this`known
      ensures Valid() && r < registers && SameShape(old(slots), slots)
      ensures OwnedBy(slots, r, s, i)
      ensures i < |old(known).At(s)| && known == Forget(old(known), s, i)
    {
      hide Banks.At, Banks.Put, Run, Denotes, AllOk, Exec, Tells;
      ghost var before := known;
      r := Materialize(s, i, None);
      ForgetTwice(before, s, i);
      var n := RegUses(r);
      if n != 1 {
        r := Unshare(s, i, r);
      }
    }

    /** Read a slot for a transfer: a home is loaded first, since a later store may change it. */
    method Capture(s: Stack, depth: nat) returns (p: Place)
      requires Valid() && slots.Has(s, depth)
      modifies this`slots, this`code, this`now
      ensures Valid() && SameShape(old(slots), slots)
      ensures !p.Home? && (p.Register? ==> p.reg < registers)
      ensures logical.Next? ==> logical.stacks.Has(s, depth) && Read(p, now) == logical.stacks.Peek(s, depth)
      ensures known.Has(s, depth) && PlaceKnown(p) == known.Peek(s, depth)
      ensures !old(slots).Peek(s, depth).place.Home? ==> code == old(code)
    {
      hide Banks.At, Banks.Put, Run, Tells, Denotes, AllOk, SpilledFrom, Unused;
      ghost var before := slots;
      var i := |slots.At(s)| - 1 - depth;
      var v := slots.At(s)[i];
      TellsPeek(slots, known, s, depth);
      DescribedCell(s, depth);
      if !v.place.Home? {
        return v.place;
      }
      var r := FreeReg(None);
      StillThere(before, slots, r, s, i);
      DescribedCell(s, depth);
      if logical.Next? {
        ScratchKeeps(slots, now, logical.stacks, shift, r, Read(v.place, now));
      }
      Emit(LoadForm(r, v.place.at));
      p := Register(r);
    }

    /** Store a slot at its own home and describe it by that home. */
    method Save(s: Stack, i: nat)
      requires Valid() && i < |slots.At(s)|
      modifies this`slots, this`code, this`now, this`known
      ensures Valid() && SameShape(old(slots), slots)
      ensures i < |slots.At(s)| && slots.At(s)[i].place.Home?
      ensures forall t: Stack, j | 0 <= j < |slots.At(t)| ::
        slots.At(t)[j] == old(slots).At(t)[j] || slots.At(t)[j].place.Home?
    {
      hide Banks.At, Banks.Put, Run, Denotes, AllOk, Exec, Tells;
      if !slots.At(s)[i].place.Home? {
        var r := Materialize(s, i, None);
        ghost var z := slots.Put(s, slots.At(s)[i := old(slots.At(s)[i])]);
        assert forall u: Stack, k | 0 <= k < |slots.At(u)| && (u != s || k != i) :: slots.At(u)[k] == z.At(u)[k];
        SpillSlot(s, i);
      }
    }

    /** Cells the current descriptions stand for; after a trap any such cells will do. */
    lemma Current() returns (cells: Banks<Cell>)
      requires Valid()
      ensures Denotes(slots, now, cells, shift)
      ensures logical.Next? ==> cells == logical.stacks
    {
      if logical.Next? {
        cells := logical.stacks;
      } else {
        cells := SomeCells(slots, now, shift);
      }
    }

    method DoPush(x: Bank, v: Cell)
      requires Valid()
      modifies this`slots, this`logical, this`known
      ensures Valid() && logical == After(Push(x, v), old(logical)) && known == old(known).Push(x, Some(v))
    {
      hide Banks.At, Banks.Put, Run;
      ghost var cells := Current();
      PushKeeps(slots, now, cells, shift, x, Constant(v));
      TellsPush(slots, known, x, Value(Constant(v), Canonical(x, |slots.At(x)|, shift)));
      known := known.Push(x, Some(v));
      slots := slots.Push(x, Value(Constant(v), Canonical(x, |slots.At(x)|, shift)));
      logical := After(Push(x, v), logical);
    }

    method DoPop(s: Stack)
      requires Valid() && slots.Has(s, 0)
      modifies this`slots, this`logical, this`known
      ensures Valid() && slots == old(slots).Pop(s)
      ensures logical == After(if s == C then CPop else Drop(s), old(logical))
      ensures old(known).Has(s, 0) && known == old(known).Pop(s)
    {
      hide Banks.At, Banks.Put, Run;
      ghost var cells := Current();
      PopKeeps(slots, now, cells, shift, s);
      TellsPop(slots, known, s);
      known := known.Pop(s);
      slots := slots.Pop(s);
      logical := After(if s == C then CPop else Drop(s), logical);
    }

    method Carry(r: Route)
      requires Valid() && slots.Has(r.from, r.depth) && (r.consume ==> r.depth == 0)
      modifies this`slots, this`code, this`now, this`logical, this`known
      ensures Valid()
      ensures old(logical).Next? ==> old(logical).stacks.Has(r.from, r.depth)
      ensures logical ==
        match old(logical)
        case Next(cells) =>
          Next((if r.consume then cells.Pop(r.from) else cells).Push(r.to, cells.Peek(r.from, r.depth)))
        case o => o
      ensures var k := old(known);
        && k.Has(r.from, r.depth)
        && known == (if r.consume then k.Pop(r.from) else k).Push(r.to, k.Peek(r.from, r.depth))
        && (k.Peek(r.from, r.depth).Some? ==> code == old(code))
    {
      hide Banks.At, Banks.Put, Run, AllOk, Exec, Tells, Denotes, SameShape;
      TellsPeek(slots, known, r.from, r.depth);
      var p := Capture(r.from, r.depth);
      ghost var cells := Current();
      ghost var v := known.Peek(r.from, r.depth);
      TellsHas(slots, known, r.from, r.depth);
      if r.consume {
        TellsPop(slots, known, r.from);
        known := known.Pop(r.from);
        PopKeeps(slots, now, cells, shift, r.from);
        cells := cells.Pop(r.from);
        slots := slots.Pop(r.from);
      }
      PushKeeps(slots, now, cells, shift, r.to, p);
      DenotesOk(slots.Push(r.to, Value(p, Canonical(r.to, |slots.At(r.to)|, shift))), now,
        cells.Push(r.to, Read(p, now)), shift);
      TellsPush(slots, known, r.to, Value(p, Canonical(r.to, |slots.At(r.to)|, shift)));
      known := known.Push(r.to, v);
      slots := slots.Push(r.to, Value(p, Canonical(r.to, |slots.At(r.to)|, shift)));
      if logical.Next? {
        logical := Next(cells.Push(r.to, Read(p, now)));
      }
    }

    method DoTransfer(i: Instr)
      requires Valid() && IsTransfer(i) && Ready(i, slots)
      modifies this`slots, this`code, this`now, this`logical, this`known
      ensures Valid() && logical == After(i, old(logical))
      ensures Ready(i, old(known)) && known == Folded(i, old(known)) && (Silent(i, old(known)) ==> code == old(code))
    {
      hide Banks.At, Banks.Put, Run, AllOk, Exec, Tells, Folded, Silent, Banks.Push, Banks.Pop, Banks.Peek;
      TellsReady(i, slots, known);
      TransferKnown(i, known);
      if logical.Next? {
        ReadyAgrees(i, slots, now, logical.stacks, shift);
        TransferStep(i, logical.stacks);
      }
      Carry(RouteOf(i));
    }

    /** Describe a slot by a captured place. */
    method Describe(s: Stack, depth: nat, p: Place)
      requires Valid() && slots.Has(s, depth) && !p.Home? && (p.Register? ==> p.reg < registers)
      modifies this`slots, this`logical, this`known
      ensures Valid() && SameShape(old(slots), slots)
      ensures old(logical).Next? ==> old(logical).stacks.Has(s, depth)
      ensures logical == match old(logical) case Next(cells) => Next(cells.Replace(s, depth, Read(p, now))) case o => o
      ensures old(known).Has(s, depth) && known == old(known).Replace(s, depth, PlaceKnown(p))
    {
      hide Banks.At, Banks.Put, Run, Exec;
      ghost var cells := Current();
      ReplaceKeeps(slots, now, cells, shift, s, depth, p);
      TellsReplace(slots, known, s, depth, Value(p, slots.Peek(s, depth).dst));
      known := known.Replace(s, depth, PlaceKnown(p));
      slots := slots.Replace(s, depth, Value(p, slots.Peek(s, depth).dst));
      if logical.Next? {
        logical := Next(cells.Replace(s, depth, Read(p, now)));
      }
    }

    method DoCSet(x: Bank, depth: nat)
      requires Valid() && Ready(CSet(x, depth), slots)
      modifies this`slots, this`code, this`now, this`logical, this`known
      ensures Valid() && logical == After(CSet(x, depth), old(logical))
      ensures Ready(CSet(x, depth), old(known)) && known == Folded(CSet(x, depth), old(known))
      ensures Silent(CSet(x, depth), old(known)) ==> code == old(code)
    {
      hide Banks.At, Banks.Put, Run, AllOk, Exec, Denotes, Tells;
      TellsReady(CSet(x, depth), slots, known);
      TellsPeek(slots, known, x, 0);
      var p := Capture(x, 0);
      DoPop(x);
      Describe(C, depth, p);
    }

    /** Run a computing form on the register owned by the top of `x`. */
    method Operate(x: Bank, r: nat, f: Form, ghost v: Option<Cell>)
      requires Valid() && slots.Has(x, 0) && OwnedBy(slots, r, x, |slots.At(x)| - 1) && r < registers
      requires Encodable(f, registers) && (now.trap.None? ==> Exec(f, now) == now.Finish(r, v))
      modifies this`code, this`now, this`logical
      ensures Valid()
      ensures old(logical).Next? ==> old(logical).stacks.Has(x, 0)
      ensures logical ==
        match old(logical)
        case Next(cells) =>
          (match v case None => Outcome.Trap(REASON_DIVISION) case Some(c) => Next(cells.Replace(x, 0, c)))
        case o => o
    {
      hide Banks.At, Banks.Put, Run, Tells;
      ghost var cells := Current();
      if v.Some? {
        ComputeKeeps(slots, now, cells, shift, x, |slots.At(x)| - 1, r, v.value);
      }
      Emit(f);
      if logical.Next? {
        logical := match v case None => Outcome.Trap(REASON_DIVISION) case Some(c) => Next(cells.Replace(x, 0, c));
      }
    }

    /** Bring the top of `x` into a register of its own. */
    method OwnTop(x: Bank) returns (r: nat)
      requires Valid() && slots.Has(x, 0)
      modifies this`slots, this`code, this`now, this`known
      ensures Valid() && r < registers && SameShape(old(slots), slots)
      ensures slots.Has(x, 0) && OwnedBy(slots, r, x, |slots.At(x)| - 1)
      ensures logical.Next? ==> logical.stacks.Has(x, 0) && now.regs[r] == logical.stacks.Peek(x, 0)
      ensures old(known).Has(x, 0) && known == old(known).Replace(x, 0, None)
    {
      hide Banks.At, Banks.Put, Run, AllOk, Exec, Tells;
      TellsPeek(slots, known, x, 0);
      TellsLength(slots, known, x);
      r := Writable(x, |slots.At(x)| - 1);
      ghost var cells := Current();
      OwnedRead(slots, now, cells, shift, x, |slots.At(x)| - 1, r);
    }

    /** A slot described by a constant holds that constant. */
    lemma KnownConstant(s: Stack, depth: nat)
      requires Valid() && slots.Has(s, depth) && logical.Next?
      ensures logical.stacks.Has(s, depth)
      ensures var p := slots.Peek(s, depth).place; p.Constant? ==> logical.stacks.Peek(s, depth) == p.value
    {
      hide Banks.At, Banks.Put, Run, Exec;
    }

    method DoUnary(x: Bank, op: UnaryOp)
      requires Valid() && slots.Has(x, 0)
      modifies this`slots, this`code, this`now, this`logical, this`known
      ensures Valid() && logical == After(Unary(x, op), old(logical))
      ensures Ready(Unary(x, op), old(known)) && known == Folded(Unary(x, op), old(known))
      ensures Silent(Unary(x, op), old(known)) ==> code == old(code)
    {
      hide Banks.At, Banks.Put, Run, AllOk, ApplyUnary, Step, Denotes, SameShape, Tells, Folded, Silent;
      var v := slots.Peek(x, 0);
      TellsPeek(slots, known, x, 0);
      UnaryKnown(x, op, known);
      if logical.Next? {
        KnownConstant(x, 0);
        UnaryStep(x, op, logical.stacks);
      }
      if v.place.Constant? {
        Describe(x, 0, Constant(ApplyUnary(op, v.place.value)));
      } else {
        var r := OwnTop(x);
        Operate(x, r, UnaryForm(op, r), Some(ApplyUnary(op, now.regs[r])));
      }
    }

    method DoImmediate(x: Bank, op: BinaryOp, v: Cell, followed: bool) returns (fused: bool)
      requires Valid() && slots.Has(x, 0) && HasImmediate(op)
      modifies this`slots, this`code, this`now, this`logical, this`known
      ensures Valid()
      ensures var o := After(Immediate(x, op, v), old(logical));
        logical == if fused then After(Unary(x, ZX32), o) else o
      ensures fused ==> followed
      ensures Absorbed(Immediate(x, op, v), fused, old(known), known)
      ensures Ready(Immediate(x, op, v), old(known)) && (Silent(Immediate(x, op, v), old(known)) ==> code == old(code))
    {
      hide Banks.At, Banks.Put, Run, AllOk, Apply, Exec, Low32, SelectImmediate, Step, SelectedValue, Denotes;
      hide SameShape, Tells, Folded, Silent, Absorbed, KnownBoth;
      var t := slots.Peek(x, 0);
      TellsPeek(slots, known, x, 0);
      ImmediateKnown(x, op, v, known, followed && NarrowsImmediate(op));
      if logical.Next? {
        KnownConstant(x, 0);
        ImmediateStep(x, op, v, logical.stacks);
        FusedReplace(Immediate(x, op, v), logical.stacks, x, Apply(op, logical.stacks.Peek(x, 0), v));
      }
      fused := false;
      if t.place.Constant? {
        Describe(x, 0, Constant(Apply(op, t.place.value, v)));
      } else {
        fused := followed && NarrowsImmediate(op);
        var r := OwnTop(x);
        SelectedExec(op, r, v, fused, now);
        SelectedMeaning(op, now.regs[r], v, fused);
        Operate(x, r, SelectImmediate(op, r, v, fused), Some(SelectedValue(op, now.regs[r], v, fused)));
      }
    }

    lemma OwnedCell(s: Stack, i: nat, r: nat)
      requires Valid() && OwnedBy(slots, r, s, i) && logical.Next?
      ensures r < registers && i < |logical.stacks.At(s)| && now.regs[r] == logical.stacks.At(s)[i]
    {
      hide Banks.At, Banks.Put, Run, AllOk, Exec;
      OwnedRead(slots, now, logical.stacks, shift, s, i, r);
    }

    /** The logical stacks are as deep as the described ones. */
    lemma Depths()
      requires Valid() && logical.Next?
      ensures forall s: Stack :: |logical.stacks.At(s)| == |slots.At(s)|
    {
      hide Banks.At, Banks.Put, Run, AllOk, Exec;
    }

    /** Own the top of `x` and bring another slot into a register beside it. */
    method OwnPair(x: Bank, s: Stack, depth: nat) returns (d: nat, r: nat)
      requires Valid() && slots.Has(x, 0) && slots.Has(s, depth) && s != x
      modifies this`slots, this`code, this`now, this`known
      ensures Valid() && d < registers && r < registers && SameShape(old(slots), slots)
      ensures slots.Has(x, 0) && OwnedBy(slots, d, x, |slots.At(x)| - 1)
      ensures logical.Next? ==>
        && logical.stacks.Has(x, 0) && now.regs[d] == logical.stacks.Peek(x, 0)
        && logical.stacks.Has(s, depth) && now.regs[r] == logical.stacks.Peek(s, depth)
      ensures old(known).Has(x, 0) && old(known).Replace(x, 0, None).Has(s, depth)
      ensures known == old(known).Replace(x, 0, None).Replace(s, depth, None)
    {
      hide Banks.At, Banks.Put, Run, AllOk, Exec, Denotes, SpilledFrom, Tells;
      TellsLength(slots, known, x);
      TellsLength(slots, known, s);
      d := Writable(x, |slots.At(x)| - 1);
      var i, j := |slots.At(x)| - 1, |slots.At(s)| - 1 - depth;
      ghost var before := slots;
      assert slots.At(s)[j].place != Register(d);
      r := Materialize(s, j, Some(d));
      OwnedStays(before, slots, x, i, d, s, j, r);
      if logical.Next? {
        Depths();
        OwnedCell(x, i, d);
      }
    }

    /** Emit a two-register operation of the top of `x` with another slot, which stays where it is. */
    method EmitPair(x: Bank, op: BinaryOp, s: Stack, depth: nat, narrow: bool)
      requires Valid() && slots.Has(x, 0) && slots.Has(s, depth) && s != x && (narrow ==> Narrows(op))
      modifies this`slots, this`code, this`now, this`logical, this`known
      ensures Valid() && SameShape(old(slots), slots)
      ensures old(known).Has(x, 0) && old(known).Replace(x, 0, None).Has(s, depth)
      ensures known == old(known).Replace(x, 0, None).Replace(s, depth, None)
      ensures old(logical).Next? ==> old(logical).stacks.Has(x, 0) && old(logical).stacks.Has(s, depth)
      ensures logical ==
        match old(logical)
        case Next(cells) =>
          (match Combine(op, cells.Peek(x, 0), cells.Peek(s, depth))
           case None => Outcome.Trap(REASON_DIVISION)
           case Some(v) => Next(cells.Replace(x, 0, if narrow then Low32(v) else v)))
        case o => o
    {
      hide Banks.At, Banks.Put, Run, AllOk, Low32, Denotes, Exec, SpilledFrom, Apply, Tells;
      if logical.Next? {
        Depths();
      }
      var d, r := OwnPair(x, s, depth);
      if narrow {
        if now.trap.None? {
          Binary32Exec(op, d, r, now);
        }
        Operate(x, d, Binary32Form(op, d, r), Some(Low32(Apply(op, now.regs[d], now.regs[r]))));
      } else {
        if now.trap.None? {
          BinaryExec(op, d, r, now);
        }
        Operate(x, d, BinaryForm(op, d, r), Combine(op, now.regs[d], now.regs[r]));
      }
    }

    method DoCOperand(x: Bank, op: BinaryOp, depth: nat, followed: bool) returns (fused: bool)
      requires Valid() && Ready(COperand(x, op, depth), slots) && HasCOperand(op)
      modifies this`slots, this`code, this`now, this`logical, this`known
      ensures Valid()
      ensures var o := After(COperand(x, op, depth), old(logical));
        logical == if fused then After(Unary(x, ZX32), o) else o
      ensures fused ==> followed
      ensures Absorbed(COperand(x, op, depth), fused, old(known), known)
      ensures Silent(COperand(x, op, depth), old(known)) ==> code == old(code)
    {
      hide Banks.At, Banks.Put, Run, AllOk, Apply, Low32, Step, Denotes, Exec, Tells;
      hide Folded, Silent, Absorbed, KnownBoth, SameShape, Traps;
      var t, u := slots.Peek(x, 0), slots.Peek(C, depth);
      TellsPeek(slots, known, x, 0);
      TellsPeek(slots, known, C, depth);
      COperandKnown(x, op, depth, known, followed);
      Untrapped(op);
      if logical.Next? {
        KnownConstant(x, 0);
        KnownConstant(C, depth);
        COperandStep(x, op, depth, logical.stacks);
      }
      fused := false;
      if t.place.Constant? && u.place.Constant? {
        Describe(x, 0, Constant(Apply(op, t.place.value, u.place.value)));
      } else {
        fused := followed;
        EmitPair(x, op, C, depth, fused);
      }
    }

    method DoBinary(x: Bank, op: BinaryOp, followed: bool) returns (fused: bool)
      requires Valid() && Ready(Binary(x, op), slots)
      modifies this`slots, this`code, this`now, this`logical, this`known
      ensures Valid()
      ensures var o := After(Binary(x, op), old(logical));
        logical == if fused then After(Unary(x, ZX32), o) else o
      ensures fused ==> followed
      ensures Absorbed(Binary(x, op), fused, old(known), known)
      ensures Silent(Binary(x, op), old(known)) ==> code == old(code)
    {
      hide Banks.At, Banks.Put, Run, AllOk, Apply, Low32, Step, Denotes, Exec, Tells;
      hide Folded, Silent, Absorbed, Banks.Replace, Banks.Pop, Banks.Peek, Combine, Traps;
      var y := Opposite(x);
      var t, u := slots.Peek(x, 0), slots.Peek(y, 0);
      TellsPeek(slots, known, x, 0);
      TellsPeek(slots, known, y, 0);
      BinaryKnown(x, op, known, followed && Narrows(op));
      if logical.Next? {
        KnownConstant(x, 0);
        KnownConstant(y, 0);
        BinaryStep(x, op, logical.stacks);
      }
      fused := followed && Narrows(op);
      if t.place.Constant? && u.place.Constant? && !Traps(op, u.place.value) {
        var w := Apply(op, t.place.value, u.place.value);
        Combined(op, t.place.value, u.place.value);
        Describe(x, 0, Constant(if fused then Low32(w) else w));
      } else {
        EmitPair(x, op, y, 0, fused);
      }
      DoPop(y);
    }

    /** A range check; `stopped` when it is known to fail and the block ends here. */
    method DoCheck(x: Bank, op: CheckOp) returns (stopped: bool)
      requires Valid() && slots.Has(x, 0)
      modifies this`slots, this`code, this`now, this`logical, this`known
      ensures Valid() && logical == After(Check(x, op), old(logical))
      ensures stopped ==> !logical.Next?
      ensures Ready(Check(x, op), old(known)) && known == Folded(Check(x, op), old(known))
      ensures Silent(Check(x, op), old(known)) ==> code == old(code)
    {
      hide Banks.At, Banks.Put, Run, AllOk, Fails, Denotes, SpilledFrom, Step, Exec, Tells;
      var t := slots.Peek(x, 0);
      TellsPeek(slots, known, x, 0);
      TellsLength(slots, known, x);
      CheckFolds(x, op, known);
      stopped := false;
      if logical.Next? {
        KnownConstant(x, 0);
        Depths();
        CheckStep(x, op, logical.stacks);
      }
      if t.place.Constant? {
        if Fails(op, t.place.value) {
          stopped := true;
          DoAbort(REASON_CONVERSION);
        }
      } else {
        SameAgain(known, x, |known.At(x)| - 1);
        var r := Materialize(x, |slots.At(x)| - 1, None);
        if now.trap.None? {
          CheckExec(op, r, now);
        }
        EmitGuard(CheckForm(op, r), now.trap.None? && Fails(op, now.regs[r]), REASON_CONVERSION);
      }
    }

    /** Emit a form that traps or does nothing. */
    method EmitGuard(f: Form, ghost traps: bool, ghost reason: nat)
      requires Valid() && Encodable(f, registers)
      requires now.trap.None? ==> Exec(f, now) == if traps then now.(trap := Some(reason)) else now
      modifies this`code, this`now, this`logical
      ensures Valid()
      ensures logical == if old(logical).Next? && traps then Outcome.Trap(reason) else old(logical)
    {
      hide Banks.At, Banks.Put, Run;
      Emit(f);
      if logical.Next? && traps {
        logical := Outcome.Trap(reason);
      }
    }

    method DoAbort(reason: nat)
      requires Valid()
      modifies this`code, this`now, this`logical
      ensures Valid() && logical == if old(logical).Next? then Outcome.Trap(reason) else old(logical)
    {
      EmitGuard(AbortForm(reason), true, reason);
    }

    /** Bring a value already popped from its stack into a register, sparing the masked one. */
    method MaterializePopped(p: Place, mask: Option<nat>) returns (r: nat)
      requires Valid() && (p.Register? ==> p.reg < registers)
      requires p.Home? ==> !IsHome(slots, p.at, shift)
      modifies this`slots, this`code, this`now
      ensures Valid() && SameShape(old(slots), slots) && OutsideKept(slots, old(now), now, shift)
      ensures r < registers && (p.Register? ==> r == p.reg)
      ensures logical.Next? ==> now.regs[r] == Read(p, old(now))
      ensures forall q | 0 <= q < registers && (mask == Some(q) || p.Register?) :: now.regs[q] == old(now.regs[q])
      ensures !p.Register? ==> mask != Some(r)
    {
      hide Banks.At, Banks.Put, Run, Tells;
      if p.Register? {
        return p.reg;
      }
      r := FreeReg(mask);
      ghost var v := Read(p, now);
      if logical.Next? {
        ScratchKeeps(slots, now, logical.stacks, shift, r, v);
      }
      Emit(if p.Constant? then ConstForm(r, p.value) else LoadForm(r, p.at));
    }

    /** Pop an operand whose cell is still needed; its home, if any, now belongs to no slot. */
    method PopOperand(x: Bank) returns (p: Place)
      requires Valid() && slots.Has(x, 0)
      modifies this`slots, this`logical, this`known
      ensures Valid() && slots == old(slots).Pop(x) && (p.Register? ==> p.reg < registers)
      ensures p.Home? ==> !IsHome(slots, p.at, shift)
      ensures old(logical).Next? ==>
        && old(logical).stacks.Has(x, 0)
        && logical == Next(old(logical).stacks.Pop(x))
        && Read(p, now) == old(logical).stacks.Peek(x, 0)
      ensures !old(logical).Next? ==> logical == old(logical)
    {
      hide Banks.At, Banks.Put, Run, Exec, Step;
      p := slots.Peek(x, 0).place;
      assert SlotOk(slots.Peek(x, 0), x, |slots.At(x)| - 1, shift, registers);
      if logical.Next? {
        DropStep(x, logical.stacks);
      }
      DoPop(x);
    }

    lemma HomesShrink(x: Slots, y: Bank, at: Address)
      requires x.Has(y, 0) && !IsHome(x, at, shift)
      ensures !IsHome(x.Pop(y), at, shift)
    {
      hide Banks.At, Banks.Put;
      assert forall s: Stack :: |x.Pop(y).At(s)| <= |x.At(s)|;
    }

    /** A two-operand branch: both operands reach registers unharmed and are compared there. */
    method DoBranch(x: Bank, relation: Relation) returns (l: nat, r: nat)
      requires Valid() && slots.Has(x, 0) && slots.Has(Opposite(x), 0)
      modifies this`slots, this`code, this`now, this`logical, this`known
      ensures Valid() && l < registers && r < registers
      ensures old(logical).Next? ==>
        && old(logical).stacks.Has(x, 0) && old(logical).stacks.Has(Opposite(x), 0)
        && logical == Next(old(logical).stacks.Pop(x).Pop(Opposite(x)))
        && (Related(relation, now.regs[l], now.regs[r]) <==>
            Related(relation, old(logical).stacks.Peek(x, 0), old(logical).stacks.Peek(Opposite(x), 0)))
    {
      hide Banks.At, Banks.Put, Run, Denotes, AllOk, Exec, Related, Step, IsHome, OutsideKept;
      var y := Opposite(x);
      var left := PopOperand(x);
      if left.Home? {
        HomesShrink(slots, y, left.at);
      }
      var right := PopOperand(y);
      l, r := LoadPair(left, right);
    }

    method LoadPair(left: Place, right: Place) returns (l: nat, r: nat)
      requires Valid() && (left.Register? ==> left.reg < registers) && (right.Register? ==> right.reg < registers)
      requires left.Home? ==> !IsHome(slots, left.at, shift)
      requires right.Home? ==> !IsHome(slots, right.at, shift)
      modifies this`slots, this`code, this`now
      ensures Valid() && l < registers && r < registers
      ensures logical.Next? ==> now.regs[l] == Read(left, old(now)) && now.regs[r] == Read(right, old(now))
    {
      hide Banks.At, Banks.Put, Run, Denotes, AllOk, Exec, IsHome;
      l := MaterializePopped(left, if right.Register? then Some(right.reg) else None);
      OutsideHomes(old(slots), slots);
      r := MaterializePopped(right, Some(l));
    }

    lemma OutsideHomes(x: Slots, y: Slots)
      requires SameShape(x, y)
      ensures forall at: Address :: IsHome(x, at, shift) <==> IsHome(y, at, shift)
    {
    }

    /** Save one stack; constants are left alone unless `all`. */
    method FlushStack(s: Stack, all: bool)
      requires Valid()
      modifies this`slots, this`code, this`now, this`known
      ensures Valid() && SameShape(old(slots), slots)
      ensures forall i | 0 <= i < |slots.At(s)| ::
        slots.At(s)[i].place.Home? || (!all && slots.At(s)[i].place.Constant?)
      ensures forall t: Stack, j | 0 <= j < |slots.At(t)| ::
        slots.At(t)[j] == old(slots).At(t)[j] || slots.At(t)[j].place.Home?
    {
      hide Banks.At, Banks.Put, Run, AllOk, Denotes, Exec;
      for i := 0 to |slots.At(s)|
        invariant Valid() && SameShape(old(slots), slots)
        invariant forall j | 0 <= j < i :: slots.At(s)[j].place.Home? || (!all && slots.At(s)[j].place.Constant?)
        invariant forall t: Stack, j | 0 <= j < |slots.At(t)| ::
          slots.At(t)[j] == old(slots).At(t)[j] || slots.At(t)[j].place.Home?
      {
        if all || !slots.At(s)[i].place.Constant? {
          Save(s, i);
        }
      }
    }

    /** Move every register-held slot to its home. */
    method Flush()
      requires Valid()
      modifies this`slots, this`code, this`now, this`known
      ensures Valid() && SameShape(old(slots), slots)
      ensures forall s: Stack, i | 0 <= i < |slots.At(s)| :: !slots.At(s)[i].place.Register?
    {
      hide Banks.At, Banks.Put, Run, AllOk, Denotes, Exec;
      FlushStack(C, false);
      FlushStack(B, false);
      FlushStack(A, false);
      forall s: Stack, i | 0 <= i < |slots.At(s)| ensures !slots.At(s)[i].place.Register? {
        match s case A => case B => case C =>
      }
    }

    /** Publish every slot, constants included: memory alone now holds the logical stacks. */
    method ConformGeneric()
      requires Valid()
      modifies this`slots, this`code, this`now, this`known
      ensures Valid() && SameShape(old(slots), slots)
      ensures forall s: Stack, i | 0 <= i < |slots.At(s)| :: slots.At(s)[i].place.Home?
      ensures logical.Next? ==> forall s: Stack, i | 0 <= i < |logical.stacks.At(s)| ::
        now.Fetch(Canonical(s, i, shift)) == logical.stacks.At(s)[i]
    {
      hide Banks.At, Banks.Put, Run, Exec;
      FlushStack(C, true);
      FlushStack(B, true);
      FlushStack(A, true);
    }

    /** Forget constants at a backward edge: each becomes a register or, under pressure, a home. */
    method Weaken()
      requires Valid()
      modifies this`slots, this`code, this`now, this`known
      ensures Valid() && SameShape(old(slots), slots)
      ensures forall s: Stack, i | 0 <= i < |slots.At(s)| :: !slots.At(s)[i].place.Constant?
    {
      hide Banks.At, Banks.Put, Run, AllOk, Denotes, Exec;
      WeakenStack(A);
      WeakenStack(B);
      WeakenStack(C);
      forall s: Stack, i | 0 <= i < |slots.At(s)| ensures !slots.At(s)[i].place.Constant? {
        match s case A => case B => case C =>
      }
    }

    method WeakenStack(s: Stack)
      requires Valid()
      modifies this`slots, this`code, this`now, this`known
      ensures Valid() && Weaker(old(slots), slots)
      ensures forall i | 0 <= i < |slots.At(s)| :: !slots.At(s)[i].place.Constant?
    {
      hide Banks.At, Banks.Put, Run, AllOk, Denotes, Exec, SpilledFrom, OwnedBy;
      for i := 0 to |slots.At(s)|
        invariant Valid() && Weaker(old(slots), slots)
        invariant forall j | 0 <= j < i :: !slots.At(s)[j].place.Constant?
      {
        if slots.At(s)[i].place.Constant? {
          ghost var before := slots;
          var r := Materialize(s, i, None);
          MaterializedWeaker(before, slots, s, i, r);
        }
      }
    }

    lemma AtHome()
      requires Valid() && forall s: Stack, i | 0 <= i < |slots.At(s)| :: slots.At(s)[i].place.Home?
      ensures forall s: Stack, i | 0 <= i < |slots.At(s)| :: slots.At(s)[i].place == Home(Canonical(s, i, shift))
    {
      hide Banks.At, Denotes, Run;
      forall s: Stack, i | 0 <= i < |slots.At(s)| ensures slots.At(s)[i].place == Home(Canonical(s, i, shift)) {
        assert SlotOk(slots.At(s)[i], s, i, shift, registers);
      }
    }

    lemma ReadyMatches(block: seq<Instr>, n: nat)
      requires Valid()
      ensures logical.Next? && n < |block| ==> (Ready(block[n], logical.stacks) <==> Ready(block[n], slots))
    {
      if logical.Next? && n < |block| {
        ReadyAgrees(block[n], slots, now, logical.stacks, shift);
      }
    }

    /** Compile one instruction; `fused` when the ZX32 that follows it was absorbed. */
    method DoInstr(i: Instr, followed: bool) returns (fused: bool, stopped: bool)
      requires Valid() && Ready(i, slots) && Encoded(i)
      modifies this`slots, this`code, this`now, this`logical, this`known
      ensures Valid()
      ensures fused ==> followed && (i.Binary? || i.Immediate? || i.COperand?)
      ensures var o := After(i, old(logical)); logical == if fused then After(Unary(i.bank, ZX32), o) else o
      ensures stopped ==> !logical.Next?
      ensures Absorbed(i, fused, old(known), known)
      ensures Ready(i, old(known)) && (Silent(i, old(known)) ==> code == old(code))
    {
      hide Banks.At, Banks.Put, Run, AllOk, Denotes, Exec, Step, Tells, Folded, Absorbed, Silent;
      TellsReady(i, slots, known);
      fused, stopped := false, false;
      match i {
      case Push(x, v) =>
        PushFolds(x, v, known);
        DoPush(x, v);
      case Drop(x) =>
        PopFolds(x, known);
        DoPop(x);
      case CPop =>
        PopFolds(C, known);
        DoPop(C);
      case CSet(x, depth) => DoCSet(x, depth);
      case Unary(x, op) => DoUnary(x, op);
      case Check(x, op) => stopped := DoCheck(x, op);
      case Binary(x, op) => fused := DoBinary(x, op, followed);
      case Immediate(x, op, v) => fused := DoImmediate(x, op, v, followed);
      case COperand(x, op, depth) => fused := DoCOperand(x, op, depth, followed);
      case Dup(_) => DoTransfer(i);
      case Copy(_) => DoTransfer(i);
      case Move(_) => DoTransfer(i);
      case CPush(_) => DoTransfer(i);
      case CGet(_, _) => DoTransfer(i);
      }
      if !i.Binary? && !i.Immediate? && !i.COperand? {
        NeverAbsorbed(i, old(known), known);
      }
    }

    /** Compile a block: the code emitted computes what the first `n` instructions compute. */
    method Compile(block: seq<Instr>) returns (n: nat, stopped: bool)
      requires Valid()
      modifies this`slots, this`code, this`now, this`logical, this`known
      ensures Valid() && n <= |block| && logical == Steps(block[..n], old(logical))
      ensures stopped ==> !logical.Next?
      ensures FoldAll(block[..n], old(known)) == Some(known)
      ensures AllSilent(block[..n], old(known)) ==> code == old(code)
      ensures n < |block| && !stopped ==> !Ready(block[n], slots) || !Encoded(block[n])
    {
      hide Banks.At, Banks.Put, Run, AllOk, Denotes, Exec, Step, Steps, Ready, Tells, Folded, Absorbed, Silent;
      hide FoldAll, AllSilent;
      n, stopped := 0, false;
      StepsNone(block, logical);
      FoldNone(block, known);
      while n < |block| && !stopped && Ready(block[n], slots) && Encoded(block[n])
        invariant n <= |block| && Valid() && logical == Steps(block[..n], old(logical))
        invariant stopped ==> !logical.Next?
        invariant FoldAll(block[..n], old(known)) == Some(known)
        invariant AllSilent(block[..n], old(known)) ==> code == old(code)
      {
        var i := block[n];
        var followed := i != CPop && n + 1 < |block| && block[n + 1] == Unary(i.bank, ZX32);
        StepsMore(block, n, old(logical));
        var fused: bool;
        ghost var before := known;
        fused, stopped := DoInstr(i, followed);
        FoldStep(block, n, fused, old(known), before, known);
        n := n + 1;
        if fused {
          StepsMore(block, n, old(logical));
          n := n + 1;
        }
      }
    }
  }

  /** Code for one version of a block, on any machine that holds the stacks as `entry` describes them:
      the machine ends up holding exactly the stacks the bytecode leaves, as `exit` describes them, or
      traps for exactly the bytecode's reason. An edge leads to a version with an equal description, so
      `exit` is the entry of what comes next; going backwards it holds no constants, and when the target
      has almost all the versions it may have, every slot is at its home. */
  method CompileVersion(block: seq<Instr>, registers: nat, entry: Slots, shift: int, backward: bool, crowded: bool,
    ghost start: Machine, ghost cells: Banks<Cell>)
    returns (code: seq<Form>, n: nat, exit: Slots)
    requires 2 <= registers == |start.regs| && start.trap.None? && Denotes(entry, start, cells, shift)
    ensures n <= |block| && AllEncodable(code, registers) && AllOk(exit, shift, registers)
    ensures match Steps(block[..n], Next(cells))
      case Next(after) =>
        && Run(code, start).trap.None? && Denotes(exit, Run(code, start), after, shift)
        && (n < |block| ==> !Ready(block[n], after) || !Encoded(block[n]))
      case Trap(reason) => Run(code, start).trap == Some(reason)
      case Stuck => false
    ensures forall s: Stack, i | 0 <= i < |exit.At(s)| ::
      var at := exit.At(s)[i].place;
      && (backward ==> !at.Constant?)
      && (crowded ==> at == Home(Canonical(s, i, shift)))
    ensures !backward && !crowded ==>
      && FoldAll(block[..n], AllKnowns(entry)) == Some(AllKnowns(exit))
      && (AllSilent(block[..n], AllKnowns(entry)) ==> code == [])
  {
    hide Banks.At, Banks.Put, AllOk, Denotes, Exec, Step, Steps, Ready, Run, Tells, FoldAll, AllSilent, AllKnowns;
    var cache := new Cache.Enter(registers, entry, shift, start, cells);
    var stopped: bool;
    n, stopped := cache.Compile(block);
    cache.ReadyMatches(block, n);
    if backward {
      cache.Weaken();
    }
    if crowded {
      cache.ConformGeneric();
      cache.AtHome();
    }
    code, exit := cache.code, cache.slots;
    AllTold(exit);
  }

  lemma BlockHomes(arguments: nat)
    ensures forall s: Stack, i: nat ::
      Canonical(s, i, EntryShift(arguments)) == Address(s, if s == C then i - arguments else i)
  {
  }

  /** Compiled code from a function's entry, on any machine: memory ends up holding exactly the stacks
      the bytecode leaves, or the machine traps for exactly the bytecode's reason. */
  method CompileBlock(block: seq<Instr>, registers: nat, arguments: nat, ghost start: Machine)
    returns (code: seq<Form>, n: nat)
    requires 2 <= registers == |start.regs| && start.trap.None?
    ensures n <= |block| && AllEncodable(code, registers)
    ensures match Steps(block[..n], Next(EntryStacks(arguments, start)))
      case Next(cells) =>
        && Run(code, start).trap.None?
        && (forall s: Stack, i | 0 <= i < |cells.At(s)| ::
              Run(code, start).Fetch(Address(s, if s == C then i - arguments else i)) == cells.At(s)[i])
        && (n < |block| ==> !Ready(block[n], cells) || !Encoded(block[n]))
      case Trap(reason) => Run(code, start).trap == Some(reason)
      case Stuck => false
  {
    hide Banks.At, Banks.Put, AllOk, Exec, Step, Steps, Ready, EntryStacks, EntryShift, EntrySlots, Run;
    EntryDenotes(arguments, start);
    var exit: Slots;
    code, n, exit := CompileVersion(block, registers, EntrySlots(arguments), EntryShift(arguments), false, true,
      start, EntryStacks(arguments, start));
    BlockHomes(arguments);
  }

  // ----- blocks one after another -----

  /** A block on a path, and how it is left. */
  datatype Stage = Stage(block: seq<Instr>, backward: bool, crowded: bool)

  /** The bytecode of a path. */
  function PathSteps(path: seq<Stage>, o: Outcome): Outcome {
    if path == [] then o else Steps(path[|path| - 1].block, PathSteps(path[..|path| - 1], o))
  }

  predicate AllCodes(codes: seq<seq<Form>>, registers: nat) {
    forall k | 0 <= k < |codes| :: AllEncodable(codes[k], registers)
  }

  /** The code of a path. */
  function RunPath(codes: seq<seq<Form>>, m: Machine): (n: Machine)
    requires AllCodes(codes, |m.regs|)
    ensures |n.regs| == |m.regs|
  {
    if codes == [] then m else Run(codes[|codes| - 1], RunPath(codes[..|codes| - 1], m))
  }

  lemma RunPathMore(codes: seq<seq<Form>>, code: seq<Form>, m: Machine)
    requires AllCodes(codes, |m.regs|) && AllEncodable(code, |m.regs|)
    ensures AllCodes(codes + [code], |m.regs|) && RunPath(codes + [code], m) == Run(code, RunPath(codes, m))
  {
    hide Run;
    assert (codes + [code])[..|codes|] == codes;
  }

  lemma PathStepsMore(path: seq<Stage>, k: nat, o: Outcome)
    requires k < |path|
    ensures PathSteps(path[..k + 1], o) == Steps(path[k].block, PathSteps(path[..k], o))
  {
    hide Steps;
    assert path[..k + 1][..k] == path[..k];
  }

  lemma {:induction false} RunTrapped(code: seq<Form>, m: Machine)
    requires AllEncodable(code, |m.regs|) && m.trap.Some?
    ensures Run(code, m) == m
  {
    if code != [] {
      RunTrapped(code[..|code| - 1], m);
    }
  }

  lemma {:induction false} StepsTrapped(block: seq<Instr>, reason: nat)
    ensures Steps(block, Trap(reason)) == Trap(reason)
  {
    if block != [] {
      StepsTrapped(block[..|block| - 1], reason);
    }
  }

  /** What is known when a path has been run so far. */
  ghost predicate Arrived(o: Outcome, m: Machine, exit: Slots, shift: int) {
    match o
    case Next(cells) => m.trap.None? && Denotes(exit, m, cells, shift)
    case Trap(reason) => m.trap == Some(reason)
    case Stuck => false
  }

  /** A machine and stacks that fit a description. */
  lemma SomeMachine(x: Slots, registers: nat, shift: int) returns (m: Machine, cells: Banks<Cell>)
    requires AllOk(x, shift, registers)
    ensures |m.regs| == registers && m.trap.None? && Denotes(x, m, cells, shift)
  {
    m := Machine(seq(registers, _ => 0), map[], None);
    cells := SomeCells(x, m, shift);
  }

  /** The next block of a path, entered as the one before it was left. */
  method CompileNext(stage: Stage, registers: nat, entry: Slots, shift: int, ghost o: Outcome, ghost now: Machine)
    returns (code: seq<Form>, n: nat, exit: Slots)
    requires 2 <= registers == |now.regs| && AllOk(entry, shift, registers) && Arrived(o, now, entry, shift)
    ensures n <= |stage.block| && AllEncodable(code, registers) && AllOk(exit, shift, registers)
    ensures Arrived(Steps(stage.block[..n], o), Run(code, now), exit, shift)
    ensures var p := Steps(stage.block[..n], o);
      p.Next? && n < |stage.block| ==> !Ready(stage.block[n], p.stacks) || !Encoded(stage.block[n])
  {
    hide Denotes, AllOk, Run, Steps, Ready, Encoded;
    ghost var m, cells;
    if o.Next? {
      m, cells := now, o.stacks;
    } else {
      m, cells := SomeMachine(entry, registers, shift);
    }
    code, n, exit := CompileVersion(stage.block, registers, entry, shift, stage.backward, stage.crowded, m, cells);
    if o.Trap? {
      StepsTrapped(stage.block[..n], o.reason);
      RunTrapped(code, now);
    }
  }

  /** Linked blocks along any path, each entered as the one before it was left: the code of all of them, run
      one after the other, leaves exactly the stacks of the bytecode of all of them, or traps for its reason.
      The path ends early only in a block that can not be compiled to its end. */
  method CompilePath(path: seq<Stage>, registers: nat, entry: Slots, shift: int, ghost start: Machine,
    ghost cells: Banks<Cell>)
    returns (codes: seq<seq<Form>>, n: nat, exit: Slots)
    requires path != [] && 2 <= registers == |start.regs| && start.trap.None? && Denotes(entry, start, cells, shift)
    ensures 0 < |codes| <= |path| && AllCodes(codes, registers)
    ensures var last := path[|codes| - 1].block;
      && n <= |last| && (n == |last| ==> |codes| == |path|)
      && var o := Steps(last[..n], PathSteps(path[..|codes| - 1], Next(cells)));
        && Arrived(o, RunPath(codes, start), exit, shift)
        && (o.Next? && n < |last| ==> !Ready(last[n], o.stacks) || !Encoded(last[n]))
  {
    hide Steps, Ready, Encoded, Run, PathSteps, RunPath, AllCodes, Denotes;
    codes, n, exit := [], 0, entry;
    ghost var o, now := Next(cells), start;
    PathStart(path, start, o, registers);
    DenotesOk(entry, start, cells, shift);
    var k := 0;
    while k < |path|
      invariant k <= |path| && |codes| == k && AllCodes(codes, registers) && AllOk(exit, shift, registers)
      invariant o == PathSteps(path[..k], Next(cells)) && now == RunPath(codes, start) && |now.regs| == registers
      invariant Arrived(o, now, exit, shift)
      invariant k > 0 ==> n == |path[k - 1].block|
      invariant k > 0 ==> o == Steps(path[k - 1].block[..n], PathSteps(path[..k - 1], Next(cells)))
    {
      var code: seq<Form>;
      code, n, exit := CompileNext(path[k], registers, exit, shift, o, now);
      RunPathMore(codes, code, start);
      PathStepsMore(path, k, Next(cells));
      codes, now := codes + [code], Run(code, now);
      k := k + 1;
      if n < |path[k - 1].block| {
        return;
      }
      assert path[k - 1].block[..n] == path[k - 1].block;
      o := Steps(path[k - 1].block, o);
    }
  }

  lemma PathStart(path: seq<Stage>, m: Machine, o: Outcome, registers: nat)
    ensures PathSteps(path[..0], o) == o && AllCodes([], registers) && AllCodes([], |m.regs|) && RunPath([], m) == m
  {
  }

  lemma DenotesOk(x: Slots, m: Machine, cells: Banks<Cell>, shift: int)
    requires Denotes(x, m, cells, shift)
    ensures AllOk(x, shift, |m.regs|)
  {
  }
}
