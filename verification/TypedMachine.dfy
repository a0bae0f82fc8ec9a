/** Running bytecode with every kind error and underflow made visible, and the proof that well
    typed modules never meet one.
 */
module TypedMachine {
  import opened Words
  import opened Bytecode
  import opened Shapes
  import opened TypedCode

  /** A cell that remembers the kind of what it holds, or a byte block on the frame stack. */
  datatype Slot = Held(kind: Kind, bits: Cell) | Bytes(bytes: nat)

  function EntryOf(v: Slot): Entry {
    match v
    case Held(k, _) => Scalar(k)
    case Bytes(n) => Block(n)
  }

  function Entries(l: seq<Slot>): (r: Layout)
    ensures |r| == |l|
  {
    seq(|l|, (i: nat) requires i < |l| => EntryOf(l[i]))
  }

  function ShapeOf(s: Banks<Slot>): Shape {
    Banks(Entries(s.a), Entries(s.b), Entries(s.c))
  }

  /** What one instruction does to one activation's stacks. */
  datatype Effect = Go(stacks: Banks<Slot>, pc: nat) | Stops(reason: nat) | Wrong

  predicate Kinded(v: Slot, kind: Kind) {
    v.Held? && v.kind == kind
  }

  predicate TopHolds(l: seq<Slot>, kind: Kind) {
    l != [] && Kinded(l[|l| - 1], kind)
  }

  /** The cell `depth` cells below the top of the frame stack. */
  function SlotAt(l: seq<Slot>, depth: nat): Option<Slot> {
    if l == [] then None
    else
      var top := l[|l| - 1];
      if depth < Span(EntryOf(top)) then (if top.Held? then Some(top) else None)
      else SlotAt(l[..|l| - 1], depth - Span(EntryOf(top)))
  }

  function SlotSet(l: seq<Slot>, depth: nat, v: Slot): seq<Slot>
    requires SlotAt(l, depth).Some?
  {
    var rest, top := l[..|l| - 1], l[|l| - 1];
    if depth < Span(EntryOf(top)) then rest + [v] else SlotSet(rest, depth - Span(EntryOf(top)), v) + [top]
  }

  function Fetched(c: seq<Slot>, depth: nat, count: nat): Option<seq<Slot>> {
    if count == 0 then Some([])
    else
      match Fetched(c, depth, count - 1)
      case None => None
      case Some(l) =>
        (match SlotAt(c, depth + count - 1)
         case None => None
         case Some(v) => Some(l + [v]))
  }

  function Answer(s: Banks<Slot>, x: Bank, r: Option<Cell>, next: nat): Effect
    requires s.Has(x, 0)
  {
    match r
    case None => Stops(REASON_DIVISION)
    case Some(v) => Go(s.Replace(x, 0, Held(Int, v)), next)
  }

  predicate PairHolds(identity: bool, x: seq<Slot>, y: seq<Slot>) {
    (identity && TopHolds(x, Addr) && TopHolds(y, Addr)) || (TopHolds(x, Int) && TopHolds(y, Int))
  }

  function LocalMoving(i: Op, next: nat, s: Banks<Slot>): Effect
    requires Moving(i)
  {
    match i
    case OpPush(x, v) => Go(s.Push(x, Held(Int, v)), next)
    case OpDup(x) => if s.Has(x, 0) then Go(s.Push(x, s.Peek(x, 0)), next) else Wrong
    case OpDrop(x) => if s.Has(x, 0) then Go(s.Pop(x), next) else Wrong
    case OpCopy(x) => if s.Has(x, 0) then Go(s.Push(Opposite(x), s.Peek(x, 0)), next) else Wrong
    case OpMove(x) => if s.Has(x, 0) then Go(s.Pop(x).Push(Opposite(x), s.Peek(x, 0)), next) else Wrong
  }

  function LocalFraming(i: Op, next: nat, s: Banks<Slot>): Effect
    requires Framing(i)
  {
    match i
    case OpCPush(x, n) =>
      var l := s.At(x);
      if n <= |l| then Go(s.Put(x, l[..|l| - n]).Put(C, Poured(s.c, l, n)), next) else Wrong
    case OpCPop => if s.c != [] && s.Peek(C, 0).Held? then Go(s.Pop(C), next) else Wrong
    case OpCGet(x, depth, n) =>
      (match Fetched(s.c, depth, n)
       case None => Wrong
       case Some(l) => Go(s.Put(x, s.At(x) + l), next))
    case OpCSet(x, depth) =>
      if s.Has(x, 0) && s.Peek(x, 0).Held? && SlotAt(s.c, depth).Some?
      then Go(s.Pop(x).Put(C, SlotSet(s.c, depth, s.Peek(x, 0))), next) else Wrong
    case OpAllocate(n) => Go(if n > 0 then s.Push(C, Bytes(n)) else s, next)
    case OpFree(n) =>
      if n == 0 then Go(s, next) else if s.c != [] && s.Peek(C, 0) == Bytes(n) then Go(s.Pop(C), next) else Wrong
  }

  function LocalComputing(i: Op, next: nat, s: Banks<Slot>, choice: Cell): Effect
    requires Computing(i)
  {
    match i
    case OpBinary(x, op) =>
      if PairHolds(TestsEquality(op), s.At(x), s.At(Opposite(x)))
      then Answer(s.Pop(Opposite(x)), x, Combine(op, s.Peek(x, 0).bits, s.Peek(Opposite(x), 0).bits), next) else Wrong
    case OpUnary(x, op) =>
      if TopHolds(s.At(x), Int) then Go(s.Replace(x, 0, Held(Int, ApplyUnary(op, s.Peek(x, 0).bits))), next) else Wrong
    case OpCheck(x, op) =>
      if !TopHolds(s.At(x), Int) then Wrong
      else if Fails(op, s.Peek(x, 0).bits) then Stops(REASON_CONVERSION) else Go(s, next)
    case OpImmediate(x, op, v) =>
      if TopHolds(s.At(x), Int) then Answer(s, x, Combine(op, s.Peek(x, 0).bits, v), next) else Wrong
    case OpCOperand(x, op, depth) =>
      if TopHolds(s.At(x), Int) && SlotAt(s.c, depth).Some? && Kinded(SlotAt(s.c, depth).value, Int)
      then Answer(s, x, Combine(op, s.Peek(x, 0).bits, SlotAt(s.c, depth).value.bits), next) else Wrong
    case OpConvert(x, from, to) =>
      if TopHolds(s.At(x), from) then Go(s.Replace(x, 0, Held(to, choice)), next) else Wrong
    case OpFloatBinary(x, compares) =>
      if TopHolds(s.At(x), Float) && TopHolds(s.At(Opposite(x)), Float)
      then Go(s.Pop(Opposite(x)).Replace(x, 0, Held(if compares then Int else Float, choice)), next) else Wrong
  }

  function TopBits(s: Banks<Slot>, x: Bank): Cell {
    if TopHolds(s.At(x), Int) then s.Peek(x, 0).bits else 0
  }

  /** Drop the operand that decided and go on at `place`. */
  function Popped(s: Banks<Slot>, x: Bank, place: nat): Effect {
    if TopHolds(s.At(x), Int) then Go(s.Pop(x), place) else Wrong
  }

  predicate ImmediateHolds(r: Relation, reverse: bool, v: Cell, u: Cell) {
    if reverse then Related(r, v, u) else Related(r, u, v)
  }

  function LocalBranching(i: Op, next: nat, s: Banks<Slot>, choice: Cell): Effect
    requires Branching(i)
  {
    match i
    case OpFloatBranch(x, t) =>
      if TopHolds(s.At(x), Float) && TopHolds(s.At(Opposite(x)), Float)
      then Go(s.Pop(x).Pop(Opposite(x)), if choice != 0 then t else next) else Wrong
    case OpBranch(x, r, t) =>
      if PairHolds(r == RelEQ || r == RelNE, s.At(x), s.At(Opposite(x)))
      then Go(s.Pop(x).Pop(Opposite(x)), if Related(r, s.Peek(x, 0).bits, s.Peek(Opposite(x), 0).bits) then t else next)
      else Wrong
    case OpZeroBranch(x, nonzero, t) => Popped(s, x, if (TopBits(s, x) != 0) == nonzero then t else next)
    case OpImmediateBranch(x, r, reverse, v, t) =>
      Popped(s, x, if ImmediateHolds(r, reverse, v, TopBits(s, x)) then t else next)
    case OpJump(t) => Go(s, t)
    case OpSwitch(x, ts) => Popped(s, x, Chosen(TopBits(s, x) as nat, ts, next))
    case OpAbort(reason) => Stops(reason)
  }

  function LocalTouching(i: Op, next: nat, s: Banks<Slot>, choice: Cell): Effect
    requires Touching(i)
  {
    match i
    case OpFrameLoad(x, offset, width, kind) =>
      if FrameBytes(Entries(s.c), 0, offset, width) then Go(s.Push(x, Held(kind, choice)), next) else Wrong
    case OpFrameStore(x, offset, width) =>
      if FrameBytes(Entries(s.c), 0, offset, width) && s.Has(x, 0) && (width < 8 ==> Kinded(s.Peek(x, 0), Int))
      then Go(s.Pop(x), next) else Wrong
    case OpFrameAddress(x, offset, width) =>
      if FrameBytes(Entries(s.c), 0, offset, width) then Go(s.Push(x, Held(Addr, choice)), next) else Wrong
    case OpLoad(x, kind) => if TopHolds(s.At(x), Addr) then Go(s.Replace(x, 0, Held(kind, choice)), next) else Wrong
    case OpStore(x, width) =>
      if TopHolds(s.At(x), Addr) && s.Has(Opposite(x), 0) && (width < 8 ==> Kinded(s.Peek(Opposite(x), 0), Int))
      then Go(s.Pop(x).Pop(Opposite(x)), next) else Wrong
  }

  /** Instructions that stay inside the activation. `next` is the position after the instruction and
      `choice` the bits of any result that floats or memory decide. */
  function Local(i: Op, next: nat, s: Banks<Slot>, choice: Cell): Effect
    requires !Leaving(i)
  {
    if Moving(i) then LocalMoving(i, next, s)
    else if Framing(i) then LocalFraming(i, next, s)
    else if Computing(i) then LocalComputing(i, next, s, choice)
    else if Branching(i) then LocalBranching(i, next, s, choice)
    else LocalTouching(i, next, s, choice)
  }

  // ----- shapes follow values -----

  lemma {:induction false} SlotAtShape(l: seq<Slot>, depth: nat)
    ensures SlotAt(l, depth).Some? <==> CellAt(Entries(l), depth).Some?
    ensures SlotAt(l, depth).Some? ==>
      SlotAt(l, depth).value.Held? && CellAt(Entries(l), depth) == Some(SlotAt(l, depth).value.kind)
  {
    if l != [] {
      assert Entries(l[..|l| - 1]) == Entries(l)[..|l| - 1];
      if depth >= Span(EntryOf(l[|l| - 1])) {
        SlotAtShape(l[..|l| - 1], depth - Span(EntryOf(l[|l| - 1])));
      }
    }
  }

  lemma {:induction false} SlotSetShape(l: seq<Slot>, depth: nat, v: Slot)
    requires SlotAt(l, depth).Some? && v.Held?
    ensures CellAt(Entries(l), depth).Some?
    ensures Entries(SlotSet(l, depth, v)) == CellSet(Entries(l), depth, v.kind)
  {
    SlotAtShape(l, depth);
    assert Entries(l[..|l| - 1]) == Entries(l)[..|l| - 1];
    if depth >= Span(EntryOf(l[|l| - 1])) {
      SlotSetShape(l[..|l| - 1], depth - Span(EntryOf(l[|l| - 1])), v);
    }
  }

  lemma {:induction false} FetchedShape(c: seq<Slot>, depth: nat, count: nat)
    ensures Fetched(c, depth, count).Some? <==> Gathered(Entries(c), depth, count).Some?
    ensures Fetched(c, depth, count).Some? ==>
      Gathered(Entries(c), depth, count) == Some(Entries(Fetched(c, depth, count).value))
  {
    if count > 0 {
      FetchedShape(c, depth, count - 1);
      SlotAtShape(c, depth + count - 1);
      var l, v := Fetched(c, depth, count - 1), SlotAt(c, depth + count - 1);
      if l.Some? && v.Some? {
        assert Entries(l.value + [v.value]) == Entries(l.value) + [Scalar(v.value.kind)];
      }
    }
  }

  lemma {:induction false} PouredShape(to: seq<Slot>, from: seq<Slot>, count: nat)
    requires count <= |from|
    ensures Entries(Poured(to, from, count)) == Poured(Entries(to), Entries(from), count)
    decreases count
  {
    if count > 0 {
      var to', from' := to + [from[|from| - 1]], from[..|from| - 1];
      PouredShape(to', from', count - 1);
      assert Entries(to') == Entries(to) + [Entries(from)[|from| - 1]];
      assert Entries(from') == Entries(from)[..|from| - 1];
    }
  }

  lemma PushShape(s: Banks<Slot>, x: Stack, v: Slot)
    ensures ShapeOf(s.Push(x, v)) == ShapeOf(s).Push(x, EntryOf(v))
  {
    assert Entries(s.At(x) + [v]) == Entries(s.At(x)) + [EntryOf(v)];
  }

  lemma AtShape(s: Banks<Slot>, x: Stack)
    ensures ShapeOf(s).At(x) == Entries(s.At(x))
  {
  }

  lemma PopShape(s: Banks<Slot>, x: Stack)
    requires s.Has(x, 0)
    ensures ShapeOf(s).Has(x, 0) && ShapeOf(s).Peek(x, 0) == EntryOf(s.Peek(x, 0))
    ensures ShapeOf(s.Pop(x)) == ShapeOf(s).Pop(x)
  {
    assert Entries(s.At(x)[..|s.At(x)| - 1]) == Entries(s.At(x))[..|s.At(x)| - 1];
  }

  lemma PutShape(s: Banks<Slot>, x: Stack, l: seq<Slot>)
    ensures ShapeOf(s.Put(x, l)) == ShapeOf(s).Put(x, Entries(l))
  {
  }

  lemma ReplaceShape(s: Banks<Slot>, x: Stack, v: Slot)
    requires s.Has(x, 0) && v.Held?
    ensures ShapeOf(s).Has(x, 0) && ShapeOf(s.Replace(x, 0, v)) == Replaced(ShapeOf(s), x, v.kind)
  {
    var l := s.At(x);
    assert Entries(l[|l| - 1 := v]) == Init(Entries(l)) + [Scalar(v.kind)];
  }

  /** An integer stays where an integer was. */
  lemma SameKindShape(s: Banks<Slot>, x: Stack, v: Slot)
    requires s.Has(x, 0) && v.Held? && Kinded(s.Peek(x, 0), v.kind)
    ensures ShapeOf(s.Replace(x, 0, v)) == ShapeOf(s)
  {
    var l := s.At(x);
    assert Entries(l[|l| - 1 := v]) == Entries(l);
  }

  lemma TopShape(l: seq<Slot>, kind: Kind)
    ensures TopHolds(l, kind) <==> TopIs(Entries(l), kind)
  {
  }

  // ----- one instruction -----

  /** The effect is not `Wrong`; if control goes on, the shapes are the predicted ones and the
      position is a successor. */
  predicate Agrees(e: Effect, i: Op, next: nat, s': Shape) {
    !e.Wrong? && (e.Go? ==> ShapeOf(e.stacks) == s' && e.pc in Successors(i, next))
  }

  lemma NextIn(i: Op, next: nat)
    requires !Terminal(i)
    ensures next in Successors(i, next)
  {
    assert Successors(i, next)[|Targets(i)|] == next;
  }

  ghost predicate Follows(t: Option<Shape>, e: Effect, i: Op, next: nat) {
    t.Some? ==> Agrees(e, i, next, t.value)
  }

  lemma MovingSound(i: Op, next: nat, s: Banks<Slot>)
    requires Moving(i)
    ensures Follows(TransferMoving(i, ShapeOf(s)), LocalMoving(i, next, s), i, next)
  {
    NextIn(i, next);
    if !i.OpPush? && s.Has(i.bank, 0) {
      PopShape(s, i.bank);
    }
    hide Entries, Banks.Peek, Banks.Put, Banks.At, Successors;
    match i
    case OpPush(x, v) => PushShape(s, x, Held(Int, v));
    case OpDup(x) => if s.Has(x, 0) { PushShape(s, x, s.Peek(x, 0)); }
    case OpDrop(x) =>
    case OpCopy(x) => if s.Has(x, 0) { PushShape(s, Opposite(x), s.Peek(x, 0)); }
    case OpMove(x) => if s.Has(x, 0) { PushShape(s.Pop(x), Opposite(x), s.Peek(x, 0)); }
  }

  lemma CPushSound(i: Op, next: nat, s: Banks<Slot>)
    requires i.OpCPush?
    ensures Follows(TransferFraming(i, ShapeOf(s)), LocalFraming(i, next, s), i, next)
  {
    NextIn(i, next);
    var l, n := s.At(i.bank), i.count;
    AtShape(s, i.bank);
    if n <= |l| {
      PouredShape(s.c, l, n);
      assert Entries(l[..|l| - n]) == Entries(l)[..|l| - n];
      PutShape(s, i.bank, l[..|l| - n]);
      PutShape(s.Put(i.bank, l[..|l| - n]), C, Poured(s.c, l, n));
    }
  }

  lemma CGetSound(i: Op, next: nat, s: Banks<Slot>)
    requires i.OpCGet?
    ensures Follows(TransferFraming(i, ShapeOf(s)), LocalFraming(i, next, s), i, next)
  {
    NextIn(i, next);
    AtShape(s, i.bank);
    FetchedShape(s.c, i.depth, i.count);
    var l := Fetched(s.c, i.depth, i.count);
    if l.Some? {
      assert Entries(s.At(i.bank) + l.value) == Entries(s.At(i.bank)) + Entries(l.value);
      PutShape(s, i.bank, s.At(i.bank) + l.value);
    }
  }

  lemma CSetSound(i: Op, next: nat, s: Banks<Slot>)
    requires i.OpCSet?
    ensures Follows(TransferFraming(i, ShapeOf(s)), LocalFraming(i, next, s), i, next)
  {
    NextIn(i, next);
    SlotAtShape(s.c, i.depth);
    if s.Has(i.bank, 0) && s.Peek(i.bank, 0).Held? && SlotAt(s.c, i.depth).Some? {
      PopShape(s, i.bank);
      SlotSetShape(s.c, i.depth, s.Peek(i.bank, 0));
      PutShape(s.Pop(i.bank), C, SlotSet(s.c, i.depth, s.Peek(i.bank, 0)));
    } else if s.Has(i.bank, 0) {
      PopShape(s, i.bank);
    }
  }

  lemma FramingSound(i: Op, next: nat, s: Banks<Slot>)
    requires Framing(i)
    ensures Follows(TransferFraming(i, ShapeOf(s)), LocalFraming(i, next, s), i, next)
  {
    match i
    case OpCPush(_, _) => CPushSound(i, next, s);
    case OpCGet(_, _, _) => CGetSound(i, next, s);
    case OpCSet(_, _) => CSetSound(i, next, s);
    case OpAllocate(n) => NextIn(i, next); PushShape(s, C, Bytes(n));
    case OpCPop => NextIn(i, next); if s.c != [] { PopShape(s, C); }
    case OpFree(n) => NextIn(i, next); if s.c != [] { PopShape(s, C); }
  }

  lemma AnswerSound(s: Banks<Slot>, x: Bank, r: Option<Cell>, i: Op, next: nat)
    requires s.Has(x, 0) && !Terminal(i)
    ensures Agrees(Answer(s, x, r, next), i, next, Replaced(ShapeOf(s), x, Int))
  {
    NextIn(i, next);
    if r.Some? {
      ReplaceShape(s, x, Held(Int, r.value));
    }
  }

  lemma SameInt(s: Banks<Slot>, x: Bank)
    requires TopHolds(s.At(x), Int)
    ensures s.Has(x, 0) && Replaced(ShapeOf(s), x, Int) == ShapeOf(s)
  {
    SameKindShape(s, x, s.Peek(x, 0));
    ReplaceShape(s, x, s.Peek(x, 0));
  }

  lemma PairShape(identity: bool, x: seq<Slot>, y: seq<Slot>)
    ensures PairHolds(identity, x, y) <==> PairOk(identity, Entries(x), Entries(y))
  {
    TopShape(x, Addr); TopShape(y, Addr); TopShape(x, Int); TopShape(y, Int);
  }

  lemma BinarySound(i: Op, next: nat, s: Banks<Slot>, choice: Cell)
    requires i.OpBinary?
    ensures Follows(TransferComputing(i, ShapeOf(s)), LocalComputing(i, next, s, choice), i, next)
  {
    var x := i.bank;
    var y := Opposite(x);
    AtShape(s, x); AtShape(s, y);
    PairShape(TestsEquality(i.op), s.At(x), s.At(y));
    if PairHolds(TestsEquality(i.op), s.At(x), s.At(y)) {
      PopShape(s, y);
      AnswerSound(s.Pop(y), x, Combine(i.op, s.Peek(x, 0).bits, s.Peek(y, 0).bits), i, next);
    }
  }

  lemma FloatBinarySound(i: Op, next: nat, s: Banks<Slot>, choice: Cell)
    requires i.OpFloatBinary?
    ensures Follows(TransferComputing(i, ShapeOf(s)), LocalComputing(i, next, s, choice), i, next)
  {
    NextIn(i, next);
    var x := i.bank;
    var y := Opposite(x);
    AtShape(s, x); AtShape(s, y);
    TopShape(s.At(x), Float); TopShape(s.At(y), Float);
    if TopHolds(s.At(x), Float) && TopHolds(s.At(y), Float) {
      PopShape(s, y);
      ReplaceShape(s.Pop(y), x, Held(if i.compares then Int else Float, choice));
    }
  }

  lemma ConvertSound(i: Op, next: nat, s: Banks<Slot>, choice: Cell)
    requires i.OpConvert?
    ensures Follows(TransferComputing(i, ShapeOf(s)), LocalComputing(i, next, s, choice), i, next)
  {
    NextIn(i, next);
    AtShape(s, i.bank);
    TopShape(s.At(i.bank), i.from);
    if TopHolds(s.At(i.bank), i.from) {
      ReplaceShape(s, i.bank, Held(i.to, choice));
    }
  }

  lemma IntegerSound(i: Op, next: nat, s: Banks<Slot>, choice: Cell)
    requires i.OpUnary? || i.OpCheck? || i.OpImmediate?
    ensures Follows(TransferComputing(i, ShapeOf(s)), LocalComputing(i, next, s, choice), i, next)
  {
    NextIn(i, next);
    AtShape(s, i.bank);
    TopShape(s.At(i.bank), Int);
    if TopHolds(s.At(i.bank), Int) {
      SameInt(s, i.bank);
      match i
      case OpUnary(x, op) => ReplaceShape(s, x, Held(Int, ApplyUnary(op, s.Peek(x, 0).bits)));
      case OpCheck(_, _) =>
      case OpImmediate(x, op, v) => AnswerSound(s, x, Combine(op, s.Peek(x, 0).bits, v), i, next);
    }
  }

  lemma COperandSound(i: Op, next: nat, s: Banks<Slot>, choice: Cell)
    requires i.OpCOperand?
    ensures Follows(TransferComputing(i, ShapeOf(s)), LocalComputing(i, next, s, choice), i, next)
  {
    AtShape(s, i.bank);
    TopShape(s.At(i.bank), Int);
    SlotAtShape(s.c, i.depth);
    var v := SlotAt(s.c, i.depth);
    if TopHolds(s.At(i.bank), Int) && v.Some? && Kinded(v.value, Int) {
      SameInt(s, i.bank);
      AnswerSound(s, i.bank, Combine(i.op, s.Peek(i.bank, 0).bits, v.value.bits), i, next);
    }
  }

  lemma ComputingSound(i: Op, next: nat, s: Banks<Slot>, choice: Cell)
    requires Computing(i)
    ensures Follows(TransferComputing(i, ShapeOf(s)), LocalComputing(i, next, s, choice), i, next)
  {
    hide TransferComputing, LocalComputing, Follows;
    match i
    case OpBinary(_, _) => BinarySound(i, next, s, choice);
    case OpFloatBinary(_, _) => FloatBinarySound(i, next, s, choice);
    case OpConvert(_, _, _) => ConvertSound(i, next, s, choice);
    case OpCOperand(_, _, _) => COperandSound(i, next, s, choice);
    case _ => IntegerSound(i, next, s, choice);
  }

  lemma BothPopped(s: Banks<Slot>, x: Bank)
    requires s.Has(x, 0) && s.Has(Opposite(x), 0)
    ensures ShapeOf(s).Has(x, 0) && ShapeOf(s).Pop(x).Has(Opposite(x), 0)
    ensures ShapeOf(s.Pop(x).Pop(Opposite(x))) == ShapeOf(s).Pop(x).Pop(Opposite(x))
  {
    PopShape(s, x);
    PopShape(s.Pop(x), Opposite(x));
  }

  lemma TwoWay(i: Op, next: nat, t: nat)
    requires !Terminal(i) && Targets(i) == [t]
    ensures next in Successors(i, next) && t in Successors(i, next)
  {
    NextIn(i, next);
    assert Successors(i, next)[0] == t;
  }

  lemma BranchSound(i: Op, next: nat, s: Banks<Slot>, choice: Cell)
    requires i.OpBranch? || i.OpFloatBranch?
    ensures Follows(TransferBranching(i, ShapeOf(s)), LocalBranching(i, next, s, choice), i, next)
  {
    TwoWay(i, next, i.target);
    var x := i.bank;
    var y := Opposite(x);
    AtShape(s, x); AtShape(s, y);
    TopShape(s.At(x), Float); TopShape(s.At(y), Float);
    PairShape(i.OpBranch? && (i.relation == RelEQ || i.relation == RelNE), s.At(x), s.At(y));
    if s.Has(x, 0) && s.Has(y, 0) {
      BothPopped(s, x);
    }
  }

  lemma ChosenIn(i: Op, next: nat, k: nat)
    requires i.OpSwitch?
    ensures Chosen(k, i.targets, next) in Successors(i, next)
  {
    NextIn(i, next);
    if k < |i.targets| {
      assert Successors(i, next)[k] == i.targets[k];
    }
  }

  lemma PopBranchSound(i: Op, next: nat, s: Banks<Slot>, choice: Cell)
    requires i.OpZeroBranch? || i.OpImmediateBranch? || i.OpSwitch?
    ensures Follows(TransferBranching(i, ShapeOf(s)), LocalBranching(i, next, s, choice), i, next)
  {
    NextIn(i, next);
    AtShape(s, i.bank);
    TopShape(s.At(i.bank), Int);
    if TopHolds(s.At(i.bank), Int) {
      PopShape(s, i.bank);
      if !i.OpSwitch? {
        TwoWay(i, next, i.target);
      } else {
        ChosenIn(i, next, TopBits(s, i.bank) as nat);
      }
    }
  }

  lemma BranchingSound(i: Op, next: nat, s: Banks<Slot>, choice: Cell)
    requires Branching(i)
    ensures Follows(TransferBranching(i, ShapeOf(s)), LocalBranching(i, next, s, choice), i, next)
  {
    match i
    case OpJump(t) => assert Successors(i, next) == [t];
    case OpAbort(_) =>
    case OpSwitch(_, _) => PopBranchSound(i, next, s, choice);
    case OpZeroBranch(_, _, _) => PopBranchSound(i, next, s, choice);
    case OpImmediateBranch(_, _, _, _, _) => PopBranchSound(i, next, s, choice);
    case _ => BranchSound(i, next, s, choice);
  }

  lemma FrameSound(i: Op, next: nat, s: Banks<Slot>, choice: Cell)
    requires i.OpFrameLoad? || i.OpFrameStore? || i.OpFrameAddress?
    ensures Follows(TransferTouching(i, ShapeOf(s)), LocalTouching(i, next, s, choice), i, next)
  {
    hide FrameBytes;
    NextIn(i, next);
    match i
    case OpFrameLoad(x, _, _, kind) => PushShape(s, x, Held(kind, choice));
    case OpFrameStore(x, _, _) =>
      AtShape(s, x);
      TopShape(s.At(x), Int);
      if s.Has(x, 0) {
        PopShape(s, x);
      }
    case OpFrameAddress(x, _, _) => PushShape(s, x, Held(Addr, choice));
  }

  lemma TouchingSound(i: Op, next: nat, s: Banks<Slot>, choice: Cell)
    requires Touching(i)
    ensures Follows(TransferTouching(i, ShapeOf(s)), LocalTouching(i, next, s, choice), i, next)
  {
    hide FrameBytes;
    if i.OpFrameLoad? || i.OpFrameStore? || i.OpFrameAddress? {
      FrameSound(i, next, s, choice);
    } else {
      NextIn(i, next);
      var x := i.bank;
      AtShape(s, x);
      TopShape(s.At(x), Addr);
      if s.Has(x, 0) && i.OpLoad? {
        ReplaceShape(s, x, Held(i.kind, choice));
      } else if s.Has(x, 0) && s.Has(Opposite(x), 0) {
        AtShape(s, Opposite(x));
        TopShape(s.At(Opposite(x)), Int);
        BothPopped(s, x);
      }
    }
  }

  /** An instruction that fits the shapes never goes wrong and leaves the predicted shapes. */
  lemma LocalSound(f: Function, i: Op, next: nat, s: Banks<Slot>, choice: Cell)
    requires !Leaving(i)
    ensures Follows(Transfer(f, None, i, ShapeOf(s)), Local(i, next, s, choice), i, next)
  {
    hide TransferMoving, TransferFraming, TransferComputing, TransferBranching, TransferTouching;
    hide LocalMoving, LocalFraming, LocalComputing, LocalBranching, LocalTouching;
    if Moving(i) {
      MovingSound(i, next, s);
    } else if Framing(i) {
      FramingSound(i, next, s);
    } else if Computing(i) {
      ComputingSound(i, next, s, choice);
    } else if Branching(i) {
      BranchingSound(i, next, s, choice);
    } else {
      TouchingSound(i, next, s, choice);
    }
  }
}
