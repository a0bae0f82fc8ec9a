/** Applying instructions to stack shapes held in the pool. */
module ShapeTransfer {
  import opened Words
  import opened Bytecode
  import opened Shapes
  import opened ShapePool
  import opened ShapeOps
  import opened TypedCode

  /** The three stacks of an instruction, as pool indices. */
  datatype Indices = Indices(a: nat, b: nat, c: nat) {
    function At(s: Stack): nat {
      match s case A => a case B => b case C => c
    }

    function With(s: Stack, v: nat): Indices {
      match s
      case A => Indices(v, b, c)
      case B => Indices(a, v, c)
      case C => Indices(a, b, v)
    }
  }

  predicate InPool(lists: seq<Layout>, ix: Indices) {
    ix.a < |lists| && ix.b < |lists| && ix.c < |lists|
  }

  function ShapeAt(lists: seq<Layout>, ix: Indices): Shape
    requires InPool(lists, ix)
  {
    Banks(lists[ix.a], lists[ix.b], lists[ix.c])
  }

  /** The operand stacks hold no byte blocks. */
  predicate Flat(s: Shape) {
    AllScalar(s.a) && AllScalar(s.b)
  }

  /** The result `ix` of applying an instruction, against what the instruction should do. When the
      pool has reached its limit the indices mean nothing. */
  ghost predicate Matches(t: Option<Shape>, ok: bool, limited: bool, lists: seq<Layout>, ix: Indices) {
    && InPool(lists, ix)
    && (ok ==> limited || t == Some(ShapeAt(lists, ix)))
    && (!ok ==> t == None)
  }

  lemma WithAt(lists: seq<Layout>, ix: Indices, s: Stack, v: nat)
    requires InPool(lists, ix) && v < |lists|
    ensures InPool(lists, ix.With(s, v)) && ShapeAt(lists, ix.With(s, v)) == ShapeAt(lists, ix).Put(s, lists[v])
  {
  }

  lemma Grown(lists: seq<Layout>, lists': seq<Layout>, ix: Indices)
    requires lists <= lists' && InPool(lists, ix)
    ensures InPool(lists', ix) && ShapeAt(lists', ix) == ShapeAt(lists, ix)
  {
  }

  lemma AtIn(lists: seq<Layout>, ix: Indices, s: Stack)
    requires InPool(lists, ix)
    ensures ix.At(s) < |lists| && lists[ix.At(s)] == ShapeAt(lists, ix).At(s)
  {
  }

  lemma AtC(lists: seq<Layout>, ix: Indices)
    requires InPool(lists, ix)
    ensures ShapeAt(lists, ix).c == lists[ix.c]
  {
  }

  // ----- looking at a stack -----

  method NonEmpty(pool: Pool, v: nat) returns (ok: bool)
    requires pool.Valid() && v < |pool.lists|
    ensures ok <==> pool.lists[v] != []
  {
    TopOf(pool.nodes, pool.lists, v);
    DepthCovers(pool.lists[v]);
    ok := pool.nodes[v].depth >= 1;
  }

  method AtLeast(pool: Pool, v: nat, count: nat) returns (ok: bool)
    requires pool.Valid() && v < |pool.lists| && AllScalar(pool.lists[v])
    ensures ok <==> count <= |pool.lists[v]|
  {
    TopOf(pool.nodes, pool.lists, v);
    DepthScalar(pool.lists[v]);
    ok := pool.nodes[v].depth >= count;
  }

  method DepthIs(pool: Pool, v: nat, count: nat) returns (ok: bool)
    requires pool.Valid() && v < |pool.lists|
    ensures ok <==> Depth(pool.lists[v]) == count
  {
    TopOf(pool.nodes, pool.lists, v);
    ok := pool.nodes[v].depth == count;
  }

  /** The entry on top and the stack under it. */
  method Split(pool: Pool, v: nat) returns (top: Entry, rest: nat)
    requires pool.Valid() && v < |pool.lists| && pool.lists[v] != []
    ensures rest < |pool.lists| && pool.lists[rest] == Init(pool.lists[v]) && top == Last(pool.lists[v])
    ensures Span(top) > 0
  {
    TopOf(pool.nodes, pool.lists, v);
    top, rest := pool.nodes[v].entry, pool.nodes[v].prev;
  }

  method KindOnTop(pool: Pool, v: nat, kind: Kind) returns (ok: bool)
    requires pool.Valid() && v < |pool.lists|
    ensures ok <==> TopIs(pool.lists[v], kind)
  {
    ok := NonEmpty(pool, v);
    if ok {
      var top, _ := Split(pool, v);
      ok := top == Scalar(kind);
    }
  }

  // ----- pushing and popping -----

  /** The most cells that applying an instruction asks the pool for; `g` is the callee of a call. */
  function Room(op: Op, g: Option<Function>): nat {
    match op
    case OpCPush(_, count) => count
    case OpCGet(_, _, count) => count
    case OpCSet(_, depth) => depth + 1
    case OpAllocate(bytes) => Span(Block(bytes))
    case OpCall(_, _, _) => if g.Some? then |g.value.results| else 0
    case _ => 1
  }

  ghost predicate Kept(pool: Pool, lists: seq<Layout>, limited: bool)
    reads pool
  {
    pool.Valid() && lists <= pool.lists && (limited ==> pool.limited)
  }

  method PushOn(pool: Pool, ix: Indices, x: Stack, e: Entry) returns (ix': Indices)
    requires pool.Valid() && InPool(pool.lists, ix) && Span(e) > 0
    modifies pool
    ensures Kept(pool, old(pool.lists), old(pool.limited)) && InPool(pool.lists, ix')
    ensures !pool.limited ==> ShapeAt(pool.lists, ix') == ShapeAt(old(pool.lists), ix).Push(x, e)
    ensures pool.cells == old(pool.cells) + Span(e)
  {
    ghost var lists := pool.lists;
    AtIn(lists, ix, x);
    var v := pool.Intern(ix.At(x), e);
    Grown(lists, pool.lists, ix);
    WithAt(pool.lists, ix, x, v);
    ix' := ix.With(x, v);
  }

  method PopOff(pool: Pool, ix: Indices, x: Stack) returns (top: Entry, ix': Indices)
    requires pool.Valid() && InPool(pool.lists, ix) && ShapeAt(pool.lists, ix).Has(x, 0)
    ensures InPool(pool.lists, ix') && Span(top) > 0
    ensures top == ShapeAt(pool.lists, ix).Peek(x, 0) && ShapeAt(pool.lists, ix') == ShapeAt(pool.lists, ix).Pop(x)
  {
    AtIn(pool.lists, ix, x);
    var rest;
    top, rest := Split(pool, ix.At(x));
    WithAt(pool.lists, ix, x, rest);
    ix' := ix.With(x, rest);
  }

  /** Replace the kind on top. */
  method Retype(pool: Pool, ix: Indices, x: Stack, kind: Kind) returns (ix': Indices)
    requires pool.Valid() && InPool(pool.lists, ix) && ShapeAt(pool.lists, ix).Has(x, 0)
    modifies pool
    ensures Kept(pool, old(pool.lists), old(pool.limited)) && InPool(pool.lists, ix')
    ensures !pool.limited ==> ShapeAt(pool.lists, ix') == Replaced(ShapeAt(old(pool.lists), ix), x, kind)
    ensures pool.cells == old(pool.cells) + 1
  {
    var _, under := PopOff(pool, ix, x);
    ix' := PushOn(pool, under, x, Scalar(kind));
  }

  method Has(pool: Pool, ix: Indices, x: Stack) returns (ok: bool)
    requires pool.Valid() && InPool(pool.lists, ix)
    ensures ok <==> ShapeAt(pool.lists, ix).Has(x, 0)
  {
    AtIn(pool.lists, ix, x);
    ok := NonEmpty(pool, ix.At(x));
  }

  method HasKind(pool: Pool, ix: Indices, x: Stack, kind: Kind) returns (ok: bool)
    requires pool.Valid() && InPool(pool.lists, ix)
    ensures ok <==> TopIs(ShapeAt(pool.lists, ix).At(x), kind)
    ensures ok ==> ShapeAt(pool.lists, ix).Has(x, 0)
  {
    AtIn(pool.lists, ix, x);
    ok := KindOnTop(pool, ix.At(x), kind);
  }

  lemma Unchanged(pool: Pool)
    requires pool.Valid()
    ensures Kept(pool, pool.lists, pool.limited)
  {
  }

  // ----- instructions -----

  method ApplyMoving(pool: Pool, op: Op, ix: Indices) returns (ok: bool, ix': Indices)
    requires pool.Valid() && InPool(pool.lists, ix) && Moving(op) && Flat(ShapeAt(pool.lists, ix))
    modifies pool
    ensures Kept(pool, old(pool.lists), old(pool.limited))
    ensures Matches(TransferMoving(op, ShapeAt(old(pool.lists), ix)), ok, pool.limited, pool.lists, ix')
    ensures pool.cells <= old(pool.cells) + Room(op, None)
  {
    hide Pool.Valid, ShapeAt, Flat, Banks.At, Banks.Has, Banks.Peek, Banks.Pop, Banks.Push, Banks.Put;
    ok, ix' := true, ix;
    Unchanged(pool);
    if op.OpPush? {
      ix' := PushOn(pool, ix, op.bank, Scalar(Int));
      return;
    }
    ok := Has(pool, ix, op.bank);
    if !ok {
      return;
    }
    FlatTop(ShapeAt(pool.lists, ix), op.bank);
    var top, under := PopOff(pool, ix, op.bank);
    if op.OpDrop? {
      ix' := under;
    } else {
      ix' := PushOn(pool, if op.OpMove? then under else ix, if op.OpDup? then op.bank else Opposite(op.bank), top);
    }
  }

  method PairFits(pool: Pool, ix: Indices, x: Bank, identity: bool) returns (ok: bool)
    requires pool.Valid() && InPool(pool.lists, ix)
    ensures var s := ShapeAt(pool.lists, ix);
      && (ok <==> PairOk(identity, s.At(x), s.At(Opposite(x))))
      && (ok ==> s.Has(x, 0) && s.Has(Opposite(x), 0) && s.Pop(Opposite(x)).Has(x, 0))
  {
    var xa := HasKind(pool, ix, x, Addr);
    var ya := HasKind(pool, ix, Opposite(x), Addr);
    if identity && xa && ya {
      return true;
    }
    var xi := HasKind(pool, ix, x, Int);
    var yi := HasKind(pool, ix, Opposite(x), Int);
    ok := xi && yi;
  }

  method BothFloat(pool: Pool, ix: Indices, x: Bank) returns (ok: bool)
    requires pool.Valid() && InPool(pool.lists, ix)
    ensures var s := ShapeAt(pool.lists, ix);
      && (ok <==> TopIs(s.At(x), Float) && TopIs(s.At(Opposite(x)), Float))
      && (ok ==> s.Has(x, 0) && s.Has(Opposite(x), 0) && s.Pop(Opposite(x)).Has(x, 0))
  {
    var xf := HasKind(pool, ix, x, Float);
    var yf := HasKind(pool, ix, Opposite(x), Float);
    ok := xf && yf;
  }

  method ApplyPair(pool: Pool, op: Op, ix: Indices) returns (ok: bool, ix': Indices)
    requires pool.Valid() && InPool(pool.lists, ix) && (op.OpBinary? || op.OpFloatBinary?)
    modifies pool
    ensures Kept(pool, old(pool.lists), old(pool.limited))
    ensures Matches(TransferComputing(op, ShapeAt(old(pool.lists), ix)), ok, pool.limited, pool.lists, ix')
    ensures pool.cells <= old(pool.cells) + Room(op, None)
  {
    hide Pool.Valid, ShapeAt, Banks.At, Banks.Pop, Banks.Put, Banks.Has, Banks.Peek, Replaced, PairOk, TopIs;
    ix' := ix;
    Unchanged(pool);
    var x := op.bank;
    if op.OpBinary? {
      ok := PairFits(pool, ix, x, TestsEquality(op.op));
    } else {
      ok := BothFloat(pool, ix, x);
    }
    if ok {
      var _, under := PopOff(pool, ix, Opposite(x));
      ix' := Retype(pool, under, x, if op.OpBinary? || op.compares then Int else Float);
    }
  }

  method ApplySingle(pool: Pool, op: Op, ix: Indices) returns (ok: bool, ix': Indices)
    requires pool.Valid() && InPool(pool.lists, ix) && Computing(op) && !op.OpBinary? && !op.OpFloatBinary?
    modifies pool
    ensures Kept(pool, old(pool.lists), old(pool.limited))
    ensures Matches(TransferComputing(op, ShapeAt(old(pool.lists), ix)), ok, pool.limited, pool.lists, ix')
    ensures pool.cells <= old(pool.cells) + Room(op, None)
  {
    hide Pool.Valid, ShapeAt, Banks.At, Banks.Pop, Banks.Put, Banks.Has, Banks.Peek, Replaced, TopIs, CellAt;
    ix' := ix;
    Unchanged(pool);
    ok := HasKind(pool, ix, op.bank, if op.OpConvert? then op.from else Int);
    if ok && op.OpConvert? {
      ix' := Retype(pool, ix, op.bank, op.to);
    } else if ok && op.OpCOperand? {
      AtC(pool.lists, ix);
      var slot := FindCell(pool, ix.c, op.depth);
      ok := slot != 0 && pool.nodes[slot].entry == Scalar(Int);
    }
  }

  method ApplyComputing(pool: Pool, op: Op, ix: Indices) returns (ok: bool, ix': Indices)
    requires pool.Valid() && InPool(pool.lists, ix) && Computing(op)
    modifies pool
    ensures Kept(pool, old(pool.lists), old(pool.limited))
    ensures Matches(TransferComputing(op, ShapeAt(old(pool.lists), ix)), ok, pool.limited, pool.lists, ix')
    ensures pool.cells <= old(pool.cells) + Room(op, None)
  {
    hide *;
    if op.OpBinary? || op.OpFloatBinary? {
      ok, ix' := ApplyPair(pool, op, ix);
    } else {
      ok, ix' := ApplySingle(pool, op, ix);
    }
  }

  method ApplyBranching(pool: Pool, op: Op, ix: Indices) returns (ok: bool, ix': Indices)
    requires pool.Valid() && InPool(pool.lists, ix) && Branching(op)
    ensures Matches(TransferBranching(op, ShapeAt(pool.lists, ix)), ok, pool.limited, pool.lists, ix')
  {
    hide Pool.Valid, ShapeAt, Banks.At, Banks.Pop, Banks.Put, Banks.Has, Banks.Peek, PairOk, TopIs;
    ok, ix' := true, ix;
    if op.OpJump? || op.OpAbort? {
      return;
    }
    if op.OpZeroBranch? || op.OpImmediateBranch? || op.OpSwitch? {
      ok := HasKind(pool, ix, op.bank, Int);
      if ok {
        var _, under := PopOff(pool, ix, op.bank);
        ix' := under;
      }
      return;
    }
    if op.OpBranch? {
      ok := PairFits(pool, ix, op.bank, op.relation == RelEQ || op.relation == RelNE);
    } else {
      ok := BothFloat(pool, ix, op.bank);
    }
    if ok {
      ix' := DropPair(pool, ix, op.bank);
    }
  }

  method DropPair(pool: Pool, ix: Indices, x: Bank) returns (ix': Indices)
    requires pool.Valid() && InPool(pool.lists, ix)
    requires ShapeAt(pool.lists, ix).Has(x, 0) && ShapeAt(pool.lists, ix).Has(Opposite(x), 0)
    ensures InPool(pool.lists, ix')
    ensures var s := ShapeAt(pool.lists, ix);
      s.Pop(x).Has(Opposite(x), 0) && ShapeAt(pool.lists, ix') == s.Pop(x).Pop(Opposite(x))
  {
    var _, under := PopOff(pool, ix, x);
    var _, both := PopOff(pool, under, Opposite(x));
    ix' := both;
  }

  method StoreFits(pool: Pool, ix: Indices, x: Bank, width: nat) returns (ok: bool)
    requires pool.Valid() && InPool(pool.lists, ix)
    ensures ok <==> StoreOk(ShapeAt(pool.lists, ix).At(x), width)
    ensures ok ==> ShapeAt(pool.lists, ix).Has(x, 0)
  {
    ok := Has(pool, ix, x);
    if ok && width < 8 {
      ok := HasKind(pool, ix, x, Int);
    }
  }

  method ApplyFrame(pool: Pool, op: Op, ix: Indices) returns (ok: bool, ix': Indices)
    requires pool.Valid() && InPool(pool.lists, ix) && (op.OpFrameLoad? || op.OpFrameStore? || op.OpFrameAddress?)
    modifies pool
    ensures Kept(pool, old(pool.lists), old(pool.limited))
    ensures Matches(TransferTouching(op, ShapeAt(old(pool.lists), ix)), ok, pool.limited, pool.lists, ix')
    ensures pool.cells <= old(pool.cells) + Room(op, None)
  {
    hide Pool.Valid, ShapeAt, Banks.At, Banks.Pop, Banks.Put, Banks.Has, Banks.Peek, StoreOk, FrameBytes;
    ix' := ix;
    Unchanged(pool);
    AtC(pool.lists, ix);
    ok := FrameAccess(pool, ix.c, op.offset, op.width);
    if !ok {
      return;
    }
    if op.OpFrameStore? {
      ok := StoreFits(pool, ix, op.bank, op.width);
      if ok {
        var _, under := PopOff(pool, ix, op.bank);
        ix' := under;
      }
    } else {
      ix' := PushOn(pool, ix, op.bank, Scalar(if op.OpFrameLoad? then op.kind else Addr));
    }
  }

  method ApplyTouching(pool: Pool, op: Op, ix: Indices) returns (ok: bool, ix': Indices)
    requires pool.Valid() && InPool(pool.lists, ix) && Touching(op)
    modifies pool
    ensures Kept(pool, old(pool.lists), old(pool.limited))
    ensures Matches(TransferTouching(op, ShapeAt(old(pool.lists), ix)), ok, pool.limited, pool.lists, ix')
    ensures pool.cells <= old(pool.cells) + Room(op, None)
  {
    hide Pool.Valid, ShapeAt, Banks.At, Banks.Pop, Banks.Put, Banks.Has, Banks.Peek, StoreOk, FrameBytes, TopIs;
    hide Replaced;
    ix' := ix;
    if !op.OpLoad? && !op.OpStore? {
      ok, ix' := ApplyFrame(pool, op, ix);
      return;
    }
    Unchanged(pool);
    ok := HasKind(pool, ix, op.bank, Addr);
    if ok && op.OpLoad? {
      ix' := Retype(pool, ix, op.bank, op.kind);
    } else if ok {
      ok := StoreFits(pool, ix, Opposite(op.bank), op.width);
      if ok {
        ix' := DropPair(pool, ix, op.bank);
      }
    }
  }

  // ----- the frame stack -----

  method ApplyCPush(pool: Pool, op: Op, ix: Indices) returns (ok: bool, ix': Indices)
    requires pool.Valid() && InPool(pool.lists, ix) && op.OpCPush? && Flat(ShapeAt(pool.lists, ix))
    modifies pool
    ensures Kept(pool, old(pool.lists), old(pool.limited))
    ensures Matches(TransferFraming(op, ShapeAt(old(pool.lists), ix)), ok, pool.limited, pool.lists, ix')
    ensures pool.cells <= old(pool.cells) + Room(op, None)
  {
    hide Pool.Valid, Poured, Kept, ShapeAt, Flat;
    ix' := ix;
    Unchanged(pool);
    FlatAt(ShapeAt(pool.lists, ix), op.bank);
    AtC(pool.lists, ix);
    AtIn(pool.lists, ix, op.bank);
    ok := AtLeast(pool, ix.At(op.bank), op.count);
    if !ok {
      return;
    }
    ghost var lists, s := pool.lists, ShapeAt(pool.lists, ix);
    var from, to := Pour(pool, ix.At(op.bank), ix.c, op.count);
    KeptGrows(pool, lists, old(pool.limited));
    Grown(lists, pool.lists, ix);
    WithAt(pool.lists, ix, op.bank, from);
    WithAt(pool.lists, ix.With(op.bank, from), C, to);
    ix' := ix.With(op.bank, from).With(C, to);
  }

  lemma FlatAt(s: Shape, x: Bank)
    requires Flat(s)
    ensures AllScalar(s.At(x))
  {
  }

  /** Move cells one at a time from the top of one stack to the top of another. */
  method Pour(pool: Pool, source: nat, target: nat, count: nat) returns (from: nat, to: nat)
    requires pool.Valid() && source < |pool.lists| && target < |pool.lists| && count <= |pool.lists[source]|
    requires AllScalar(pool.lists[source])
    modifies pool
    ensures Kept(pool, old(pool.lists), old(pool.limited)) && from < |pool.lists| && to < |pool.lists|
    ensures var l := old(pool.lists)[source];
      && pool.lists[from] == l[..|l| - count]
      && (!pool.limited ==> pool.lists[to] == Poured(old(pool.lists)[target], l, count))
    ensures pool.cells == old(pool.cells) + count
  {
    hide *;
    from, to := source, target;
    ghost var l, c := pool.lists[source], pool.lists[target];
    var left: nat := count;
    HalfwayStart(pool, count, from, to);
    ghost var lists, limited := pool.lists, pool.limited;
    Unchanged(pool);
    while left > 0
      invariant Kept(pool, lists, limited) && Halfway(pool, l, c, count, left, from, to)
      invariant pool.cells + left == old(pool.cells) + count
    {
      from, to := PourOne(pool, lists, limited, l, c, count, left, from, to);
      left := left - 1;
    }
    PouredEnd(pool, l, c, count, from, to);
  }

  ghost predicate Halfway(pool: Pool, l: Layout, c: Layout, count: nat, left: nat, from: nat, to: nat)
    reads pool
  {
    && from < |pool.lists| && to < |pool.lists| && PouredFrom(l, count, left, pool.lists[from]) && AllScalar(l)
    && (!pool.limited ==> Pouring(l, c, count, left, pool.lists[from], pool.lists[to]))
  }

  method PourOne(pool: Pool, ghost lists: seq<Layout>, ghost limited: bool,
    ghost l: Layout, ghost c: Layout, ghost count: nat, ghost left: nat, from: nat, to: nat)
    returns (from': nat, to': nat)
    requires Kept(pool, lists, limited) && left > 0 && Halfway(pool, l, c, count, left, from, to)
    modifies pool
    ensures Kept(pool, lists, limited) && Halfway(pool, l, c, count, left - 1, from', to')
    ensures pool.cells == old(pool.cells) + 1
  {
    hide *;
    KeptGrows(pool, lists, limited);
    HalfwayNow(pool, l, c, count, left, from, to);
    ghost var before, stopped := pool.lists, pool.limited;
    var top;
    top, from' := Split(pool, from);
    SpanScalar(top);
    to' := pool.Intern(to, top);
    KeptOn(pool, lists, limited, before, stopped);
    HalfwayNext(pool, l, c, count, left, before[from], before[to], from', to', stopped);
  }

  lemma SpanScalar(e: Entry)
    requires e.Scalar?
    ensures Span(e) == 1
  {
  }

  lemma KeptOn(pool: Pool, lists: seq<Layout>, limited: bool, before: seq<Layout>, stopped: bool)
    requires pool.Valid() && lists <= before <= pool.lists && (limited ==> stopped) && (stopped ==> pool.limited)
    ensures Kept(pool, lists, limited)
  {
    hide Pool.Valid;
  }

  lemma HalfwayNow(pool: Pool, l: Layout, c: Layout, count: nat, left: nat, from: nat, to: nat)
    requires left > 0 && Halfway(pool, l, c, count, left, from, to)
    ensures from < |pool.lists| && to < |pool.lists| && PouredFrom(l, count, left, pool.lists[from]) && AllScalar(l)
    ensures pool.lists[from] != [] && Last(pool.lists[from]).Scalar?
    ensures !pool.limited ==> Pouring(l, c, count, left, pool.lists[from], pool.lists[to])
  {
    PouredMore(l, count, left, pool.lists[from]);
  }

  lemma HalfwayNext(pool: Pool, l: Layout, c: Layout, count: nat, left: nat, f: Layout, t: Layout, from: nat, to: nat,
    stopped: bool)
    requires left > 0 && PouredFrom(l, count, left, f) && AllScalar(l) && f != []
    requires from < |pool.lists| && to < |pool.lists| && pool.lists[from] == Init(f)
    requires !pool.limited ==> !stopped && pool.lists[to] == t + [Last(f)]
    requires !stopped ==> Pouring(l, c, count, left, f, t)
    ensures Halfway(pool, l, c, count, left - 1, from, to)
  {
    hide Poured, AllScalar;
    PouredMore(l, count, left, f);
    if !pool.limited {
      PouringStep(l, c, count, left, f, t);
    }
  }

  /** `from` is what is left of `l` when `left` of `count` cells are still to move. */
  predicate PouredFrom(l: Layout, count: nat, left: nat, from: Layout) {
    left <= count <= |l| && from == l[..|l| - (count - left)]
  }

  predicate Pouring(l: Layout, c: Layout, count: nat, left: nat, from: Layout, to: Layout) {
    PouredFrom(l, count, left, from) && Poured(to, from, left) == Poured(c, l, count)
  }

  lemma HalfwayStart(pool: Pool, count: nat, from: nat, to: nat)
    requires from < |pool.lists| && to < |pool.lists| && count <= |pool.lists[from]| && AllScalar(pool.lists[from])
    ensures Halfway(pool, pool.lists[from], pool.lists[to], count, count, from, to)
  {
  }

  lemma PouredMore(l: Layout, count: nat, left: nat, from: Layout)
    requires PouredFrom(l, count, left, from) && left > 0 && AllScalar(l)
    ensures from != [] && PouredFrom(l, count, left - 1, Init(from)) && Last(from).Scalar?
  {
  }

  lemma PouringStep(l: Layout, c: Layout, count: nat, left: nat, from: Layout, to: Layout)
    requires Pouring(l, c, count, left, from, to) && left > 0
    ensures from != [] && Pouring(l, c, count, left - 1, Init(from), to + [Last(from)])
  {
  }

  lemma PouredEnd(pool: Pool, l: Layout, c: Layout, count: nat, from: nat, to: nat)
    requires Halfway(pool, l, c, count, 0, from, to)
    ensures from < |pool.lists| && to < |pool.lists| && count <= |l| && pool.lists[from] == l[..|l| - count]
    ensures !pool.limited ==> pool.lists[to] == Poured(c, l, count)
  {
  }

  // ----- gathering cells of the frame -----

  lemma {:induction false} GatheredFails(c: Layout, depth: nat, n: nat, count: nat)
    requires n <= count && Gathered(c, depth, n) == None
    ensures Gathered(c, depth, count) == None
    decreases count
  {
    if n < count {
      GatheredFails(c, depth, n, count - 1);
    }
  }

  /** The first `n` cells have been pushed on `l`. */
  ghost predicate Gathering(pool: Pool, l: Layout, c: Layout, depth: nat, n: nat, stack: nat, bottom: nat)
    reads pool
  {
    && stack < |pool.lists| && bottom < |pool.lists| && pool.lists[bottom] == c
    && Gathered(c, depth, n).Some?
    && (!pool.limited ==> pool.lists[stack] == l + Gathered(c, depth, n).value)
  }

  lemma GatheringStart(pool: Pool, depth: nat, stack: nat, bottom: nat)
    requires stack < |pool.lists| && bottom < |pool.lists|
    ensures Gathering(pool, pool.lists[stack], pool.lists[bottom], depth, 0, stack, bottom)
  {
  }

  method GatherOne(pool: Pool, ghost lists: seq<Layout>, ghost limited: bool,
    ghost l: Layout, ghost c: Layout, depth: nat, n: nat, stack: nat, bottom: nat) returns (ok: bool, stack': nat)
    requires Kept(pool, lists, limited) && Gathering(pool, l, c, depth, n, stack, bottom)
    modifies pool
    ensures Kept(pool, lists, limited) && stack' < |pool.lists|
    ensures pool.cells <= old(pool.cells) + 1
    ensures ok ==> Gathering(pool, l, c, depth, n + 1, stack', bottom)
    ensures !ok ==> Gathered(c, depth, n + 1) == None
  {
    hide Pool.Valid, CellAt;
    stack' := stack;
    var slot := FindCell(pool, bottom, depth + n);
    ok := slot != 0;
    if ok {
      ghost var base := pool.lists[stack];
      var e := pool.nodes[slot].entry;
      stack' := pool.Intern(stack, e);
    }
  }

  method Gather(pool: Pool, stack: nat, bottom: nat, depth: nat, count: nat) returns (ok: bool, stack': nat)
    requires pool.Valid() && stack < |pool.lists| && bottom < |pool.lists|
    modifies pool
    ensures Kept(pool, old(pool.lists), old(pool.limited)) && stack' < |pool.lists|
    ensures !ok ==> Gathered(old(pool.lists)[bottom], depth, count) == None
    ensures ok ==> Gathered(old(pool.lists)[bottom], depth, count).Some?
    ensures ok && !pool.limited ==>
      pool.lists[stack'] == old(pool.lists)[stack] + Gathered(old(pool.lists)[bottom], depth, count).value
    ensures pool.cells <= old(pool.cells) + count
  {
    hide *;
    ghost var lists, limited, l, c := pool.lists, pool.limited, pool.lists[stack], pool.lists[bottom];
    GatheringStart(pool, depth, stack, bottom);
    Unchanged(pool);
    stack' := stack;
    for n := 0 to count
      invariant Kept(pool, lists, limited) && Gathering(pool, l, c, depth, n, stack', bottom)
      invariant pool.cells <= old(pool.cells) + n
    {
      ok, stack' := GatherOne(pool, lists, limited, l, c, depth, n, stack', bottom);
      if !ok {
        GatheredFails(c, depth, n + 1, count);
        return;
      }
    }
    GatheringEnd(pool, l, c, depth, count, stack', bottom);
    ok := true;
  }

  lemma GatheringEnd(pool: Pool, l: Layout, c: Layout, depth: nat, n: nat, stack: nat, bottom: nat)
    requires Gathering(pool, l, c, depth, n, stack, bottom)
    ensures stack < |pool.lists| && Gathered(c, depth, n).Some?
    ensures !pool.limited ==> pool.lists[stack] == l + Gathered(c, depth, n).value
  {
  }

  method ApplyCGet(pool: Pool, op: Op, ix: Indices) returns (ok: bool, ix': Indices)
    requires pool.Valid() && InPool(pool.lists, ix) && op.OpCGet?
    modifies pool
    ensures Kept(pool, old(pool.lists), old(pool.limited))
    ensures Matches(TransferFraming(op, ShapeAt(old(pool.lists), ix)), ok, pool.limited, pool.lists, ix')
    ensures pool.cells <= old(pool.cells) + Room(op, None)
  {
    hide Pool.Valid, Gathered, Kept;
    ghost var lists := pool.lists;
    AtIn(lists, ix, op.bank);
    var v;
    ok, v := Gather(pool, ix.At(op.bank), ix.c, op.depth, op.count);
    KeptGrows(pool, lists, old(pool.limited));
    Grown(lists, pool.lists, ix);
    WithAt(pool.lists, ix, op.bank, v);
    ix' := ix.With(op.bank, v);
  }

  lemma KeptGrows(pool: Pool, lists: seq<Layout>, limited: bool)
    requires Kept(pool, lists, limited)
    ensures pool.Valid() && lists <= pool.lists && (limited ==> pool.limited)
  {
  }

  method ApplyCSet(pool: Pool, op: Op, ix: Indices) returns (ok: bool, ix': Indices)
    requires pool.Valid() && InPool(pool.lists, ix) && op.OpCSet? && SmallOperands(op) && Flat(ShapeAt(pool.lists, ix))
    modifies pool
    ensures Kept(pool, old(pool.lists), old(pool.limited))
    ensures Matches(TransferFraming(op, ShapeAt(old(pool.lists), ix)), ok, pool.limited, pool.lists, ix')
    ensures pool.cells <= old(pool.cells) + Room(op, None)
  {
    hide Pool.Valid, CellAt, CellSet, ShapeAt, Banks.At, Banks.Pop, Banks.Put, Banks.Has, Banks.Peek;
    ghost var lists, s := pool.lists, ShapeAt(pool.lists, ix);
    ix' := ix;
    Unchanged(pool);
    ok := Has(pool, ix, op.bank);
    if !ok {
      return;
    }
    AtC(lists, ix);
    var slot := FindCell(pool, ix.c, op.depth);
    ok := slot != 0;
    if ok {
      FlatTop(s, op.bank);
      var top, under := PopOff(pool, ix, op.bank);
      PopC(lists, ix, under, op.bank);
      var v := SetCell(pool, under.c, op.depth, top.kind);
      Grown(lists, pool.lists, under);
      WithAt(pool.lists, under, C, v);
      ix' := under.With(C, v);
    }
  }

  lemma FlatTop(s: Shape, x: Bank)
    requires Flat(s) && s.Has(x, 0)
    ensures s.Peek(x, 0).Scalar?
  {
  }

  lemma PopC(lists: seq<Layout>, ix: Indices, under: Indices, x: Bank)
    requires InPool(lists, ix) && InPool(lists, under) && ShapeAt(lists, ix).Has(x, 0)
    requires ShapeAt(lists, under) == ShapeAt(lists, ix).Pop(x)
    ensures lists[under.c] == ShapeAt(lists, ix).c
  {
  }

  method ApplyFraming(pool: Pool, op: Op, ix: Indices) returns (ok: bool, ix': Indices)
    requires pool.Valid() && InPool(pool.lists, ix) && Framing(op) && SmallOperands(op) && Flat(ShapeAt(pool.lists, ix))
    modifies pool
    ensures Kept(pool, old(pool.lists), old(pool.limited))
    ensures Matches(TransferFraming(op, ShapeAt(old(pool.lists), ix)), ok, pool.limited, pool.lists, ix')
    ensures pool.cells <= old(pool.cells) + Room(op, None)
  {
    hide TransferFraming, Matches, Kept, Pool.Valid, Flat;
    if op.OpCPush? {
      ok, ix' := ApplyCPush(pool, op, ix);
    } else if op.OpCGet? {
      ok, ix' := ApplyCGet(pool, op, ix);
    } else if op.OpCSet? {
      ok, ix' := ApplyCSet(pool, op, ix);
    } else {
      ok, ix' := ApplyBlock(pool, op, ix);
    }
  }

  method ApplyBlock(pool: Pool, op: Op, ix: Indices) returns (ok: bool, ix': Indices)
    requires pool.Valid() && InPool(pool.lists, ix) && (op.OpCPop? || op.OpAllocate? || op.OpFree?)
    modifies pool
    ensures Kept(pool, old(pool.lists), old(pool.limited))
    ensures Matches(TransferFraming(op, ShapeAt(old(pool.lists), ix)), ok, pool.limited, pool.lists, ix')
    ensures pool.cells <= old(pool.cells) + Room(op, None)
  {
    hide Pool.Valid, ShapeAt, Banks.Pop, Banks.Put, Banks.Push;
    ok, ix' := true, ix;
    Unchanged(pool);
    if op.OpAllocate? {
      if op.bytes > 0 {
        ix' := PushOn(pool, ix, C, Block(op.bytes));
      }
      return;
    }
    if op.OpFree? && op.bytes == 0 {
      return;
    }
    ok := Has(pool, ix, C);
    if ok {
      var top, under := PopOff(pool, ix, C);
      ok := if op.OpCPop? then top.Scalar? else top == Block(op.bytes);
      ix' := under;
    }
  }

  // ----- calls -----

  /** Pop the given kinds, the last of them from the top. */
  method PopKinds(pool: Pool, v: nat, kinds: seq<Kind>) returns (ok: bool, rest: nat)
    requires pool.Valid() && v < |pool.lists| && |kinds| <= |pool.lists[v]|
    ensures rest < |pool.lists|
    ensures ok <==> EndsWith(pool.lists[v], kinds)
    ensures ok ==> pool.lists[rest] == pool.lists[v][..|pool.lists[v]| - |kinds|]
  {
    hide *;
    ghost var l := pool.lists[v];
    rest := v;
    PoppingStart(l, kinds);
    for index := |kinds| downto 0
      invariant rest < |pool.lists| && Popping(l, kinds, index, pool.lists[rest])
    {
      PoppingMore(l, kinds, index, pool.lists[rest]);
      var top, under := Split(pool, rest);
      if top != Scalar(kinds[index]) {
        return false, rest;
      }
      rest := under;
    }
    PoppingEnd(l, kinds, pool.lists[rest]);
    ok := true;
  }

  /** All but the first `n` kinds have been popped, leaving `rest`. */
  predicate Popping(l: Layout, kinds: seq<Kind>, n: nat, rest: Layout) {
    && n <= |kinds| <= |l| && rest == l[..|l| - |kinds| + n]
    && l[|l| - |kinds| + n..] == Lift(kinds[n..])
  }

  lemma PoppingStart(l: Layout, kinds: seq<Kind>)
    requires |kinds| <= |l|
    ensures Popping(l, kinds, |kinds|, l)
  {
  }

  lemma PoppingMore(l: Layout, kinds: seq<Kind>, n: nat, rest: Layout)
    requires n < |kinds| && Popping(l, kinds, n + 1, rest)
    ensures rest != []
    ensures if Last(rest) == Scalar(kinds[n]) then Popping(l, kinds, n, Init(rest)) else !EndsWith(l, kinds)
  {
    var at := |l| - |kinds| + n;
    assert l[at..] == [l[at]] + l[at + 1..];
    assert Lift(kinds[n..]) == [Scalar(kinds[n])] + Lift(kinds[n + 1..]);
    if EndsWith(l, kinds) {
      assert l[|l| - |kinds|..][n] == Lift(kinds)[n];
    }
  }

  lemma PoppingEnd(l: Layout, kinds: seq<Kind>, rest: Layout)
    requires Popping(l, kinds, 0, rest)
    ensures EndsWith(l, kinds) && |kinds| <= |l| && rest == l[..|l| - |kinds|]
  {
    assert kinds[0..] == kinds;
  }

  /** Push the given kinds, the last of them on top. */
  method PushKinds(pool: Pool, v: nat, kinds: seq<Kind>) returns (v': nat)
    requires pool.Valid() && v < |pool.lists|
    modifies pool
    ensures Kept(pool, old(pool.lists), old(pool.limited)) && v' < |pool.lists|
    ensures !pool.limited ==> pool.lists[v'] == old(pool.lists)[v] + Lift(kinds)
    ensures pool.cells == old(pool.cells) + |kinds|
  {
    hide *;
    ghost var lists, limited, l := pool.lists, pool.limited, pool.lists[v];
    Unchanged(pool);
    v' := v;
    LiftPrefix(kinds, 0);
    for n := 0 to |kinds|
      invariant Kept(pool, lists, limited) && v' < |pool.lists|
      invariant !pool.limited ==> pool.lists[v'] == l + Lift(kinds[..n])
      invariant pool.cells == old(pool.cells) + n
    {
      v' := PushKept(pool, lists, limited, v', kinds[n]);
      LiftPrefix(kinds, n + 1);
      if !pool.limited {
        assert l + Lift(kinds[..n]) + [Scalar(kinds[n])] == l + (Lift(kinds[..n]) + [Scalar(kinds[n])]);
      }
    }
    assert kinds[..|kinds|] == kinds;
  }

  lemma LiftPrefix(kinds: seq<Kind>, n: nat)
    requires n <= |kinds|
    ensures n == 0 ==> Lift(kinds[..n]) == []
    ensures n > 0 ==> Lift(kinds[..n]) == Lift(kinds[..n - 1]) + [Scalar(kinds[n - 1])]
  {
  }

  method PushKept(pool: Pool, ghost lists: seq<Layout>, ghost limited: bool, v: nat, kind: Kind) returns (v': nat)
    requires Kept(pool, lists, limited) && v < |pool.lists|
    modifies pool
    ensures Kept(pool, lists, limited) && v' < |pool.lists|
    ensures !pool.limited ==> !old(pool.limited) && pool.lists[v'] == old(pool.lists)[v] + [Scalar(kind)]
    ensures pool.cells == old(pool.cells) + 1
  {
    hide Pool.Valid;
    v' := pool.Intern(v, Scalar(kind));
  }

  method IsEmpty(pool: Pool, ix: Indices, x: Stack) returns (ok: bool)
    requires pool.Valid() && InPool(pool.lists, ix)
    ensures ok <==> ShapeAt(pool.lists, ix).At(x) == []
  {
    AtIn(pool.lists, ix, x);
    TopOf(pool.nodes, pool.lists, ix.At(x));
    ok := ix.At(x) == 0;
  }

  /** Pop a callee's arguments. */
  method PopArguments(pool: Pool, ix: Indices, x: Bank, g: Function) returns (ok: bool, rest: nat)
    requires pool.Valid() && InPool(pool.lists, ix) && Flat(ShapeAt(pool.lists, ix))
    ensures rest < |pool.lists|
    ensures var l := ShapeAt(pool.lists, ix).At(x);
      && (ok <==> EndsWith(l, g.arguments)) && (ok ==> pool.lists[rest] == l[..|l| - |g.arguments|])
  {
    hide Pool.Valid;
    AtIn(pool.lists, ix, x);
    rest := ix.At(x);
    ok := AtLeast(pool, rest, |g.arguments|);
    if ok {
      ok, rest := PopKinds(pool, rest, g.arguments);
    }
  }

  method ApplyCall(pool: Pool, op: Op, g: Function, ix: Indices) returns (ok: bool, ix': Indices)
    requires pool.Valid() && InPool(pool.lists, ix) && Flat(ShapeAt(pool.lists, ix)) && op.OpCall?
    modifies pool
    ensures Kept(pool, old(pool.lists), old(pool.limited))
    ensures Matches(CallShape(ShapeAt(old(pool.lists), ix), op.bank, g), ok, pool.limited, pool.lists, ix')
    ensures pool.cells <= old(pool.cells) + Room(op, Some(g))
  {
    hide Pool.Valid, Flat, EndsWith, Kept;
    ix' := ix;
    ghost var lists := pool.lists;
    Unchanged(pool);
    var rest;
    ok, rest := PopArguments(pool, ix, op.bank, g);
    if ok {
      var v := PushKinds(pool, rest, g.results);
      KeptGrows(pool, lists, old(pool.limited));
      Grown(lists, pool.lists, ix);
      WithAt(pool.lists, ix, op.bank, v);
      ix' := ix.With(op.bank, v);
    }
  }

  method ApplyTail(pool: Pool, op: Op, g: Function, ix: Indices) returns (ok: bool, ix': Indices)
    requires pool.Valid() && InPool(pool.lists, ix) && Flat(ShapeAt(pool.lists, ix)) && op.OpTailCall?
    ensures Matches(TailShape(ShapeAt(pool.lists, ix), op.bank, op.frame, g), ok, pool.limited, pool.lists, ix')
  {
    hide Pool.Valid;
    ix' := ix;
    AtIn(pool.lists, ix, op.bank);
    AtC(pool.lists, ix);
    DepthScalar(ShapeAt(pool.lists, ix).At(op.bank));
    var whole := DepthIs(pool, ix.At(op.bank), |g.arguments|);
    var alone := IsEmpty(pool, ix, Opposite(op.bank));
    var framed := DepthIs(pool, ix.c, op.frame);
    ok := whole && alone && framed;
    if ok {
      var rest;
      ok, rest := PopArguments(pool, ix, op.bank, g);
      WholeEnds(ShapeAt(pool.lists, ix).At(op.bank), g.arguments);
      if ok {
        WithAt(pool.lists, ix, op.bank, rest);
        ix' := ix.With(op.bank, rest);
      }
    }
  }

  lemma WholeEnds(l: Layout, kinds: seq<Kind>)
    requires |l| == |kinds|
    ensures EndsWith(l, kinds) <==> l == Lift(kinds)
    ensures l[..|l| - |kinds|] == []
  {
    assert l[0..] == l;
  }

  method ApplyExit(pool: Pool, op: Op, f: Function, g: Option<Function>, ix: Indices) returns (ok: bool)
    requires pool.Valid() && InPool(pool.lists, ix) && (op.OpReturn? || op.OpHalt?)
    ensures Matches(TransferLeaving(f, g, op, ShapeAt(pool.lists, ix)), ok, pool.limited, pool.lists, ix)
  {
    hide Pool.Valid;
    AtIn(pool.lists, ix, op.bank);
    AtC(pool.lists, ix);
    var held := Holds(pool, ix.At(op.bank), f.results);
    var alone := IsEmpty(pool, ix, Opposite(op.bank));
    if op.OpReturn? {
      var framed := DepthIs(pool, ix.c, op.frame);
      ok := framed && alone && op.count == |f.results| && held;
    } else {
      var bare := IsEmpty(pool, ix, C);
      ok := bare && alone && held;
    }
  }

  method ApplyLeaving(pool: Pool, op: Op, f: Function, g: Option<Function>, ix: Indices)
    returns (ok: bool, ix': Indices)
    requires pool.Valid() && InPool(pool.lists, ix) && Flat(ShapeAt(pool.lists, ix)) && Leaving(op)
    modifies pool
    ensures Kept(pool, old(pool.lists), old(pool.limited))
    ensures Matches(TransferLeaving(f, g, op, ShapeAt(old(pool.lists), ix)), ok, pool.limited, pool.lists, ix')
    ensures pool.cells <= old(pool.cells) + Room(op, g)
  {
    hide Pool.Valid, Flat, ShapeAt, CallShape, TailShape;
    ok, ix' := false, ix;
    Unchanged(pool);
    if op.OpReturn? || op.OpHalt? {
      ok := ApplyExit(pool, op, f, g, ix);
    } else if g.None? {
      ok := false;
    } else if op.OpCall? {
      ok, ix' := ApplyCall(pool, op, g.value, ix);
    } else {
      ok, ix' := ApplyTail(pool, op, g.value, ix);
    }
  }

  /** Apply one instruction to the shapes of the three stacks. */
  method ApplyOp(pool: Pool, op: Op, f: Function, g: Option<Function>, ix: Indices) returns (ok: bool, ix': Indices)
    requires pool.Valid() && InPool(pool.lists, ix) && SmallOperands(op) && Flat(ShapeAt(pool.lists, ix))
    modifies pool
    ensures Kept(pool, old(pool.lists), old(pool.limited))
    ensures Matches(Transfer(f, g, op, ShapeAt(old(pool.lists), ix)), ok, pool.limited, pool.lists, ix')
    ensures pool.cells <= old(pool.cells) + Room(op, g)
  {
    hide TransferMoving, TransferFraming, TransferComputing, TransferBranching, TransferTouching, TransferLeaving;
    hide Matches, Pool.Valid, Flat, ShapeAt, Kept;
    if Moving(op) {
      ok, ix' := ApplyMoving(pool, op, ix);
    } else if Framing(op) {
      ok, ix' := ApplyFraming(pool, op, ix);
    } else if Computing(op) {
      ok, ix' := ApplyComputing(pool, op, ix);
    } else if Branching(op) {
      Unchanged(pool);
      ok, ix' := ApplyBranching(pool, op, ix);
    } else if Touching(op) {
      ok, ix' := ApplyTouching(pool, op, ix);
    } else {
      ok, ix' := ApplyLeaving(pool, op, f, g, ix);
    }
  }

  // ----- operand stacks hold no blocks -----

  lemma {:induction false} GatheredFlat(c: Layout, depth: nat, n: nat)
    requires Gathered(c, depth, n).Some?
    ensures AllScalar(Gathered(c, depth, n).value)
  {
    if n > 0 {
      GatheredFlat(c, depth, n - 1);
    }
  }

  lemma MovingFlat(i: Op, s: Shape)
    requires Flat(s) && Moving(i) && TransferMoving(i, s).Some?
    ensures Flat(TransferMoving(i, s).value)
  {
  }

  lemma FramingFlat(i: Op, s: Shape)
    requires Flat(s) && Framing(i) && TransferFraming(i, s).Some?
    ensures Flat(TransferFraming(i, s).value)
  {
    hide CellAt, CellSet, Poured, Gathered;
    if i.OpCGet? {
      GatheredFlat(s.c, i.depth, i.count);
    }
  }

  lemma ComputingFlat(i: Op, s: Shape)
    requires Flat(s) && Computing(i) && TransferComputing(i, s).Some?
    ensures Flat(TransferComputing(i, s).value)
  {
    hide CellAt;
  }

  lemma BranchingFlat(i: Op, s: Shape)
    requires Flat(s) && Branching(i) && TransferBranching(i, s).Some?
    ensures Flat(TransferBranching(i, s).value)
  {
  }

  lemma TouchingFlat(i: Op, s: Shape)
    requires Flat(s) && Touching(i) && TransferTouching(i, s).Some?
    ensures Flat(TransferTouching(i, s).value)
  {
    hide FrameBytes;
  }

  lemma LeavingFlat(f: Function, g: Option<Function>, i: Op, s: Shape)
    requires Flat(s) && Leaving(i) && TransferLeaving(f, g, i, s).Some?
    ensures Flat(TransferLeaving(f, g, i, s).value)
  {
    hide Depth;
  }

  lemma TransferFlat(f: Function, g: Option<Function>, i: Op, s: Shape)
    requires Flat(s) && Transfer(f, g, i, s).Some?
    ensures Flat(Transfer(f, g, i, s).value)
  {
    hide TransferMoving, TransferFraming, TransferComputing, TransferBranching, TransferTouching, TransferLeaving, Flat;
    if Moving(i) {
      MovingFlat(i, s);
    } else if Framing(i) {
      FramingFlat(i, s);
    } else if Computing(i) {
      ComputingFlat(i, s);
    } else if Branching(i) {
      BranchingFlat(i, s);
    } else if Touching(i) {
      TouchingFlat(i, s);
    } else {
      LeavingFlat(f, g, i, s);
    }
  }
}
