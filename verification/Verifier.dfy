/** The work-list verifier: it finds the one possible typing of each function or shows there is none. */
module Verifier {
  import opened Words
  import opened Bytecode
  import opened Lists
  import opened Shapes
  import opened ShapePool
  import opened ShapeOps
  import opened TypedCode
  import opened ShapeTransfer
  import opened Inference
  import opened StaticChecks
  import opened TypedMachine
  import opened TypedRuns

  /** `Limited` means the verifier gave up at its depth or size limit. */
  datatype Verdict = Accepted | Rejected | Limited

  /** The recorded shapes of one function, as pool indices, stand for the typing `t`. */
  ghost predicate Reflects(shapes: seq<Option<Indices>>, lists: seq<Layout>, f: Function, t: Typing) {
    && f.end <= |shapes|
    && (forall p | p in t :: f.entry <= p < f.end && shapes[p].Some?)
    && (forall p | f.entry <= p < f.end && shapes[p].Some? :: p in t && Stands(lists, shapes[p].value, t[p]))
  }

  predicate Stands(lists: seq<Layout>, ix: Indices, s: Shape) {
    InPool(lists, ix) && ShapeAt(lists, ix) == s && Flat(s)
  }

  lemma StandsOn(lists: seq<Layout>, lists': seq<Layout>, ix: Indices, s: Shape)
    requires Stands(lists, ix, s) && lists <= lists'
    ensures Stands(lists', ix, s)
  {
    Grown(lists, lists', ix);
  }

  lemma ReflectsOn(shapes: seq<Option<Indices>>, lists: seq<Layout>, lists': seq<Layout>, f: Function, t: Typing)
    requires Reflects(shapes, lists, f, t) && lists <= lists'
    ensures Reflects(shapes, lists', f, t)
  {
    forall p | f.entry <= p < f.end && shapes[p].Some? ensures p in t && Stands(lists', shapes[p].value, t[p]) {
      StandsOn(lists, lists', shapes[p].value, t[p]);
    }
  }

  lemma ReflectsMore(shapes: seq<Option<Indices>>, lists: seq<Layout>, f: Function, t: Typing, p: nat, ix: Indices,
    s: Shape)
    requires Reflects(shapes, lists, f, t) && f.entry <= p < f.end && Stands(lists, ix, s)
    ensures Reflects(shapes[p := Some(ix)], lists, f, t[p := s])
  {
    hide Stands;
  }

  /** Indices are equal exactly when the shapes are. */
  lemma SameIndices(lists: seq<Layout>, a: Indices, b: Indices)
    requires Canonical(lists) && InPool(lists, a) && InPool(lists, b)
    ensures a == b <==> ShapeAt(lists, a) == ShapeAt(lists, b)
  {
    assert lists[a.a] == lists[b.a] <==> a.a == b.a;
    assert lists[a.b] == lists[b.b] <==> a.b == b.b;
    assert lists[a.c] == lists[b.c] <==> a.c == b.c;
  }

  lemma {:induction false} KeysBound(t: set<nat>, lo: nat, hi: nat)
    requires lo <= hi && forall p | p in t :: lo <= p < hi
    ensures |t| <= hi - lo
    decreases hi
  {
    if lo == hi {
      assert t == {};
    } else if hi - 1 in t {
      KeysBound(t - {hi - 1}, lo, hi - 1);
    } else {
      KeysBound(t, lo, hi - 1);
    }
  }

  /** A place not found yet has room on the work list. */
  lemma WorkRoom(work: seq<nat>, t: Typing, lo: nat, hi: nat, p: nat)
    requires Distinct(work) && (forall q | q in work :: q in t) && (forall q | q in t :: lo <= q < hi)
    requires lo <= p < hi && p !in t
    ensures |work| < hi
  {
    forall i | 0 <= i < |work| ensures work[i] < hi && work[i] != p {
      assert work[i] in work;
    }
    Pigeonhole(work + [p], hi);
  }

  /** The callee of a checked call, found by search. */
  method CalleeOf(m: Module, op: Op) returns (g: Option<Function>)
    requires Loaded(m)
    ensures g == Callee(m, op)
  {
    if !IsCall(op) {
      return None;
    }
    var r := FindFunction(m, op.target);
    if r.Some? {
      EntryUnique(m, op.target, r.value, FunctionAt(m, op.target).value);
      return Some(m.functions[r.value]);
    }
    g := None;
  }

  // ----- what inferring a function asks of the pool -----

  /** The most cells that the instructions in `done`, from `pc` to the function's end, ask for. */
  ghost function RoomOf(m: Module, end: nat, pc: nat, done: set<nat>): nat
    requires Loaded(m) && end <= |m.code|
    decreases end - pc
  {
    if pc >= end || m.code[pc].None? then 0
    else
      var d := m.code[pc].value;
      (if pc in done then Room(d.op, Callee(m, d.op)) else 0) + RoomOf(m, end, pc + d.length, done)
  }

  /** The same for all instructions. */
  ghost function Demand(m: Module, end: nat, pc: nat): nat
    requires Loaded(m) && end <= |m.code|
    decreases end - pc
  {
    if pc >= end || m.code[pc].None? then 0
    else
      var d := m.code[pc].value;
      Room(d.op, Callee(m, d.op)) + Demand(m, end, pc + d.length)
  }

  ghost function FunctionDemand(m: Module, f: Function): nat
    requires Loaded(m) && f.end <= |m.code|
  {
    |f.arguments| + Demand(m, f.end, f.entry)
  }

  /** The most cells that the first `n` functions ask for. */
  ghost function ModuleDemand(m: Module, n: nat): nat
    requires Loaded(m) && n <= |m.functions|
  {
    if n == 0 then 0 else ModuleDemand(m, n - 1) + FunctionDemand(m, m.functions[n - 1])
  }

  lemma {:induction false} RoomWithin(m: Module, end: nat, pc: nat, done: set<nat>)
    requires Loaded(m) && end <= |m.code|
    ensures RoomOf(m, end, pc, done) <= Demand(m, end, pc)
    decreases end - pc
  {
    hide Room, Callee;
    if pc < end && m.code[pc].Some? {
      RoomWithin(m, end, pc + m.code[pc].value.length, done);
    }
  }

  lemma {:induction false} RoomBelow(m: Module, end: nat, pc: nat, done: set<nat>, p: nat)
    requires Loaded(m) && end <= |m.code| && p < pc
    ensures RoomOf(m, end, pc, done + {p}) == RoomOf(m, end, pc, done)
    decreases end - pc
  {
    hide Room, Callee;
    if pc < end && m.code[pc].Some? {
      RoomBelow(m, end, pc + m.code[pc].value.length, done, p);
    }
  }

  /** An instruction not yet done adds what it asks for. */
  lemma {:induction false} RoomMore(m: Module, end: nat, pc: nat, done: set<nat>, p: nat)
    requires Loaded(m) && end <= |m.code| && p !in done
    requires Scan(m, end, pc).Some? && p in Scan(m, end, pc).value
    ensures p < end && m.code[p].Some?
    ensures var i := m.code[p].value.op;
      RoomOf(m, end, pc, done + {p}) == RoomOf(m, end, pc, done) + Room(i, Callee(m, i))
    decreases end - pc
  {
    hide Room, Callee;
    var next := pc + m.code[pc].value.length;
    if p == pc {
      RoomBelow(m, end, next, done, p);
    } else {
      RoomMore(m, end, next, done, p);
      ScanMember(m, end, next, p);
    }
  }

  lemma {:induction false} DemandGrows(m: Module, k: nat, n: nat)
    requires Loaded(m) && k <= n <= |m.functions|
    ensures ModuleDemand(m, k) <= ModuleDemand(m, n)
    decreases n
  {
    hide Callee, Loaded;
    if k < n {
      DemandGrows(m, k, n - 1);
    }
  }

  /** The instructions in `done` have been applied and will not be again. */
  ghost predicate Undone(done: set<nat>, t: Typing, work: seq<nat>) {
    forall p :: p in done <==> p in t && p !in work
  }

  lemma UndoneMore(done: set<nat>, t: Typing, work: seq<nat>, e: nat, s: Shape)
    requires Undone(done, t, work) && e !in t
    ensures Undone(done, t[e := s], work + [e])
  {
  }

  lemma UndoneNext(done: set<nat>, t: Typing, work: seq<nat>)
    requires Undone(done, t, work) && Distinct(work) && work != [] && work[|work| - 1] in t
    ensures work[|work| - 1] !in done && Undone(done + {work[|work| - 1]}, t, work[..|work| - 1])
  {
    var n := |work| - 1;
    assert work == work[..n] + [work[n]];
    assert work[n] in work;
    assert forall i | 0 <= i < n :: work[i] != work[n];
    assert work[n] !in work[..n];
  }

  /** The cells asked for so far, against what had been asked for before the function. */
  ghost predicate Afforded(m: Module, f: Function, base: nat, cells: nat, done: set<nat>, t: Typing, work: seq<nat>)
    requires Loaded(m) && f in m.functions
  {
    Undone(done, t, work) && cells <= base + RoomOf(m, f.end, f.entry, done)
  }

  lemma AffordedFirst(m: Module, f: Function, cells: nat)
    requires Loaded(m) && f in m.functions
    ensures Afforded(m, f, cells, cells, {}, map[f.entry := EntryShape(f)], [f.entry])
  {
    hide Loaded, EntryShape, RoomOf;
  }

  lemma AffordedSplit(m: Module, f: Function, base: nat, cells: nat, done: set<nat>, t: Typing, work: seq<nat>)
    requires Loaded(m) && f in m.functions && Afforded(m, f, base, cells, done, t, work)
    ensures Undone(done, t, work) && cells <= base + RoomOf(m, f.end, f.entry, done)
  {
  }

  lemma AffordedJoin(m: Module, f: Function, base: nat, cells: nat, done: set<nat>, t: Typing, work: seq<nat>)
    requires Loaded(m) && f in m.functions
    requires Undone(done, t, work) && cells <= base + RoomOf(m, f.end, f.entry, done)
    ensures Afforded(m, f, base, cells, done, t, work)
  {
  }

  lemma DemandCovers(m: Module, f: Function, base: nat, cells: nat, done: set<nat>, t: Typing, work: seq<nat>)
    requires Loaded(m) && f in m.functions && Afforded(m, f, base, cells, done, t, work)
    ensures cells <= base + Demand(m, f.end, f.entry)
  {
    RoomWithin(m, f.end, f.entry, done);
  }

  /** Taking an instruction off the list and applying it. */
  lemma AffordedNext(m: Module, f: Function, shapes: seq<Option<Indices>>, lists: seq<Layout>, base: nat, cells: nat,
    cells': nat, done: set<nat>, t: Typing, work: seq<nat>)
    requires Loaded(m) && f in m.functions && Listed(m, f, shapes, lists, t, work) && work != []
    requires Afforded(m, f, base, cells, done, t, work)
    requires var pc := work[|work| - 1];
      pc < |m.code| && m.code[pc].Some?
      && var i := m.code[pc].value.op; cells' <= cells + Room(i, Callee(m, i))
    ensures Afforded(m, f, base, cells', done + {work[|work| - 1]}, t, work[..|work| - 1])
    ensures cells' <= base + Demand(m, f.end, f.entry)
  {
    hide Room, Callee, RoomOf, Demand, Reflects, Forced, Settled, EntryShape, Undone;
    var pc := work[|work| - 1];
    assert pc in work && StartIn(m, f, pc);
    UndoneNext(done, t, work);
    RoomMore(m, f.end, f.entry, done, pc);
    RoomWithin(m, f.end, f.entry, done + {pc});
  }

  lemma DemandSplit(m: Module, f: Function)
    requires Loaded(m) && f in m.functions
    ensures f.end <= |m.code| && FunctionDemand(m, f) == |f.arguments| + Demand(m, f.end, f.entry)
  {
    hide Demand;
  }

  lemma DemandNext(m: Module, n: nat, cells: nat, cells': nat)
    requires Loaded(m) && n < |m.functions| && m.functions[n].end <= |m.code|
    requires cells <= ModuleDemand(m, n) && cells' <= cells + FunctionDemand(m, m.functions[n])
    ensures cells' <= ModuleDemand(m, n + 1) <= ModuleDemand(m, |m.functions|)
  {
    hide FunctionDemand;
    DemandGrows(m, n + 1, |m.functions|);
  }

  lemma DemandNone(m: Module)
    requires Loaded(m)
    ensures ModuleDemand(m, 0) == 0
  {
  }

  lemma LimitMet(pool: Pool)
    requires pool.Valid() && pool.limited
    ensures MAX_NODES <= pool.cells
  {
    hide Pool.Ready;
  }

  // ----- the shapes a function starts with -----

  lemma {:induction false} PouredNext(to: Layout, from: Layout, k: nat)
    requires k < |from|
    ensures Poured(to, from, k + 1) == Poured(to, from, k) + [from[|from| - 1 - k]]
    decreases k
  {
    if k > 0 {
      PouredNext(to + [from[|from| - 1]], from[..|from| - 1], k - 1);
    }
  }

  /** Argument zero ends on top of the frame. */
  method EntryIndices(pool: Pool, f: Function) returns (ix: Indices)
    requires pool.Valid()
    modifies pool
    ensures Kept(pool, old(pool.lists), old(pool.limited)) && InPool(pool.lists, ix)
    ensures !pool.limited ==> Stands(pool.lists, ix, EntryShape(f))
    ensures pool.cells == old(pool.cells) + |f.arguments|
  {
    hide *;
    ghost var lists, limited, l := pool.lists, pool.limited, Lift(f.arguments);
    Unchanged(pool);
    PoolRoot(pool);
    LiftLength(f.arguments);
    var context: nat := 0;
    PouredNone([], l);
    for argument := |f.arguments| downto 0
      invariant Kept(pool, lists, limited) && context < |pool.lists|
      invariant !pool.limited ==> pool.lists[context] == Poured([], l, |l| - argument)
      invariant pool.cells + argument == old(pool.cells) + |f.arguments|
    {
      PouredNext([], l, |l| - argument - 1);
      context := PushKept(pool, lists, limited, context, f.arguments[argument]);
    }
    ix := Indices(0, 0, context);
    KeptGrows(pool, lists, limited);
    PoolRoot(pool);
    EntryStands(pool.lists, context, f, pool.limited);
  }

  lemma PoolRoot(pool: Pool)
    requires pool.Valid()
    ensures |pool.lists| > 0 && pool.lists[0] == []
  {
  }

  lemma LiftLength(kinds: seq<Kind>)
    ensures |Lift(kinds)| == |kinds|
    ensures forall i | 0 <= i < |kinds| :: Lift(kinds)[i] == Scalar(kinds[i])
  {
  }

  lemma PouredNone(to: Layout, from: Layout)
    ensures Poured(to, from, 0) == to
  {
  }

  lemma EntryStands(lists: seq<Layout>, context: nat, f: Function, limited: bool)
    requires |lists| > 0 && lists[0] == [] && context < |lists|
    requires !limited ==> lists[context] == Poured([], Lift(f.arguments), |Lift(f.arguments)|)
    ensures InPool(lists, Indices(0, 0, context))
    ensures !limited ==> Stands(lists, Indices(0, 0, context), EntryShape(f))
  {
    LiftLength(f.arguments);
  }

  // ----- following edges -----

  /** Edges of a checked instruction lead to instruction starts, if they stay in the function. */
  lemma EdgeStart(m: Module, f: Function, pc: nat, e: nat)
    requires Loaded(m) && f in m.functions && StaticOk(m) && StartIn(m, f, pc) && pc < |m.code| && m.code[pc].Some?
    requires e in Successors(m.code[pc].value.op, pc + m.code[pc].value.length) && e < f.end
    ensures StartIn(m, f, e)
  {
    hide StartIn, Successors;
    StartSound(m, f, pc);
    assert FitsAt(m, f, pc);
    SuccessorCases(m.code[pc].value.op, pc + m.code[pc].value.length, e);
  }

  /** What is known while the edges of the instruction at `pc` are followed. */
  ghost predicate Visiting(m: Module, f: Function, shapes: seq<Option<Indices>>, lists: seq<Layout>,
    t: Typing, work: seq<nat>, pc: nat, ix: Indices, s: Shape, k: nat)
    requires Loaded(m) && f in m.functions
  {
    && Following(m, f, t, work, pc, s, k) && Reflects(shapes, lists, f, t) && |shapes| == |m.code|
    && Stands(lists, ix, s)
  }

  lemma VisitingFacts(m: Module, f: Function, shapes: seq<Option<Indices>>, lists: seq<Layout>,
    t: Typing, work: seq<nat>, pc: nat, ix: Indices, s: Shape, k: nat)
    requires Loaded(m) && f in m.functions && Visiting(m, f, shapes, lists, t, work, pc, ix, s, k)
    ensures pc < |m.code| && m.code[pc].Some? && StartIn(m, f, pc) && f.entry <= f.end <= |m.code|
    ensures Following(m, f, t, work, pc, s, k) && Reflects(shapes, lists, f, t) && Stands(lists, ix, s)
    ensures Exploring(m, f, t, work, {pc}) && pc in t
    ensures var i := m.code[pc].value.op; Transfer(f, Callee(m, i), i, t[pc]) == Some(s)
  {
    hide Transfer, Callee, Reflects, Stands;
    StartSound(m, f, pc);
  }

  lemma RejectEdge(m: Module, f: Function, shapes: seq<Option<Indices>>, lists: seq<Layout>,
    t: Typing, work: seq<nat>, pc: nat, ix: Indices, s: Shape, k: nat, e: nat)
    requires Loaded(m) && f in m.functions && Visiting(m, f, shapes, lists, t, work, pc, ix, s, k) && Canonical(lists)
    requires pc < |m.code| && m.code[pc].Some?
    requires e in Successors(m.code[pc].value.op, pc + m.code[pc].value.length)
    requires e >= f.end || (f.entry <= e < |shapes| && shapes[e].Some? && shapes[e].value != ix)
    ensures !Typeable(m, f)
  {
    hide Transfer, Callee, Successors, Following, Typeable, Exploring;
    VisitingFacts(m, f, shapes, lists, t, work, pc, ix, s, k);
    if e < f.end {
      SameIndices(lists, shapes[e].value, ix);
    }
    NoEdge(m, f, t, work, {pc}, pc, e);
  }

  lemma MeetEdge(m: Module, f: Function, shapes: seq<Option<Indices>>, lists: seq<Layout>,
    t: Typing, work: seq<nat>, pc: nat, ix: Indices, s: Shape, k: nat, e: nat)
    requires Loaded(m) && f in m.functions && Visiting(m, f, shapes, lists, t, work, pc, ix, s, k)
    requires pc < |m.code| && m.code[pc].Some?
    requires var succs := Successors(m.code[pc].value.op, pc + m.code[pc].value.length); k < |succs| && e == succs[k]
    requires f.entry <= e < f.end && e < |shapes| && shapes[e] == Some(ix)
    ensures Visiting(m, f, shapes, lists, t, work, pc, ix, s, k + 1)
  {
    hide Transfer, Callee, Successors, Following;
    VisitingFacts(m, f, shapes, lists, t, work, pc, ix, s, k);
    KnownEdge(m, f, t, work, pc, s, k);
  }

  lemma OpenEdge(m: Module, f: Function, shapes: seq<Option<Indices>>, lists: seq<Layout>,
    t: Typing, work: seq<nat>, pc: nat, ix: Indices, s: Shape, k: nat, e: nat)
    requires Loaded(m) && f in m.functions && Visiting(m, f, shapes, lists, t, work, pc, ix, s, k) && StaticOk(m)
    requires pc < |m.code| && m.code[pc].Some?
    requires var succs := Successors(m.code[pc].value.op, pc + m.code[pc].value.length); k < |succs| && e == succs[k]
    requires e < f.end && e < |shapes| && shapes[e] == None
    ensures |work| < |m.code| && e !in t && f.entry <= e
    ensures Visiting(m, f, shapes[e := Some(ix)], lists, t[e := s], work + [e], pc, ix, s, k + 1)
  {
    hide Transfer, Callee, Successors, Following, StaticOk, StartIn, Stands;
    VisitingFacts(m, f, shapes, lists, t, work, pc, ix, s, k);
    EdgeStart(m, f, pc, e);
    StartSound(m, f, e);
    NewEdge(m, f, t, work, pc, s, k);
    ReflectsMore(shapes, lists, f, t, e, ix, s);
    WorkRoom(work, t, f.entry, f.end, e);
  }

  /** Only positions of the function are changed. */
  ghost predicate SameOutside(f: Function, before: seq<Option<Indices>>, after: seq<Option<Indices>>) {
    |before| == |after| && forall p | 0 <= p < |before| && !(f.entry <= p < f.end) :: after[p] == before[p]
  }

  /** Follow one edge: leave it, meet a known shape there, or record the shape and put it on the list. */
  method FollowEdge(m: Module, f: Function, ghost lists: seq<Layout>, shapes: array<Option<Indices>>, work: array<nat>,
    pending: nat, ghost t: Typing, ghost done: set<nat>, ghost pc: nat, ix: Indices, ghost s: Shape, ghost k: nat,
    e: nat)
    returns (ok: bool, pending': nat, ghost t': Typing)
    requires Loaded(m) && f in m.functions && StaticOk(m) && Canonical(lists)
    requires shapes.Length == work.Length == |m.code| && pending <= work.Length
    requires Visiting(m, f, shapes[..], lists, t, work[..pending], pc, ix, s, k) && Undone(done, t, work[..pending])
    requires pc < |m.code| && m.code[pc].Some?
    requires var succs := Successors(m.code[pc].value.op, pc + m.code[pc].value.length); k < |succs| && e == succs[k]
    modifies shapes, work
    ensures pending' <= work.Length && SameOutside(f, old(shapes[..]), shapes[..])
    ensures ok ==> Visiting(m, f, shapes[..], lists, t', work[..pending'], pc, ix, s, k + 1)
    ensures ok ==> Undone(done, t', work[..pending'])
    ensures ok ==> |t'| >= |t| && (|t'| == |t| ==> pending' == pending) && Adds(t, t', s)
    ensures !ok ==> !Typeable(m, f)
  {
    hide *;
    ghost var before, list := shapes[..], work[..pending];
    ok, pending', t' := true, pending, t;
    SameStart(f, before);
    AddsNone(t, s);
    VisitingFacts(m, f, before, lists, t, list, pc, ix, s, k);
    if e >= f.end {
      RejectEdge(m, f, before, lists, t, list, pc, ix, s, k, e);
      return false, pending, t;
    }
    EdgeStart(m, f, pc, e);
    OutsideStart(m, f, e);
    if shapes[e] == None {
      OpenEdge(m, f, before, lists, t, list, pc, ix, s, k, e);
      UndoneMore(done, t, list, e, s);
      AddsOne(t, e, s);
      PendingRoom(list, pending, work.Length);
      SameWrite(f, before, e, Some(ix));
      shapes[e] := Some(ix);
      work[pending] := e;
      pending', t' := pending + 1, t[e := s];
      assert shapes[..] == before[e := Some(ix)] && work[..pending'] == list + [e];
    } else if shapes[e] == Some(ix) {
      MeetEdge(m, f, before, lists, t, list, pc, ix, s, k, e);
    } else {
      RejectEdge(m, f, before, lists, t, list, pc, ix, s, k, e);
      ok := false;
    }
  }

  /** `u` is `t` with some places added, all with shape `s`. */
  ghost predicate Adds(t: Typing, u: Typing, s: Shape) {
    && (forall p | p in u :: u[p] == s || (p in t && u[p] == t[p]))
    && (forall p | p in t :: p in u && u[p] == t[p])
  }

  lemma AddsNone(t: Typing, s: Shape)
    ensures Adds(t, t, s)
  {
  }

  lemma AddsOne(t: Typing, e: nat, s: Shape)
    requires e !in t
    ensures Adds(t, t[e := s], s)
  {
  }

  lemma AddsThen(t: Typing, u: Typing, v: Typing, s: Shape)
    requires Adds(t, u, s) && Adds(u, v, s)
    ensures Adds(t, v, s)
  {
  }

  lemma PendingRoom(list: seq<nat>, pending: nat, n: nat)
    requires |list| == pending && |list| < n
    ensures pending < n
  {
  }

  lemma SameStart(f: Function, shapes: seq<Option<Indices>>)
    ensures SameOutside(f, shapes, shapes)
  {
  }

  lemma SameWrite(f: Function, shapes: seq<Option<Indices>>, e: nat, v: Option<Indices>)
    requires f.entry <= e < f.end && e < |shapes|
    ensures SameOutside(f, shapes, shapes[e := v])
  {
  }

  lemma SameThen(f: Function, a: seq<Option<Indices>>, b: seq<Option<Indices>>, c: seq<Option<Indices>>)
    requires SameOutside(f, a, b) && SameOutside(f, b, c)
    ensures SameOutside(f, a, c)
  {
  }

  method FollowEdges(m: Module, f: Function, ghost lists: seq<Layout>, shapes: array<Option<Indices>>, work: array<nat>,
    pending: nat, ghost t: Typing, ghost done: set<nat>, pc: nat, ix: Indices, ghost s: Shape)
    returns (ok: bool, pending': nat, ghost t': Typing)
    requires Loaded(m) && f in m.functions && StaticOk(m) && Canonical(lists)
    requires shapes.Length == work.Length == |m.code| && pending <= work.Length && pc < |m.code| && m.code[pc].Some?
    requires Visiting(m, f, shapes[..], lists, t, work[..pending], pc, ix, s, 0) && Undone(done, t, work[..pending])
    modifies shapes, work
    ensures pending' <= work.Length && SameOutside(f, old(shapes[..]), shapes[..])
    ensures ok ==> Exploring(m, f, t', work[..pending'], {}) && Reflects(shapes[..], lists, f, t')
    ensures ok ==> Undone(done, t', work[..pending'])
    ensures ok ==> |t'| >= |t| && (|t'| == |t| ==> pending' == pending) && Adds(t, t', s)
    ensures !ok ==> !Typeable(m, f)
  {
    hide *;
    var d := m.code[pc].value;
    var succs := Successors(d.op, pc + d.length);
    ghost var before := shapes[..];
    SameStart(f, before);
    AddsNone(t, s);
    pending', t' := pending, t;
    for k := 0 to |succs|
      invariant pending' <= work.Length && SameOutside(f, before, shapes[..])
      invariant Visiting(m, f, shapes[..], lists, t', work[..pending'], pc, ix, s, k)
      invariant Undone(done, t', work[..pending'])
      invariant |t'| >= |t| && (|t'| == |t| ==> pending' == pending) && Adds(t, t', s)
    {
      ghost var now, u := shapes[..], t';
      ok, pending', t' := FollowEdge(m, f, lists, shapes, work, pending', t', done, pc, ix, s, k, succs[k]);
      if ok {
        AddsThen(t, u, t', s);
      }
      SameThen(f, before, now, shapes[..]);
      if !ok {
        return;
      }
    }
    VisitingFacts(m, f, shapes[..], lists, t', work[..pending'], pc, ix, s, |succs|);
    Inference.Leave(m, f, t', work[..pending'], pc, s);
    ok := true;
  }

  // ----- the maxima -----

  /** The shape that a typed instruction leaves. */
  ghost function LeavesAt(m: Module, f: Function, t: Typing, pc: nat): Option<Shape> {
    if pc in t && pc < |m.code| && m.code[pc].Some? then
      var i := m.code[pc].value.op;
      Transfer(f, Callee(m, i), i, t[pc])
    else None
  }

  /** The depths of stack `x` that the instructions in `done` leave. */
  ghost function LeftDepths(m: Module, f: Function, t: Typing, done: set<nat>, x: Stack): set<nat> {
    set pc | pc in done && LeavesAt(m, f, t, pc).Some? :: Depth(LeavesAt(m, f, t, pc).value.At(x))
  }

  /** `n` is the largest of `base` and the depths. */
  predicate Largest(n: nat, base: nat, depths: set<nat>) {
    base <= n && (n == base || n in depths) && forall d | d in depths :: d <= n
  }

  /** The maxima are the largest depths that the instructions in `done` leave, and for C the arguments. */
  ghost predicate Maxima(m: Module, f: Function, t: Typing, done: set<nat>, a: nat, b: nat, c: nat) {
    && Largest(a, 0, LeftDepths(m, f, t, done, A))
    && Largest(b, 0, LeftDepths(m, f, t, done, B))
    && Largest(c, |f.arguments|, LeftDepths(m, f, t, done, C))
  }

  lemma MaximaFirst(m: Module, f: Function, t: Typing)
    ensures Maxima(m, f, t, {}, 0, 0, |f.arguments|)
  {
    hide LeavesAt, Depth;
  }

  lemma LargestMore(n: nat, base: nat, depths: set<nat>, d: nat)
    requires Largest(n, base, depths)
    ensures Largest(Max(n, d), base, depths + {d})
  {
  }

  lemma LeftMore(m: Module, f: Function, t: Typing, done: set<nat>, pc: nat, x: Stack)
    requires LeavesAt(m, f, t, pc).Some?
    ensures LeftDepths(m, f, t, done + {pc}, x) ==
      LeftDepths(m, f, t, done, x) + {Depth(LeavesAt(m, f, t, pc).value.At(x))}
  {
    hide LeavesAt, Depth;
  }

  lemma MaximaNext(m: Module, f: Function, t: Typing, done: set<nat>, pc: nat, s: Shape, a: nat, b: nat, c: nat)
    requires Maxima(m, f, t, done, a, b, c) && LeavesAt(m, f, t, pc) == Some(s)
    ensures Maxima(m, f, t, done + {pc}, Max(a, Depth(s.a)), Max(b, Depth(s.b)), Max(c, Depth(s.c)))
  {
    hide LeavesAt, LeftDepths, Largest, Depth;
    LeftMore(m, f, t, done, pc, A);
    LeftMore(m, f, t, done, pc, B);
    LeftMore(m, f, t, done, pc, C);
    LargestMore(a, 0, LeftDepths(m, f, t, done, A), Depth(s.a));
    LargestMore(b, 0, LeftDepths(m, f, t, done, B), Depth(s.b));
    LargestMore(c, |f.arguments|, LeftDepths(m, f, t, done, C), Depth(s.c));
  }

  lemma LeftKept(m: Module, f: Function, t: Typing, u: Typing, done: set<nat>, x: Stack)
    requires forall p | p in done :: p in t && p in u && u[p] == t[p]
    ensures LeftDepths(m, f, u, done, x) == LeftDepths(m, f, t, done, x)
  {
    hide Transfer, Callee, Depth;
    assert forall p | p in done :: LeavesAt(m, f, u, p) == LeavesAt(m, f, t, p);
  }

  lemma MaximaKept(m: Module, f: Function, t: Typing, u: Typing, s: Shape, done: set<nat>, work: seq<nat>,
    a: nat, b: nat, c: nat)
    requires Maxima(m, f, t, done, a, b, c) && Adds(t, u, s) && Undone(done, t, work)
    ensures Maxima(m, f, u, done, a, b, c)
  {
    hide LeftDepths, Largest;
    LeftKept(m, f, t, u, done, A);
    LeftKept(m, f, t, u, done, B);
    LeftKept(m, f, t, u, done, C);
  }

  lemma LeavesIs(m: Module, f: Function, t: Typing, pc: nat, s: Shape)
    requires pc in t && pc < |m.code| && m.code[pc].Some?
    requires var i := m.code[pc].value.op; Transfer(f, Callee(m, i), i, t[pc]) == Some(s)
    ensures LeavesAt(m, f, t, pc) == Some(s)
  {
    hide Transfer, Callee;
  }

  /** Everything has been applied. */
  lemma MaximaAll(m: Module, f: Function, t: Typing, done: set<nat>, a: nat, b: nat, c: nat)
    requires Maxima(m, f, t, done, a, b, c) && Undone(done, t, [])
    ensures Maxima(m, f, t, t.Keys, a, b, c)
  {
    hide Maxima;
    assert done == t.Keys;
  }

  // ----- the work list -----

  function Max(a: nat, b: nat): nat {
    if a > b then a else b
  }

  predicate FitsIn(s: Shape, maxA: nat, maxB: nat, maxC: nat) {
    Depth(s.a) <= maxA && Depth(s.b) <= maxB && Depth(s.c) <= maxC
  }

  lemma MoreBounds(t: Typing, u: Typing, s: Shape, a: nat, b: nat, c: nat, a': nat, b': nat, c': nat)
    requires Bounds(t, a, b, c) && Adds(t, u, s) && a <= a' && b <= b' && c <= c' && FitsIn(s, a', b', c')
    ensures Bounds(u, a', b', c')
  {
  }

  method Deepen(pool: Pool, ix: Indices, ghost s: Shape, a: nat, b: nat, c: nat) returns (a': nat, b': nat, c': nat)
    requires pool.Valid() && Stands(pool.lists, ix, s)
    ensures a' == Max(a, Depth(s.a)) && b' == Max(b, Depth(s.b)) && c' == Max(c, Depth(s.c))
  {
    TopOf(pool.nodes, pool.lists, ix.a);
    TopOf(pool.nodes, pool.lists, ix.b);
    TopOf(pool.nodes, pool.lists, ix.c);
    a' := Max(a, pool.nodes[ix.a].depth);
    b' := Max(b, pool.nodes[ix.b].depth);
    c' := Max(c, pool.nodes[ix.c].depth);
  }

  /** What holds between visits. */
  ghost predicate Listed(m: Module, f: Function, shapes: seq<Option<Indices>>, lists: seq<Layout>, t: Typing,
    work: seq<nat>)
    requires Loaded(m) && f in m.functions
  {
    Exploring(m, f, t, work, {}) && Reflects(shapes, lists, f, t) && |shapes| == |m.code|
  }

  lemma NextListed(m: Module, f: Function, shapes: seq<Option<Indices>>, lists: seq<Layout>, t: Typing, work: seq<nat>)
    requires Loaded(m) && f in m.functions && Listed(m, f, shapes, lists, t, work) && work != []
    ensures var pc := work[|work| - 1];
      && pc in t && pc < |m.code| == |shapes| && m.code[pc].Some? && SmallOperands(m.code[pc].value.op)
      && shapes[pc].Some? && Stands(lists, shapes[pc].value, t[pc])
  {
    hide Stands, Types;
    TakeIn(m, f, t, work);
    StartSound(m, f, work[|work| - 1]);
  }

  lemma StartVisiting(m: Module, f: Function, shapes: seq<Option<Indices>>, lists: seq<Layout>, lists': seq<Layout>,
    t: Typing, work: seq<nat>, ix: Indices, s: Shape)
    requires Loaded(m) && f in m.functions && Listed(m, f, shapes, lists, t, work) && work != [] && lists <= lists'
    requires var pc := work[|work| - 1];
      pc in t && pc < |m.code| && m.code[pc].Some?
      && var i := m.code[pc].value.op; Transfer(f, Callee(m, i), i, t[pc]) == Some(s)
    requires Stands(lists', ix, s)
    ensures Visiting(m, f, shapes, lists', t, work[..|work| - 1], work[|work| - 1], ix, s, 0)
  {
    hide Transfer, Callee, Exploring, Following, Reflects, Stands;
    Take(m, f, t, work, s);
    ReflectsOn(shapes, lists, lists', f, t);
  }

  lemma RejectOp(m: Module, f: Function, shapes: seq<Option<Indices>>, lists: seq<Layout>, t: Typing, work: seq<nat>,
    pc: nat)
    requires Loaded(m) && f in m.functions && Listed(m, f, shapes, lists, t, work)
    requires pc in t && pc < |m.code| && m.code[pc].Some?
    requires var i := m.code[pc].value.op; Transfer(f, Callee(m, i), i, t[pc]) == None
    ensures !Typeable(m, f)
  {
    hide Transfer, Callee, Exploring, Reflects;
    NoFit(m, f, t, work, {}, pc);
  }

  /** The typing and shape an applied instruction leads to. */
  lemma Applied(m: Module, f: Function, i: Op, lists: seq<Layout>, lists': seq<Layout>, ix: Indices, s: Shape,
    ok: bool, limited: bool, ix': Indices)
    requires Loaded(m) && Stands(lists, ix, s) && InPool(lists, ix)
    requires Matches(Transfer(f, Callee(m, i), i, ShapeAt(lists, ix)), ok, limited, lists', ix')
    ensures !ok ==> Transfer(f, Callee(m, i), i, s) == None
    ensures ok && !limited ==> var s' := Transfer(f, Callee(m, i), i, s); s'.Some? && Stands(lists', ix', s'.value)
  {
    hide Transfer, Callee;
    if ok && !limited {
      TransferFlat(f, Callee(m, i), i, s);
    }
  }

  /** Apply the instruction last put on the list and follow its edges. */
  method Visit(m: Module, f: Function, pool: Pool, shapes: array<Option<Indices>>, work: array<nat>, pending: nat,
    ghost t: Typing, ghost done: set<nat>, ghost base: nat, a: nat, b: nat, c: nat)
    returns (verdict: Verdict, pending': nat, ghost t': Typing, ghost done': set<nat>, a': nat, b': nat, c': nat)
    requires Loaded(m) && f in m.functions && StaticOk(m) && pool.Valid() && !pool.limited
    requires shapes.Length == work.Length == |m.code| && 0 < pending <= work.Length
    requires Listed(m, f, shapes[..], pool.lists, t, work[..pending]) && Bounds(t, a, b, c)
    requires Afforded(m, f, base, pool.cells, done, t, work[..pending]) && Maxima(m, f, t, done, a, b, c)
    modifies pool, shapes, work
    ensures pool.Valid() && pending' <= work.Length && SameOutside(f, old(shapes[..]), shapes[..])
    ensures verdict == Accepted ==> !pool.limited && Listed(m, f, shapes[..], pool.lists, t', work[..pending'])
    ensures verdict == Accepted ==> Bounds(t', a', b', c') && |t'| >= |t| && (|t'| == |t| ==> pending' < pending)
    ensures verdict == Rejected ==> !Typeable(m, f)
    ensures verdict == Limited ==> pool.limited
    ensures verdict == Accepted ==> Afforded(m, f, base, pool.cells, done', t', work[..pending'])
    ensures verdict == Accepted ==> Maxima(m, f, t', done', a', b', c')
    ensures pool.cells <= base + Demand(m, f.end, f.entry)
  {
    hide *;
    ghost var lists, before, list: seq<nat> := pool.lists, shapes[..], work[..pending];
    ghost var cells := pool.cells;
    verdict, pending', t', a', b', c' := Limited, pending - 1, t, a, b, c;
    SameStart(f, before);
    NextListed(m, f, before, lists, t, list);
    var pc := work[pending - 1];
    done' := done + {pc};
    var op := m.code[pc].value.op;
    var ix := shapes[pc].value;
    var g := CalleeOf(m, op);
    StandsIn(lists, ix, t[pc]);
    var ok, ix' := ApplyOp(pool, op, f, g, ix);
    KeptGrows(pool, lists, false);
    AffordedNext(m, f, before, lists, base, cells, pool.cells, done, t, list);
    Applied(m, f, op, lists, pool.lists, ix, t[pc], ok, pool.limited, ix');
    if !ok {
      RejectOp(m, f, before, lists, t, list, pc);
      verdict := Rejected;
      return;
    }
    if pool.limited {
      return;
    }
    ghost var s := Transfer(f, g, op, t[pc]).value;
    a', b', c' := Deepen(pool, ix', s, a, b, c);
    LeavesIs(m, f, t, pc, s);
    MaximaNext(m, f, t, done, pc, s, a, b, c);
    Deeper(s, a, b, c);
    StartVisiting(m, f, before, lists, pool.lists, t, list, ix', s);
    assert list[..|list| - 1] == work[..pending - 1];
    PoolCanonical(pool);
    AffordedSplit(m, f, base, pool.cells, done', t, list[..|list| - 1]);
    ok, pending', t' := FollowEdges(m, f, pool.lists, shapes, work, pending - 1, t, done', pc, ix', s);
    if ok {
      AffordedJoin(m, f, base, pool.cells, done', t', work[..pending']);
      MaximaKept(m, f, t, t', s, done', list[..|list| - 1], a', b', c');
      MoreBounds(t, t', s, a, b, c, a', b', c');
      StillListed(m, f, before, shapes[..], pool.lists, t', work[..pending']);
      verdict := Accepted;
    } else {
      verdict := Rejected;
    }
  }

  lemma Deeper(s: Shape, a: nat, b: nat, c: nat)
    ensures a <= Max(a, Depth(s.a)) && b <= Max(b, Depth(s.b)) && c <= Max(c, Depth(s.c))
    ensures FitsIn(s, Max(a, Depth(s.a)), Max(b, Depth(s.b)), Max(c, Depth(s.c)))
  {
    hide Depth;
  }

  lemma StandsIn(lists: seq<Layout>, ix: Indices, s: Shape)
    requires Stands(lists, ix, s)
    ensures InPool(lists, ix) && ShapeAt(lists, ix) == s && Flat(s)
  {
  }

  lemma PoolCanonical(pool: Pool)
    requires pool.Valid()
    ensures Canonical(pool.lists)
  {
  }

  lemma StillListed(m: Module, f: Function, before: seq<Option<Indices>>, shapes: seq<Option<Indices>>,
    lists: seq<Layout>, t: Typing, work: seq<nat>)
    requires Loaded(m) && f in m.functions && SameOutside(f, before, shapes) && |before| == |m.code|
    requires Exploring(m, f, t, work, {}) && Reflects(shapes, lists, f, t)
    ensures Listed(m, f, shapes, lists, t, work)
  {
  }

  /** Nothing is recorded for the function yet. */
  predicate Blank(f: Function, shapes: seq<Option<Indices>>) {
    forall p | f.entry <= p < f.end :: p < |shapes| && shapes[p] == None
  }

  lemma FirstListed(m: Module, f: Function, shapes: seq<Option<Indices>>, lists: seq<Layout>, ix: Indices)
    requires Loaded(m) && f in m.functions && StaticOk(m) && |shapes| == |m.code|
    requires Blank(f, shapes) && Stands(lists, ix, EntryShape(f))
    ensures f.entry < |shapes| && f.entry < f.end
    ensures Listed(m, f, shapes[f.entry := Some(ix)], lists, map[f.entry := EntryShape(f)], [f.entry])
  {
    hide Stands, Types, TypedAt, EntryShape, FitsAt;
    assert Starts(m, f).Some?;
    Begin(m, f);
  }

  lemma FirstBounds(f: Function)
    ensures Bounds(map[f.entry := EntryShape(f)], 0, 0, |f.arguments|)
  {
    LiftLength(f.arguments);
    PouredDepth([], Lift(f.arguments), |f.arguments|);
  }

  lemma {:induction false} PouredDepth(to: Layout, from: Layout, n: nat)
    requires n <= |from| && AllScalar(from)
    ensures Depth(Poured(to, from, n)) == Depth(to) + n
    decreases n
  {
    if n > 0 {
      DepthAppend(to, from[|from| - 1]);
      PouredDepth(to + [from[|from| - 1]], from[..|from| - 1], n - 1);
    }
  }

  lemma TypingBound(m: Module, f: Function, shapes: seq<Option<Indices>>, lists: seq<Layout>, t: Typing, work: seq<nat>)
    requires Loaded(m) && f in m.functions && Listed(m, f, shapes, lists, t, work)
    ensures |t| <= f.end
  {
    hide Exploring, Stands;
    assert |t| == |t.Keys|;
    KeysBound(t.Keys, 0, f.end);
  }

  lemma Complete(m: Module, f: Function, shapes: seq<Option<Indices>>, lists: seq<Layout>, t: Typing, work: seq<nat>)
    requires Loaded(m) && f in m.functions && Listed(m, f, shapes, lists, t, work) && work == []
    ensures Types(m, f, t) && Forced(m, f, t)
  {
    hide Types, Settled, Placed, Within;
    Inference.Finish(m, f, t);
  }

  /** Find the least typing of one function, or show that it has none, or give up. */
  method InferFunction(m: Module, f: Function, pool: Pool, shapes: array<Option<Indices>>, work: array<nat>)
    returns (verdict: Verdict, ghost t: Typing, a: nat, b: nat, c: nat)
    requires Loaded(m) && f in m.functions && StaticOk(m) && pool.Valid() && !pool.limited
    requires shapes.Length == work.Length == |m.code|
    requires Blank(f, shapes[..])
    modifies pool, shapes, work
    ensures pool.Valid() && SameOutside(f, old(shapes[..]), shapes[..])
    ensures verdict == Accepted ==> !pool.limited && Types(m, f, t) && Bounds(t, a, b, c)
    ensures verdict == Accepted ==> Forced(m, f, t) && Maxima(m, f, t, t.Keys, a, b, c)
    ensures verdict == Rejected ==> !Typeable(m, f)
    ensures verdict == Limited ==> pool.limited
    ensures f.end <= |m.code| && pool.cells <= old(pool.cells) + FunctionDemand(m, f)
  {
    hide *;
    ghost var before, lists, start := shapes[..], pool.lists, pool.cells;
    DemandSplit(m, f);
    SameStart(f, before);
    var ix := EntryIndices(pool, f);
    KeptGrows(pool, lists, false);
    verdict, t, a, b, c := Limited, map[f.entry := EntryShape(f)], 0, 0, |f.arguments|;
    if pool.limited {
      return;
    }
    FirstListed(m, f, before, pool.lists, ix);
    FirstBounds(f);
    ghost var base, done: set<nat> := pool.cells, {};
    AffordedFirst(m, f, base);
    MaximaFirst(m, f, t);
    SameWrite(f, before, f.entry, Some(ix));
    shapes[f.entry] := Some(ix);
    work[0] := f.entry;
    var pending := 1;
    assert shapes[..] == before[f.entry := Some(ix)] && work[..1] == [f.entry];
    while pending > 0
      invariant pool.Valid() && !pool.limited && pending <= work.Length && SameOutside(f, before, shapes[..])
      invariant Listed(m, f, shapes[..], pool.lists, t, work[..pending]) && Bounds(t, a, b, c)
      invariant Afforded(m, f, base, pool.cells, done, t, work[..pending]) && Maxima(m, f, t, done, a, b, c)
      decreases f.end - |t|, pending
    {
      ghost var now := shapes[..];
      TypingBound(m, f, now, pool.lists, t, work[..pending]);
      verdict, pending, t, done, a, b, c := Visit(m, f, pool, shapes, work, pending, t, done, base, a, b, c);
      SameThen(f, before, now, shapes[..]);
      if verdict != Accepted {
        return;
      }
      TypingBound(m, f, shapes[..], pool.lists, t, work[..pending]);
    }
    DemandCovers(m, f, base, pool.cells, done, t, work[..pending]);
    AffordedSplit(m, f, base, pool.cells, done, t, work[..pending]);
    assert work[..pending] == [];
    MaximaAll(m, f, t, done, a, b, c);
    Complete(m, f, shapes[..], pool.lists, t, work[..pending]);
    verdict := Accepted;
  }

  /** The typings and stack bounds of the first `n` functions. */
  ghost predicate TypedUpTo(m: Module, n: nat, ts: seq<Typing>, a: seq<nat>, b: seq<nat>, c: seq<nat>)
    requires Loaded(m)
  {
    && n <= |m.functions| && |ts| == n && n <= |a| && n <= |b| && n <= |c|
    && forall f | 0 <= f < n :: Types(m, m.functions[f], ts[f]) && Bounds(ts[f], a[f], b[f], c[f])
  }

  /** The typings are the least ones, and the bounds are the largest depths found there. */
  ghost predicate ExactUpTo(m: Module, n: nat, ts: seq<Typing>, a: seq<nat>, b: seq<nat>, c: seq<nat>)
    requires Loaded(m)
  {
    && n <= |m.functions| && |ts| == n && n <= |a| && n <= |b| && n <= |c|
    && forall f | 0 <= f < n ::
      Forced(m, m.functions[f], ts[f]) && Maxima(m, m.functions[f], ts[f], ts[f].Keys, a[f], b[f], c[f])
  }

  lemma ExactMore(m: Module, n: nat, ts: seq<Typing>, t: Typing, a: seq<nat>, b: seq<nat>, c: seq<nat>, x: nat,
    y: nat, z: nat)
    requires Loaded(m) && ExactUpTo(m, n, ts, a, b, c) && n < |m.functions| && n < |a| && n < |b| && n < |c|
    requires Forced(m, m.functions[n], t) && Maxima(m, m.functions[n], t, t.Keys, x, y, z)
    ensures ExactUpTo(m, n + 1, ts + [t], a[n := x], b[n := y], c[n := z])
  {
    hide Forced, Maxima;
  }

  lemma ExactNone(m: Module, a: seq<nat>, b: seq<nat>, c: seq<nat>)
    requires Loaded(m)
    ensures ExactUpTo(m, 0, [], a, b, c)
  {
  }

  lemma TypedMore(m: Module, n: nat, ts: seq<Typing>, t: Typing, a: seq<nat>, b: seq<nat>, c: seq<nat>, x: nat,
    y: nat, z: nat)
    requires Loaded(m) && TypedUpTo(m, n, ts, a, b, c) && n < |m.functions| && n < |a| && n < |b| && n < |c|
    requires Types(m, m.functions[n], t) && Bounds(t, x, y, z)
    ensures TypedUpTo(m, n + 1, ts + [t], a[n := x], b[n := y], c[n := z])
  {
    hide Types, Bounds;
  }

  /** Functions from `n` on have no recorded shape yet. */
  ghost predicate Untouched(m: Module, n: nat, shapes: seq<Option<Indices>>)
    requires Loaded(m)
  {
    |shapes| == |m.code| && forall p | 0 <= p < |shapes| && Later(m, n, p) :: shapes[p] == None
  }

  lemma UntouchedRange(m: Module, n: nat, shapes: seq<Option<Indices>>)
    requires Loaded(m) && n < |m.functions| && Untouched(m, n, shapes)
    ensures Blank(m.functions[n], shapes)
  {
  }

  lemma UntouchedNext(m: Module, n: nat, before: seq<Option<Indices>>, after: seq<Option<Indices>>)
    requires Loaded(m) && n < |m.functions| && Untouched(m, n, before) && SameOutside(m.functions[n], before, after)
    ensures Untouched(m, n + 1, after)
  {
    assert forall p | 0 <= p < |m.code| && Later(m, n + 1, p) :: Later(m, n, p);
  }

  /** The verifier's work on one function. */
  method VerifyNext(m: Module, fi: nat, pool: Pool, shapes: array<Option<Indices>>, work: array<nat>,
    maxA: array<nat>, maxB: array<nat>, maxC: array<nat>, ghost ts: seq<Typing>)
    returns (verdict: Verdict, ghost ts': seq<Typing>)
    requires Loaded(m) && fi < |m.functions| && StaticOk(m) && pool.Valid() && !pool.limited
    requires shapes.Length == work.Length == |m.code| && Untouched(m, fi, shapes[..])
    requires maxA.Length == maxB.Length == maxC.Length == |m.functions|
    requires maxA != maxB && maxA != maxC && maxB != maxC && work !in {maxA, maxB, maxC}
    requires TypedUpTo(m, fi, ts, maxA[..], maxB[..], maxC[..]) && ExactUpTo(m, fi, ts, maxA[..], maxB[..], maxC[..])
    modifies pool, shapes, work, maxA, maxB, maxC
    ensures pool.Valid() && Untouched(m, fi + 1, shapes[..])
    ensures verdict == Accepted ==> !pool.limited && TypedUpTo(m, fi + 1, ts', maxA[..], maxB[..], maxC[..])
    ensures verdict == Accepted ==> ExactUpTo(m, fi + 1, ts', maxA[..], maxB[..], maxC[..])
    ensures verdict == Rejected ==> !WellTyped(m)
    ensures verdict == Limited ==> pool.limited
    ensures m.functions[fi].end <= |m.code| && pool.cells <= old(pool.cells) + FunctionDemand(m, m.functions[fi])
  {
    hide *;
    ghost var before, x, y, z := shapes[..], maxA[..], maxB[..], maxC[..];
    UntouchedRange(m, fi, before);
    FunctionIn(m, fi);
    ghost var t;
    var a, b, c;
    verdict, t, a, b, c := InferFunction(m, m.functions[fi], pool, shapes, work);
    UntouchedNext(m, fi, before, shapes[..]);
    ts' := ts + [t];
    if verdict == Rejected {
      NotTyped(m, fi);
    } else if verdict == Accepted {
      TypedMore(m, fi, ts, t, x, y, z, a, b, c);
      ExactMore(m, fi, ts, t, x, y, z, a, b, c);
      maxA[fi] := a;
      maxB[fi] := b;
      maxC[fi] := c;
      assert maxA[..] == x[fi := a] && maxB[..] == y[fi := b] && maxC[..] == z[fi := c];
    }
  }

  lemma FunctionIn(m: Module, fi: nat)
    requires fi < |m.functions|
    ensures m.functions[fi] in m.functions
  {
  }

  /** The verifier. It accepts only well typed modules, with the least typing of every function and the
      largest depths its instructions leave on each stack, rejects only modules that are not well typed,
      and gives up only on modules whose instructions and arguments together ask for as many cells as the
      pool has nodes. */
  method Verify(m: Module)
    returns (verdict: Verdict, maxA: array<nat>, maxB: array<nat>, maxC: array<nat>, ghost ts: seq<Typing>)
    requires Loaded(m)
    ensures verdict == Accepted ==> WellTyped(m) && AllTyped(m, ts)
    ensures maxA.Length == maxB.Length == maxC.Length == |m.functions|
    ensures verdict == Accepted ==> TypedUpTo(m, |m.functions|, ts, maxA[..], maxB[..], maxC[..])
    ensures verdict == Accepted ==> ExactUpTo(m, |m.functions|, ts, maxA[..], maxB[..], maxC[..])
    ensures verdict == Rejected ==> !WellTyped(m)
    ensures verdict == Limited ==> MAX_NODES <= ModuleDemand(m, |m.functions|)
  {
    hide *;
    var n := |m.functions|;
    maxA, maxB, maxC := new nat[n](_ => 0), new nat[n](_ => 0), new nat[n](_ => 0);
    ts := [];
    var ok, _ := CheckAll(m);
    if !ok {
      NotStatic(m);
      return Rejected, maxA, maxB, maxC, ts;
    }
    var pool := new Pool();
    var shapes := new Option<Indices>[|m.code|](_ => None);
    var work := new nat[|m.code|];
    AllUntouched(m, shapes[..]);
    NoneTyped(m, maxA[..], maxB[..], maxC[..]);
    ExactNone(m, maxA[..], maxB[..], maxC[..]);
    DemandNone(m);
    for fi := 0 to n
      invariant pool.Valid() && !pool.limited && Untouched(m, fi, shapes[..])
      invariant TypedUpTo(m, fi, ts, maxA[..], maxB[..], maxC[..]) && pool.cells <= ModuleDemand(m, fi)
      invariant ExactUpTo(m, fi, ts, maxA[..], maxB[..], maxC[..])
      modifies pool, shapes, work, maxA, maxB, maxC
    {
      ghost var cells := pool.cells;
      verdict, ts := VerifyNext(m, fi, pool, shapes, work, maxA, maxB, maxC, ts);
      DemandNext(m, fi, cells, pool.cells);
      if verdict != Accepted {
        if verdict == Limited {
          LimitMet(pool);
        }
        return;
      }
    }
    Everything(m, ts, maxA[..], maxB[..], maxC[..]);
    verdict := Accepted;
  }

  /** What acceptance means for every run, entered anywhere with arguments of the declared kinds: no
      underflow, no wrong kind, no byte outside a live block, always at an instruction start of the
      current function with exactly the shapes found there, never above the recorded maxima, and only
      the declared results at the end. */
  lemma AcceptedRunsAreSafe(m: Module, ts: seq<Typing>, a: seq<nat>, b: seq<nat>, c: seq<nat>,
    f: nat, arguments: seq<Slot>, choices: seq<Cell>)
    requires Loaded(m) && WellTyped(m) && AllTyped(m, ts) && TypedUpTo(m, |m.functions|, ts, a, b, c)
    requires |a| == |b| == |c| == |m.functions| && f < |m.functions| && Accepts(m.functions[f], arguments)
    ensures var st := Run(m, Start(m, f, arguments), choices);
      && st != Broken
      && (st.Finished? ==> Entries(st.values) == Lift(m.functions[f].results))
      && (st.Running? ==>
        && st.f < |m.functions| && StartIn(m, m.functions[st.f], st.pc)
        && st.pc in ts[st.f] && ShapeOf(st.stacks) == ts[st.f][st.pc]
        && Depth(Entries(st.stacks.a)) <= a[st.f] && Depth(Entries(st.stacks.b)) <= b[st.f]
        && Depth(Entries(st.stacks.c)) <= c[st.f])
  {
    hide Loaded, WellTyped, AllTyped, Types, Run, Start, Accepts, StartIn, Bounds;
    WellTypedRunsAreSafe(m, f, arguments, choices);
    RunsFollowShapes(m, ts, a, b, c, f, arguments, choices);
  }

  lemma NotStatic(m: Module)
    requires Loaded(m) && !StaticOk(m)
    ensures !WellTyped(m)
  {
  }

  lemma NotTyped(m: Module, f: nat)
    requires Loaded(m) && f < |m.functions| && !Typeable(m, m.functions[f])
    ensures !WellTyped(m)
  {
    hide Typeable, StaticOk;
    assert m.functions[f] in m.functions;
  }

  lemma AllUntouched(m: Module, shapes: seq<Option<Indices>>)
    requires Loaded(m) && |shapes| == |m.code| && forall p | 0 <= p < |shapes| :: shapes[p] == None
    ensures Untouched(m, 0, shapes)
  {
  }

  lemma NoneTyped(m: Module, a: seq<nat>, b: seq<nat>, c: seq<nat>)
    requires Loaded(m)
    ensures TypedUpTo(m, 0, [], a, b, c)
  {
  }

  lemma Everything(m: Module, ts: seq<Typing>, a: seq<nat>, b: seq<nat>, c: seq<nat>)
    requires Loaded(m) && StaticOk(m) && TypedUpTo(m, |m.functions|, ts, a, b, c)
    ensures WellTyped(m) && AllTyped(m, ts)
  {
    hide Types, StaticOk, Bounds;
    forall f | f in m.functions ensures Typeable(m, f) {
      var i :| 0 <= i < |m.functions| && m.functions[i] == f;
      assert Types(m, m.functions[i], ts[i]);
    }
  }
}
