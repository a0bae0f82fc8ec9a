/** Whole runs with calls: a well typed module never underflows, mixes kinds, leaves its functions or
    returns anything but what it declares.
 */
module TypedRuns {
  import opened Words
  import opened Bytecode
  import opened Shapes
  import opened TypedCode
  import opened TypedMachine

  /** An activation that waits for a call to return its results to `bank`. */
  datatype Waiting = Waiting(f: nat, back: nat, bank: Bank, stacks: Banks<Slot>)

  datatype State =
    | Running(waiting: seq<Waiting>, f: nat, pc: nat, stacks: Banks<Slot>)
    | Finished(values: seq<Slot>)
    | Trapped(reason: nat)
    | Broken

  /** A callee finds argument zero on top of its frame: arguments are gathered top first. */
  function Entered(g: Function, arguments: seq<Slot>): Banks<Slot> {
    Banks([], [], Poured([], arguments, |arguments|))
  }

  predicate Accepts(g: Function, arguments: seq<Slot>) {
    Entries(arguments) == Lift(g.arguments)
  }

  ghost function Leave(m: Module, st: State, i: Op, next: nat): State
    requires st.Running? && Leaving(i) && Loaded(m)
  {
    var x, s := i.bank, st.stacks;
    var l := s.At(x);
    match i
    case OpCall(_, target, n) =>
      if FunctionAt(m, target).None? || |l| < n then Broken
      else
        var g := FunctionAt(m, target).value;
        if !Accepts(m.functions[g], l[|l| - n..]) then Broken
        else
          var w := Waiting(st.f, next, x, s.Put(x, l[..|l| - n]));
          Running(st.waiting + [w], g, target, Entered(m.functions[g], l[|l| - n..]))
    case OpTailCall(_, target, frame, n) =>
      if FunctionAt(m, target).None? || s.At(Opposite(x)) != [] || Depth(Entries(s.c)) != frame || |l| != n then Broken
      else
        var g := FunctionAt(m, target).value;
        if !Accepts(m.functions[g], l) then Broken
        else Running(st.waiting, g, target, Entered(m.functions[g], l))
    case OpReturn(_, frame, n) =>
      if s.At(Opposite(x)) != [] || Depth(Entries(s.c)) != frame || |l| != n then Broken
      else if st.waiting == [] then Finished(l)
      else
        var w := st.waiting[|st.waiting| - 1];
        Running(st.waiting[..|st.waiting| - 1], w.f, w.back, w.stacks.Put(w.bank, w.stacks.At(w.bank) + l))
    case OpHalt(_) =>
      if st.waiting == [] && s.At(Opposite(x)) == [] && s.c == [] then Finished(l) else Broken
  }

  /** One step; `choice` is any value a float operation or memory may produce. */
  ghost function Step(m: Module, st: State, choice: Cell): State
    requires Loaded(m)
  {
    if !st.Running? then st
    else if st.f >= |m.functions| || !StartIn(m, m.functions[st.f], st.pc) then Broken
    else
      StartSound(m, m.functions[st.f], st.pc);
      var d := m.code[st.pc].value;
      if Leaving(d.op) then Leave(m, st, d.op, st.pc + d.length)
      else
        match Local(d.op, st.pc + d.length, st.stacks, choice)
        case Wrong => Broken
        case Stops(reason) => Trapped(reason)
        case Go(stacks, pc) => Running(st.waiting, st.f, pc, stacks)
  }

  ghost function Run(m: Module, st: State, choices: seq<Cell>): State
    requires Loaded(m)
  {
    if choices == [] then st else Step(m, Run(m, st, choices[..|choices| - 1]), choices[|choices| - 1])
  }

  function Start(m: Module, f: nat, arguments: seq<Slot>): State
    requires f < |m.functions|
  {
    Running([], f, m.functions[f].entry, Entered(m.functions[f], arguments))
  }

  // ----- what every reachable state satisfies -----

  ghost predicate AllTyped(m: Module, ts: seq<Typing>)
    requires Loaded(m)
  {
    StaticOk(m) && |ts| == |m.functions| && forall f | 0 <= f < |ts| :: Types(m, m.functions[f], ts[f])
  }

  ghost predicate At(m: Module, ts: seq<Typing>, f: nat, pc: nat, s: Shape)
    requires Loaded(m)
  {
    && f < |m.functions| == |ts|
    && StartIn(m, m.functions[f], pc) && pc in ts[f] && ts[f][pc] == s
  }

  /** A function that may be entered by a call has no HALT. */
  ghost predicate Callable(m: Module, f: nat)
    requires Loaded(m)
  {
    f < |m.functions| && !HasHalt(m, m.functions[f])
  }

  ghost predicate Waits(m: Module, ts: seq<Typing>, w: Waiting, results: seq<Kind>)
    requires Loaded(m)
  {
    var s := ShapeOf(w.stacks);
    At(m, ts, w.f, w.back, s.Put(w.bank, s.At(w.bank) + Lift(results)))
  }

  /** Each waiting activation will fit its instruction once the results above it arrive; `root` are
      the results the host expects. */
  ghost predicate Stacked(m: Module, ts: seq<Typing>, waiting: seq<Waiting>, f: nat, root: seq<Kind>)
    requires Loaded(m)
  {
    f < |m.functions| &&
    if waiting == [] then m.functions[f].results == root
    else
      var w := waiting[|waiting| - 1];
      && Callable(m, f) && Waits(m, ts, w, m.functions[f].results)
      && Stacked(m, ts, waiting[..|waiting| - 1], w.f, root)
  }

  ghost predicate Good(m: Module, ts: seq<Typing>, root: seq<Kind>, st: State)
    requires Loaded(m)
  {
    match st
    case Running(waiting, f, pc, s) => At(m, ts, f, pc, ShapeOf(s)) && Stacked(m, ts, waiting, f, root)
    case Finished(values) => Entries(values) == Lift(root)
    case Trapped(_) => true
    case Broken => false
  }

  lemma EnteredShape(g: Function, arguments: seq<Slot>)
    requires Accepts(g, arguments)
    ensures ShapeOf(Entered(g, arguments)) == EntryShape(g)
  {
    PouredShape([], arguments, |arguments|);
    assert |Lift(g.arguments)| == |g.arguments|;
  }

  lemma EntryAt(m: Module, ts: seq<Typing>, g: nat, arguments: seq<Slot>)
    requires Loaded(m) && AllTyped(m, ts) && g < |m.functions| && Accepts(m.functions[g], arguments)
    ensures At(m, ts, g, m.functions[g].entry, ShapeOf(Entered(m.functions[g], arguments)))
  {
    EnteredShape(m.functions[g], arguments);
    assert Types(m, m.functions[g], ts[g]);
    assert m.functions[g] in m.functions;
  }

  lemma EntryUnique(m: Module, pc: nat, f: nat, g: nat)
    requires Loaded(m) && IsEntry(m, pc, f) && IsEntry(m, pc, g)
    ensures f == g
  {
    if f < g {
      Ordered(m, f, g);
    } else if g < f {
      Ordered(m, g, f);
    }
  }

  /** A checked call names a function without HALT that takes that many arguments. */
  lemma CalleeKnown(m: Module, f: Function, i: Op)
    requires Loaded(m) && IsCall(i) && CallFits(m, f, i)
    ensures FunctionAt(m, i.target).Some?
    ensures var g := FunctionAt(m, i.target).value;
      Callable(m, g) && m.functions[g].entry == i.target && CalleeFits(m, f, i, m.functions[g])
      && Callee(m, i) == Some(m.functions[g])
  {
    var g: nat :| IsEntry(m, i.target, g) && CalleeFits(m, f, i, m.functions[g]);
    EntryUnique(m, i.target, g, FunctionAt(m, i.target).value);
  }

  lemma EntriesSplit(l: seq<Slot>, n: nat)
    requires n <= |l|
    ensures Entries(l[..n]) == Entries(l)[..n] && Entries(l[n..]) == Entries(l)[n..]
  {
  }

  /** The facts about a running state's instruction that the steps below use. */
  lemma Situated(m: Module, ts: seq<Typing>, f: nat, pc: nat, s: Shape)
    requires Loaded(m) && AllTyped(m, ts) && At(m, ts, f, pc, s)
    ensures pc < |m.code| && m.code[pc].Some? && m.functions[f] in m.functions
    ensures var d := m.code[pc].value;
      Fits(m, m.functions[f], d.op) && Transfer(m.functions[f], Callee(m, d.op), d.op, s).Some?
    ensures IsHalt(m, pc) ==> HasHalt(m, m.functions[f])
  {
    hide Transfer;
    var fn := m.functions[f];
    StartSound(m, fn, pc);
    assert Types(m, fn, ts[f]) && TypedAt(m, fn, ts[f], pc);
    assert FitsAt(m, fn, pc);
  }

  /** Successors of a typed start are typed starts. */
  lemma SuccessorAt(m: Module, ts: seq<Typing>, f: nat, pc: nat, s: Shape, p: nat)
    requires Loaded(m) && AllTyped(m, ts) && At(m, ts, f, pc, s) && pc < |m.code| && m.code[pc].Some?
    requires p in Successors(m.code[pc].value.op, pc + m.code[pc].value.length)
    ensures var d := m.code[pc].value;
      var s' := Transfer(m.functions[f], Callee(m, d.op), d.op, s);
      s'.Some? && At(m, ts, f, p, s'.value)
  {
    hide Transfer, Types, TypedAt, Starts, Callee, StaticOk, Scan, CallFits, Loaded, StartIn, Successors;
    var fn := m.functions[f];
    var d := m.code[pc].value;
    Situated(m, ts, f, pc, s);
    StartSound(m, fn, pc);
    EdgeTyped(m, fn, ts[f], pc, p);
    SuccessorCases(d.op, pc + d.length, p);
  }

  lemma SuccessorCases(i: Op, next: nat, p: nat)
    requires p in Successors(i, next)
    ensures p in Targets(i) || p == next
  {
  }

  lemma EdgeTyped(m: Module, f: Function, t: Typing, pc: nat, p: nat)
    requires pc in t && Types(m, f, t) && pc < |m.code| && m.code[pc].Some?
    requires p in Successors(m.code[pc].value.op, pc + m.code[pc].value.length)
    ensures var d := m.code[pc].value;
      var s' := Transfer(f, Callee(m, d.op), d.op, t[pc]);
      s'.Some? && Arrives(f, t, p, s'.value)
  {
    hide Transfer, Callee, Successors, Arrives;
    assert TypedAt(m, f, t, pc);
  }

  lemma LocalGood(m: Module, ts: seq<Typing>, root: seq<Kind>, st: State, choice: Cell)
    requires Loaded(m) && AllTyped(m, ts) && Good(m, ts, root, st) && st.Running?
    requires At(m, ts, st.f, st.pc, ShapeOf(st.stacks)) && st.pc < |m.code| && m.code[st.pc].Some?
    requires !Leaving(m.code[st.pc].value.op)
    ensures Good(m, ts, root, Step(m, st, choice))
  {
    hide Transfer, Local, Types, TypedAt, AllTyped, Successors, StartIn, Stacked;
    var s := ShapeOf(st.stacks);
    var d := m.code[st.pc].value;
    var next := st.pc + d.length;
    Situated(m, ts, st.f, st.pc, s);
    NoCallee(m, m.functions[st.f], d.op, s);
    LocalSound(m.functions[st.f], d.op, next, st.stacks, choice);
    var e := Local(d.op, next, st.stacks, choice);
    if e.Go? {
      SuccessorAt(m, ts, st.f, st.pc, s, e.pc);
    }
  }

  /** Only calls look at the function called. */
  lemma NoCallee(m: Module, f: Function, i: Op, s: Shape)
    requires !Leaving(i)
    ensures Callee(m, i) == None
  {
  }

  /** What a call does when its instruction fits. */
  lemma CallStep(m: Module, st: State, choice: Cell, g: nat)
    requires Loaded(m) && st.Running? && st.f < |m.functions| && StartIn(m, m.functions[st.f], st.pc)
    requires st.pc < |m.code| && m.code[st.pc].Some? && m.code[st.pc].value.op.OpCall?
    requires var i := m.code[st.pc].value.op;
      && FunctionAt(m, i.target) == Some(g) && i.count == |m.functions[g].arguments|
      && CallShape(ShapeOf(st.stacks), i.bank, m.functions[g]).Some?
    ensures var d := m.code[st.pc].value;
      var x, n, l := d.op.bank, d.op.count, st.stacks.At(d.op.bank);
      && n <= |l| && Accepts(m.functions[g], l[|l| - n..])
      && Step(m, st, choice) ==
        Running(st.waiting + [Waiting(st.f, st.pc + d.length, x, st.stacks.Put(x, l[..|l| - n]))],
          g, m.functions[g].entry, Entered(m.functions[g], l[|l| - n..]))
  {
    hide StartIn, Entered, Local;
    var d := m.code[st.pc].value;
    var l := st.stacks.At(d.op.bank);
    AtShape(st.stacks, d.op.bank);
    EntriesSplit(l, |l| - d.op.count);
  }

  /** The caller's shape after the call is its waiting shape with the results pushed. */
  lemma CallWaits(s: Banks<Slot>, x: Bank, n: nat, g: Function)
    requires n == |g.arguments| <= |s.At(x)| && CallShape(ShapeOf(s), x, g).Some?
    ensures var w := ShapeOf(s.Put(x, s.At(x)[..|s.At(x)| - n]));
      CallShape(ShapeOf(s), x, g) == Some(w.Put(x, w.At(x) + Lift(g.results)))
  {
    var l := s.At(x);
    AtShape(s, x);
    EntriesSplit(l, |l| - n);
    PutShape(s, x, l[..|l| - n]);
  }

  lemma TransferCall(f: Function, g: Option<Function>, i: Op, s: Shape)
    requires Leaving(i)
    ensures Transfer(f, g, i, s) == TransferLeaving(f, g, i, s)
  {
    hide TransferMoving, TransferFraming, TransferComputing, TransferBranching, TransferTouching, TransferLeaving;
  }

  lemma CallFacts(m: Module, ts: seq<Typing>, f: nat, pc: nat, s: Shape)
    requires Loaded(m) && AllTyped(m, ts) && At(m, ts, f, pc, s)
    requires pc < |m.code| && m.code[pc].Some? && m.code[pc].value.op.OpCall?
    ensures var d := m.code[pc].value;
      && FunctionAt(m, d.op.target).Some?
      && var g := FunctionAt(m, d.op.target).value;
        && Callable(m, g) && m.functions[g].entry == d.op.target && d.op.count == |m.functions[g].arguments|
        && CallShape(s, d.op.bank, m.functions[g]).Some?
        && At(m, ts, f, pc + d.length, CallShape(s, d.op.bank, m.functions[g]).value)
  {
    hide AllTyped, At, Transfer, CallShape, Loaded, HasHalt, CallFits;
    var d := m.code[pc].value;
    AtFunction(m, ts, f, pc, s);
    Situated(m, ts, f, pc, s);
    CalleeKnown(m, m.functions[f], d.op);
    NextIn(d.op, pc + d.length);
    SuccessorAt(m, ts, f, pc, s, pc + d.length);
    TransferCall(m.functions[f], Callee(m, d.op), d.op, s);
  }

  lemma AtFunction(m: Module, ts: seq<Typing>, f: nat, pc: nat, s: Shape)
    requires Loaded(m) && At(m, ts, f, pc, s)
    ensures f < |m.functions| == |ts| && StartIn(m, m.functions[f], pc)
  {
  }

  lemma CallGood(m: Module, ts: seq<Typing>, root: seq<Kind>, st: State, choice: Cell)
    requires Loaded(m) && AllTyped(m, ts) && Good(m, ts, root, st) && st.Running?
    requires st.pc < |m.code| && m.code[st.pc].Some? && m.code[st.pc].value.op.OpCall?
    ensures Good(m, ts, root, Step(m, st, choice))
  {
    hide Step, AllTyped, At, Entered, CallShape, Loaded, HasHalt, FunctionAt;
    var s := ShapeOf(st.stacks);
    var d := m.code[st.pc].value;
    var x, n, l := d.op.bank, d.op.count, st.stacks.At(d.op.bank);
    AtFunction(m, ts, st.f, st.pc, s);
    CallFacts(m, ts, st.f, st.pc, s);
    var g := FunctionAt(m, d.op.target).value;
    CallStep(m, st, choice, g);
    CallWaits(st.stacks, x, n, m.functions[g]);
    EntryAt(m, ts, g, l[|l| - n..]);
    var w := Waiting(st.f, st.pc + d.length, x, st.stacks.Put(x, l[..|l| - n]));
    assert Waits(m, ts, w, m.functions[g].results);
    assert (st.waiting + [w])[..|st.waiting|] == st.waiting;
  }

  lemma TailFacts(m: Module, ts: seq<Typing>, f: nat, pc: nat, s: Shape)
    requires Loaded(m) && AllTyped(m, ts) && At(m, ts, f, pc, s)
    requires pc < |m.code| && m.code[pc].Some? && m.code[pc].value.op.OpTailCall?
    ensures var i := m.code[pc].value.op;
      && FunctionAt(m, i.target).Some?
      && var g := FunctionAt(m, i.target).value;
        && Callable(m, g) && m.functions[g].entry == i.target && i.count == |m.functions[g].arguments|
        && SameResults(m.functions[f], m.functions[g])
        && TailShape(s, i.bank, i.frame, m.functions[g]).Some?
  {
    hide AllTyped, At, Transfer, TailShape, Loaded, HasHalt, CallFits;
    var i := m.code[pc].value.op;
    AtFunction(m, ts, f, pc, s);
    Situated(m, ts, f, pc, s);
    CalleeKnown(m, m.functions[f], i);
    TransferCall(m.functions[f], Callee(m, i), i, s);
  }

  lemma TailStep(m: Module, st: State, choice: Cell, g: nat)
    requires Loaded(m) && st.Running? && st.f < |m.functions| && StartIn(m, m.functions[st.f], st.pc)
    requires st.pc < |m.code| && m.code[st.pc].Some? && m.code[st.pc].value.op.OpTailCall?
    requires var i := m.code[st.pc].value.op;
      && FunctionAt(m, i.target) == Some(g) && i.count == |m.functions[g].arguments|
      && TailShape(ShapeOf(st.stacks), i.bank, i.frame, m.functions[g]).Some?
    ensures var l := st.stacks.At(m.code[st.pc].value.op.bank);
      && Accepts(m.functions[g], l)
      && Step(m, st, choice) == Running(st.waiting, g, m.functions[g].entry, Entered(m.functions[g], l))
  {
    hide StartIn, Entered, Local, Depth;
    var i := m.code[st.pc].value.op;
    AtShape(st.stacks, i.bank);
    AtShape(st.stacks, Opposite(i.bank));
  }

  lemma TailGood(m: Module, ts: seq<Typing>, root: seq<Kind>, st: State, choice: Cell)
    requires Loaded(m) && AllTyped(m, ts) && Good(m, ts, root, st) && st.Running?
    requires st.pc < |m.code| && m.code[st.pc].Some? && m.code[st.pc].value.op.OpTailCall?
    ensures Good(m, ts, root, Step(m, st, choice))
  {
    hide Step, AllTyped, At, Entered, TailShape, Loaded, HasHalt, FunctionAt, Waits;
    var s := ShapeOf(st.stacks);
    AtFunction(m, ts, st.f, st.pc, s);
    TailFacts(m, ts, st.f, st.pc, s);
    var i := m.code[st.pc].value.op;
    var g := FunctionAt(m, i.target).value;
    TailStep(m, st, choice, g);
    EntryAt(m, ts, g, st.stacks.At(i.bank));
  }

  /** What a return finds: the declared results alone on its stack and the frame it releases. */
  lemma ReturnFacts(m: Module, ts: seq<Typing>, f: nat, pc: nat, s: Shape)
    requires Loaded(m) && AllTyped(m, ts) && At(m, ts, f, pc, s)
    requires pc < |m.code| && m.code[pc].Some? && m.code[pc].value.op.OpReturn?
    ensures var i := m.code[pc].value.op;
      && f < |m.functions|
      && Depth(s.c) == i.frame && s.At(Opposite(i.bank)) == []
      && i.count == |m.functions[f].results| && s.At(i.bank) == Lift(m.functions[f].results)
  {
    hide AllTyped, At, Transfer, Loaded, HasHalt, CallFits;
    var i := m.code[pc].value.op;
    AtFunction(m, ts, f, pc, s);
    Situated(m, ts, f, pc, s);
    TransferCall(m.functions[f], Callee(m, i), i, s);
  }

  lemma ReturnStep(m: Module, st: State, choice: Cell)
    requires Loaded(m) && st.Running? && st.f < |m.functions| && StartIn(m, m.functions[st.f], st.pc)
    requires st.pc < |m.code| && m.code[st.pc].Some? && m.code[st.pc].value.op.OpReturn?
    requires var i := m.code[st.pc].value.op;
      var s := ShapeOf(st.stacks);
      Depth(s.c) == i.frame && s.At(Opposite(i.bank)) == [] && i.count == |s.At(i.bank)|
    ensures var l := st.stacks.At(m.code[st.pc].value.op.bank);
      Step(m, st, choice) ==
        if st.waiting == [] then Finished(l)
        else
          var w := st.waiting[|st.waiting| - 1];
          Running(st.waiting[..|st.waiting| - 1], w.f, w.back, w.stacks.Put(w.bank, w.stacks.At(w.bank) + l))
  {
    hide StartIn, Local, Depth;
    var i := m.code[st.pc].value.op;
    AtShape(st.stacks, i.bank);
    AtShape(st.stacks, Opposite(i.bank));
  }

  lemma ReturnGood(m: Module, ts: seq<Typing>, root: seq<Kind>, st: State, choice: Cell)
    requires Loaded(m) && AllTyped(m, ts) && Good(m, ts, root, st) && st.Running?
    requires st.pc < |m.code| && m.code[st.pc].Some? && m.code[st.pc].value.op.OpReturn?
    ensures Good(m, ts, root, Step(m, st, choice))
  {
    hide Step, AllTyped, At, Loaded, Callable, Depth;
    var s := ShapeOf(st.stacks);
    var x := m.code[st.pc].value.op.bank;
    var l := st.stacks.At(x);
    AtFunction(m, ts, st.f, st.pc, s);
    ReturnFacts(m, ts, st.f, st.pc, s);
    AtShape(st.stacks, x);
    ReturnStep(m, st, choice);
    if st.waiting != [] {
      var w := st.waiting[|st.waiting| - 1];
      AtShape(w.stacks, w.bank);
      EntriesJoin(w.stacks.At(w.bank), l);
      PutShape(w.stacks, w.bank, w.stacks.At(w.bank) + l);
    }
  }

  lemma EntriesJoin(a: seq<Slot>, b: seq<Slot>)
    ensures Entries(a + b) == Entries(a) + Entries(b)
  {
  }

  lemma HaltGood(m: Module, ts: seq<Typing>, root: seq<Kind>, st: State, choice: Cell)
    requires Loaded(m) && AllTyped(m, ts) && Good(m, ts, root, st) && st.Running?
    requires st.pc < |m.code| && m.code[st.pc].Some? && m.code[st.pc].value.op.OpHalt?
    ensures Good(m, ts, root, Step(m, st, choice))
  {
    hide Types, TypedAt, AllTyped, StaticOk, StartIn, Targets, Depth, HasHalt;
    var s := ShapeOf(st.stacks);
    var d := m.code[st.pc].value;
    Situated(m, ts, st.f, st.pc, s);
    AtShape(st.stacks, d.op.bank);
    AtShape(st.stacks, Opposite(d.op.bank));
  }

  /** Every step from a good state leads to a good state. */
  lemma StepGood(m: Module, ts: seq<Typing>, root: seq<Kind>, st: State, choice: Cell)
    requires Loaded(m) && AllTyped(m, ts) && Good(m, ts, root, st)
    ensures Good(m, ts, root, Step(m, st, choice))
  {
    if st.Running? {
      hide Step, AllTyped, StartIn, Stacked;
      Situated(m, ts, st.f, st.pc, ShapeOf(st.stacks));
      var i := m.code[st.pc].value.op;
      if !Leaving(i) {
        LocalGood(m, ts, root, st, choice);
      } else if i.OpCall? {
        CallGood(m, ts, root, st, choice);
      } else if i.OpTailCall? {
        TailGood(m, ts, root, st, choice);
      } else if i.OpReturn? {
        ReturnGood(m, ts, root, st, choice);
      } else {
        HaltGood(m, ts, root, st, choice);
      }
    }
  }

  lemma {:induction false} RunGood(m: Module, ts: seq<Typing>, f: nat, arguments: seq<Slot>, choices: seq<Cell>)
    requires Loaded(m) && AllTyped(m, ts) && f < |m.functions| && Accepts(m.functions[f], arguments)
    ensures Good(m, ts, m.functions[f].results, Run(m, Start(m, f, arguments), choices))
  {
    hide Step, AllTyped;
    if choices == [] {
      EntryAt(m, ts, f, arguments);
    } else {
      RunGood(m, ts, f, arguments, choices[..|choices| - 1]);
      StepGood(m, ts, m.functions[f].results, Run(m, Start(m, f, arguments), choices[..|choices| - 1]),
        choices[|choices| - 1]);
    }
  }

  // ----- what that means -----

  lemma ChooseTypings(m: Module, n: nat) returns (ts: seq<Typing>)
    requires Loaded(m) && WellTyped(m) && n <= |m.functions|
    ensures |ts| == n && forall f | 0 <= f < n :: Types(m, m.functions[f], ts[f])
  {
    hide Types;
    if n == 0 {
      ts := [];
    } else {
      ts := ChooseTypings(m, n - 1);
      assert m.functions[n - 1] in m.functions;
      assert Typeable(m, m.functions[n - 1]);
      var t :| Types(m, m.functions[n - 1], t);
      ts := ts + [t];
    }
  }

  /** However a well typed module is entered with arguments of the declared kinds, and whatever floats
      and memory produce, no run underflows a stack, meets a value of the wrong kind, touches bytes
      outside a live block or leaves the instruction starts of its functions; and a run that finishes
      leaves exactly the declared results. */
  lemma WellTypedRunsAreSafe(m: Module, f: nat, arguments: seq<Slot>, choices: seq<Cell>)
    requires Loaded(m) && WellTyped(m) && f < |m.functions| && Accepts(m.functions[f], arguments)
    ensures var st := Run(m, Start(m, f, arguments), choices);
      && st != Broken
      && (st.Finished? ==> Entries(st.values) == Lift(m.functions[f].results))
      && (st.Running? ==> st.f < |m.functions| && StartIn(m, m.functions[st.f], st.pc))
  {
    hide Run, Types, StaticOk;
    var ts := ChooseTypings(m, |m.functions|);
    RunGood(m, ts, f, arguments, choices);
  }

  /** Bounds on every recorded shape of a function. */
  ghost predicate Bounds(t: Typing, maxA: nat, maxB: nat, maxC: nat) {
    forall pc | pc in t :: Depth(t[pc].a) <= maxA && Depth(t[pc].b) <= maxB && Depth(t[pc].c) <= maxC
  }

  /** At every point of every run the running activation's stacks have exactly the recorded kinds and
      block layout, and stay within the recorded maxima. */
  lemma RunsFollowShapes(m: Module, ts: seq<Typing>, maxA: seq<nat>, maxB: seq<nat>, maxC: seq<nat>,
    f: nat, arguments: seq<Slot>, choices: seq<Cell>)
    requires Loaded(m) && AllTyped(m, ts) && f < |m.functions| && Accepts(m.functions[f], arguments)
    requires |maxA| == |maxB| == |maxC| == |ts| && forall g | 0 <= g < |ts| :: Bounds(ts[g], maxA[g], maxB[g], maxC[g])
    ensures var st := Run(m, Start(m, f, arguments), choices);
      st.Running? ==>
        && st.f < |ts| && st.pc in ts[st.f] && ShapeOf(st.stacks) == ts[st.f][st.pc]
        && Depth(Entries(st.stacks.a)) <= maxA[st.f] && Depth(Entries(st.stacks.b)) <= maxB[st.f]
        && Depth(Entries(st.stacks.c)) <= maxC[st.f]
  {
    RunGood(m, ts, f, arguments, choices);
    hide Run, AllTyped, Types, Depth, StaticOk, StartIn, Stacked;
  }
}
