/** Whole runs of a residual program against whole runs of the bytecode. */
module ResidualRuns {
  import opened Words
  import opened Bytecode
  import opened Facts
  import opened ControlCode
  import opened ResidualCode
  import opened Versions
  import opened Tracing
  import opened Exits
  import opened Specializer

  /** A residual function for each function that is needed. */
  type Program = seq<Option<Residual>>

  datatype Place = In(owner: nat, block: nat, values: seq<Cell>) | Ended(ending: Ending)

  /** The entry edge, over the arguments themselves. */
  function Entering(p: Program, g: nat, arguments: seq<Cell>): Place {
    if g >= |p| || p[g].None? then Ended(Wrong)
    else
      match Follow(p[g].value.entry, Parameters(0, arguments))
      case Goto(t, values) => In(g, t, values)
      case Enter(_, _) => Ended(Wrong)
      case Finish(o) => Ended(o)
  }

  /** Run one block. */
  function Hop(p: Program, callees: Callees, at: Place): Place {
    match at
    case Ended(_) => at
    case In(f, b, values) =>
      if f >= |p| || p[f].None? || b >= |p[f].value.blocks| then Ended(Wrong)
      else
        match RunBlock(callees, p[f].value.blocks[b], values)
        case Goto(t, next) => In(f, t, next)
        case Enter(g: nat, arguments: seq<Cell>) => Entering(p, g, arguments)
        case Finish(o) => Ended(o)
  }

  function Hops(p: Program, callees: Callees, at: Place, n: nat): Place {
    if n == 0 then at else Hop(p, callees, Hops(p, callees, at, n - 1))
  }

  function Start(m: Module, g: nat, arguments: seq<Cell>): State {
    if g < |m.functions| then At(m.functions[g].entry, Entered(arguments)) else Done(Wrong)
  }

  ghost predicate ByteEnds(m: Module, callees: Callees, g: nat, arguments: seq<Cell>, o: Ending) {
    exists k: nat :: Run(m, callees, Start(m, g, arguments), k) == Done(o)
  }

  ghost predicate ResidualEnds(p: Program, callees: Callees, g: nat, arguments: seq<Cell>, o: Ending) {
    exists k: nat :: Hops(p, callees, Entering(p, g, arguments), k) == Ended(o)
  }

  ghost function ByteOutcome(m: Module, callees: Callees, g: nat, arguments: seq<Cell>): Ending {
    if exists o :: ByteEnds(m, callees, g, arguments, o) then
      var o :| ByteEnds(m, callees, g, arguments, o);
      o
    else Silent
  }

  ghost function ResidualOutcome(p: Program, callees: Callees, g: nat, arguments: seq<Cell>): Ending {
    if exists o :: ResidualEnds(p, callees, g, arguments, o) then var o :| ResidualEnds(p, callees, g, arguments, o); o
    else Silent
  }

  /** What every function does when calls may nest `n` deep; deeper runs are silent. */
  ghost function ByteLevel(m: Module, n: nat): Callees {
    if n == 0 then (g: nat, arguments: seq<Cell>) => Silent
    else
      var callees := ByteLevel(m, n - 1);
      (g: nat, arguments: seq<Cell>) => ByteOutcome(m, callees, g, arguments)
  }

  ghost function ResidualLevel(p: Program, n: nat): Callees {
    if n == 0 then (g: nat, arguments: seq<Cell>) => Silent
    else
      var callees := ResidualLevel(p, n - 1);
      (g: nat, arguments: seq<Cell>) => ResidualOutcome(p, callees, g, arguments)
  }

  // ----- a consistent program -----

  ghost predicate Needed(m: Module, t: Table, p: Program, f: nat)
    requires f < |t| == |p|
  {
    t[f].Some? ==>
      && p[f].Some? && Faithful(m, f, t[f], p[f].value)
      && forall k | 0 <= k < |p[f].value.calls| :: Covered(t, p[f].value.calls[k])
  }

  /** Each needed function is rendered under its facts, and the calls it leaves are covered by the facts
      of their targets. */
  ghost predicate Consistent(m: Module, t: Table, p: Program) {
    && |t| == |p| == |m.functions|
    && (forall f | 0 <= f < |t| && t[f].Some? :: |t[f].value| == m.functions[f].arguments)
    && forall f | 0 <= f < |t| :: Needed(m, t, p, f)
  }

  ghost predicate Alike(t: Table, ro: Callees, bo: Callees) {
    forall g: nat, arguments | Described(t, Activation(g, arguments)) :: ro(g, arguments) == bo(g, arguments)
  }

  lemma CoveredDescribes(t: Table, c: Call, arguments: seq<Cell>)
    requires Covered(t, c) && DescribesAll(c.facts, arguments)
    ensures Described(t, Activation(c.target, arguments))
  {
    DescribedUpwards(c.facts, t[c.target].value, arguments);
  }

  lemma AlikeAgrees(t: Table, calls: seq<Call>, ro: Callees, bo: Callees)
    requires Alike(t, ro, bo) && forall k | 0 <= k < |calls| :: Covered(t, calls[k])
    ensures AgreeOn(calls, ro, bo)
  {
    forall k, arguments: seq<Cell> | 0 <= k < |calls| && DescribesAll(calls[k].facts, arguments)
      ensures ro(calls[k].target, arguments) == bo(calls[k].target, arguments)
    {
      CoveredDescribes(t, calls[k], arguments);
    }
  }

  // ----- one block against the instructions it came from -----

  ghost predicate Related(m: Module, t: Table, p: Program, at: Place, st: State) {
    match at
    case Ended(o) => st == Done(o)
    case In(f, b, values) =>
      && f < |p| == |t| && t[f].Some? && p[f].Some? && b < |p[f].value.versions|
      && |values| == Arity(p[f].value.versions[b].key) && st == Begin(p[f].value.versions[b], values)
  }

  lemma StartDenotes(m: Module, facts: Option<seq<Fact>>, g: nat, arguments: seq<Cell>)
    requires g < |m.functions| && |arguments| == m.functions[g].arguments
    requires facts.Some? && DescribesAll(facts.value, arguments)
    ensures var env, s := Parameters(0, arguments), StartContext(m, facts, g).stacks;
      BanksKnown(s, env) && DenoteBanks(s, env) == Entered(arguments)
  {
    var env, s := Parameters(0, arguments), StartContext(m, facts, g).stacks;
    var n := |arguments|;
    assert s.a == [] && s.b == [] && |s.c| == n;
    forall j | 0 <= j < n ensures Known(s.c[j], env) && Denote(s.c[j], env) == Reversed(arguments)[j] {
      var i := n - 1 - j;
      assert s.c[j] == StartSym(facts, i);
      assert Describes(facts.value[i], arguments[i]);
      assert env[i] == ParameterAt(arguments, 0, i);
    }
    assert DenoteAll(s.c, env) == Reversed(arguments);
  }

  lemma EnteringRelated(m: Module, t: Table, p: Program, g: nat, arguments: seq<Cell>)
    requires Consistent(m, t, p) && Described(t, Activation(g, arguments))
    ensures Related(m, t, p, Entering(p, g, arguments), Start(m, g, arguments))
  {
    hide Begin, Arity, StartContext, EdgeTo, FaithfulBlock, DenoteBanks, BanksKnown, Follow, Entered, Parameters;
    hide DescribesAll;
    assert Needed(m, t, p, g);
    assert g < |m.functions| && |arguments| == m.functions[g].arguments by { DescribedLength(t, g, arguments); }
    StartDenotes(m, t[g], g, arguments);
    var x := StartContext(m, t[g], g);
    FollowLands(m, p[g].value.versions, p[g].value.entry, m.functions[g].entry, x, Parameters(0, arguments));
    FollowGoes(p[g].value.entry, Parameters(0, arguments));
  }

  lemma FollowGoes(e: Edge, env: Env)
    ensures !Follow(e, env).Enter?
  {
  }

  lemma DescribedLength(t: Table, g: nat, arguments: seq<Cell>)
    requires Described(t, Activation(g, arguments))
    ensures g < |t| && t[g].Some? && |t[g].value| == |arguments|
  {
  }

  /** A block leaves the function only by a recorded call, with arguments its facts describe. */
  lemma EnterDescribed(calls: seq<Call>, b: Block, callees: Callees, values: seq<Cell>)
    requires Recorded(calls, b.exit) && RunBlock(callees, b, values).Enter?
    ensures var e := RunBlock(callees, b, values);
      exists c :: c in calls && c.target == e.callee && DescribesAll(c.facts, e.arguments)
  {
    hide RunNodes, DescribesAll, FactsOf, DenoteAll, Parameters;
    var p := RunNodes(callees, b.nodes, Parameters(b.base, values));
    assert p.On? && b.exit.TailEdge? && AllKnown(b.exit.arguments, p.env) by { LeaveEnters(p, b.exit); }
    FactsDescribe(b.exit.arguments, p.env);
    assert Call(b.exit.callee, FactsOf(b.exit.arguments)) in calls;
  }

  lemma LeaveEnters(p: ResidualCode.Progress, t: Terminator)
    requires LeaveNodes(p, t).Enter?
    ensures p.On? && t.TailEdge? && AllKnown(t.arguments, p.env)
  {
    hide AllKnown;
  }

  lemma HopGoes(m: Module, t: Table, p: Program, ro: Callees, f: nat, b: nat, values: seq<Cell>, st: State)
    requires Consistent(m, t, p) && f < |t| && t[f].Some? && p[f].Some? && b < |p[f].value.blocks|
    requires Recorded(p[f].value.calls, p[f].value.blocks[b].exit)
    requires |p[f].value.blocks| == |p[f].value.versions|
    requires Lands(m, p[f].value.versions, RunBlock(ro, p[f].value.blocks[b], values), st)
    ensures Related(m, t, p, Hop(p, ro, In(f, b, values)), st)
  {
    hide Begin, Arity, Recorded, DescribesAll, RunBlock, Faithful, Covered;
    var r := p[f].value;
    var e := RunBlock(ro, r.blocks[b], values);
    if e.Enter? {
      EnterDescribed(r.calls, r.blocks[b], ro, values);
      var c :| c in r.calls && c.target == e.callee && DescribesAll(c.facts, e.arguments);
      assert Needed(m, t, p, f);
      CoveredDescribes(t, c, e.arguments);
      EnteringRelated(m, t, p, e.callee, e.arguments);
    }
  }

  /** One block is some positive number of instructions. */
  lemma HopRelated(m: Module, t: Table, p: Program, ro: Callees, bo: Callees, at: Place, st: State) returns (steps: nat)
    requires Consistent(m, t, p) && Alike(t, ro, bo) && Related(m, t, p, at, st) && at.In?
    ensures steps > 0 && Related(m, t, p, Hop(p, ro, at), Run(m, bo, st, steps))
  {
    hide Begin, Arity, Recorded, Described, RunBlock, Lands, AgreeOn, Covered, EdgeTo, Run, Hop, Alike, StartContext;
    var r := p[at.owner].value;
    assert Needed(m, t, p, at.owner);
    assert FaithfulBlock(m, r, at.block);
    AlikeAgrees(t, r.calls, ro, bo);
    steps :| BlockOk(m, r.calls, r.versions, r.versions[at.block], r.blocks[at.block], steps);
    assert Lands(m, r.versions, RunBlock(ro, r.blocks[at.block], at.values), Run(m, bo, st, steps));
    HopGoes(m, t, p, ro, at.owner, at.block, at.values, Run(m, bo, st, steps));
  }

  // ----- whole runs -----

  /** Any number of blocks is some number of instructions, at least as many while the run goes on. */
  lemma {:induction false} HopsRelated(m: Module, t: Table, p: Program, ro: Callees, bo: Callees, at: Place,
    st: State, n: nat)
    returns (k: nat)
    requires Consistent(m, t, p) && Alike(t, ro, bo) && Related(m, t, p, at, st)
    ensures Related(m, t, p, Hops(p, ro, at, n), Run(m, bo, st, k))
    ensures Hops(p, ro, at, n).In? ==> k >= n
  {
    hide Consistent, Alike, Related, Hop, StepAt;
    k := 0;
    if n > 0 {
      k := HopsRelated(m, t, p, ro, bo, at, st, n - 1);
      var now := Hops(p, ro, at, n - 1);
      if now.In? {
        var more := HopRelated(m, t, p, ro, bo, now, Run(m, bo, st, k));
        RunThen(m, bo, st, k, more);
        k := k + more;
      } else {
        HopEnded(p, ro, now);
      }
    }
  }

  lemma HopEnded(p: Program, callees: Callees, at: Place)
    requires at.Ended?
    ensures Hop(p, callees, at) == at
  {
  }

  lemma RelatedEnd(m: Module, t: Table, p: Program, at: Place, st: State)
    requires Related(m, t, p, at, st)
    ensures at.Ended? <==> st.Done?
    ensures at.Ended? ==> st == Done(at.ending)
  {
  }

  /** A residual activation and a bytecode activation of a described call end alike, or neither ends. */
  lemma EndsAlike(m: Module, t: Table, p: Program, ro: Callees, bo: Callees, g: nat, arguments: seq<Cell>, o: Ending)
    requires Consistent(m, t, p) && Alike(t, ro, bo) && Described(t, Activation(g, arguments))
    ensures ResidualEnds(p, ro, g, arguments, o) <==> ByteEnds(m, bo, g, arguments, o)
  {
    hide Consistent, Alike, Described, Related, Hops, Run, Entering, Start;
    EnteringRelated(m, t, p, g, arguments);
    var at, st := Entering(p, g, arguments), Start(m, g, arguments);
    if ResidualEnds(p, ro, g, arguments, o) {
      var n: nat :| Hops(p, ro, at, n) == Ended(o);
      var k := HopsRelated(m, t, p, ro, bo, at, st, n);
      RelatedEnd(m, t, p, Hops(p, ro, at, n), Run(m, bo, st, k));
    }
    if ByteEnds(m, bo, g, arguments, o) {
      var n: nat :| Run(m, bo, st, n) == Done(o);
      var k := HopsRelated(m, t, p, ro, bo, at, st, n);
      RelatedEnd(m, t, p, Hops(p, ro, at, n), Run(m, bo, st, k));
      RunEnds(m, bo, st, n, k, o);
    }
  }

  lemma RunEnds(m: Module, callees: Callees, st: State, n: nat, k: nat, o: Ending)
    requires Run(m, callees, st, n) == Done(o)
    ensures k >= n ==> Run(m, callees, st, k) == Done(o)
    ensures Run(m, callees, st, k).Done? ==> Run(m, callees, st, k) == Done(o)
  {
    hide StepAt;
    if k >= n {
      RunThen(m, callees, st, n, k - n);
      RunDone(m, callees, o, k - n);
    } else if Run(m, callees, st, k).Done? {
      RunThen(m, callees, st, k, n - k);
      RunDone(m, callees, Run(m, callees, st, k).ending, n - k);
    }
  }

  lemma OneByteEnd(m: Module, callees: Callees, g: nat, arguments: seq<Cell>, o: Ending)
    requires ByteEnds(m, callees, g, arguments, o)
    ensures ByteOutcome(m, callees, g, arguments) == o
  {
    hide Run, Start;
    var st := Start(m, g, arguments);
    var n: nat :| Run(m, callees, st, n) == Done(o);
    var o' := ByteOutcome(m, callees, g, arguments);
    var k: nat :| Run(m, callees, st, k) == Done(o');
    RunEnds(m, callees, st, n, k, o);
  }

  lemma OutcomesAlike(m: Module, t: Table, p: Program, ro: Callees, bo: Callees, g: nat, arguments: seq<Cell>)
    requires Consistent(m, t, p) && Alike(t, ro, bo) && Described(t, Activation(g, arguments))
    ensures ResidualOutcome(p, ro, g, arguments) == ByteOutcome(m, bo, g, arguments)
  {
    hide Consistent, Alike, Described, ResidualEnds, ByteEnds;
    forall o ensures ResidualEnds(p, ro, g, arguments, o) <==> ByteEnds(m, bo, g, arguments, o) {
      EndsAlike(m, t, p, ro, bo, g, arguments, o);
    }
    var r := ResidualOutcome(p, ro, g, arguments);
    if ByteEnds(m, bo, g, arguments, r) {
      OneByteEnd(m, bo, g, arguments, r);
    }
  }

  /** At every depth of calls the residual program does what the bytecode does, for every activation the
      facts describe: the same results, the same abort, or silence. */
  lemma {:induction false} LevelsAlike(m: Module, t: Table, p: Program, n: nat)
    requires Consistent(m, t, p)
    ensures Alike(t, ResidualLevel(p, n), ByteLevel(m, n))
  {
    hide Consistent, Described, ResidualOutcome, ByteOutcome;
    if n > 0 {
      LevelsAlike(m, t, p, n - 1);
      var ro, bo := ResidualLevel(p, n - 1), ByteLevel(m, n - 1);
      forall g: nat, arguments | Described(t, Activation(g, arguments))
        ensures ResidualLevel(p, n)(g, arguments) == ByteLevel(m, n)(g, arguments)
      {
        OutcomesAlike(m, t, p, ro, bo, g, arguments);
      }
    }
  }

  // ----- what a function means -----

  /** Some depth of calls is enough for the run to end with `o`. */
  ghost predicate ByteMeans(m: Module, g: nat, arguments: seq<Cell>, o: Ending) {
    o != Silent && exists n: nat :: ByteLevel(m, n)(g, arguments) == o
  }

  ghost predicate ResidualMeans(p: Program, g: nat, arguments: seq<Cell>, o: Ending) {
    o != Silent && exists n: nat :: ResidualLevel(p, n)(g, arguments) == o
  }

  /** Partial evaluation preserves meaning. */
  lemma MeaningPreserved(m: Module, t: Table, p: Program, g: nat, arguments: seq<Cell>, o: Ending)
    requires Consistent(m, t, p) && Described(t, Activation(g, arguments))
    ensures ResidualMeans(p, g, arguments, o) <==> ByteMeans(m, g, arguments, o)
  {
    hide Consistent, Described, ResidualLevel, ByteLevel;
    forall n: nat ensures ResidualLevel(p, n)(g, arguments) == ByteLevel(m, n)(g, arguments) {
      LevelsAlike(m, t, p, n);
    }
  }

  /** The second answers whatever the first does. */
  ghost predicate Refines(lo: Callees, hi: Callees) {
    forall g: nat, arguments :: lo(g, arguments) == Silent || lo(g, arguments) == hi(g, arguments)
  }

  lemma AdvanceRefines(m: Module, lo: Callees, hi: Callees, st: State)
    requires Refines(lo, hi)
    ensures StepAt(m, lo, st) == Done(Silent) || StepAt(m, lo, st) == StepAt(m, hi, st)
  {
    hide Step, Operands, Banks.Put, Banks.Peek, Consumed, Taken;
    if st.At? && st.pc < |m.code| && m.code[st.pc].Some? && Operands(m.code[st.pc].value.instr, st.stacks) {
      var i := m.code[st.pc].value.instr;
      if i.CallTo? {
        CallOperands(i, st.stacks);
        var args := TopCells(st.stacks.At(i.bank), i.count);
        assert lo(i.callee, args) == Silent || lo(i.callee, args) == hi(i.callee, args);
      }
    }
  }

  lemma {:induction false} RunRefines(m: Module, lo: Callees, hi: Callees, st: State, k: nat)
    requires Refines(lo, hi)
    ensures Run(m, lo, st, k) == Done(Silent) || Run(m, lo, st, k) == Run(m, hi, st, k)
  {
    hide StepAt, Refines;
    if k > 0 {
      RunRefines(m, lo, hi, st, k - 1);
      if Run(m, lo, st, k - 1) == Done(Silent) {
        RunDone(m, lo, Silent, 1);
      } else {
        AdvanceRefines(m, lo, hi, Run(m, lo, st, k - 1));
      }
    }
  }

  lemma {:induction false} LevelsRefine(m: Module, n: nat)
    ensures Refines(ByteLevel(m, n), ByteLevel(m, n + 1))
  {
    hide Run, Start;
    if n > 0 {
      LevelsRefine(m, n - 1);
      var lo, hi := ByteLevel(m, n - 1), ByteLevel(m, n);
      forall g: nat, arguments
        ensures ByteOutcome(m, lo, g, arguments) in {Silent, ByteOutcome(m, hi, g, arguments)}
      {
        OutcomeRefines(m, lo, hi, g, arguments);
      }
    }
  }

  lemma OutcomeRefines(m: Module, lo: Callees, hi: Callees, g: nat, arguments: seq<Cell>)
    requires Refines(lo, hi)
    ensures ByteOutcome(m, lo, g, arguments) in {Silent, ByteOutcome(m, hi, g, arguments)}
  {
    hide Run, Start, Refines;
    var o := ByteOutcome(m, lo, g, arguments);
    if o != Silent {
      var k: nat :| Run(m, lo, Start(m, g, arguments), k) == Done(o);
      RunRefines(m, lo, hi, Start(m, g, arguments), k);
      OneByteEnd(m, hi, g, arguments, o);
    }
  }

  lemma {:induction false} LevelsKeep(m: Module, n: nat, k: nat, g: nat, arguments: seq<Cell>)
    requires ByteLevel(m, n)(g, arguments) != Silent
    ensures ByteLevel(m, n + k)(g, arguments) == ByteLevel(m, n)(g, arguments)
  {
    hide ByteLevel;
    if k > 0 {
      LevelsKeep(m, n, k - 1, g, arguments);
      LevelsRefine(m, n + k - 1);
    }
  }

  /** A function has at most one meaning for given arguments: more depth never changes an answer. */
  lemma OneMeaning(m: Module, g: nat, arguments: seq<Cell>, o: Ending, o': Ending)
    requires ByteMeans(m, g, arguments, o) && ByteMeans(m, g, arguments, o')
    ensures o == o'
  {
    hide ByteLevel;
    var n: nat :| ByteLevel(m, n)(g, arguments) == o;
    var n': nat :| ByteLevel(m, n')(g, arguments) == o';
    if n <= n' {
      LevelsKeep(m, n, n' - n, g, arguments);
    } else {
      LevelsKeep(m, n', n - n', g, arguments);
    }
  }
}
