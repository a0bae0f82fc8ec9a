/** The block-versioning partial evaluator: bytecode is run symbolically, a block at a time, and each
    block is built once for each set of constants it is entered with, up to a limit.
 */
module Specializer {
  import opened Words
  import opened Bytecode
  import opened Facts
  import opened ControlCode
  import opened ResidualCode
  import opened Versions
  import opened SymbolicStep
  import opened Tracing
  import opened Exits

  datatype Mode = Preserve | LoopEntry | VirtualEntry | Recursive

  /** The shape every context and key of the instruction at `pc` has. */
  ghost predicate Shaped<T>(m: Module, depths: Depths, source: nat, pc: nat, stacks: Banks<T>, origin: int, bias: int) {
    && source < |m.functions| && pc in depths && depths[pc].owner < |m.functions|
    && Fits(depths[pc], stacks)
    && origin == m.functions[depths[pc].owner].arguments
    && bias == origin - m.functions[source].arguments
  }

  ghost predicate ContextOk(m: Module, depths: Depths, source: nat, pc: nat, x: Context, next: nat) {
    Shaped(m, depths, source, pc, x.stacks, x.origin, x.bias) && BanksOlder(x.stacks, next)
  }

  ghost predicate VersionFits(m: Module, depths: Depths, source: nat, v: Version, next: nat) {
    Shaped(m, depths, source, v.pc, v.key.slots, v.key.origin, v.key.bias) && v.base + Arity(v.key) <= next
  }

  ghost predicate VersionsOk(m: Module, depths: Depths, source: nat, versions: seq<Version>, next: nat) {
    Limited(versions) && forall k | 0 <= k < |versions| :: VersionFits(m, depths, source, versions[k], next)
  }

  /** What an instruction run on symbolic stacks reports: a call, tail or not, and what is known of its
      arguments. */
  ghost function Tells(i: PInstr, s: Banks<Sym>): seq<Call>
    requires Operands(i, s)
  {
    match i
    case CallTo(bank, callee, count) => [Call(callee, FactsOf(TopCells(s.At(bank), count)))]
    case TailTo(bank, callee, _, _) => [Call(callee, FactsOf(s.At(bank)))]
    case _ => []
  }

  lemma TellsNone(i: PInstr, s: Banks<Sym>)
    requires Operands(i, s) && !i.CallTo? && !i.TailTo?
    ensures Tells(i, s) == []
  {
  }

  lemma TellsCall(i: PInstr, s: Banks<Sym>)
    requires Operands(i, s) && i.CallTo?
    ensures i.count <= |s.At(i.bank)| && Tells(i, s) == [Call(i.callee, FactsOf(TopCells(s.At(i.bank), i.count)))]
  {
  }

  lemma TellsTail(i: PInstr, s: Banks<Sym>)
    requires Operands(i, s) && i.TailTo?
    ensures Tells(i, s) == [Call(i.callee, FactsOf(s.At(i.bank)))]
  {
  }

  /** Every recorded call names a function and has a fact for each of its arguments. */
  predicate CallsFit(m: Module, calls: seq<Call>) {
    forall k | 0 <= k < |calls| ::
      calls[k].target < |m.functions| && |calls[k].facts| == m.functions[calls[k].target].arguments
  }

  lemma CallsFitMore(m: Module, calls: seq<Call>, c: Call)
    requires CallsFit(m, calls) && c.target < |m.functions| && |c.facts| == m.functions[c.target].arguments
    ensures CallsFit(m, calls + [c])
  {
  }

  /** The first blocks are built, one for each version in order. */
  ghost predicate BlocksOk(m: Module, calls: seq<Call>, versions: seq<Version>, blocks: seq<Block>, lengths: seq<nat>) {
    && CallsFit(m, calls) && |blocks| == |lengths| && |blocks| <= |versions|
    && forall k | 0 <= k < |blocks| :: BlockOk(m, calls, versions, versions[k], blocks[k], lengths[k])
  }

  lemma BlocksCalls(m: Module, calls: seq<Call>, versions: seq<Version>, blocks: seq<Block>, lengths: seq<nat>)
    requires BlocksOk(m, calls, versions, blocks, lengths)
    ensures CallsFit(m, calls)
  {
  }

  lemma BlocksMore(m: Module, calls: seq<Call>, calls': seq<Call>, versions: seq<Version>, versions': seq<Version>,
    blocks: seq<Block>, lengths: seq<nat>)
    requires BlocksOk(m, calls, versions, blocks, lengths) && calls <= calls' && versions <= versions'
    requires CallsFit(m, calls')
    ensures BlocksOk(m, calls', versions', blocks, lengths)
  {
    hide BlockOk;
    forall k | 0 <= k < |blocks| ensures BlockOk(m, calls', versions', versions'[k], blocks[k], lengths[k]) {
      BlockMore(m, calls, calls', versions, versions', versions[k], blocks[k], lengths[k]);
    }
  }

  lemma VersionAdded(m: Module, depths: Depths, source: nat, versions: seq<Version>, next: nat, v: Version, next': nat)
    requires VersionsOk(m, depths, source, versions, next) && next <= next' && VersionFits(m, depths, source, v, next')
    requires FamilyCount(versions, v.pc, v.key) < VERSION_LIMIT - 1
      || (v.key == Forgotten(v.key) && !HasGeneric(versions, v.pc, v.key))
    ensures VersionsOk(m, depths, source, versions + [v], next')
  {
    hide Limited, Shaped, FamilyCount, HasGeneric;
    AddLimited(versions, v);
    var all := versions + [v];
    forall k | 0 <= k < |all| ensures VersionFits(m, depths, source, all[k], next') {
      assert k < |versions| ==> all[k] == versions[k];
    }
  }

  lemma KeyShaped(m: Module, depths: Depths, source: nat, pc: nat, x: Context, k: Key)
    requires Shaped(m, depths, source, pc, x.stacks, x.origin, x.bias) && Covers(k, x)
    ensures Shaped(m, depths, source, pc, k.slots, k.origin, k.bias)
  {
  }

  /** Following an edge keeps the owner, and so the homes of the frame. */
  lemma ShapedGoes(m: Module, depths: Depths, source: nat, pc: nat, x: Context, target: nat, d: Spot, x': Context,
    next: nat)
    requires ContextOk(m, depths, source, pc, x, next) && Goes(depths, target, d) && d.owner == depths[pc].owner
    requires Fits(d, x'.stacks) && x'.origin == x.origin && x'.bias == x.bias && BanksOlder(x'.stacks, next)
    ensures ContextOk(m, depths, source, target, x', next)
  {
  }

  lemma ContextLater(m: Module, depths: Depths, source: nat, pc: nat, x: Context, next: nat, next': nat)
    requires ContextOk(m, depths, source, pc, x, next) && next <= next'
    ensures ContextOk(m, depths, source, pc, x, next')
  {
    OlderMore(x.stacks, next, next');
  }

  lemma CheckedAt(m: Module, depths: Depths, pc: nat)
    requires Checked(m, depths) && pc in depths
    ensures FlowsAt(m, depths, pc)
  {
    hide FlowsAt, Goes;
  }

  lemma ContextParts(m: Module, depths: Depths, source: nat, pc: nat, x: Context, next: nat)
    requires ContextOk(m, depths, source, pc, x, next)
    ensures pc in depths && Fits(depths[pc], x.stacks) && BanksOlder(x.stacks, next)
  {
    hide Fits, BanksOlder;
  }

  lemma FlowsParts(m: Module, depths: Depths, i: PInstr, after: nat, d: Spot)
    requires Flows(m, depths, i, after, d)
    ensures Operands(i, Blank(d)) && (i.Plain? ==> HasForm(i.instr) && Ready(i.instr, Blank(d)))
    ensures i.CallTo? || i.TailTo? ==> i.callee < |m.functions| && i.count == m.functions[i.callee].arguments
  {
    hide Goes, Ready;
  }

  /** What is known of the instruction a context stands at. */
  lemma Standing(m: Module, depths: Depths, source: nat, pc: nat, x: Context, next: nat)
    requires Checked(m, depths) && ContextOk(m, depths, source, pc, x, next)
    ensures pc in depths && Fits(depths[pc], x.stacks) && BanksOlder(x.stacks, next)
    ensures pc < |m.code| && m.code[pc].Some? && m.code[pc].value.length > 0
    ensures var i := m.code[pc].value.instr;
      && Operands(i, x.stacks) && Flows(m, depths, i, pc + m.code[pc].value.length, depths[pc])
      && (i.CallTo? || i.TailTo? ==> i.callee < |m.functions| && i.count == m.functions[i.callee].arguments)
      && (i.Plain? ==> HasForm(i.instr) && Ready(i.instr, x.stacks))
      && Here(m, pc, i, pc + m.code[pc].value.length)
  {
    hide Checked, ContextOk, Fits, BanksOlder, Flows, Operands, Blank;
    ContextParts(m, depths, source, pc, x, next);
    CheckedAt(m, depths, pc);
    var i := m.code[pc].value.instr;
    FlowsParts(m, depths, i, pc + m.code[pc].value.length, depths[pc]);
    FitsOperands(i, depths[pc], x.stacks);
    if i.Plain? {
      FitsReady(i.instr, depths[pc], x.stacks);
    }
  }

  lemma StandingAt(m: Module, depths: Depths, source: nat, pc: nat, x: Context, id: nat, i: PInstr, next: nat)
    requires Checked(m, depths) && ContextOk(m, depths, source, pc, x, id) && Here(m, pc, i, next)
    ensures pc in depths && Fits(depths[pc], x.stacks) && BanksOlder(x.stacks, id) && pc < next
    ensures Operands(i, x.stacks) && Flows(m, depths, i, next, depths[pc])
    ensures i.CallTo? || i.TailTo? ==> i.callee < |m.functions| && i.count == m.functions[i.callee].arguments
    ensures i.Plain? ==> HasForm(i.instr) && Ready(i.instr, x.stacks)
  {
    hide Checked, ContextOk, Fits, BanksOlder, Flows, Operands;
    Standing(m, depths, source, pc, x, id);
  }

  lemma FlowsBranch(m: Module, depths: Depths, i: PInstr, after: nat, d: Spot, target: nat)
    requires Flows(m, depths, i, after, d) && (IsBranch(i) || i.Switch?)
    requires target == after || (IsBranch(i) && target == i.target) || (i.Switch? && target in i.targets)
    requires Depth(d, i.bank) > 0 && (i.PairBranch? ==> Depth(d, Opposite(i.bank)) > 0)
    ensures var popped := WithDepth(d, i.bank, Depth(d, i.bank) - 1);
      Goes(depths, target,
        if i.PairBranch? then WithDepth(popped, Opposite(i.bank), Depth(d, Opposite(i.bank)) - 1) else popped)
  {
    hide Operands, Blank;
  }

  lemma ConsumedFits(i: PInstr, d: Spot, s: Banks<Sym>, next: nat)
    requires (IsBranch(i) || i.Switch?) && Operands(i, s) && Fits(d, s) && BanksOlder(s, next)
    ensures Depth(d, i.bank) > 0 && (i.PairBranch? ==> Depth(d, Opposite(i.bank)) > 0)
    ensures BanksOlder(Consumed(i, s), next)
    ensures var popped := WithDepth(d, i.bank, Depth(d, i.bank) - 1);
      Fits(if i.PairBranch? then WithDepth(popped, Opposite(i.bank), Depth(d, Opposite(i.bank)) - 1) else popped,
        Consumed(i, s))
  {
    hide Fits, BanksOlder;
    OlderPop(s, next, i.bank);
    FitsPop(d, s, i.bank);
    if i.PairBranch? {
      PopBoth(s, i.bank);
      OlderPop(s.Pop(i.bank), next, Opposite(i.bank));
      FitsPop(WithDepth(d, i.bank, Depth(d, i.bank) - 1), s.Pop(i.bank), Opposite(i.bank));
      OppositeDepth(d, i.bank, Depth(d, i.bank) - 1);
    }
  }

  /** After a branch's operands are popped the context fits both ways. */
  lemma ConsumedContext(m: Module, depths: Depths, source: nat, pc: nat, x: Context, next: nat, i: PInstr, after: nat,
    target: nat)
    requires Checked(m, depths) && ContextOk(m, depths, source, pc, x, next) && Here(m, pc, i, after)
    requires (IsBranch(i) || i.Switch?) && Operands(i, x.stacks)
    requires target == after || (IsBranch(i) && target == i.target) || (i.Switch? && target in i.targets)
    ensures ContextOk(m, depths, source, target, x.(stacks := Consumed(i, x.stacks)), next)
  {
    hide Fits, BanksOlder, Checked, ContextOk, Flows, Goes, Consumed;
    Standing(m, depths, source, pc, x, next);
    var d := depths[pc];
    ConsumedFits(i, d, x.stacks, next);
    FlowsBranch(m, depths, i, after, d, target);
    var popped := WithDepth(d, i.bank, Depth(d, i.bank) - 1);
    var d' := if i.PairBranch? then WithDepth(popped, Opposite(i.bank), Depth(d, Opposite(i.bank)) - 1) else popped;
    ShapedGoes(m, depths, source, pc, x, target, d', x.(stacks := Consumed(i, x.stacks)), next);
  }

  lemma OppositeDepth(d: Spot, x: Bank, n: nat)
    ensures Depth(WithDepth(d, x, n), Opposite(x)) == Depth(d, Opposite(x))
    ensures WithDepth(d, x, n).owner == d.owner
  {
  }

  // ----- choosing a version -----

  method FindVersion(versions: seq<Version>, pc: nat, key: Key) returns (r: Option<nat>)
    ensures r.Some? ==> r.value < |versions| && versions[r.value].pc == pc && versions[r.value].key == key
    ensures r.None? ==> forall k | 0 <= k < |versions| :: !(versions[k].pc == pc && versions[k].key == key)
  {
    for i := 0 to |versions|
      invariant forall k | 0 <= k < i :: !(versions[k].pc == pc && versions[k].key == key)
    {
      if versions[i].pc == pc && versions[i].key == key {
        return Some(i);
      }
    }
    r := None;
  }

  method CountFamily(versions: seq<Version>, pc: nat, key: Key) returns (count: nat)
    ensures count == FamilyCount(versions, pc, key)
  {
    count := 0;
    for i := 0 to |versions|
      invariant count == FamilyCount(versions[..i], pc, key)
    {
      assert versions[..i + 1][..i] == versions[..i];
      if Kin(versions[i], pc, key) {
        count := count + 1;
      }
    }
    assert versions[..|versions|] == versions;
  }

  method WidenKey(versions: seq<Version>, pc: nat, key: Key) returns (wide: Key)
    ensures wide == Widened(versions, pc, key)
  {
    wide := key;
    for i := 0 to |versions|
      invariant wide == Widened(versions[..i], pc, key)
    {
      assert versions[..i + 1][..i] == versions[..i];
      if Kin(versions[i], pc, wide) {
        wide := MeetKey(wide, versions[i].key);
      }
    }
    assert versions[..|versions|] == versions;
  }

  // ----- the version wanted -----

  /** The function an instruction is the entry of. */
  ghost predicate Enters(m: Module, pc: nat, f: nat) {
    f < |m.functions| && m.functions[f].entry == pc && forall g | 0 <= g < f :: m.functions[g].entry != pc
  }

  /** The cell holds an argument of the callee whose fact does not allow the constant it holds. */
  ghost predicate Opened(x: Context, arguments: nat, facts: Option<seq<Fact>>, s: Stack, i: nat) {
    && s == C && facts.Some? && |x.stacks.c| - arguments <= i < |x.stacks.c| && arguments <= |x.stacks.c|
    && var argument := |x.stacks.c| - 1 - i;
      && argument < |facts.value|
      && match facts.value[argument]
        case Unknown => true
        case Constant(v) => x.stacks.c[i] != Const(v)
        case Unreached => false
  }

  /** The callee entered at `pc`, if there is one, allows the cell to be fixed. */
  ghost predicate Allowed(m: Module, facts: seq<Option<seq<Fact>>>, pc: nat, x: Context, s: Stack, i: nat)
    requires |facts| == |m.functions|
  {
    forall f: nat | Enters(m, pc, f) :: !Opened(x, m.functions[f].arguments, facts[f], s, i)
  }

  /** The version an edge in this mode asks for: to keep every constant, to keep none, to keep those the
      callee's facts allow, or to keep them all if that was asked for before and otherwise those the
      whole family agrees on. */
  ghost predicate Wanted(m: Module, facts: seq<Option<seq<Fact>>>, versions: seq<Version>, pc: nat, mode: Mode,
    x: Context, k: Key)
    requires |facts| == |m.functions|
  {
    match mode
    case Preserve => Keeps(k, x)
    case LoopEntry => Forgets(k, x)
    case VirtualEntry => Exactly(k, x, (s: Stack, i: nat) => Allowed(m, facts, pc, x, s, i))
    case Recursive =>
      if exists j :: 0 <= j < |versions| && versions[j].pc == pc && Keeps(versions[j].key, x) then Keeps(k, x)
      else Widest(versions, pc, k, x)
  }

  /** The version chosen is the one wanted, unless that one is new and the family is nearly full: then it
      keeps nothing. A version is added only if there was none with its key. */
  ghost predicate Picked(m: Module, facts: seq<Option<seq<Fact>>>, before: seq<Version>, after: seq<Version>, pc: nat,
    mode: Mode, x: Context, target: nat)
    requires |facts| == |m.functions|
  {
    && target < |after| && after[target].pc == pc
    && (before == after || (target == |before| && after == before + [after[target]]))
    && (target == |before| ==> !HasVersion(before, pc, after[target].key))
    && (|| Wanted(m, facts, before, pc, mode, x, after[target].key)
        || (&& Forgets(after[target].key, x) && FamilyCount(before, pc, after[target].key) >= VERSION_LIMIT - 1
            && NoneWanted(m, facts, before, pc, mode, x)))
  }

  ghost predicate HasVersion(versions: seq<Version>, pc: nat, k: Key) {
    exists j :: 0 <= j < |versions| && versions[j].pc == pc && versions[j].key == k
  }

  ghost predicate NoneWanted(m: Module, facts: seq<Option<seq<Fact>>>, versions: seq<Version>, pc: nat, mode: Mode,
    x: Context)
    requires |facts| == |m.functions|
  {
    forall j | 0 <= j < |versions| && versions[j].pc == pc :: !Wanted(m, facts, versions, pc, mode, x, versions[j].key)
  }

  /** What is wanted is one key. */
  lemma WantedOne(m: Module, facts: seq<Option<seq<Fact>>>, versions: seq<Version>, pc: nat, mode: Mode, x: Context,
    j: Key, k: Key)
    requires |facts| == |m.functions|
    requires Wanted(m, facts, versions, pc, mode, x, j) && Wanted(m, facts, versions, pc, mode, x, k)
    ensures j == k
  {
    hide Covers, Exactly, Allowed, Forgets, Widest;
    match mode
    case Preserve => ExactlyOne(j, k, x, (s, i) => true);
    case LoopEntry => ForgetsOne(j, k, x);
    case VirtualEntry => ExactlyOne(j, k, x, (s: Stack, i: nat) => Allowed(m, facts, pc, x, s, i));
    case Recursive =>
      if exists j :: 0 <= j < |versions| && versions[j].pc == pc && Keeps(versions[j].key, x) {
        ExactlyOne(j, k, x, (s, i) => true);
      } else {
        WidestOne(versions, pc, j, k, x);
      }
  }

  // ----- edges that lose no constant -----

  /** The family has reached the number of versions at which the next one fixes nothing. */
  predicate Crowded(versions: seq<Version>, v: Version) {
    FamilyCount(versions, v.pc, v.key) >= VERSION_LIMIT - 1
  }

  /** Every constant known at `from` is fixed by the version the edge leads to, unless that one starts a
      loop, lies behind, or belongs to a crowded family; it forgets all of them only where a loop starts
      ahead or the family is crowded. */
  ghost predicate Sharp(header: nat -> bool, versions: seq<Version>, from: nat, e: Edge) {
    e.target < |versions| &&
    var v := versions[e.target];
    && (v.key.generic ==> (from < v.pc && header(v.pc)) || Crowded(versions, v))
    && (!v.key.generic && from < v.pc ==> !header(v.pc) && AllValues(e.arguments))
  }

  /** A callee's entry forgets every constant only if the family is crowded. */
  ghost predicate SharpEntry(versions: seq<Version>, e: Edge) {
    e.target < |versions| && (versions[e.target].key.generic ==> Crowded(versions, versions[e.target]))
  }

  /** The edges a block leaves by, when `i` at `pc` is the last instruction it covers. */
  ghost predicate SharpExit(header: nat -> bool, versions: seq<Version>, pc: nat, i: PInstr, t: Terminator) {
    match t
    case JumpEdge(e) => if i.TailTo? then SharpEntry(versions, e) else Sharp(header, versions, pc, e)
    case BranchEdge(_, _, _, yes, no) => Sharp(header, versions, pc, yes) && Sharp(header, versions, pc, no)
    case SwitchEdge(_, arms, fallback) =>
      Sharp(header, versions, pc, fallback) && forall k | 0 <= k < |arms| :: Sharp(header, versions, pc, arms[k])
    case _ => true
  }

  ghost predicate Sharpened(m: Module, header: nat -> bool, versions: seq<Version>, blocks: seq<Block>,
    ends: seq<nat>)
  {
    |ends| == |blocks| && forall k | 0 <= k < |ends| :: SharpBlock(m, header, versions, blocks[k], ends[k])
  }

  ghost predicate SharpBlock(m: Module, header: nat -> bool, versions: seq<Version>, b: Block, pc: nat) {
    && Reduced(b) && pc < |m.code| && m.code[pc].Some?
    && SharpExit(header, versions, pc, m.code[pc].value.instr, b.exit)
  }

  ghost predicate LeavesSharp(m: Module, header: nat -> bool, versions: seq<Version>, b: Block) {
    exists pc: nat :: SharpBlock(m, header, versions, b, pc)
  }

  lemma SharpMore(header: nat -> bool, versions: seq<Version>, more: seq<Version>, from: nat, e: Edge)
    requires Sharp(header, versions, from, e) && versions <= more
    ensures Sharp(header, more, from, e)
  {
    CountMore(versions, more, versions[e.target].pc, versions[e.target].key);
  }

  lemma SharpExitMore(header: nat -> bool, versions: seq<Version>, more: seq<Version>, pc: nat, i: PInstr,
    t: Terminator)
    requires SharpExit(header, versions, pc, i, t) && versions <= more
    ensures SharpExit(header, more, pc, i, t)
  {
    hide Sharp, FamilyCount;
    match t
    case JumpEdge(e) =>
      if i.TailTo? {
        CountMore(versions, more, versions[e.target].pc, versions[e.target].key);
      } else {
        SharpMore(header, versions, more, pc, e);
      }
    case BranchEdge(_, _, _, yes, no) =>
      SharpMore(header, versions, more, pc, yes);
      SharpMore(header, versions, more, pc, no);
    case SwitchEdge(_, arms, fallback) =>
      SharpMore(header, versions, more, pc, fallback);
      forall k | 0 <= k < |arms| ensures Sharp(header, more, pc, arms[k]) {
        SharpMore(header, versions, more, pc, arms[k]);
      }
    case _ =>
  }

  lemma SharpenedMore(m: Module, header: nat -> bool, versions: seq<Version>, more: seq<Version>, blocks: seq<Block>,
    ends: seq<nat>)
    requires Sharpened(m, header, versions, blocks, ends) && versions <= more
    ensures Sharpened(m, header, more, blocks, ends)
  {
    hide SharpExit, Reduced;
    forall k | 0 <= k < |ends| ensures SharpBlock(m, header, more, blocks[k], ends[k]) {
      assert SharpBlock(m, header, versions, blocks[k], ends[k]);
      SharpExitMore(header, versions, more, ends[k], m.code[ends[k]].value.instr, blocks[k].exit);
    }
  }

  lemma SharpenedNext(m: Module, header: nat -> bool, versions: seq<Version>, blocks: seq<Block>, ends: seq<nat>,
    b: Block, pc: nat)
    requires Sharpened(m, header, versions, blocks, ends) && SharpBlock(m, header, versions, b, pc)
    ensures Sharpened(m, header, versions, blocks + [b], ends + [pc])
  {
    hide SharpBlock;
  }

  lemma SharpenedEach(m: Module, header: nat -> bool, versions: seq<Version>, blocks: seq<Block>, ends: seq<nat>)
    requires Sharpened(m, header, versions, blocks, ends)
    ensures forall k | 0 <= k < |blocks| :: Reduced(blocks[k])
    ensures forall k | 0 <= k < |blocks| :: LeavesSharp(m, header, versions, blocks[k])
  {
    hide SharpExit, Reduced;
    forall k | 0 <= k < |blocks|
      ensures Reduced(blocks[k]) && LeavesSharp(m, header, versions, blocks[k])
    {
      assert SharpBlock(m, header, versions, blocks[k], ends[k]);
    }
  }

  /** The mode is the one for an edge between two instructions. */
  ghost predicate ModeFor(header: nat -> bool, from: nat, target: nat, mode: Mode) {
    && (target <= from <==> mode == Recursive)
    && (from < target && header(target) <==> mode == LoopEntry)
    && (from < target && !header(target) <==> mode == Preserve)
  }

  lemma SharpJump(header: nat -> bool, versions: seq<Version>, from: nat, pc: nat, i: PInstr, e: Edge)
    requires Sharp(header, versions, from, e) && !i.TailTo? && from <= pc
    requires from == pc || (e.target < |versions| && pc < versions[e.target].pc)
    ensures SharpExit(header, versions, pc, i, JumpEdge(e)) && Undecided(JumpEdge(e))
  {
  }

  lemma SharpBranch(header: nat -> bool, versions: seq<Version>, pc: nat, i: PInstr, t: Terminator)
    requires t.BranchEdge? && (t.left.Value? || t.right.Value?)
    requires Sharp(header, versions, pc, t.yes) && Sharp(header, versions, pc, t.no)
    ensures SharpExit(header, versions, pc, i, t) && Undecided(t)
  {
  }

  lemma SharpArms(header: nat -> bool, versions: seq<Version>, more: seq<Version>, pc: nat, arms: seq<Edge>, e: Edge)
    requires versions <= more && forall j | 0 <= j < |arms| :: Sharp(header, versions, pc, arms[j])
    requires Sharp(header, more, pc, e)
    ensures forall j | 0 <= j < |arms + [e]| :: Sharp(header, more, pc, (arms + [e])[j])
  {
    hide Sharp;
    forall j | 0 <= j < |arms| ensures Sharp(header, more, pc, arms[j]) {
      SharpMore(header, versions, more, pc, arms[j]);
    }
  }

  lemma SharpSwitch(header: nat -> bool, versions: seq<Version>, pc: nat, i: PInstr, t: Terminator)
    requires t.SwitchEdge? && t.input.Value? && Sharp(header, versions, pc, t.fallback)
    requires forall j | 0 <= j < |t.arms| :: Sharp(header, versions, pc, t.arms[j])
    ensures SharpExit(header, versions, pc, i, t) && Undecided(t)
  {
  }

  lemma SharpLeaves(header: nat -> bool, versions: seq<Version>, pc: nat, i: PInstr, t: Terminator)
    requires t.StopEdge? || t.ReturnEdge? || t.TailEdge?
    ensures SharpExit(header, versions, pc, i, t) && Undecided(t)
  {
  }

  /** The first version keeps every constant it is entered with. */
  lemma FirstKeeps(m: Module, facts: seq<Option<seq<Fact>>>, versions: seq<Version>, pc: nat, x: Context, target: nat)
    requires |facts| == |m.functions| && Picked(m, facts, [], versions, pc, Preserve, x, target)
    ensures target < |versions| && Keeps(versions[target].key, x)
  {
    hide Keeps, Forgets;
  }

  lemma EdgePc(versions: seq<Version>, e: Edge, pc: nat, x: Context)
    requires EdgeTo(versions, e, pc, x)
    ensures e.target < |versions| && versions[e.target].pc == pc
  {
  }

  lemma SharpTail(header: nat -> bool, versions: seq<Version>, pc: nat, i: PInstr, e: Edge)
    requires i.TailTo? && SharpEntry(versions, e)
    ensures SharpExit(header, versions, pc, i, JumpEdge(e)) && Undecided(JumpEdge(e))
  {
  }

  lemma PickedSharp(m: Module, facts: seq<Option<seq<Fact>>>, header: nat -> bool, before: seq<Version>,
    after: seq<Version>, from: nat, pc: nat, mode: Mode, x: Context, e: Edge)
    requires |facts| == |m.functions| && Picked(m, facts, before, after, pc, mode, x, e.target)
    requires EdgeTo(after, e, pc, x) && ModeFor(header, from, pc, mode)
    ensures Sharp(header, after, from, e)
  {
    hide Covers, FamilyCount, HasVersion, NoneWanted, PassedAll;
    CountMore(before, after, pc, after[e.target].key);
    if mode == Preserve && !after[e.target].key.generic {
      KeepsPasses(after[e.target].key, x);
    }
  }

  lemma PickedEntry(m: Module, facts: seq<Option<seq<Fact>>>, before: seq<Version>, after: seq<Version>, pc: nat,
    mode: Mode, x: Context, e: Edge)
    requires |facts| == |m.functions| && Picked(m, facts, before, after, pc, mode, x, e.target) && mode != LoopEntry
    ensures SharpEntry(after, e)
  {
    hide Covers, FamilyCount, HasVersion, NoneWanted;
    CountMore(before, after, pc, after[e.target].key);
  }

  /** Whether an argument whose fact is known must be a parameter rather than the constant passed. */
  predicate MakeOpen(fact: Fact, s: Slot) {
    fact == Unknown || (fact.Constant? && s != Fixed(fact.value))
  }

  /** The key for entering a callee: arguments that its facts do not fix to the same constant are
      parameters. */
  method VirtualKey(x: Context, arguments: nat, facts: Option<seq<Fact>>) returns (key: Key)
    requires facts.Some? ==> |facts.value| == arguments
    ensures Exactly(key, x, (s: Stack, i: nat) => !Opened(x, arguments, facts, s, i))
  {
    KeyOfKeeps(x);
    key := KeyOf(x);
    if |x.stacks.c| < arguments || facts.None? {
      return;
    }
    var first := |x.stacks.c| - arguments;
    for i := 0 to arguments
      invariant Exactly(key, x, (s: Stack, j: nat) => !(j < first + i && Opened(x, arguments, facts, s, j)))
    {
      var at := first + i;
      if MakeOpen(facts.value[arguments - 1 - i], key.slots.c[at]) {
        key := key.(slots := key.slots.(c := key.slots.c[at := Open]));
      }
    }
  }

  /** Check the target's constants against the context and list the cells it takes as parameters. */
  method PassStack(formal: seq<Slot>, actual: seq<Sym>) returns (ok: bool, arguments: seq<Sym>)
    requires |formal| == |actual|
    ensures ok <==> CoversAll(formal, actual)
    ensures ok ==> arguments == Passed(formal, actual)
  {
    arguments := [];
    for i := 0 to |formal|
      invariant CoversAll(formal[..i], actual[..i]) && arguments == Passed(formal[..i], actual[..i])
    {
      assert formal[..i + 1][..i] == formal[..i] && actual[..i + 1][..i] == actual[..i];
      if formal[i].Fixed? {
        if actual[i] != Const(formal[i].value) {
          return false, [];
        }
      } else {
        arguments := arguments + [actual[i]];
      }
    }
    assert formal[..|formal|] == formal && actual[..|actual|] == actual;
    ok := true;
  }

  lemma EntryWanted(m: Module, facts: seq<Option<seq<Fact>>>, versions: seq<Version>, pc: nat, x: Context, f: nat,
    k: Key)
    requires |facts| == |m.functions| && Enters(m, pc, f)
    requires Exactly(k, x, (s: Stack, i: nat) => !Opened(x, m.functions[f].arguments, facts[f], s, i))
    ensures Wanted(m, facts, versions, pc, VirtualEntry, x, k)
  {
    hide Opened, Covers;
  }

  lemma OtherWanted(m: Module, facts: seq<Option<seq<Fact>>>, versions: seq<Version>, pc: nat, x: Context, k: Key)
    requires |facts| == |m.functions| && Keeps(k, x) && forall f | 0 <= f < |m.functions| :: m.functions[f].entry != pc
    ensures Wanted(m, facts, versions, pc, VirtualEntry, x, k)
  {
    hide Covers;
  }

  lemma FoundThere(versions: seq<Version>, pc: nat, i: nat)
    requires i < |versions| && versions[i].pc == pc
    ensures HasVersion(versions, pc, versions[i].key)
  {
  }

  lemma KeepsCovers(k: Key, x: Context)
    requires Keeps(k, x)
    ensures Covers(k, x)
  {
  }

  lemma ForgetsCovers(k: Key, x: Context)
    requires Forgets(k, x)
    ensures Covers(k, x)
  {
  }

  lemma WantedCovers(m: Module, facts: seq<Option<seq<Fact>>>, versions: seq<Version>, pc: nat, mode: Mode, x: Context,
    k: Key)
    requires |facts| == |m.functions| && Wanted(m, facts, versions, pc, mode, x, k)
    ensures Covers(k, x)
  {
  }

  /** The first key tried is the one wanted, except that on a back edge it is wanted only if there is a
      version with it. */
  lemma FirstWanted(m: Module, facts: seq<Option<seq<Fact>>>, versions: seq<Version>, pc: nat, mode: Mode, x: Context,
    k: Key)
    requires |facts| == |m.functions|
    requires match mode
      case LoopEntry => Forgets(k, x)
      case VirtualEntry => Wanted(m, facts, versions, pc, VirtualEntry, x, k)
      case _ => Keeps(k, x)
    ensures mode != Recursive || HasVersion(versions, pc, k) ==> Wanted(m, facts, versions, pc, mode, x, k)
    ensures mode == Recursive && !HasVersion(versions, pc, k) ==>
      forall j | 0 <= j < |versions| && versions[j].pc == pc :: !Keeps(versions[j].key, x)
  {
    if mode == Recursive {
      hide Exactly;
      forall j | 0 <= j < |versions| && versions[j].pc == pc && Keeps(versions[j].key, x) ensures versions[j].key == k {
        ExactlyOne(versions[j].key, k, x, (s, i) => true);
      }
    }
  }

  lemma WidenedWanted(m: Module, facts: seq<Option<seq<Fact>>>, versions: seq<Version>, pc: nat, x: Context)
    requires |facts| == |m.functions|
    requires forall j | 0 <= j < |versions| && versions[j].pc == pc :: !Keeps(versions[j].key, x)
    ensures Wanted(m, facts, versions, pc, Recursive, x, Widened(versions, pc, KeyOf(x)))
  {
    hide Keeps, Widest;
    WidenedWidest(versions, pc, x);
  }

  /** A version found to have the key wanted. */
  lemma PickedOld(m: Module, facts: seq<Option<seq<Fact>>>, versions: seq<Version>, pc: nat, mode: Mode, x: Context,
    target: nat)
    requires |facts| == |m.functions| && target < |versions| && versions[target].pc == pc
    requires Wanted(m, facts, versions, pc, mode, x, versions[target].key)
    ensures Picked(m, facts, versions, versions, pc, mode, x, target) && Covers(versions[target].key, x)
  {
    WantedCovers(m, facts, versions, pc, mode, x, versions[target].key);
    hide Wanted, Forgets, FamilyCount, NoneWanted, HasVersion, Covers;
  }

  /** If no version has the key wanted, none is wanted. */
  lemma NewWanted(m: Module, facts: seq<Option<seq<Fact>>>, versions: seq<Version>, pc: nat, mode: Mode, x: Context,
    k: Key)
    requires |facts| == |m.functions| && Wanted(m, facts, versions, pc, mode, x, k)
    requires forall j | 0 <= j < |versions| :: !(versions[j].pc == pc && versions[j].key == k)
    ensures NoneWanted(m, facts, versions, pc, mode, x)
  {
    hide Wanted;
    forall j | 0 <= j < |versions| && versions[j].pc == pc
      ensures !Wanted(m, facts, versions, pc, mode, x, versions[j].key)
    {
      if Wanted(m, facts, versions, pc, mode, x, versions[j].key) {
        WantedOne(m, facts, versions, pc, mode, x, versions[j].key, k);
        assert false;
      }
    }
  }

  lemma CountForgotten(versions: seq<Version>, pc: nat, k: Key)
    ensures FamilyCount(versions, pc, Forgotten(k)) == FamilyCount(versions, pc, k)
  {
    CountEqual(versions, pc, Forgotten(k), k);
  }

  lemma PickedForgotten(m: Module, facts: seq<Option<seq<Fact>>>, versions: seq<Version>, pc: nat, mode: Mode,
    x: Context, target: nat)
    requires |facts| == |m.functions| && target < |versions| && versions[target].pc == pc
    requires Forgets(versions[target].key, x) && NoneWanted(m, facts, versions, pc, mode, x)
    requires FamilyCount(versions, pc, versions[target].key) >= VERSION_LIMIT - 1
    ensures Picked(m, facts, versions, versions, pc, mode, x, target)
  {
    hide Wanted, Forgets, FamilyCount, NoneWanted, HasVersion;
  }

  lemma NewVersion(versions: seq<Version>, pc: nat, k: Key)
    requires forall j | 0 <= j < |versions| :: !(versions[j].pc == pc && versions[j].key == k)
    ensures !HasVersion(versions, pc, k)
  {
  }

  lemma PickedNew(m: Module, facts: seq<Option<seq<Fact>>>, before: seq<Version>, after: seq<Version>, pc: nat,
    mode: Mode, x: Context, target: nat)
    requires |facts| == |m.functions| && target == |before| < |after| && after == before + [after[target]]
    requires after[target].pc == pc && !HasVersion(before, pc, after[target].key)
    requires
      || Wanted(m, facts, before, pc, mode, x, after[target].key)
      || (&& Forgets(after[target].key, x) && FamilyCount(before, pc, after[target].key) >= VERSION_LIMIT - 1
          && NoneWanted(m, facts, before, pc, mode, x))
    ensures Picked(m, facts, before, after, pc, mode, x, target)
  {
    hide Wanted, Forgets, FamilyCount, NoneWanted, HasVersion;
  }

  class Builder {
    const m: Module
    ghost const depths: Depths
    /** Instructions where a block ends even without a branch. */
    const leader: nat -> bool
    const header: nat -> bool
    /** Functions whose tail calls may be built into the caller. */
    const eligible: nat -> bool
    const facts: seq<Option<seq<Fact>>>
    /** Functions that return bytes through a hidden area. */
    const hidden: nat -> bool
    const source: nat

    var versions: seq<Version>
    var blocks: seq<Block>
    var calls: seq<Call>
    var nextId: nat
    var embedded: set<nat>

    /** The block being built. */
    var x: Context
    var nodes: seq<Node>
    ghost var steps: nat
    ghost var lengths: seq<nat>
    /** Where the last instruction each block covers stands. */
    ghost var ends: seq<nat>

    ghost predicate Setup()
    {
      && Checked(m, depths) && source < |m.functions| && |facts| == |m.functions|
      && forall f | 0 <= f < |facts| && facts[f].Some? :: |facts[f].value| == m.functions[f].arguments
    }

    ghost predicate Valid()
      reads `versions, `blocks, `calls, `nextId, `lengths
    {
      Setup() && VersionsOk(m, depths, source, versions, nextId) && BlocksOk(m, calls, versions, blocks, lengths)
    }

    lemma ValidSetup()
      requires Valid()
      ensures Setup()
    {
    }

    /** Find or create the version for entering `pc` with the context `x`. */
    method VersionFor(pc: nat, mode: Mode) returns (target: nat)
      requires Valid() && ContextOk(m, depths, source, pc, x, nextId)
      modifies `versions, `nextId
      ensures Valid() && old(versions) <= versions && old(nextId) <= nextId
      ensures Setup() && Picked(m, facts, old(versions), versions, pc, mode, x, target)
      ensures target < |versions| && versions[target].pc == pc && Covers(versions[target].key, x)
    {
      hide *;
      ValidSetup();
      SetupFacts();
      var key := KeyOf(x);
      KeyOfKeeps(x);
      if mode == LoopEntry {
        KeepsCovers(key, x);
        ForgottenForgets(key, x);
        key := Forgotten(key);
      } else if mode == VirtualEntry {
        key := EntryKey(pc);
      }
      FirstWanted(m, facts, versions, pc, mode, x, key);
      var found := FindVersion(versions, pc, key);
      if found.Some? {
        FoundThere(versions, pc, found.value);
        PickedOld(m, facts, versions, pc, mode, x, found.value);
        return found.value;
      }
      NewVersion(versions, pc, key);
      if mode == Recursive {
        WidenedWanted(m, facts, versions, pc, x);
        key := WidenKey(versions, pc, key);
        found := FindVersion(versions, pc, key);
        if found.Some? {
          PickedOld(m, facts, versions, pc, mode, x, found.value);
          return found.value;
        }
      }
      WantedCovers(m, facts, versions, pc, mode, x, key);
      NewWanted(m, facts, versions, pc, mode, x, key);
      var count := CountFamily(versions, pc, key);
      if count >= VERSION_LIMIT - 1 {
        ForgottenForgets(key, x);
        ForgottenTwice(key);
        CountForgotten(versions, pc, key);
        key := Forgotten(key);
        ForgetsCovers(key, x);
        found := FindVersion(versions, pc, key);
        if found.Some? {
          PickedForgotten(m, facts, versions, pc, mode, x, found.value);
          return found.value;
        }
        NoGeneric(versions, pc, key);
      }
      NewVersion(versions, pc, key);
      ghost var before := versions;
      target := CreateVersion(pc, key);
      PickedNew(m, facts, before, versions, pc, mode, x, target);
    }

    lemma SetupFacts()
      requires Setup()
      ensures |facts| == |m.functions|
    {
    }

    /** The key for entering a function from another. */
    method EntryKey(pc: nat) returns (key: Key)
      requires Setup()
      ensures Setup() && |facts| == |m.functions|
      ensures Wanted(m, facts, versions, pc, VirtualEntry, x, key)
    {
      hide Checked, Exactly, Opened, Wanted;
      for f := 0 to |m.functions|
        invariant forall g | 0 <= g < f :: m.functions[g].entry != pc
      {
        if m.functions[f].entry == pc {
          key := VirtualKey(x, m.functions[f].arguments, facts[f]);
          EntryWanted(m, facts, versions, pc, x, f, key);
          return;
        }
      }
      KeyOfKeeps(x);
      key := KeyOf(x);
      OtherWanted(m, facts, versions, pc, x, key);
    }

    method CreateVersion(pc: nat, key: Key) returns (target: nat)
      requires Valid() && ContextOk(m, depths, source, pc, x, nextId) && Covers(key, x)
      requires
        || FamilyCount(versions, pc, key) < VERSION_LIMIT - 1
        || (key == Forgotten(key) && !HasGeneric(versions, pc, key))
      modifies `versions, `nextId
      ensures Valid() && old(versions) <= versions && old(nextId) <= nextId
      ensures target == |old(versions)| && |versions| == target + 1
      ensures versions == old(versions) + [versions[target]]
      ensures versions[target].pc == pc && versions[target].key == key
    {
      hide FamilyCount, HasGeneric, Covers, BlockOk, Limited, BlocksOk, VersionsOk, Checked, Shaped;
      var v := Version(pc, key, nextId);
      KeyShaped(m, depths, source, pc, x, key);
      VersionAdded(m, depths, source, versions, nextId, v, nextId + Arity(key));
      BlocksCalls(m, calls, versions, blocks, lengths);
      BlocksMore(m, calls, calls, versions, versions + [v], blocks, lengths);
      target := |versions|;
      versions := versions + [v];
      nextId := nextId + Arity(key);
    }

    /** Jump to a version of the instruction at `pc`. The comparison with the version's constants cannot
        fail: a version chosen for a context relies on nothing the context does not hold. */
    method MakeEdge(pc: nat, mode: Mode) returns (ok: bool, edge: Edge)
      requires Valid() && ContextOk(m, depths, source, pc, x, nextId)
      modifies `versions, `nextId
      ensures Valid() && old(versions) <= versions && old(nextId) <= nextId
      ensures ok && EdgeTo(versions, edge, pc, x)
      ensures Setup() && Picked(m, facts, old(versions), versions, pc, mode, x, edge.target)
    {
      hide *;
      var target := VersionFor(pc, mode);
      var key := versions[target].key;
      CoversParts(key, x);
      edge := Edge(target, []);
      if |key.slots.a| != |x.stacks.a| || |key.slots.b| != |x.stacks.b| || |key.slots.c| != |x.stacks.c| {
        return false, edge;
      }
      var okA, a := PassStack(key.slots.a, x.stacks.a);
      var okB, b := PassStack(key.slots.b, x.stacks.b);
      var okC, c := PassStack(key.slots.c, x.stacks.c);
      ok := okA && okB && okC;
      edge := Edge(target, a + b + c);
      EdgeMade(versions, edge, pc, x);
    }

    // ----- straight-line instructions -----

    /** What the next instruction may assume of the block so far. */
    ghost predicate Ongoing(v: Version, pc: nat)
      reads `x, `nodes, `nextId, `calls, `steps
    {
      && ContextOk(m, depths, source, pc, x, nextId) && Tracks(m, calls, v, nodes, x.stacks, pc, steps)
      && AllRemain(nodes)
    }

    /** Pushing or dropping one cell: no node is left. */
    method Shuffle(i: Instr, ghost d: Spot)
      requires Ready(i, x.stacks) && BanksOlder(x.stacks, nextId) && Fits(d, x.stacks)
      requires i.Push? || i.Dup? || i.Drop? || i.Copy? || i.CPop? || i.CGet?
      modifies `x
      ensures BanksOlder(x.stacks, nextId) && x.origin == old(x.origin) && x.bias == old(x.bias)
      ensures Realizes(i, old(x.stacks), x.stacks, [])
      ensures Ready(i, Blank(d)) && Fits(AfterDepth(i, d), x.stacks)
    {
      hide Realizes, BanksOlder, Fits;
      var s := x.stacks;
      FitsReady(i, d, s);
      match i
      case Push(b, v) =>
        PushRealizes(b, v, s);
        OlderPush(s, nextId, b, Const(v));
        FitsPush(d, s, b, Const(v));
        x := x.(stacks := s.Push(b, Const(v)));
      case Dup(b) =>
        DupRealizes(b, s);
        OlderPeek(s, nextId, b, 0);
        OlderPush(s, nextId, b, s.Peek(b, 0));
        FitsPush(d, s, b, s.Peek(b, 0));
        x := x.(stacks := s.Push(b, s.Peek(b, 0)));
      case Drop(b) =>
        DropRealizes(b, s);
        OlderPop(s, nextId, b);
        FitsPop(d, s, b);
        x := x.(stacks := s.Pop(b));
      case Copy(b) =>
        CopyRealizes(b, s);
        OlderPeek(s, nextId, b, 0);
        OlderPush(s, nextId, Opposite(b), s.Peek(b, 0));
        FitsPush(d, s, Opposite(b), s.Peek(b, 0));
        x := x.(stacks := s.Push(Opposite(b), s.Peek(b, 0)));
      case CPop =>
        CPopRealizes(s);
        OlderPop(s, nextId, C);
        FitsPop(d, s, C);
        x := x.(stacks := s.Pop(C));
      case CGet(b, depth) =>
        CGetRealizes(b, depth, s);
        OlderPeek(s, nextId, C, depth);
        OlderPush(s, nextId, b, s.Peek(C, depth));
        FitsPush(d, s, b, s.Peek(C, depth));
        x := x.(stacks := s.Push(b, s.Peek(C, depth)));
    }

    /** Moving a cell from one stack to another: no node is left. */
    method Shift(i: Instr, ghost d: Spot)
      requires Ready(i, x.stacks) && BanksOlder(x.stacks, nextId) && Fits(d, x.stacks)
      requires i.Move? || i.CPush? || i.CSet?
      modifies `x
      ensures BanksOlder(x.stacks, nextId) && x.origin == old(x.origin) && x.bias == old(x.bias)
      ensures Realizes(i, old(x.stacks), x.stacks, [])
      ensures Ready(i, Blank(d)) && Fits(AfterDepth(i, d), x.stacks)
    {
      hide Realizes, BanksOlder, Fits;
      var s := x.stacks;
      FitsReady(i, d, s);
      match i
      case Move(b) =>
        TransferRealizes(i, b, Opposite(b), s);
        OlderPeek(s, nextId, b, 0);
        OlderPop(s, nextId, b);
        OlderPush(s.Pop(b), nextId, Opposite(b), s.Peek(b, 0));
        FitsPop(d, s, b);
        FitsPush(WithDepth(d, b, Depth(d, b) - 1), s.Pop(b), Opposite(b), s.Peek(b, 0));
        x := x.(stacks := s.Pop(b).Push(Opposite(b), s.Peek(b, 0)));
      case CPush(b) =>
        TransferRealizes(i, b, C, s);
        OlderPeek(s, nextId, b, 0);
        OlderPop(s, nextId, b);
        OlderPush(s.Pop(b), nextId, C, s.Peek(b, 0));
        FitsPop(d, s, b);
        FitsPush(WithDepth(d, b, Depth(d, b) - 1), s.Pop(b), C, s.Peek(b, 0));
        x := x.(stacks := s.Pop(b).Push(C, s.Peek(b, 0)));
      case CSet(b, depth) =>
        CSetRealizes(b, depth, s);
        OlderPeek(s, nextId, b, 0);
        OlderPop(s, nextId, b);
        OlderReplace(s.Pop(b), nextId, C, depth, s.Peek(b, 0));
        FitsPop(d, s, b);
        FitsReplace(WithDepth(d, b, Depth(d, b) - 1), s.Pop(b), C, depth, s.Peek(b, 0));
        x := x.(stacks := s.Pop(b).Replace(C, depth, s.Peek(b, 0)));
    }

    /** Two constants that cannot trap fold; anything else leaves a node. */
    method OnBinary(b: Bank, op: BinaryOp, ghost d: Spot) returns (ghost added: seq<Node>)
      requires x.stacks.Has(b, 0) && x.stacks.Has(Opposite(b), 0) && BanksOlder(x.stacks, nextId) && Fits(d, x.stacks)
      modifies `x, `nodes, `nextId
      ensures BanksOlder(x.stacks, nextId) && x.origin == old(x.origin) && x.bias == old(x.bias)
      ensures nodes == old(nodes) + added && old(nextId) <= nextId
      ensures Realizes(Binary(b, op), old(x.stacks), x.stacks, added) && AllRemain(added)
      ensures Ready(Binary(b, op), Blank(d)) && Fits(AfterDepth(Binary(b, op), d), x.stacks)
    {
      hide Realizes, BanksOlder, Apply, Traps, Banks.Has, Banks.Peek, Banks.Pop, Banks.Replace, Fits;
      var s := x.stacks;
      BinaryFits(b, op, d, s);
      var left, right := s.Peek(b, 0), s.Peek(Opposite(b), 0);
      OlderPop(s, nextId, Opposite(b));
      PopKeepsOther(s, b);
      if left.Const? && right.Const? && !Traps(op, right.value) {
        BinaryFolds(b, op, s);
        var folded := Const(Apply(op, left.value, right.value));
        OlderReplace(s.Pop(Opposite(b)), nextId, b, 0, folded);
        FitsReplace(AfterDepth(Binary(b, op), d), s.Pop(Opposite(b)), b, 0, folded);
        added := [];
        x := x.(stacks := s.Pop(Opposite(b)).Replace(b, 0, folded));
      } else {
        BinaryRealizes(b, op, s, nextId);
        OlderMore(s.Pop(Opposite(b)), nextId, nextId + 1);
        OlderReplace(s.Pop(Opposite(b)), nextId + 1, b, 0, Value(nextId));
        FitsReplace(AfterDepth(Binary(b, op), d), s.Pop(Opposite(b)), b, 0, Value(nextId));
        added := [BinaryNode(nextId, op, left, right)];
        nodes := nodes + [BinaryNode(nextId, op, left, right)];
        x := x.(stacks := s.Pop(Opposite(b)).Replace(b, 0, Value(nextId)));
        nextId := nextId + 1;
      }
    }

    /** Unary, immediate and C-operand forms. */
    method OnInPlace(i: Instr, ghost d: Spot) returns (ghost added: seq<Node>)
      requires InPlace(i) && Ready(i, x.stacks) && BanksOlder(x.stacks, nextId) && Fits(d, x.stacks)
      modifies `x, `nodes, `nextId
      ensures BanksOlder(x.stacks, nextId) && x.origin == old(x.origin) && x.bias == old(x.bias)
      ensures nodes == old(nodes) + added && old(nextId) <= nextId
      ensures Realizes(i, old(x.stacks), x.stacks, added) && AllRemain(added)
      ensures Ready(i, Blank(d)) && Fits(AfterDepth(i, d), x.stacks)
    {
      hide Realizes, BanksOlder, InPlaceFold, InPlaceNode, InPlaceConst, Ready, Banks.Replace, Banks.Has, AfterDepth;
      hide Fits;
      FitsReady(i, d, x.stacks);
      FitsInPlace(i, d);
      var s := x.stacks;
      InPlaceRealizes(i, s, nextId);
      FitsReplace(d, s, i.bank, 0, Value(nextId));
      if InPlaceConst(i, s) {
        InPlaceFolds(i, s);
        FitsReplace(d, s, i.bank, 0, Const(InPlaceFold(i, s)));
        OlderReplace(s, nextId, i.bank, 0, Const(InPlaceFold(i, s)));
        added := [];
        x := x.(stacks := s.Replace(i.bank, 0, Const(InPlaceFold(i, s))));
      } else {
        InPlaceRemains(i, s, nextId);
        OlderMore(s, nextId, nextId + 1);
        OlderReplace(s, nextId + 1, i.bank, 0, Value(nextId));
        added := [InPlaceNode(i, s, nextId)];
        nodes := nodes + [InPlaceNode(i, s, nextId)];
        x := x.(stacks := s.Replace(i.bank, 0, Value(nextId)));
        nextId := nextId + 1;
      }
    }

    /** A check of a constant is decided now; `trapped` means it fails. */
    method OnCheck(b: Bank, op: CheckOp) returns (trapped: bool, ghost added: seq<Node>)
      requires x.stacks.Has(b, 0)
      modifies `nodes
      ensures nodes == old(nodes) + added
      ensures trapped ==> added == [] && AlwaysTraps(Check(b, op), x.stacks, REASON_CONVERSION)
      ensures !trapped ==> Realizes(Check(b, op), x.stacks, x.stacks, added)
      ensures AllRemain(added)
    {
      hide Realizes, AlwaysTraps, Fails;
      var input := x.stacks.Peek(b, 0);
      trapped, added := false, [];
      if input.Const? {
        CheckKnown(b, op, x.stacks);
        trapped := Fails(op, input.value);
      } else {
        CheckRealizes(b, op, x.stacks);
        added := [CheckNode(op, input)];
        nodes := nodes + [CheckNode(op, input)];
      }
    }

    /** Run one straight-line instruction symbolically. */
    method OnPlain(i: Instr, ghost d: Spot) returns (trapped: bool, ghost added: seq<Node>)
      requires Ready(i, x.stacks) && HasForm(i) && BanksOlder(x.stacks, nextId) && Fits(d, x.stacks)
      modifies `x, `nodes, `nextId
      ensures BanksOlder(x.stacks, nextId) && x.origin == old(x.origin) && x.bias == old(x.bias)
      ensures nodes == old(nodes) + added && old(nextId) <= nextId
      ensures trapped ==> x == old(x) && added == [] && AlwaysTraps(i, x.stacks, REASON_CONVERSION)
      ensures !trapped ==> Realizes(i, old(x.stacks), x.stacks, added)
      ensures AllRemain(added)
      ensures !trapped ==> Ready(i, Blank(d)) && Fits(AfterDepth(i, d), x.stacks)
    {
      hide Realizes, AlwaysTraps, BanksOlder, Fits;
      FitsReady(i, d, x.stacks);
      trapped, added := false, [];
      if i.Binary? {
        added := OnBinary(i.bank, i.op, d);
      } else if i.Check? {
        trapped, added := OnCheck(i.bank, i.check);
      } else if i.Unary? || i.Immediate? || i.COperand? {
        added := OnInPlace(i, d);
      } else if i.Move? || i.CPush? || i.CSet? {
        Shift(i, d);
      } else {
        Shuffle(i, d);
      }
    }

    // ----- control -----

    function EdgeMode(origin: nat, target: nat): (mode: Mode)
      ensures ModeFor(header, origin, target, mode)
    {
      if target <= origin then Recursive else if header(target) then LoopEntry else Preserve
    }

    /** What a terminator method keeps and adds. */
    ghost predicate Grew(versions0: seq<Version>, next0: nat)
      reads `versions, `blocks, `calls, `nextId, `lengths
    {
      Valid() && versions0 <= versions && next0 <= nextId
    }

    lemma GrewContext(versions0: seq<Version>, next0: nat, pc: nat, x: Context)
      requires Grew(versions0, next0) && ContextOk(m, depths, source, pc, x, next0)
      ensures ContextOk(m, depths, source, pc, x, nextId)
    {
      ContextLater(m, depths, source, pc, x, next0, nextId);
    }

    lemma ValidGrew()
      requires Valid()
      ensures Grew(versions, nextId) && Checked(m, depths)
    {
    }

    /** An edge to another instruction of the same function. */
    method GoTo(from: nat, target: nat) returns (ok: bool, edge: Edge)
      requires Valid() && ContextOk(m, depths, source, target, x, nextId)
      modifies `versions, `nextId
      ensures Valid() && old(versions) <= versions && old(nextId) <= nextId
      ensures ok && EdgeTo(versions, edge, target, x) && Sharp(header, versions, from, edge)
    {
      hide *;
      ghost var before := versions;
      ok, edge := MakeEdge(target, EdgeMode(from, target));
      SetupFacts();
      PickedSharp(m, facts, header, before, versions, from, target, EdgeMode(from, target), x, edge);
    }

    /** A conditional branch: an edge each way, or one edge when the condition is known. */
    method OnBranch(pc: nat, i: PInstr, next: nat) returns (ok: bool, t: Terminator)
      requires Valid() && ContextOk(m, depths, source, pc, x, nextId) && Here(m, pc, i, next)
      requires IsBranch(i) && Operands(i, x.stacks)
      modifies `versions, `nextId, `x
      ensures Grew(old(versions), old(nextId))
      ensures ok && !t.TailEdge? && ExitsWith(m, versions, i, next, old(x.stacks), t)
      ensures SharpExit(header, versions, pc, i, t) && Undecided(t)
    {
      hide *;
      ValidGrew();
      ghost var first, id := versions, nextId;
      var s := x.stacks;
      BranchConsumed(i, s);
      var left, right, r := TestLeft(i, s), TestRight(i, s), TestRelation(i);
      ConsumedContext(m, depths, source, pc, x, nextId, i, next, i.target);
      ConsumedContext(m, depths, source, pc, x, nextId, i, next, next);
      x := x.(stacks := Consumed(i, s));
      if left.Const? && right.Const? {
        var target := if Related(r, left.value, right.value) then i.target else next;
        var e;
        ok, e := GoTo(pc, target);
        t := JumpEdge(e);
        KnownExits(m, versions, i, next, s, x, e);
        SharpJump(header, versions, pc, pc, i, e);
        ValidGrown(first, id);
        return;
      }
      var yes, no;
      ok, yes := GoTo(pc, i.target);
      ghost var middle, id' := versions, nextId;
      ValidGrown(first, id);
      GrewContext(first, id, next, x);
      ok, no := GoTo(pc, next);
      EdgeMore(middle, versions, yes, i.target, x);
      SharpMore(header, middle, versions, pc, yes);
      t := BranchEdge(r, left, right, yes, no);
      SharpBranch(header, versions, pc, i, t);
      BranchExits(m, versions, i, next, s, x, yes, no);
      ValidGrown(first, id);
    }

    lemma ValidGrown(versions0: seq<Version>, next0: nat)
      requires Valid() && versions0 <= versions && next0 <= nextId
      ensures Grew(versions0, next0)
    {
    }

    method OnJump(pc: nat, target: nat, next: nat) returns (ok: bool, t: Terminator)
      requires Valid() && ContextOk(m, depths, source, pc, x, nextId) && Here(m, pc, Jump(target), next)
      modifies `versions, `nextId
      ensures Grew(old(versions), old(nextId))
      ensures ok && !t.TailEdge? && ExitsWith(m, versions, Jump(target), next, x.stacks, t)
      ensures SharpExit(header, versions, pc, Jump(target), t) && Undecided(t)
    {
      hide *;
      ValidGrew();
      JumpContext(m, depths, source, pc, x, nextId, target, next);
      ghost var first, id := versions, nextId;
      var e;
      ok, e := GoTo(pc, target);
      t := JumpEdge(e);
      JumpExits(m, versions, target, next, x, e);
      SharpJump(header, versions, pc, pc, Jump(target), e);
      ValidGrown(first, id);
    }

    /** A switch: the fallback first, then each arm; or one edge when the operand is known. */
    method OnSwitch(pc: nat, i: PInstr, next: nat) returns (ok: bool, t: Terminator)
      requires Valid() && ContextOk(m, depths, source, pc, x, nextId) && Here(m, pc, i, next)
      requires i.Switch? && Operands(i, x.stacks)
      modifies `versions, `nextId, `x
      ensures Grew(old(versions), old(nextId))
      ensures ok && !t.TailEdge? && ExitsWith(m, versions, i, next, old(x.stacks), t)
      ensures SharpExit(header, versions, pc, i, t) && Undecided(t)
    {
      hide *;
      ValidGrew();
      SwitchOperand(i, x.stacks);
      ghost var first, id := versions, nextId;
      var s := x.stacks;
      var input := s.Peek(i.bank, 0);
      ghost var x0 := x;
      ConsumedContext(m, depths, source, pc, x, nextId, i, next, next);
      BranchConsumed(i, s);
      x := x.(stacks := Consumed(i, s));
      if input.Const? {
        var target := Chosen(input.value as nat, i.targets, next);
        ChosenTarget(input.value as nat, i.targets, next);
        ConsumedContext(m, depths, source, pc, x0, nextId, i, next, target);
        var e;
        ok, e := GoTo(pc, target);
        t := JumpEdge(e);
        SwitchKnownExits(m, versions, i, next, s, x, e);
        SharpJump(header, versions, pc, pc, i, e);
        ValidGrown(first, id);
        return;
      }
      var fallback;
      ok, fallback := GoTo(pc, next);
      ghost var middle := versions;
      ValidGrown(first, id);
      var arms: seq<Edge> := [];
      NoArms(versions, i.targets, x);
      for k := 0 to |i.targets|
        invariant x == x0.(stacks := Consumed(i, s))
        invariant Grew(first, id) && middle <= versions && ArmsTo(versions, arms, i.targets[..k], x)
        invariant forall j | 0 <= j < |arms| :: Sharp(header, versions, pc, arms[j])
      {
        ghost var now := versions;
        assert i.targets[k] in i.targets;
        ConsumedContext(m, depths, source, pc, x0, id, i, next, i.targets[k]);
        GrewContext(first, id, i.targets[k], x);
        GrewValid(first, id);
        var e;
        ok, e := GoTo(pc, i.targets[k]);
        MoreArms(now, versions, arms, i.targets, k, x, e);
        SharpArms(header, now, versions, pc, arms, e);
        arms := arms + [e];
        ValidGrown(first, id);
      }
      assert i.targets[..|i.targets|] == i.targets;
      EdgeMore(middle, versions, fallback, next, x);
      SharpMore(header, middle, versions, pc, fallback);
      t := SwitchEdge(input, arms, fallback);
      SharpSwitch(header, versions, pc, i, t);
      SwitchExits(m, versions, i, next, s, x, arms, fallback);
      ok := true;
    }

    lemma GrewValid(versions0: seq<Version>, next0: nat)
      requires Grew(versions0, next0)
      ensures Valid() && versions0 <= versions && next0 <= nextId
    {
    }

    // ----- calls and returns -----

    /** Record what is known of a call's arguments. */
    method AppendCall(callee: nat, arguments: seq<Sym>)
      requires Valid() && callee < |m.functions| && |arguments| == m.functions[callee].arguments
      modifies `calls
      ensures Valid() && calls == old(calls) + [Call(callee, FactsOf(arguments))]
    {
      hide VersionsOk, BlocksOk, FactsOf, Checked;
      BlocksCalls(m, calls, versions, blocks, lengths);
      CallsFitMore(m, calls, Call(callee, FactsOf(arguments)));
      BlocksMore(m, calls, calls + [Call(callee, FactsOf(arguments))], versions, versions, blocks, lengths);
      calls := calls + [Call(callee, FactsOf(arguments))];
    }

    /** A call becomes one node; its results are new values. */
    method OnCall(v: Version, pc: nat, i: PInstr, next: nat)
      requires Valid() && Ongoing(v, pc) && Here(m, pc, i, next) && i.CallTo?
      modifies `x, `nodes, `calls, `nextId, `steps
      ensures Valid() && Ongoing(v, next) && steps == old(steps) + 1 && old(nextId) <= nextId
      ensures Operands(i, old(x.stacks)) && calls == old(calls) + Tells(i, old(x.stacks))
    {
      hide *;
      ValidGrew();
      OngoingParts(v, pc);
      StandingAt(m, depths, source, pc, x, nextId, i, next);
      CallOperands(i, x.stacks);
      TellsCall(i, x.stacks);
      var s, id := x.stacks, nextId;
      var arguments := TopCells(s.At(i.bank), i.count);
      var ids := FreshIds(id, m.functions[i.callee].results);
      TracksCall(m, calls, v, nodes, s, pc, steps, i, next, id);
      CallRemains(ids, i.callee, arguments);
      RemainMore(nodes, [CallNode(ids, i.callee, arguments)]);
      CallContext(m, depths, source, pc, x, id, i, next, id + |ids|);
      AppendCall(i.callee, arguments);
      nodes := nodes + [CallNode(ids, i.callee, arguments)];
      x := x.(stacks := Called(s, i.bank, i.count, ids));
      LaterIds(id + |ids|);
      nextId := id + |ids|;
      steps := steps + 1;
      MakeValid();
      MakeOngoing(v, next);
    }

    lemma OngoingParts(v: Version, pc: nat)
      requires Ongoing(v, pc)
      ensures ContextOk(m, depths, source, pc, x, nextId) && Tracks(m, calls, v, nodes, x.stacks, pc, steps)
      ensures AllRemain(nodes)
    {
    }

    lemma MakeOngoing(v: Version, pc: nat)
      requires ContextOk(m, depths, source, pc, x, nextId) && Tracks(m, calls, v, nodes, x.stacks, pc, steps)
      requires AllRemain(nodes)
      ensures Ongoing(v, pc)
    {
    }

    lemma MakeValid()
      requires Setup() && BlocksOk(m, calls, versions, blocks, lengths)
      requires VersionsOk(m, depths, source, versions, nextId)
      ensures Valid()
    {
    }

    lemma LaterIds(next: nat)
      requires Valid() && nextId <= next
      ensures Setup() && BlocksOk(m, calls, versions, blocks, lengths)
      ensures VersionsOk(m, depths, source, versions, next)
    {
      hide Limited, Shaped;
    }

    /** A tail call either becomes an edge to the callee's entry, built into this function, or leaves it. */
    method OnTail(pc: nat, i: PInstr, next: nat) returns (ok: bool, t: Terminator)
      requires Valid() && ContextOk(m, depths, source, pc, x, nextId) && Here(m, pc, i, next) && i.TailTo?
      requires Operands(i, x.stacks) && i.callee < |m.functions|
      modifies `versions, `nextId, `x, `calls, `embedded
      ensures Valid() && old(versions) <= versions && old(nextId) <= nextId
      ensures calls == old(calls) + Tells(i, old(x.stacks))
      ensures t.JumpEdge? <==> !hidden(i.callee) && (i.callee in old(embedded) || eligible(i.callee))
      ensures embedded == old(embedded) + if t.JumpEdge? then {i.callee} else {}
      ensures t.JumpEdge? ==> Setup() && Picked(m, facts, old(versions), versions, m.functions[i.callee].entry,
        if i.callee in old(embedded) then Recursive else VirtualEntry, x, t.edge.target)
      ensures ok && Recorded(calls, t) && ExitsWith(m, versions, i, next, old(x.stacks), t)
      ensures SharpExit(header, versions, pc, i, t) && Undecided(t)
    {
      hide *;
      ValidGrew();
      StandingAt(m, depths, source, pc, x, nextId, i, next);
      var s, g := x.stacks, i.callee;
      var arguments := s.At(i.bank);
      TailOperands(i, s);
      TellsTail(i, s);
      AppendCall(g, arguments);
      ValidGrew();
      ghost var first, id := versions, nextId;
      var arrives := !hidden(g) && g !in embedded;
      if arrives && eligible(g) {
        embedded := embedded + {g};
      }
      if !hidden(g) && g in embedded {
        TailContext(m, depths, source, pc, x, nextId, i);
        var cbase := |s.c| - i.frame;
        var bias := x.bias + cbase - x.origin + i.count;
        x := Context(TailStacks(arguments), |arguments|, bias);
        var e;
        ok, e := MakeEdge(m.functions[g].entry, if arrives then VirtualEntry else Recursive);
        t := JumpEdge(e);
        SetupFacts();
        PickedEntry(m, facts, first, versions, m.functions[g].entry, if arrives then VirtualEntry else Recursive, x, e);
        SharpTail(header, versions, pc, i, e);
        EmbeddedExits(m, versions, i, next, s, x, e);
        RecordedJump(calls, e);
      } else {
        ok := true;
        t := TailEdge(g, arguments);
        SharpLeaves(header, versions, pc, i, t);
        TailExits(m, versions, i, next, s);
        RecordedTail(calls, g, arguments);
      }
    }

    /** The terminator for an instruction that ends a block. */
    method OnControl(pc: nat, i: PInstr, next: nat) returns (ok: bool, t: Terminator)
      requires Valid() && ContextOk(m, depths, source, pc, x, nextId) && Here(m, pc, i, next) && !i.Plain? && !i.CallTo?
      modifies `versions, `nextId, `x, `calls, `embedded
      ensures Valid() && old(versions) <= versions && old(nextId) <= nextId
      ensures Operands(i, old(x.stacks)) && calls == old(calls) + Tells(i, old(x.stacks))
      ensures (i.TailTo? ==> i.callee < |m.functions|)
      ensures ok && Recorded(calls, t) && ExitsWith(m, versions, i, next, old(x.stacks), t)
      ensures SharpExit(header, versions, pc, i, t) && Undecided(t)
    {
      hide *;
      ValidGrew();
      StandingAt(m, depths, source, pc, x, nextId, i, next);
      ghost var first, id := versions, nextId;
      BranchCase(i);
      if !i.TailTo? {
        TellsNone(i, x.stacks);
      }
      ok := true;
      if i.TailTo? {
        ok, t := OnTail(pc, i, next);
      } else if i.Jump? {
        ok, t := OnJump(pc, i.target, next);
        GrewValid(first, id);
        RecordedOther(calls, t);
      } else if i.Switch? {
        ok, t := OnSwitch(pc, i, next);
        GrewValid(first, id);
        RecordedOther(calls, t);
      } else if i.Stop? {
        t := StopEdge(i.reason);
        SharpLeaves(header, versions, pc, i, t);
        StopExits(m, versions, i.reason, next, x.stacks);
        RecordedOther(calls, t);
      } else if i.Return? {
        t := ReturnEdge(x.stacks.At(i.bank));
        SharpLeaves(header, versions, pc, i, t);
        ReturnExits(m, versions, i, next, x.stacks);
        RecordedOther(calls, t);
      } else {
        ok, t := OnBranch(pc, i, next);
        GrewValid(first, id);
        RecordedOther(calls, t);
      }
    }

    // ----- blocks -----

    method StepPlain(v: Version, pc: nat, i: Instr, next: nat) returns (trapped: bool)
      requires Valid() && Ongoing(v, pc) && Here(m, pc, Plain(i), next)
      modifies `x, `nodes, `nextId, `steps
      ensures Valid() && old(nextId) <= nextId
      ensures !trapped ==> Ongoing(v, next) && steps == old(steps) + 1
      ensures trapped ==> Ongoing(v, pc) && steps == old(steps) && Operands(Plain(i), x.stacks)
      ensures trapped ==> ExitsWith(m, versions, Plain(i), next, x.stacks, StopEdge(REASON_CONVERSION))
    {
      hide *;
      ValidGrew();
      OngoingParts(v, pc);
      StandingAt(m, depths, source, pc, x, nextId, Plain(i), next);
      ghost var x0, nodes0, id := x, nodes, nextId;
      ghost var added;
      ContextParts(m, depths, source, pc, x, nextId);
      LaterIds(nextId);
      trapped, added := OnPlain(i, depths[pc]);
      RaisedIds(id);
      RemainMore(nodes0, added);
      if trapped {
        assert nodes0 + added == nodes0;
        TrapExits(m, versions, i, next, x.stacks, REASON_CONVERSION);
        PlainOperands(i, x.stacks);
        ContextLater(m, depths, source, pc, x, id, nextId);
        MakeOngoing(v, pc);
      } else {
        TracksPlain(m, calls, v, nodes0, x0.stacks, pc, steps, i, next, x.stacks, added);
        PlainContext(m, depths, source, pc, x0, id, i, next, x, nextId);
        steps := steps + 1;
        MakeOngoing(v, next);
      }
    }

    lemma RaisedIds(id: nat)
      requires Setup() && BlocksOk(m, calls, versions, blocks, lengths) && VersionsOk(m, depths, source, versions, id)
      requires id <= nextId
      ensures Valid()
    {
      hide Limited, Shaped;
    }

    /** The block built so far, closed by `t`. */
    function Closed(v: Version, t: Terminator): Block
      reads `nodes
    {
      Block(v.base, Arity(v.key), nodes, t)
    }

    lemma ClosedSharp(v: Version, t: Terminator, pc: nat)
      requires AllRemain(nodes) && Undecided(t) && pc < |m.code| && m.code[pc].Some?
      requires SharpExit(header, versions, pc, m.code[pc].value.instr, t)
      ensures SharpBlock(m, header, versions, Closed(v, t), pc)
    {
      hide AllRemain, Undecided, SharpExit;
    }

    lemma ClosedIs(v: Version, t: Terminator)
      ensures Closed(v, t) == Block(v.base, Arity(v.key), nodes, t)
    {
    }

    /** One more instruction: either the block goes on at `pc'`, or `t` ends it. */
    method Extend(v: Version, pc: nat) returns (done: bool, ok: bool, pc': nat, t: Terminator, ghost length: nat)
      requires Valid() && Ongoing(v, pc) && v.pc <= pc
      modifies `x, `nodes, `nextId, `steps, `versions, `calls, `embedded
      ensures Valid() && old(versions) <= versions && old(nextId) <= nextId
      ensures ok && pc < |m.code| && m.code[pc].Some? && Operands(m.code[pc].value.instr, old(x.stacks))
      ensures calls == old(calls) + Tells(m.code[pc].value.instr, old(x.stacks))
      ensures !done ==> pc < pc' && Ongoing(v, pc')
      ensures done ==> BlockOk(m, calls, versions, v, Closed(v, t), length)
      ensures done ==> SharpBlock(m, header, versions, Closed(v, t), pc)
    {
      hide *;
      ValidGrew();
      OngoingParts(v, pc);
      Standing(m, depths, source, pc, x, nextId);
      var i := m.code[pc].value.instr;
      var next := pc + m.code[pc].value.length;
      done, ok, pc', t, length := false, true, next, StopEdge(REASON_CONVERSION), steps + 1;
      if !i.CallTo? && !i.TailTo? {
        TellsNone(i, x.stacks);
      }
      if !i.Plain? && !i.CallTo? {
        done := true;
        ghost var s, before := x.stacks, calls;
        ok, t := OnControl(pc, i, next);
        TracksMoreCalls(m, before, calls, v, nodes, s, pc, steps);
        CloseBlock(m, calls, versions, v, nodes, s, pc, steps, i, next, t);
        ClosedIs(v, t);
        ClosedSharp(v, t, pc);
        return;
      }
      if i.Plain? {
        var trapped := StepPlain(v, pc, i.instr, next);
        if trapped {
          done := true;
          OngoingParts(v, pc);
          RecordedOther(calls, t);
          CloseBlock(m, calls, versions, v, nodes, x.stacks, pc, steps, i, next, t);
          ClosedIs(v, t);
          SharpLeaves(header, versions, pc, i, t);
          ClosedSharp(v, t, pc);
          return;
        }
      } else {
        OnCall(v, pc, i, next);
      }
      if leader(next) {
        done := true;
        OngoingParts(v, next);
        var e;
        ok, e := GoTo(v.pc, next);
        t := JumpEdge(e);
        FallThrough(m, calls, versions, v, nodes, x, next, steps, e);
        ClosedIs(v, t);
        EdgePc(versions, e, next, x);
        SharpJump(header, versions, v.pc, pc, i, e);
        ClosedSharp(v, t, pc);
      }
    }

    /** Build the block of the first version that has none. */
    method BuildBody() returns (ok: bool)
      requires Valid() && Tight() && |blocks| < |versions|
      modifies this
      ensures Valid() && Tight() && ok && old(versions) <= versions && old(calls) <= calls
      ensures |blocks| == old(|blocks|) + 1
    {
      hide *;
      ValidGrew();
      var v := versions[|blocks|];
      TightIs();
      x := Context(NamedAll(v.key, v.base), v.key.origin, v.key.bias);
      nodes := [];
      steps := 0;
      BeginBlock(v, |blocks|);
      ok := true;
      var done, pc, t := false, v.pc, StopEdge(0);
      ghost var length := 0;
      ghost var count, versions0, calls0, ends0 := blocks, versions, calls, ends;
      ghost var last: nat := v.pc;
      while !done
        invariant ok && Valid() && versions0 <= versions && calls0 <= calls && blocks == count && ends == ends0
        invariant !done ==> Ongoing(v, pc) && v.pc <= pc
        invariant done ==> BlockOk(m, calls, versions, v, Closed(v, t), length)
        invariant done ==> SharpBlock(m, header, versions, Closed(v, t), last)
        invariant done || pc <= |m.code|
        decreases !done, |m.code| - pc
      {
        last := pc;
        done, ok, pc, t, length := Extend(v, pc);
        if !done {
          OngoingInside(v, pc);
        }
      }
      AddBlock(v, t, length);
      SharpenedMore(m, header, versions0, versions, blocks, ends);
      SharpenedNext(m, header, versions, blocks, ends, Closed(v, t), last);
      ends := ends + [last];
      blocks := blocks + [Closed(v, t)];
      lengths := lengths + [length];
      TightIs();
      MakeValid();
    }

    /** Every block built is reduced and leaves by sharp edges. */
    ghost predicate Tight()
      reads `versions, `blocks, `ends
    {
      Sharpened(m, header, versions, blocks, ends)
    }

    lemma TightIs()
      ensures Tight() <==> Sharpened(m, header, versions, blocks, ends)
    {
    }

    lemma OngoingInside(v: Version, pc: nat)
      requires Valid() && Ongoing(v, pc)
      ensures pc < |m.code|
    {
      Standing(m, depths, source, pc, x, nextId);
    }

    lemma BeginBlock(v: Version, k: nat)
      requires Valid() && k < |versions| && v == versions[k]
      requires x == Context(NamedAll(v.key, v.base), v.key.origin, v.key.bias) && nodes == [] && steps == 0
      ensures Ongoing(v, v.pc) && v.pc <= |m.code|
    {
      hide Limited, BlocksOk, Tracks, Checked, FlowsAt;
      VersionBegins(m, depths, source, v, nextId);
      TracksBegin(m, calls, v);
      CheckedAt(m, depths, v.pc);
      EntryPc(m, depths, v.pc);
    }

    lemma AddBlock(v: Version, t: Terminator, length: nat)
      requires Valid() && |blocks| < |versions| && v == versions[|blocks|]
      requires BlockOk(m, calls, versions, v, Closed(v, t), length)
      ensures Setup() && VersionsOk(m, depths, source, versions, nextId)
      ensures BlocksOk(m, calls, versions, blocks + [Closed(v, t)], lengths + [length])
    {
      hide BlockOk, Checked, VersionsOk;
    }

    // ----- whole functions -----

    constructor (m: Module, ghost depths: Depths, leader: nat -> bool, header: nat -> bool, eligible: nat -> bool,
      hidden: nat -> bool, facts: seq<Option<seq<Fact>>>, source: nat)
      requires Checked(m, depths) && source < |m.functions| && |facts| == |m.functions|
      requires forall f | 0 <= f < |facts| && facts[f].Some? :: |facts[f].value| == m.functions[f].arguments
      ensures Valid() && this.m == m && this.depths == depths && this.facts == facts && this.source == source
      ensures this.header == header && Tight()
      ensures versions == [] && blocks == [] && calls == [] && nextId == m.functions[source].arguments
    {
      this.m, this.depths, this.leader, this.header, this.eligible := m, depths, leader, header, eligible;
      this.hidden, this.facts, this.source := hidden, facts, source;
      versions, blocks, calls, lengths, ends := [], [], [], [], [];
      nextId := m.functions[source].arguments;
      embedded := {source};
      x := Context(Banks([], [], []), 0, 0);
      nodes, steps := [], 0;
    }

    /** The arguments on the frame, each a constant where its fact says so and otherwise the function's
        own argument value. */
    method InitialContext()
      requires Setup()
      modifies `x
      ensures x == StartContext(m, facts[source], source)
    {
      hide *;
      SourceIn();
      var n := m.functions[source].arguments;
      var c: seq<Sym> := [];
      for i := 0 to n
        invariant |c| == i && forall j | 0 <= j < i :: c[j] == StartSym(facts[source], j)
        modifies {}
      {
        c := c + [StartSym(facts[source], i)];
      }
      StartIs(m, facts[source], source, c);
      x := Context(Banks([], [], Reversed(c)), n, 0);
    }

    /** Build the function: its entry edge, then a block for every version made on the way. */
    method Build() returns (ok: bool, entry: Edge)
      requires Valid() && Tight() && versions == [] && nextId == m.functions[source].arguments
      modifies this
      ensures ok && Valid() && Tight() && |blocks| == |versions|
      ensures entry.target < |versions|
      ensures Keeps(versions[entry.target].key, StartContext(m, facts[source], source))
      ensures EdgeTo(versions, entry, m.functions[source].entry, StartContext(m, facts[source], source))
    {
      hide *;
      ValidSetup();
      InitialContext();
      StartFits(m, depths, source, facts[source], nextId);
      SourceIn();
      TightIs();
      ok, entry := MakeEdge(m.functions[source].entry, Preserve);
      SharpenedMore(m, header, [], versions, blocks, ends);
      TightIs();
      FirstKeeps(m, facts, versions, m.functions[source].entry, x, entry.target);
      VersionsBound();
      while |blocks| < |versions|
        invariant ok && Valid() && Tight() && |blocks| <= |versions|
        invariant entry.target < |versions|
        invariant Keeps(versions[entry.target].key, StartContext(m, facts[source], source))
        invariant EdgeTo(versions, entry, m.functions[source].entry, StartContext(m, facts[source], source))
        decreases VERSION_LIMIT * |m.code| - |versions|, |versions| - |blocks|
      {
        VersionsBound();
        ghost var before := versions;
        ok := BuildBody();
        VersionsBound();
        EdgeMore(before, versions, entry, m.functions[source].entry, StartContext(m, facts[source], source));
      }
    }

    lemma SourceIn()
      requires Setup()
      ensures Checked(m, depths) && source < |m.functions| == |facts|
    {
    }

    lemma VersionsBound()
      requires Valid()
      ensures |blocks| <= |versions| <= VERSION_LIMIT * |m.code|
    {
      hide Limited, BlockOk, FlowsAt;
      forall i, j | 0 <= i < |versions| && 0 <= j < |versions| && versions[i].pc == versions[j].pc
        ensures SameFamily(versions[i].key, versions[j].key)
      {
        assert VersionFits(m, depths, source, versions[i], nextId);
        assert VersionFits(m, depths, source, versions[j], nextId);
      }
      forall k | 0 <= k < |versions| ensures versions[k].pc < |m.code| {
        assert VersionFits(m, depths, source, versions[k], nextId);
        CheckedAt(m, depths, versions[k].pc);
        EntryPc(m, depths, versions[k].pc);
      }
      TotalBound(versions, |m.code|);
    }
  }

  /** Argument `i`: its id is its number. */
  function StartSym(facts: Option<seq<Fact>>, i: nat): Sym {
    if facts.Some? && i < |facts.value| && facts.value[i].Constant? then Const(facts.value[i].value) else Value(i)
  }

  function StartContext(m: Module, facts: Option<seq<Fact>>, source: nat): Context
    requires source < |m.functions|
  {
    var n := m.functions[source].arguments;
    Context(Banks([], [], Reversed(seq(n, (j: nat) => StartSym(facts, j)))), n, 0)
  }

  lemma StartIs(m: Module, facts: Option<seq<Fact>>, source: nat, c: seq<Sym>)
    requires source < |m.functions| && |c| == m.functions[source].arguments
    requires forall j | 0 <= j < |c| :: c[j] == StartSym(facts, j)
    ensures StartContext(m, facts, source) == Context(Banks([], [], Reversed(c)), m.functions[source].arguments, 0)
  {
    assert c == seq(|c|, (j: nat) => StartSym(facts, j));
  }

  lemma StartFits(m: Module, depths: Depths, source: nat, facts: Option<seq<Fact>>, next: nat)
    requires Checked(m, depths) && source < |m.functions| && next >= m.functions[source].arguments
    ensures ContextOk(m, depths, source, m.functions[source].entry, StartContext(m, facts, source), next)
  {
    CheckedEntry(m, depths, source);
    StartOlder(m, facts, source);
    hide Checked, BanksOlder;
    OlderMore(StartContext(m, facts, source).stacks, m.functions[source].arguments, next);
  }

  lemma StartOlder(m: Module, facts: Option<seq<Fact>>, source: nat)
    requires source < |m.functions|
    ensures BanksOlder(StartContext(m, facts, source).stacks, m.functions[source].arguments)
  {
  }

  /** A residual function: an entry edge over its arguments, and a block for each version. */
  datatype Residual = Residual(entry: Edge, versions: seq<Version>, blocks: seq<Block>, calls: seq<Call>)

  /** The residual function is a faithful rendering of the bytecode function, given its facts. */
  ghost predicate Faithful(m: Module, source: nat, facts: Option<seq<Fact>>, r: Residual) {
    && source < |m.functions| && |r.blocks| == |r.versions| && CallsFit(m, r.calls)
    && EdgeTo(r.versions, r.entry, m.functions[source].entry, StartContext(m, facts, source))
    && EntryFixes(m, source, facts, r)
    && forall k | 0 <= k < |r.blocks| :: FaithfulBlock(m, r, k)
  }

  /** What is known of an argument before the function is entered. */
  function ArgumentSlot(facts: Option<seq<Fact>>, i: nat): Slot {
    match facts
    case Some(l) => if i < |l| && l[i].Constant? then Fixed(l[i].value) else Open
    case None => Open
  }

  /** The version the function is entered by fixes exactly the arguments its facts call constant. */
  ghost predicate EntryFixes(m: Module, source: nat, facts: Option<seq<Fact>>, r: Residual)
    requires source < |m.functions|
  {
    var n := m.functions[source].arguments;
    r.entry.target < |r.versions| &&
    var k := r.versions[r.entry.target].key;
    && k.slots.a == [] && k.slots.b == [] && |k.slots.c| == n
    && forall i: nat | i < n :: k.slots.c[n - 1 - i] == ArgumentSlot(facts, i)
  }

  lemma KeepsStart(m: Module, source: nat, facts: Option<seq<Fact>>, r: Residual)
    requires source < |m.functions| && r.entry.target < |r.versions|
    requires Keeps(r.versions[r.entry.target].key, StartContext(m, facts, source))
    ensures EntryFixes(m, source, facts, r)
  {
    var k, x, n := r.versions[r.entry.target].key, StartContext(m, facts, source), m.functions[source].arguments;
    CoversAt(k, x, C);
    forall i: nat | i < n ensures k.slots.c[n - 1 - i] == ArgumentSlot(facts, i) {
      assert x.stacks.At(C)[n - 1 - i] == StartSym(facts, i);
      assert k.slots.At(C)[n - 1 - i] == k.slots.c[n - 1 - i];
    }
  }

  ghost predicate FaithfulBlock(m: Module, r: Residual, k: nat) {
    && k < |r.blocks| == |r.versions| && Reduced(r.blocks[k])
    && exists steps :: BlockOk(m, r.calls, r.versions, r.versions[k], r.blocks[k], steps)
  }

  /** Specialization always succeeds and always ends, with at most eight blocks for each instruction,
      and the result is faithful: whatever the leaders, loop headers and embedding choices. */
  method Specialize(m: Module, ghost depths: Depths, leader: nat -> bool, header: nat -> bool, eligible: nat -> bool,
    hidden: nat -> bool, facts: seq<Option<seq<Fact>>>, source: nat)
    returns (ok: bool, r: Residual)
    requires Checked(m, depths) && source < |m.functions| && |facts| == |m.functions|
    requires forall f | 0 <= f < |facts| && facts[f].Some? :: |facts[f].value| == m.functions[f].arguments
    ensures ok && Faithful(m, source, facts[source], r)
    ensures Limited(r.versions) && |r.blocks| <= VERSION_LIMIT * |m.code|
    ensures forall k | 0 <= k < |r.blocks| :: LeavesSharp(m, header, r.versions, r.blocks[k])
  {
    hide *;
    var b := new Builder(m, depths, leader, header, eligible, hidden, facts, source);
    var entry;
    ok, entry := b.Build();
    b.VersionsBound();
    r := Residual(entry, b.versions, b.blocks, b.calls);
    b.TightIs();
    SharpenedEach(m, header, b.versions, b.blocks, b.ends);
    KeepsStart(m, source, facts[source], r);
    BuiltFaithful(b, r);
  }

  lemma BuiltFaithful(b: Builder, r: Residual)
    requires b.Valid() && |b.blocks| == |b.versions| && r == Residual(r.entry, b.versions, b.blocks, b.calls)
    requires forall k | 0 <= k < |b.blocks| :: Reduced(b.blocks[k])
    requires b.source < |b.m.functions| == |b.facts|
    requires EdgeTo(b.versions, r.entry, b.m.functions[b.source].entry, StartContext(b.m, b.facts[b.source], b.source))
    requires EntryFixes(b.m, b.source, b.facts[b.source], r)
    ensures Faithful(b.m, b.source, b.facts[b.source], r) && Limited(r.versions)
  {
    hide BlockOk, Limited, Checked, Shaped, EdgeTo, EntryFixes, Reduced;
    forall k | 0 <= k < |r.blocks| ensures FaithfulBlock(b.m, r, k) {
      assert BlockOk(b.m, r.calls, r.versions, r.versions[k], r.blocks[k], b.lengths[k]);
    }
  }

  lemma PlainOperands(i: Instr, s: Banks<Sym>)
    requires Ready(i, s)
    ensures Operands(Plain(i), s)
  {
  }

  lemma CallRemains(ids: seq<nat>, callee: nat, arguments: seq<Sym>)
    ensures AllRemain([CallNode(ids, callee, arguments)])
  {
  }

  lemma InPlaceRemains(i: Instr, s: Banks<Sym>, id: nat)
    requires InPlace(i) && Ready(i, s) && !InPlaceConst(i, s)
    ensures AllRemain([InPlaceNode(i, s, id)])
  {
    hide Banks.Peek;
    RemainOne(InPlaceNode(i, s, id));
  }

  lemma AfterOwner(i: Instr, d: Spot)
    requires Ready(i, Blank(d))
    ensures AfterDepth(i, d).owner == d.owner
  {
  }

  lemma FlowsPlain(m: Module, depths: Depths, i: Instr, next: nat, d: Spot)
    requires Flows(m, depths, Plain(i), next, d)
    ensures Ready(i, Blank(d)) && Goes(depths, next, AfterDepth(i, d))
  {
    hide Goes, AfterDepth, Ready;
  }

  lemma PlainContext(m: Module, depths: Depths, source: nat, pc: nat, x: Context, id: nat, i: Instr, next: nat,
    x': Context, id': nat)
    requires Checked(m, depths) && ContextOk(m, depths, source, pc, x, id) && Here(m, pc, Plain(i), next) && id <= id'
    requires pc in depths && Ready(i, Blank(depths[pc])) && Fits(AfterDepth(i, depths[pc]), x'.stacks)
    requires x'.origin == x.origin && x'.bias == x.bias && BanksOlder(x'.stacks, id')
    ensures ContextOk(m, depths, source, next, x', id')
  {
    hide Checked, ContextOk, Fits, BanksOlder, Flows, Goes, Ready, AfterDepth;
    StandingAt(m, depths, source, pc, x, id, Plain(i), next);
    FlowsPlain(m, depths, i, next, depths[pc]);
    AfterOwner(i, depths[pc]);
    ContextLater(m, depths, source, pc, x, id, id');
    ShapedGoes(m, depths, source, pc, x, next, AfterDepth(i, depths[pc]), x', id');
  }

  lemma VersionBegins(m: Module, depths: Depths, source: nat, v: Version, next: nat)
    requires VersionFits(m, depths, source, v, next)
    ensures v.pc in depths
    ensures ContextOk(m, depths, source, v.pc, Context(NamedAll(v.key, v.base), v.key.origin, v.key.bias), next)
  {
    EntryOlder(v.key, v.base);
    OlderMore(NamedAll(v.key, v.base), v.base + Arity(v.key), next);
    hide BanksOlder;
  }

  lemma EntryPc(m: Module, depths: Depths, pc: nat)
    requires pc in depths && FlowsAt(m, depths, pc)
    ensures pc < |m.code|
  {
    hide Flows;
  }

  lemma BranchCase(i: PInstr)
    ensures !i.Plain? && !i.CallTo? && !i.TailTo? && !i.Jump? && !i.Switch? && !i.Stop? && !i.Return? ==> IsBranch(i)
  {
  }

  lemma RecordedJump(calls: seq<Call>, e: Edge)
    ensures Recorded(calls, JumpEdge(e))
  {
  }

  lemma RecordedTail(calls: seq<Call>, g: nat, arguments: seq<Sym>)
    requires calls != [] && calls[|calls| - 1] == Call(g, FactsOf(arguments))
    ensures Recorded(calls, TailEdge(g, arguments))
  {
  }

  lemma RecordedOther(calls: seq<Call>, t: Terminator)
    requires !t.TailEdge?
    ensures Recorded(calls, t)
  {
  }

  lemma TailOperands(i: PInstr, s: Banks<Sym>)
    requires i.TailTo? && Operands(i, s)
    ensures |s.c| == i.frame && |s.At(i.bank)| == i.count
  {
  }

  lemma FlowsCall(m: Module, depths: Depths, i: PInstr, next: nat, d: Spot)
    requires i.CallTo? && Flows(m, depths, i, next, d)
    ensures i.callee < |m.functions| && i.count <= Depth(d, i.bank)
    ensures Goes(depths, next, WithDepth(d, i.bank, Depth(d, i.bank) - i.count + m.functions[i.callee].results))
  {
    FitsAt(d, Blank(d), i.bank);
    hide Goes;
  }

  lemma WithOwner(d: Spot, x: Stack, n: nat)
    ensures WithDepth(d, x, n).owner == d.owner
  {
  }

  lemma CalledOlder(s: Banks<Sym>, x: Bank, n: nat, id: nat, k: nat)
    requires BanksOlder(s, id) && n <= |s.At(x)|
    ensures BanksOlder(Called(s, x, n, FreshIds(id, k)), id + k)
  {
    hide BanksOlder;
    OlderMore(s, id, id + k);
    OlderAt(s, id + k, x);
    OlderPut(s, id + k, x, Under(s.At(x), n) + Values(FreshIds(id, k)));
  }

  lemma CalledFits(d: Spot, s: Banks<Sym>, x: Bank, n: nat, ids: seq<nat>)
    requires Fits(d, s) && n <= |s.At(x)|
    ensures n <= Depth(d, x) && Fits(WithDepth(d, x, Depth(d, x) - n + |ids|), Called(s, x, n, ids))
  {
    FitsAt(d, s, x);
    FitsPut(d, s, x, Under(s.At(x), n) + Values(ids));
  }

  lemma CallContext(m: Module, depths: Depths, source: nat, pc: nat, x: Context, id: nat, i: PInstr, next: nat,
    id': nat)
    requires Checked(m, depths) && ContextOk(m, depths, source, pc, x, id) && Here(m, pc, i, next) && i.CallTo?
    requires i.count <= |x.stacks.At(i.bank)| && i.callee < |m.functions| && id' == id + m.functions[i.callee].results
    ensures var ids := FreshIds(id, m.functions[i.callee].results);
      ContextOk(m, depths, source, next, x.(stacks := Called(x.stacks, i.bank, i.count, ids)), id')
  {
    hide Checked, ContextOk, Fits, BanksOlder, Flows, Called, Goes;
    Standing(m, depths, source, pc, x, id);
    var d, n, ids := depths[pc], m.functions[i.callee].results, FreshIds(id, m.functions[i.callee].results);
    FlowsCall(m, depths, i, next, d);
    CalledFits(d, x.stacks, i.bank, i.count, ids);
    CalledOlder(x.stacks, i.bank, i.count, id, n);
    WithOwner(d, i.bank, Depth(d, i.bank) - i.count + n);
    ContextLater(m, depths, source, pc, x, id, id');
    ShapedGoes(m, depths, source, pc, x, next, WithDepth(d, i.bank, Depth(d, i.bank) - i.count + n),
      x.(stacks := Called(x.stacks, i.bank, i.count, ids)), id');
  }

  lemma TailOlder(l: seq<Sym>, n: nat)
    requires AllOlder(l, n)
    ensures BanksOlder(TailStacks(l), n)
  {
  }

  lemma CheckedEntry(m: Module, depths: Depths, g: nat)
    requires Checked(m, depths) && g < |m.functions|
    ensures Goes(depths, m.functions[g].entry, EntrySpot(m, g))
  {
    hide FlowsAt;
  }

  /** After a tail call the context is the callee's entry context: its frame's homes start where the
      caller's did. */
  lemma TailContext(m: Module, depths: Depths, source: nat, pc: nat, x: Context, id: nat, i: PInstr)
    requires Checked(m, depths) && ContextOk(m, depths, source, pc, x, id) && i.TailTo? && Operands(i, x.stacks)
    requires i.callee < |m.functions| && i.count == m.functions[i.callee].arguments
    ensures var l := x.stacks.At(i.bank);
      ContextOk(m, depths, source, m.functions[i.callee].entry,
        Context(TailStacks(l), |l|, x.bias + (|x.stacks.c| - i.frame) - x.origin + i.count), id)
  {
    CheckedEntry(m, depths, i.callee);
    hide Checked;
    var l := x.stacks.At(i.bank);
    OlderAt(x.stacks, id, i.bank);
    TailOlder(l, id);
  }

  lemma BranchConsumed(i: PInstr, s: Banks<Sym>)
    requires (IsBranch(i) || i.Switch?) && Operands(i, s)
    ensures s.Has(i.bank, 0) && (i.PairBranch? ==> s.Has(Opposite(i.bank), 0))
    ensures IsBranch(i) ==> i.ZeroBranch? || i.PairBranch? || i.ImmediateBranch?
  {
  }

  lemma ChosenTarget(k: nat, targets: seq<nat>, next: nat)
    ensures Chosen(k, targets, next) == next || Chosen(k, targets, next) in targets
  {
  }

  lemma NoArms(versions: seq<Version>, targets: seq<nat>, x: Context)
    ensures ArmsTo(versions, [], targets[..0], x)
  {
  }

  lemma MoreArms(versions: seq<Version>, more: seq<Version>, arms: seq<Edge>, targets: seq<nat>, k: nat, x: Context,
    e: Edge)
    requires k < |targets| && ArmsTo(versions, arms, targets[..k], x) && versions <= more
    requires EdgeTo(more, e, targets[k], x)
    ensures ArmsTo(more, arms + [e], targets[..k + 1], x)
  {
    hide EdgeTo;
    forall j | 0 <= j < k + 1 ensures EdgeTo(more, (arms + [e])[j], targets[..k + 1][j], x) {
      if j < k {
        assert targets[..k][j] == targets[j];
        EdgeMore(versions, more, arms[j], targets[j], x);
      }
    }
  }

  lemma JumpContext(m: Module, depths: Depths, source: nat, pc: nat, x: Context, id: nat, target: nat, next: nat)
    requires Checked(m, depths) && ContextOk(m, depths, source, pc, x, id) && Here(m, pc, Jump(target), next)
    ensures ContextOk(m, depths, source, target, x, id)
  {
    hide Checked, ContextOk, Fits, BanksOlder;
    Standing(m, depths, source, pc, x, id);
    ShapedGoes(m, depths, source, pc, x, target, depths[pc], x, id);
  }

  lemma FitsInPlace(i: Instr, d: Spot)
    requires InPlace(i) && Ready(i, Blank(d))
    ensures AfterDepth(i, d) == d
  {
  }

  lemma BinaryFits(b: Bank, op: BinaryOp, d: Spot, s: Banks<Sym>)
    requires s.Has(b, 0) && s.Has(Opposite(b), 0) && Fits(d, s)
    ensures Ready(Binary(b, op), Blank(d)) && Fits(AfterDepth(Binary(b, op), d), s.Pop(Opposite(b)))
  {
    FitsReady(Binary(b, op), d, s);
    FitsPop(d, s, Opposite(b));
  }

  lemma NoGeneric(versions: seq<Version>, pc: nat, key: Key)
    requires forall k | 0 <= k < |versions| :: !(versions[k].pc == pc && versions[k].key == Forgotten(key))
    ensures !HasGeneric(versions, pc, key)
  {
  }

  lemma ForgottenTwice(key: Key)
    ensures Forgotten(Forgotten(key)) == Forgotten(key)
  {
  }

  lemma CoversParts(k: Key, x: Context)
    requires Covers(k, x)
    ensures CoversAll(k.slots.a, x.stacks.a) && |k.slots.a| == |x.stacks.a|
    ensures CoversAll(k.slots.b, x.stacks.b) && |k.slots.b| == |x.stacks.b|
    ensures CoversAll(k.slots.c, x.stacks.c) && |k.slots.c| == |x.stacks.c|
  {
  }

  lemma EdgeMade(versions: seq<Version>, e: Edge, pc: nat, x: Context)
    requires e.target < |versions| && versions[e.target].pc == pc && Covers(versions[e.target].key, x)
    requires var k := versions[e.target].key;
      && |k.slots.a| == |x.stacks.a| && |k.slots.b| == |x.stacks.b| && |k.slots.c| == |x.stacks.c|
      && e.arguments == Passed(k.slots.a, x.stacks.a) + Passed(k.slots.b, x.stacks.b) + Passed(k.slots.c, x.stacks.c)
    ensures EdgeTo(versions, e, pc, x)
  {
  }
}
