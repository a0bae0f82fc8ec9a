/** The driver: functions are residualized, and residualized again, until the facts they assume of
    their arguments cover every call left in the residual program.
 */
module Residualize {
  import opened Words
  import opened Facts
  import opened ControlCode
  import opened Exits
  import opened Specializer
  import opened ResidualRuns

  /** The block boundaries, loop headers and embedding choices made for one function. */
  datatype Plan = Plan(leader: nat -> bool, header: nat -> bool, eligible: nat -> bool, hidden: nat -> bool)

  function Arity(m: Module): (r: seq<nat>)
    ensures |r| == |m.functions| && forall f | 0 <= f < |r| :: r[f] == m.functions[f].arguments
  {
    seq(|m.functions|, (f: nat) requires f < |m.functions| => m.functions[f].arguments)
  }

  /** Clean functions are rendered under the facts as they are now. */
  ghost predicate Rendered(m: Module, t: Table, dirty: seq<bool>, p: Program) {
    |t| == |dirty| == |p| && forall f | 0 <= f < |t| && !dirty[f] :: Needed(m, t, p, f)
  }

  ghost predicate AllCovered(t: Table, calls: seq<Call>) {
    forall k | 0 <= k < |calls| :: Covered(t, calls[k])
  }

  lemma NeededStays(m: Module, a: Table, b: Table, p: Program, q: Program, f: nat)
    requires f < |a| == |p| == |q| && Grows(a, b) && Needed(m, a, p, f) && a[f] == b[f] && p[f] == q[f]
    ensures Needed(m, b, q, f)
  {
    hide Faithful, Covered, Grows;
    GrowsLength(a, b);
    if b[f].Some? {
      forall k | 0 <= k < |q[f].value.calls| ensures Covered(b, q[f].value.calls[k]) {
        CoveredStays(a, b, q[f].value.calls[k]);
      }
    }
  }

  lemma GrowsLength(a: Table, b: Table)
    requires Grows(a, b)
    ensures |a| == |b|
  {
  }

  /** After a function is rendered anew and its calls are joined, whatever is clean is rendered. */
  lemma RenderedStays(m: Module, a: Table, b: Table, dirty: seq<bool>, dirty': seq<bool>, p: Program, f: nat,
    r: Residual)
    requires Updates(a, b, dirty, dirty') && |a| == |p| && f < |a|
    requires forall u | 0 <= u < |a| && !dirty[u] && u != f :: Needed(m, a, p, u)
    requires Faithful(m, f, a[f], r) && AllCovered(b, r.calls)
    ensures Rendered(m, b, dirty', p[f := Some(r)])
  {
    hide Faithful, Covered, Needed;
    var q := p[f := Some(r)];
    forall u | 0 <= u < |b| && !dirty'[u] ensures Needed(m, b, q, u) {
      if u == f {
        NeededNow(m, b, q, f, r);
      } else {
        NeededStays(m, a, b, p, q, u);
      }
    }
  }

  lemma NeededNow(m: Module, t: Table, p: Program, f: nat, r: Residual)
    requires f < |t| == |p| && p[f] == Some(r) && Faithful(m, f, t[f], r) && AllCovered(t, r.calls)
    ensures Needed(m, t, p, f)
  {
    hide Faithful, Covered;
  }

  lemma CallAt(m: Module, calls: seq<Call>, k: nat)
    requires CallsFit(m, calls) && k < |calls|
    ensures calls[k].target < |m.functions| && |calls[k].facts| == m.functions[calls[k].target].arguments
  {
  }

  lemma FaithfulCalls(m: Module, f: nat, facts: Option<seq<Fact>>, r: Residual)
    requires Faithful(m, f, facts, r)
    ensures CallsFit(m, r.calls)
  {
    hide CallsFit, FaithfulBlock, EdgeTo, StartContext;
  }

  lemma GoodArity(m: Module, facts: Table, needed: seq<bool>, dirty: seq<bool>)
    requires Good(Arity(m), facts, needed, dirty)
    ensures |facts| == |needed| == |dirty| == |m.functions|
    ensures forall f | 0 <= f < |facts| && facts[f].Some? :: |facts[f].value| == m.functions[f].arguments
  {
  }

  lemma CoveredMore(a: Table, b: Table, calls: seq<Call>)
    requires AllCovered(a, calls) && Grows(a, b)
    ensures AllCovered(b, calls)
  {
    hide Covered, Grows;
    forall k | 0 <= k < |calls| ensures Covered(b, calls[k]) {
      CoveredStays(a, b, calls[k]);
    }
  }

  lemma CoveredOne(t: Table, calls: seq<Call>, c: Call)
    requires AllCovered(t, calls) && Covered(t, c)
    ensures AllCovered(t, calls + [c])
  {
    hide Covered;
  }

  lemma RenderedOthers(m: Module, t: Table, dirty: seq<bool>, p: Program, f: nat)
    requires Rendered(m, t, dirty, p) && f < |t|
    ensures |p| == |t| && forall u | 0 <= u < |t| && !dirty[f := false][u] && u != f :: Needed(m, t, p, u)
  {
    hide Needed;
  }

  /** The calls left in some faithful residual function. */
  ghost function BySpecializing(m: Module): Reporter {
    (f: nat, entry: Option<seq<Fact>>, c: Call) => exists r :: Faithful(m, f, entry, r) && c in r.calls
  }

  lemma LeftCall(m: Module, f: nat, entry: Option<seq<Fact>>, r: Residual, j: nat)
    requires Faithful(m, f, entry, r) && j < |r.calls|
    ensures BySpecializing(m)(f, entry, r.calls[j])
  {
    hide Faithful;
  }

  /** Residualize one dirty function and join the calls it leaves. */
  method Renew(m: Module, ghost depths: Depths, plan: Plan,
    facts: array<Option<seq<Fact>>>, needed: array<bool>, dirty: array<bool>, program: array<Option<Residual>>, f: nat,
    ghost roots: seq<nat>, ghost reported: seq<Call>) returns (ghost reported': seq<Call>)
    requires Checked(m, depths) && f < |m.functions| == dirty.Length == facts.Length && dirty[f]
    requires Good(Arity(m), facts[..], needed[..], dirty[..]) && needed != dirty
    requires Rendered(m, facts[..], dirty[..], program[..])
    requires Told(Arity(m), roots, BySpecializing(m), reported, facts[..])
    modifies facts, needed, dirty, program
    ensures Told(Arity(m), roots, BySpecializing(m), reported', facts[..])
    ensures Good(Arity(m), facts[..], needed[..], dirty[..])
    ensures Updates(old(facts[..]), facts[..], old(dirty[..])[f := false], dirty[..])
    ensures Rendered(m, facts[..], dirty[..], program[..])
  {
    hide *;
    GoodArity(m, facts[..], needed[..], dirty[..]);
    RenderedOthers(m, facts[..], dirty[..], program[..], f);
    Lowered(Arity(m), facts[..], needed[..], dirty[..], f);
    ghost var p := program[..];
    dirty[f] := false;
    ghost var before, marks := facts[..], dirty[..];
    var _, r := Specialize(m, depths, plan.leader, plan.header, plan.eligible, plan.hidden, facts[..], f);
    FaithfulCalls(m, f, facts[f], r);
    UpdatesNone(before, marks);
    NoneCovered(before);
    reported' := reported;
    ToldTable(Arity(m), roots, BySpecializing(m), reported, before);
    for j := 0 to |r.calls|
      invariant Good(Arity(m), facts[..], needed[..], dirty[..]) && program[..] == p
      invariant Updates(before, facts[..], marks, dirty[..]) && AllCovered(facts[..], r.calls[..j])
      invariant Told(Arity(m), roots, BySpecializing(m), reported', facts[..]) && reported <= reported'
    {
      ghost var t, d := facts[..], dirty[..];
      CallAt(m, r.calls, j);
      var _ := JoinCall(Arity(m), facts, needed, dirty, r.calls[j]);
      LeftCall(m, f, before[f], r, j);
      ToldMore(Arity(m), roots, BySpecializing(m), reported, reported', t, f, r.calls[j]);
      reported' := reported' + [r.calls[j]];
      UpdatesTrans(before, t, facts[..], marks, d, dirty[..]);
      UpdatesGrows(t, facts[..], d, dirty[..]);
      CoveredMore(t, facts[..], r.calls[..j]);
      CoveredOne(facts[..], r.calls[..j], r.calls[j]);
      assert r.calls[..j + 1] == r.calls[..j] + [r.calls[j]];
    }
    assert r.calls[..|r.calls|] == r.calls;
    RenderedStays(m, before, facts[..], marks, dirty[..], p, f, r);
    program[f] := Some(r);
    assert program[..] == p[f := Some(r)];
  }

  lemma NoneCovered(t: Table)
    ensures AllCovered(t, [])
  {
  }

  lemma Lowered(arity: seq<nat>, t: Table, needed: seq<bool>, dirty: seq<bool>, f: nat)
    requires Good(arity, t, needed, dirty) && f < |dirty|
    ensures Good(arity, t, needed, dirty[f := false])
  {
  }

  lemma StartsRendered(m: Module, t: Table, dirty: seq<bool>, p: Program)
    requires |p| == |t| == |dirty| && forall f | 0 <= f < |t| :: dirty[f] || t[f] == None
    ensures Rendered(m, t, dirty, p)
  {
  }

  lemma EndsConsistent(m: Module, t: Table, needed: seq<bool>, d: seq<bool>, p: Program)
    requires Good(Arity(m), t, needed, d) && Rendered(m, t, d, p) && forall f | 0 <= f < |d| :: !d[f]
    ensures Consistent(m, t, p)
  {
    hide Needed;
    GoodArity(m, t, needed, d);
  }

  /** Residualize a whole program. It always ends, and always with a consistent program: whatever is
      chosen of leaders, headers and embedding, and however the calls left depend on the facts. The facts are
      those that the calls left on the way give. */
  method ResidualizeAll(m: Module, ghost depths: Depths, named: seq<nat>, plan: nat -> Plan)
    returns (facts: array<Option<seq<Fact>>>, program: array<Option<Residual>>, ghost reported: seq<Call>)
    requires Checked(m, depths) && forall k | 0 <= k < |named| :: named[k] < |m.functions|
    ensures Consistent(m, facts[..], program[..])
    ensures forall f | f in Roots(|m.functions|, named) :: AllUnknown(facts[..], f)
    ensures Told(Arity(m), Roots(|m.functions|, named), BySpecializing(m), reported, facts[..])
  {
    hide *;
    var arity := Arity(m);
    ArityIs(m);
    var needed, dirty;
    facts, needed, dirty := Prepare(arity, named);
    program := new Option<Residual>[|m.functions|](_ => None);
    ghost var first, roots := facts[..], Roots(|m.functions|, named);
    StartsRendered(m, first, dirty[..], program[..]);
    GrowsSelf(first);
    reported := [];
    ToldNone(arity, roots, BySpecializing(m));
    while true
      invariant Good(arity, facts[..], needed[..], dirty[..])
      invariant Told(arity, roots, BySpecializing(m), reported, facts[..])
      invariant Rendered(m, facts[..], dirty[..], program[..]) && Grows(first, facts[..])
      decreases RoomLeft(arity, facts[..]), Marked(dirty[..])
    {
      var i := FirstDirty(dirty);
      if i == dirty.Length {
        break;
      }
      ghost var t, needed0, d := facts[..], needed[..], dirty[..];
      reported := Renew(m, depths, plan(i), facts, needed, dirty, program, i, roots, reported);
      UpdatesGrows(t, facts[..], d[i := false], dirty[..]);
      GrowsTrans(first, t, facts[..]);
      Facts.Progress(arity, t, facts[..], needed0, needed[..], d, dirty[..], i);
    }
    RootsStay(arity, named, first, facts[..]);
    EndsConsistent(m, facts[..], needed[..], dirty[..], program[..]);
  }

  lemma ArityIs(m: Module)
    ensures |Arity(m)| == |m.functions|
  {
  }

  /** A function that is entered from outside means what its bytecode means, for every argument list of
      the right length. */
  lemma RootsKeepMeaning(m: Module, t: Table, p: Program, g: nat, arguments: seq<Cell>, o: Ending)
    requires Consistent(m, t, p) && AllUnknown(t, g) && g < |m.functions| && |arguments| == m.functions[g].arguments
    ensures ResidualMeans(p, g, arguments, o) <==> ByteMeans(m, g, arguments, o)
  {
    hide Needed, ResidualMeans, ByteMeans;
    assert Described(t, Activation(g, arguments));
    MeaningPreserved(m, t, p, g, arguments, o);
  }

  // ----- without facts -----

  /** Nothing is assumed of any argument. */
  function AllOpen(m: Module): (t: Table)
    ensures |t| == |m.functions|
  {
    seq(|m.functions|, (f: nat) requires f < |m.functions| => Some(seq(m.functions[f].arguments, (i: nat) => Unknown)))
  }

  lemma OpenCovers(m: Module, f: nat, r: Residual)
    requires f < |m.functions| && Faithful(m, f, AllOpen(m)[f], r)
    ensures AllCovered(AllOpen(m), r.calls)
  {
    hide Faithful;
    FaithfulCalls(m, f, AllOpen(m)[f], r);
    forall k | 0 <= k < |r.calls| ensures Covered(AllOpen(m), r.calls[k]) {
      CallAt(m, r.calls, k);
    }
  }

  lemma OpenArity(m: Module)
    ensures forall f | 0 <= f < |m.functions| ::
      AllOpen(m)[f].Some? && |AllOpen(m)[f].value| == m.functions[f].arguments
  {
  }

  ghost predicate FaithfulUpTo(m: Module, t: Table, p: Program, n: nat) {
    && |t| == |p| == |m.functions| && n <= |p|
    && forall f | 0 <= f < n :: p[f].Some? && Faithful(m, f, t[f], p[f].value)
  }

  lemma FaithfulMore(m: Module, t: Table, p: Program, n: nat, r: Residual)
    requires FaithfulUpTo(m, t, p, n) && n < |p| && Faithful(m, n, t[n], r)
    ensures FaithfulUpTo(m, t, p[n := Some(r)], n + 1)
  {
    hide Faithful;
  }

  lemma EachConsistent(m: Module, p: Program)
    requires FaithfulUpTo(m, AllOpen(m), p, |m.functions|)
    ensures Consistent(m, AllOpen(m), p)
  {
    hide Faithful, AllOpen, Covered, Needed;
    OpenArity(m);
    forall f | 0 <= f < |p| ensures Needed(m, AllOpen(m), p, f) {
      OpenCovers(m, f, p[f].value);
      NeededNow(m, AllOpen(m), p, f, p[f].value);
    }
  }

  /** Residualize every function once with nothing assumed of its arguments, as happens when no facts are
      given. */
  method ResidualizeEach(m: Module, ghost depths: Depths, plan: nat -> Plan) returns (program: array<Option<Residual>>)
    requires Checked(m, depths)
    ensures program.Length == |m.functions| && Consistent(m, AllOpen(m), program[..])
  {
    hide *;
    var t := AllOpen(m);
    OpenArity(m);
    program := new Option<Residual>[|m.functions|](_ => None);
    NoneFaithful(m, program[..]);
    for f := 0 to |m.functions|
      invariant FaithfulUpTo(m, t, program[..], f)
    {
      ghost var p := program[..];
      var chosen := plan(f);
      var _, r := Specialize(m, depths, chosen.leader, chosen.header, chosen.eligible, chosen.hidden, t, f);
      FaithfulMore(m, t, p, f, r);
      program[f] := Some(r);
      assert program[..] == p[f := Some(r)];
    }
    EachConsistent(m, program[..]);
  }

  lemma NoneFaithful(m: Module, p: Program)
    requires |p| == |m.functions|
    ensures FaithfulUpTo(m, AllOpen(m), p, 0)
  {
    hide Faithful;
  }

  /** Then every function means what its bytecode means, for every argument list of the right length. */
  lemma EachKeepsMeaning(m: Module, p: Program, g: nat, arguments: seq<Cell>, o: Ending)
    requires Consistent(m, AllOpen(m), p) && g < |m.functions| && |arguments| == m.functions[g].arguments
    ensures ResidualMeans(p, g, arguments, o) <==> ByteMeans(m, g, arguments, o)
  {
    hide Consistent, ResidualMeans, ByteMeans;
    RootsKeepMeaning(m, AllOpen(m), p, g, arguments, o);
  }
}
