/** Argument facts carried along residual calls to a fixpoint. */
module Facts {
  import opened Words

  datatype Fact = Unreached | Constant(value: Cell) | Unknown

  predicate Leq(a: Fact, b: Fact) {
    a == Unreached || b == Unknown || a == b
  }

  /** What a call adds to the fact already recorded for one argument. */
  function Join(known: Fact, incoming: Fact): Fact {
    match known
    case Unreached => incoming
    case Constant(k) =>
      if incoming == Unknown || (incoming.Constant? && incoming.value != k) then Unknown else known
    case Unknown => Unknown
  }

  function Height(a: Fact): nat {
    match a
    case Unreached => 2
    case Constant(_) => 1
    case Unknown => 0
  }

  /** A join is the least upper bound, and leaves the kind alone only when it changes nothing. */
  lemma JoinLeast(known: Fact, incoming: Fact, bound: Fact)
    ensures Leq(known, Join(known, incoming)) && Leq(incoming, Join(known, incoming))
    ensures Leq(known, bound) && Leq(incoming, bound) <==> Leq(Join(known, incoming), bound)
    ensures Height(Join(known, incoming)) == Height(known) <==> Join(known, incoming) == known
  {
  }

  predicate Describes(a: Fact, v: Cell) {
    a == Unknown || a == Constant(v)
  }

  predicate DescribesAll(facts: seq<Fact>, values: seq<Cell>) {
    |facts| == |values| && forall i | 0 <= i < |facts| :: Describes(facts[i], values[i])
  }

  predicate LeqAll(a: seq<Fact>, b: seq<Fact>) {
    |a| == |b| && forall i | 0 <= i < |a| :: Leq(a[i], b[i])
  }

  function Heights(s: seq<Fact>): nat {
    if s == [] then 0 else Height(s[0]) + Heights(s[1..])
  }

  lemma {:induction false} HeightsDrop(a: seq<Fact>, b: seq<Fact>)
    requires LeqAll(a, b)
    ensures Heights(b) <= Heights(a) && (a != b ==> Heights(b) < Heights(a))
  {
    if a != [] {
      HeightsDrop(a[1..], b[1..]);
      assert a == [a[0]] + a[1..] && b == [b[0]] + b[1..];
    }
  }

  // ----- the table of facts -----

  type Table = seq<Option<seq<Fact>>>

  datatype Call = Call(target: nat, facts: seq<Fact>)

  predicate Arities(arity: seq<nat>, t: Table) {
    |t| == |arity| && forall f | 0 <= f < |t| && t[f].Some? :: |t[f].value| == arity[f]
  }

  predicate Rises(a: Option<seq<Fact>>, b: Option<seq<Fact>>) {
    a.Some? ==> b.Some? && LeqAll(a.value, b.value)
  }

  predicate Grows(a: Table, b: Table) {
    |a| == |b| && forall f | 0 <= f < |a| :: Rises(a[f], b[f])
  }

  predicate Covered(t: Table, c: Call) {
    c.target < |t| && t[c.target].Some? && LeqAll(c.facts, t[c.target].value)
  }

  /** The residual calls made by functions: any function of the facts assumed, monotone or not. */
  type Residualizer = (nat, seq<Fact>) -> seq<Call>

  predicate Settled(residual: Residualizer, t: Table, f: nat)
    requires f < |t|
  {
    t[f].Some? ==> forall c | c in residual(f, t[f].value) :: Covered(t, c)
  }

  lemma GrowsTrans(a: Table, b: Table, c: Table)
    requires Grows(a, b) && Grows(b, c)
    ensures Grows(a, c)
  {
    forall f | 0 <= f < |a| ensures Rises(a[f], c[f]) {
      assert Rises(a[f], b[f]) && Rises(b[f], c[f]);
    }
  }

  lemma CoveredStays(a: Table, b: Table, c: Call)
    requires Covered(a, c) && Grows(a, b)
    ensures Covered(b, c)
  {
    assert Rises(a[c.target], b[c.target]);
  }

  function Room(n: nat, entry: Option<seq<Fact>>): nat {
    if entry.Some? then Heights(entry.value) else 2 * n + 1
  }

  function TotalRoom(arity: seq<nat>, t: Table): nat
    requires |t| == |arity|
  {
    if t == [] then 0 else Room(arity[0], t[0]) + TotalRoom(arity[1..], t[1..])
  }

  lemma {:induction false} HeightsBound(s: seq<Fact>)
    ensures Heights(s) <= 2 * |s|
  {
    if s != [] {
      HeightsBound(s[1..]);
    }
  }

  lemma {:induction false} RoomDrops(arity: seq<nat>, a: Table, b: Table)
    requires Arities(arity, a) && Arities(arity, b) && Grows(a, b)
    ensures TotalRoom(arity, b) <= TotalRoom(arity, a)
    ensures a != b ==> TotalRoom(arity, b) < TotalRoom(arity, a)
  {
    if a != [] {
      assert Rises(a[0], b[0]);
      assert Grows(a[1..], b[1..]) by {
        forall f | 0 <= f < |a| - 1 ensures Rises(a[1..][f], b[1..][f]) {
          assert Rises(a[f + 1], b[f + 1]);
        }
      }
      RoomDrops(arity[1..], a[1..], b[1..]);
      if a[0].Some? {
        HeightsDrop(a[0].value, b[0].value);
      } else if b[0].Some? {
        HeightsBound(b[0].value);
      }
      assert a == [a[0]] + a[1..] && b == [b[0]] + b[1..];
    }
  }

  function Marked(s: seq<bool>): nat {
    if s == [] then 0 else Marked(s[1..]) + if s[0] then 1 else 0
  }

  lemma {:induction false} MarkedClears(s: seq<bool>, i: nat)
    requires i < |s| && s[i]
    ensures Marked(s[i := false]) < Marked(s)
  {
    if i > 0 {
      assert s[i := false][1..] == s[1..][i - 1 := false];
      MarkedClears(s[1..], i - 1);
    } else {
      assert s[i := false][1..] == s[1..];
    }
  }

  /** Entries change only upwards, and exactly the changed ones become dirty. */
  ghost predicate Updates(before: Table, after: Table, dirty: seq<bool>, dirty': seq<bool>) {
    && Grows(before, after) && |dirty| == |dirty'| == |before|
    && forall f | 0 <= f < |before| :: dirty'[f] <==> dirty[f] || after[f] != before[f]
  }

  lemma UpdatesTrans(a: Table, b: Table, c: Table, d: seq<bool>, d': seq<bool>, d'': seq<bool>)
    requires Updates(a, b, d, d') && Updates(b, c, d', d'')
    ensures Updates(a, c, d, d'')
  {
    GrowsTrans(a, b, c);
    forall f | 0 <= f < |a| ensures d''[f] <==> d[f] || c[f] != a[f] {
      assert Rises(a[f], b[f]) && Rises(b[f], c[f]);
      NoReturn(a[f], b[f], c[f]);
    }
  }

  /** An entry that has risen does not come back. */
  lemma NoReturn(a: Option<seq<Fact>>, b: Option<seq<Fact>>, c: Option<seq<Fact>>)
    requires Rises(a, b) && Rises(b, c)
    ensures a == c ==> b == a
  {
    if a.Some? && a == c {
      HeightsDrop(a.value, b.value);
      HeightsDrop(b.value, c.value);
    }
  }

  ghost predicate Good(arity: seq<nat>, facts: seq<Option<seq<Fact>>>, needed: seq<bool>, dirty: seq<bool>) {
    && Arities(arity, facts) && |needed| == |dirty| == |facts|
    && forall f | 0 <= f < |facts| :: (needed[f] <==> facts[f].Some?) && (dirty[f] ==> needed[f])
  }

  // ----- where facts come from -----

  function Unknowns(n: nat): (r: seq<Fact>)
    ensures |r| == n
  {
    seq(n, _ => Unknown)
  }

  /** What is recorded of an entry; a new one is reached by nothing yet. */
  function EntryFacts(entry: Option<seq<Fact>>, n: nat): seq<Fact> {
    if entry.Some? then entry.value else seq(n, _ => Unreached)
  }

  /** The table with one call's facts joined into those of its target. */
  function AfterCall(arity: seq<nat>, t: Table, c: Call): (r: Table)
    requires |t| == |arity|
    ensures |r| == |t|
  {
    if c.target < |t| && |EntryFacts(t[c.target], arity[c.target])| == |c.facts| then
      t[c.target := Some(JoinUpTo(EntryFacts(t[c.target], arity[c.target]), c.facts, |c.facts|))]
    else t
  }

  /** Nothing is known of the arguments of roots, and nothing else is reached. */
  function Started(arity: seq<nat>, roots: seq<nat>): (t: Table)
    ensures |t| == |arity|
  {
    seq(|arity|, (f: nat) requires f < |arity| => if f in roots then Some(Unknowns(arity[f])) else None)
  }

  /** The table that the reported calls give, joined in this order. */
  function TableOf(arity: seq<nat>, roots: seq<nat>, reported: seq<Call>): (t: Table)
    ensures |t| == |arity|
  {
    if reported == [] then Started(arity, roots)
    else AfterCall(arity, TableOf(arity, roots, reported[..|reported| - 1]), reported[|reported| - 1])
  }

  lemma TableMore(arity: seq<nat>, roots: seq<nat>, reported: seq<Call>, c: Call)
    ensures TableOf(arity, roots, reported + [c]) == AfterCall(arity, TableOf(arity, roots, reported), c)
  {
    hide AfterCall, Started;
    assert (reported + [c])[..|reported|] == reported;
  }

  /** Which calls may be reported by a function under given facts. */
  type Reporter = (nat, Option<seq<Fact>>, Call) -> bool

  /** The call was reported by some function under the facts recorded for it by then. */
  ghost predicate ReportedAt(arity: seq<nat>, roots: seq<nat>, who: Reporter, reported: seq<Call>, k: nat)
    requires k < |reported|
  {
    exists f: nat, j: nat :: f < |arity| && j <= k && who(f, TableOf(arity, roots, reported[..j])[f], reported[k])
  }

  ghost predicate AllReported(arity: seq<nat>, roots: seq<nat>, who: Reporter, reported: seq<Call>) {
    forall k | 0 <= k < |reported| :: ReportedAt(arity, roots, who, reported, k)
  }

  lemma ReportedMore(arity: seq<nat>, roots: seq<nat>, who: Reporter, reported: seq<Call>, c: Call, f: nat, j: nat)
    requires AllReported(arity, roots, who, reported) && f < |arity| && j <= |reported|
    requires who(f, TableOf(arity, roots, reported[..j])[f], c)
    ensures AllReported(arity, roots, who, reported + [c])
  {
    hide TableOf;
    var more := reported + [c];
    forall k | 0 <= k < |more| ensures ReportedAt(arity, roots, who, more, k) {
      if k < |reported| {
        assert ReportedAt(arity, roots, who, reported, k);
        var g: nat, i: nat :| g < |arity| && i <= k && who(g, TableOf(arity, roots, reported[..i])[g], reported[k]);
        assert more[..i] == reported[..i];
      } else {
        assert more[..j] == reported[..j];
      }
    }
  }

  lemma ReportedNone(arity: seq<nat>, roots: seq<nat>, who: Reporter)
    ensures AllReported(arity, roots, who, []) && TableOf(arity, roots, []) == Started(arity, roots)
  {
  }

  // ----- what the reported calls give -----

  lemma {:induction false} TableArities(arity: seq<nat>, roots: seq<nat>, reported: seq<Call>)
    ensures Arities(arity, TableOf(arity, roots, reported))
  {
    if reported != [] {
      TableArities(arity, roots, reported[..|reported| - 1]);
    }
  }

  /** A bound of all facts reported for an argument. */
  predicate Bounded(reported: seq<Call>, f: nat, i: nat, bound: Fact) {
    forall k | 0 <= k < |reported| && reported[k].target == f && i < |reported[k].facts| ::
      Leq(reported[k].facts[i], bound)
  }

  /** Some call to the function, with its number of arguments, has been reported. */
  predicate SomeCall(arity: seq<nat>, reported: seq<Call>, f: nat)
    requires f < |arity|
  {
    exists k | 0 <= k < |reported| :: reported[k].target == f && |reported[k].facts| == arity[f]
  }

  predicate SameArity(arity: seq<nat>, reported: seq<Call>) {
    forall k | 0 <= k < |reported| ::
      reported[k].target < |arity| && |reported[k].facts| == arity[reported[k].target]
  }

  lemma SomeCallMore(arity: seq<nat>, reported: seq<Call>, f: nat)
    requires f < |arity| && reported != []
    ensures var c := reported[|reported| - 1];
      SomeCall(arity, reported, f) <==>
        SomeCall(arity, reported[..|reported| - 1], f) || (c.target == f && |c.facts| == arity[f])
  {
    var n := |reported| - 1;
    if SomeCall(arity, reported, f) && !(reported[n].target == f && |reported[n].facts| == arity[f]) {
      var k :| 0 <= k < |reported| && reported[k].target == f && |reported[k].facts| == arity[f];
      assert reported[..n][k] == reported[k];
    }
    if SomeCall(arity, reported[..n], f) {
      var k :| 0 <= k < n && reported[..n][k].target == f && |reported[..n][k].facts| == arity[f];
      assert reported[k].target == f;
    }
  }

  lemma BoundedMore(reported: seq<Call>, f: nat, i: nat, bound: Fact)
    requires reported != []
    ensures var c := reported[|reported| - 1];
      Bounded(reported, f, i, bound) <==>
        Bounded(reported[..|reported| - 1], f, i, bound) && (c.target == f && i < |c.facts| ==> Leq(c.facts[i], bound))
  {
    var n := |reported| - 1;
    assert forall k | 0 <= k < n :: reported[..n][k] == reported[k];
  }

  lemma NotCalled(arity: seq<nat>, reported: seq<Call>, f: nat, i: nat, bound: Fact)
    requires f < |arity| && SameArity(arity, reported) && !SomeCall(arity, reported, f)
    ensures Bounded(reported, f, i, bound)
  {
  }

  lemma NothingCalled(arity: seq<nat>, f: nat)
    requires f < |arity|
    ensures !SomeCall(arity, [], f)
  {
  }

  lemma SameArityLess(arity: seq<nat>, reported: seq<Call>)
    requires SameArity(arity, reported) && reported != []
    ensures SameArity(arity, reported[..|reported| - 1])
  {
  }

  /** A function that is no root is described exactly when some call to it was reported, and each fact of
      it is the least upper bound of the facts reported for that argument. */
  lemma {:induction false} ReportedJoin(arity: seq<nat>, roots: seq<nat>, reported: seq<Call>, f: nat, i: nat,
    bound: Fact)
    requires f < |arity| && f !in roots && SameArity(arity, reported)
    ensures TableOf(arity, roots, reported)[f].Some? <==> SomeCall(arity, reported, f)
    ensures var entry := TableOf(arity, roots, reported)[f];
      entry.Some? && i < arity[f] ==>
        |entry.value| == arity[f] && (Leq(entry.value[i], bound) <==> Bounded(reported, f, i, bound))
  {
    hide Bounded, SomeCall, SameArity;
    TableArities(arity, roots, reported);
    if reported == [] {
      NothingCalled(arity, f);
    } else {
      var rest, c := reported[..|reported| - 1], reported[|reported| - 1];
      LastCall(arity, reported);
      SameArityLess(arity, reported);
      ReportedJoin(arity, roots, rest, f, i, bound);
      TableArities(arity, roots, rest);
      SomeCallMore(arity, reported, f);
      BoundedMore(reported, f, i, bound);
      if !SomeCall(arity, rest, f) {
        NotCalled(arity, rest, f, i, bound);
      }
      if c.target == f && i < arity[f] {
        JoinLeast(EntryFacts(TableOf(arity, roots, rest)[f], arity[f])[i], c.facts[i], bound);
      }
    }
  }

  lemma LastCall(arity: seq<nat>, reported: seq<Call>)
    requires SameArity(arity, reported) && reported != []
    ensures var c := reported[|reported| - 1]; c.target < |arity| && |c.facts| == arity[c.target]
  {
  }

  /** An argument for which every call reported the same constant is that constant. */
  lemma ConstantCarried(arity: seq<nat>, roots: seq<nat>, reported: seq<Call>, f: nat, i: nat, v: Cell)
    requires f < |arity| && i < arity[f] && f !in roots && SameArity(arity, reported)
    requires forall k | 0 <= k < |reported| && reported[k].target == f && i < |reported[k].facts| ::
      reported[k].facts[i] == Constant(v)
    ensures var entry := TableOf(arity, roots, reported)[f];
      entry.Some? ==> |entry.value| == arity[f] && entry.value[i] == Constant(v)
  {
    var entry := TableOf(arity, roots, reported)[f];
    if entry.Some? {
      ReportedJoin(arity, roots, reported, f, i, Constant(v));
      ReportedJoin(arity, roots, reported, f, i, Unreached);
    }
  }

  // ----- the least table -----

  /** Under facts that say less, a function reports calls that say less. */
  ghost predicate Monotone(residual: Residualizer) {
    forall f: nat, a: seq<Fact>, b: seq<Fact>, c | LeqAll(a, b) && c in residual(f, a) ::
      Above(residual(f, b), c)
  }

  ghost predicate Above(calls: seq<Call>, c: Call) {
    exists d :: d in calls && d.target == c.target && LeqAll(c.facts, d.facts)
  }

  /** The calls a function reports. */
  ghost function ByResidual(residual: Residualizer): Reporter {
    (f: nat, entry: Option<seq<Fact>>, c: Call) => entry.Some? && c in residual(f, entry.value)
  }

  lemma LeqTrans(a: seq<Fact>, b: seq<Fact>, c: seq<Fact>)
    requires LeqAll(a, b) && LeqAll(b, c)
    ensures LeqAll(a, c)
  {
  }

  lemma JoinBelow(known: seq<Fact>, incoming: seq<Fact>, bound: seq<Fact>)
    requires LeqAll(known, bound) && LeqAll(incoming, bound)
    ensures LeqAll(JoinUpTo(known, incoming, |incoming|), bound)
  {
    forall i | 0 <= i < |known| ensures Leq(JoinUpTo(known, incoming, |incoming|)[i], bound[i]) {
      JoinLeast(known[i], incoming[i], bound[i]);
    }
  }

  lemma AfterBelow(arity: seq<nat>, t: Table, c: Call, u: Table)
    requires |t| == |arity| && Arities(arity, u) && Grows(t, u) && Covered(u, c)
    ensures Grows(AfterCall(arity, t, c), u)
  {
    hide JoinUpTo;
    var f := c.target;
    assert Rises(t[f], u[f]);
    if |EntryFacts(t[f], arity[f])| == |c.facts| {
      assert LeqAll(EntryFacts(t[f], arity[f]), u[f].value);
      JoinBelow(EntryFacts(t[f], arity[f]), c.facts, u[f].value);
    }
    forall g | 0 <= g < |t| ensures Rises(AfterCall(arity, t, c)[g], u[g]) {
      assert Rises(t[g], u[g]);
    }
  }

  /** A call reported by a monotone residualizer under facts below a fixpoint is covered there. */
  lemma ReportedCovered(residual: Residualizer, t: Table, u: Table, f: nat, c: Call)
    requires Monotone(residual) && Grows(t, u) && f < |t| && t[f].Some? && c in residual(f, t[f].value)
    requires Settled(residual, u, f)
    ensures Covered(u, c)
  {
    assert Rises(t[f], u[f]);
    assert Above(residual(f, u[f].value), c);
    var d :| d in residual(f, u[f].value) && d.target == c.target && LeqAll(c.facts, d.facts);
    LeqTrans(c.facts, d.facts, u[c.target].value);
  }

  lemma StartedBelow(arity: seq<nat>, named: seq<nat>, residual: Residualizer, u: Table)
    requires Fixpoint(arity, named, residual, u)
    ensures Grows(Started(arity, Roots(|arity|, named)), u)
  {
    hide Roots, Settled;
    var t := Started(arity, Roots(|arity|, named));
    forall f | 0 <= f < |t| ensures Rises(t[f], u[f]) {
      if t[f].Some? {
        assert AllUnknown(u, f);
      }
    }
  }

  /** For a monotone residualizer, what the reported calls give is below every fixpoint. */
  lemma {:induction false} LeastFixpoint(arity: seq<nat>, named: seq<nat>, residual: Residualizer, reported: seq<Call>,
    n: nat, u: Table)
    requires Monotone(residual) && Fixpoint(arity, named, residual, u) && n <= |reported|
    requires AllReported(arity, Roots(|arity|, named), ByResidual(residual), reported)
    ensures Grows(TableOf(arity, Roots(|arity|, named), reported[..n]), u)
  {
    hide Roots, Monotone, Grows, Covered, Settled, AfterCall, Started;
    var roots := Roots(|arity|, named);
    if n == 0 {
      ReportedNone(arity, roots, ByResidual(residual));
      StartedBelow(arity, named, residual, u);
    } else {
      var c := reported[n - 1];
      assert ReportedAt(arity, roots, ByResidual(residual), reported, n - 1);
      var f: nat, j: nat :| f < |arity| && j <= n - 1
        && ByResidual(residual)(f, TableOf(arity, roots, reported[..j])[f], c);
      LeastFixpoint(arity, named, residual, reported, j, u);
      LeastFixpoint(arity, named, residual, reported, n - 1, u);
      ReportedCovered(residual, TableOf(arity, roots, reported[..j]), u, f, c);
      assert reported[..n] == reported[..n - 1] + [c];
      TableMore(arity, roots, reported[..n - 1], c);
      AfterBelow(arity, TableOf(arity, roots, reported[..n - 1]), c, u);
    }
  }

  // ----- the two table operations -----

  method Activate(arity: seq<nat>, facts: array<Option<seq<Fact>>>, needed: array<bool>, dirty: array<bool>,
    f: nat, unknown: bool)
    requires Good(arity, facts[..], needed[..], dirty[..]) && f < |arity| && needed != dirty
    modifies facts, needed, dirty
    ensures Good(arity, facts[..], needed[..], dirty[..])
    ensures Updates(old(facts[..]), facts[..], old(dirty[..]), dirty[..])
    ensures facts[f].Some? && (unknown ==> forall i | 0 <= i < arity[f] :: facts[f].value[i] == Unknown)
    ensures !unknown && old(facts[f]).Some? ==> facts[f] == old(facts[f])
    ensures !unknown && old(facts[f]).None? ==> facts[f] == Some(EntryFacts(None, arity[f]))
    ensures forall u | 0 <= u < |arity| && u != f :: facts[u] == old(facts[u])
  {
    ghost var before, marks := facts[..], dirty[..];
    if facts[f] == None {
      facts[f] := Some(seq(arity[f], _ => Unreached));
      needed[f] := true;
      dirty[f] := true;
    }
    assert Updates(before, facts[..], marks, dirty[..]);
    if unknown {
      ghost var entry := facts[f].value;
      for i := 0 to arity[f]
        invariant Good(arity, facts[..], needed[..], dirty[..])
        invariant facts[f].Some? && forall j | 0 <= j < arity[f] ::
          facts[f].value[j] == if j < i then Unknown else entry[j]
        invariant forall u | 0 <= u < |arity| && u != f :: facts[u] == before[u] && dirty[u] == marks[u]
        invariant dirty[f] <==> marks[f] || facts[f] != before[f]
      {
        if facts[f].value[i] != Unknown {
          facts[f] := Some(facts[f].value[i := Unknown]);
          dirty[f] := true;
        }
      }
    }
  }

  function JoinUpTo(known: seq<Fact>, incoming: seq<Fact>, n: nat): seq<Fact>
    requires |known| == |incoming|
  {
    seq(|known|, (i: nat) requires i < |known| => if i < n then Join(known[i], incoming[i]) else known[i])
  }

  predicate SameKind(a: Fact, b: Fact) {
    a.Unreached? == b.Unreached? && a.Constant? == b.Constant?
  }

  lemma JoinNone(known: seq<Fact>, incoming: seq<Fact>)
    requires |known| == |incoming|
    ensures JoinUpTo(known, incoming, 0) == known
  {
  }

  lemma JoinNext(known: seq<Fact>, incoming: seq<Fact>, i: nat)
    requires i < |known| == |incoming|
    ensures var now, next := JoinUpTo(known, incoming, i), JoinUpTo(known, incoming, i + 1);
      && next == now[i := Join(now[i], incoming[i])]
      && (next != known <==> now != known || !SameKind(now[i], next[i]))
  {
    var now, next := JoinUpTo(known, incoming, i), JoinUpTo(known, incoming, i + 1);
    assert now[i] == known[i];
    assert next == now[i := Join(now[i], incoming[i])];
    if now != known {
      var j :| 0 <= j < |known| && now[j] != known[j];
      assert next[j] != known[j];
    }
  }

  lemma JoinedRises(known: seq<Fact>, incoming: seq<Fact>)
    requires |known| == |incoming|
    ensures LeqAll(known, JoinUpTo(known, incoming, |known|)) && LeqAll(incoming, JoinUpTo(known, incoming, |known|))
  {
  }

  /** Join facts into one entry; the entry becomes dirty exactly when some fact changes kind. */
  method JoinInto(facts: array<Option<seq<Fact>>>, dirty: array<bool>, f: nat, incoming: seq<Fact>)
    requires f < facts.Length == dirty.Length && facts[f].Some? && |facts[f].value| == |incoming|
    modifies facts, dirty
    ensures facts[..] == old(facts[..])[f := Some(JoinUpTo(old(facts[f].value), incoming, |incoming|))]
    ensures dirty[..] == old(dirty[..])[f := old(dirty[f]) || facts[f] != old(facts[f])]
  {
    ghost var start, mark := facts[f].value, dirty[f];
    JoinNone(start, incoming);
    hide JoinUpTo;
    for i := 0 to |incoming|
      invariant facts[f] == Some(JoinUpTo(start, incoming, i))
      invariant forall u | 0 <= u < facts.Length && u != f :: facts[u] == old(facts[u]) && dirty[u] == old(dirty[u])
      invariant dirty[f] <==> mark || facts[f].value != start
    {
      var header := facts[f].value[i];
      var joined := Join(header, incoming[i]);
      JoinNext(start, incoming, i);
      facts[f] := Some(facts[f].value[i := joined]);
      if !SameKind(joined, header) {
        dirty[f] := true;
      }
    }
  }

  lemma KnownArity(arity: seq<nat>, t: Table, needed: seq<bool>, dirty: seq<bool>, f: nat)
    requires Good(arity, t, needed, dirty) && f < |arity|
    ensures |EntryFacts(t[f], arity[f])| == arity[f]
  {
  }

  /** Join one residual call's facts into its target's. */
  method JoinCall(arity: seq<nat>, facts: array<Option<seq<Fact>>>, needed: array<bool>, dirty: array<bool>, call: Call)
    returns (ok: bool)
    requires Good(arity, facts[..], needed[..], dirty[..]) && needed != dirty && call.target < |arity|
    modifies facts, needed, dirty
    ensures ok <==> |call.facts| == arity[call.target]
    ensures Good(arity, facts[..], needed[..], dirty[..])
    ensures facts[..] == AfterCall(arity, old(facts[..]), call)
    ensures Updates(old(facts[..]), facts[..], old(dirty[..]), dirty[..])
    ensures ok ==> Covered(facts[..], call)
  {
    var f := call.target;
    KnownArity(arity, facts[..], needed[..], dirty[..], f);
    if |call.facts| != arity[f] {
      return false;
    }
    ghost var before, marks := facts[..], dirty[..];
    Activate(arity, facts, needed, dirty, f, false);
    ghost var known, marked := facts[..], dirty[..];
    JoinInto(facts, dirty, f, call.facts);
    JoinedRises(known[f].value, call.facts);
    UpdatesTrans(before, known, facts[..], marks, marked, dirty[..]);
    ok := true;
  }

  // ----- the fixpoint -----

  ghost predicate AllUnknown(t: Table, f: nat)
  {
    f < |t| && t[f].Some? && forall i | 0 <= i < |t[f].value| :: t[f].value[i] == Unknown
  }

  lemma AllUnknownStays(a: Table, b: Table, f: nat)
    requires AllUnknown(a, f) && Grows(a, b)
    ensures AllUnknown(b, f)
  {
    assert Rises(a[f], b[f]);
  }

  /** Every call the residualizer may report names a function. */
  ghost predicate TargetsExist(residual: Residualizer, n: nat) {
    forall f: nat, facts, c | c in residual(f, facts) :: c.target < n
  }

  ghost predicate WrongArity(arity: seq<nat>, residual: Residualizer) {
    exists f: nat, facts, c :: c in residual(f, facts) && c.target < |arity| && |c.facts| != arity[c.target]
  }

  ghost predicate CleanSettled(residual: Residualizer, t: Table, dirty: seq<bool>) {
    |dirty| == |t| && forall f | 0 <= f < |t| && !dirty[f] :: Settled(residual, t, f)
  }

  ghost predicate OthersSettled(residual: Residualizer, t: Table, dirty: seq<bool>, f: nat) {
    |dirty| == |t| && forall u | 0 <= u < |t| && !dirty[u] && u != f :: Settled(residual, t, u)
  }

  /** A dirty entry is about to be refreshed. */
  lemma Cleared(arity: seq<nat>, residual: Residualizer, t: Table, needed: seq<bool>, dirty: seq<bool>, f: nat)
    requires Good(arity, t, needed, dirty) && CleanSettled(residual, t, dirty) && f < |arity| && dirty[f]
    ensures Good(arity, t, needed, dirty[f := false]) && t[f].Some? && |t| == |dirty| == |needed| == |arity|
    ensures OthersSettled(residual, t, dirty[f := false], f)
    ensures Updates(t, t, dirty[f := false], dirty[f := false])
  {
    hide Settled;
  }

  lemma CoveredNext(a: Table, b: Table, d: seq<bool>, d': seq<bool>, calls: seq<Call>, j: nat)
    requires Updates(a, b, d, d') && j < |calls| && Covered(b, calls[j])
    requires forall k | 0 <= k < j :: Covered(a, calls[k])
    ensures forall k | 0 <= k < j + 1 :: Covered(b, calls[k])
  {
    UpdatesGrows(a, b, d, d');
    hide Updates, Covered, Grows;
    forall k | 0 <= k < j ensures Covered(b, calls[k]) {
      CoveredStays(a, b, calls[k]);
    }
  }

  lemma Misreported(arity: seq<nat>, residual: Residualizer, f: nat, facts: seq<Fact>, c: Call)
    requires c in residual(f, facts) && c.target < |arity| && |c.facts| != arity[c.target]
    ensures WrongArity(arity, residual)
  {
  }

  lemma TargetIn(residual: Residualizer, n: nat, f: nat, facts: seq<Fact>, c: Call)
    requires TargetsExist(residual, n) && c in residual(f, facts)
    ensures c.target < n
  {
  }

  lemma ReportsIts(residual: Residualizer, f: nat, entry: Option<seq<Fact>>, c: Call)
    requires entry.Some? && c in residual(f, entry.value)
    ensures ByResidual(residual)(f, entry, c)
  {
  }

  /** Unchanged clean entries stay settled while the table grows, and the refreshed one is settled
      unless its own facts have risen meanwhile. */
  lemma SettledStays(residual: Residualizer, a: Table, b: Table, dirty: seq<bool>, dirty': seq<bool>, f: nat)
    requires Updates(a, b, dirty, dirty') && f < |a| && a[f].Some? && OthersSettled(residual, a, dirty, f)
    requires forall c | c in residual(f, a[f].value) :: Covered(b, c)
    ensures CleanSettled(residual, b, dirty')
  {
    forall u | 0 <= u < |b| && !dirty'[u] ensures Settled(residual, b, u) {
      if u != f {
        assert Settled(residual, a, u);
        if b[u].Some? {
          forall c | c in residual(u, b[u].value) ensures Covered(b, c) {
            CoveredStays(a, b, c);
          }
        }
      }
    }
  }

  /** The table is what the reported calls give, each of which was reported when its turn came, with the
      right number of arguments. */
  ghost predicate Told(arity: seq<nat>, roots: seq<nat>, who: Reporter, reported: seq<Call>, t: Table) {
    t == TableOf(arity, roots, reported) && AllReported(arity, roots, who, reported) && SameArity(arity, reported)
  }

  lemma ToldTable(arity: seq<nat>, roots: seq<nat>, who: Reporter, reported: seq<Call>, t: Table)
    requires Told(arity, roots, who, reported, t)
    ensures t == TableOf(arity, roots, reported) && |t| == |arity|
  {
  }

  lemma ToldNone(arity: seq<nat>, roots: seq<nat>, who: Reporter)
    ensures Told(arity, roots, who, [], Started(arity, roots))
  {
    ReportedNone(arity, roots, who);
  }

  /** One more call, reported under the facts that were recorded when `first` had been. */
  lemma ToldMore(arity: seq<nat>, roots: seq<nat>, who: Reporter, first: seq<Call>, reported: seq<Call>, t: Table,
    f: nat, c: Call)
    requires Told(arity, roots, who, reported, t) && first <= reported && f < |arity|
    requires who(f, TableOf(arity, roots, first)[f], c) && c.target < |arity| && |c.facts| == arity[c.target]
    ensures Told(arity, roots, who, reported + [c], AfterCall(arity, t, c))
  {
    hide TableOf, AfterCall, AllReported;
    TableMore(arity, roots, reported, c);
    assert reported[..|first|] == first;
    ReportedMore(arity, roots, who, reported, c, f, |first|);
  }

  /** Residualize one dirty function and join the calls it reports. */
  method Refresh(arity: seq<nat>, residual: Residualizer,
    facts: array<Option<seq<Fact>>>, needed: array<bool>, dirty: array<bool>, f: nat,
    ghost roots: seq<nat>, ghost reported: seq<Call>) returns (ok: bool, ghost reported': seq<Call>)
    requires Good(arity, facts[..], needed[..], dirty[..]) && needed != dirty && TargetsExist(residual, |arity|)
    requires f < |arity| && dirty[f] && CleanSettled(residual, facts[..], dirty[..])
    requires Told(arity, roots, ByResidual(residual), reported, facts[..])
    modifies facts, needed, dirty
    ensures ok ==> Told(arity, roots, ByResidual(residual), reported', facts[..])
    ensures Good(arity, facts[..], needed[..], dirty[..]) && Grows(old(facts[..]), facts[..])
    ensures ok ==> CleanSettled(residual, facts[..], dirty[..])
    ensures ok ==> Updates(old(facts[..]), facts[..], old(dirty[..])[f := false], dirty[..])
    ensures !ok ==> WrongArity(arity, residual)
  {
    hide *;
    GoodLengths(arity, facts[..], needed[..], dirty[..]);
    Cleared(arity, residual, facts[..], needed[..], dirty[..], f);
    dirty[f] := false;
    ghost var before, marks := facts[..], dirty[..];
    var assumed := facts[f].value;
    var calls := residual(f, assumed);
    reported' := reported;
    ToldTable(arity, roots, ByResidual(residual), reported, before);
    for j := 0 to |calls|
      invariant Good(arity, facts[..], needed[..], dirty[..])
      invariant Updates(before, facts[..], marks, dirty[..])
      invariant forall k | 0 <= k < j :: Covered(facts[..], calls[k])
      invariant Told(arity, roots, ByResidual(residual), reported', facts[..]) && reported <= reported'
    {
      ghost var t, d := facts[..], dirty[..];
      TargetIn(residual, |arity|, f, assumed, calls[j]);
      ok := JoinCall(arity, facts, needed, dirty, calls[j]);
      UpdatesTrans(before, t, facts[..], marks, d, dirty[..]);
      if !ok {
        Misreported(arity, residual, f, assumed, calls[j]);
        UpdatesGrows(before, facts[..], marks, dirty[..]);
        return;
      }
      ReportsIts(residual, f, before[f], calls[j]);
      ToldMore(arity, roots, ByResidual(residual), reported, reported', t, f, calls[j]);
      reported' := reported' + [calls[j]];
      CoveredNext(t, facts[..], d, dirty[..], calls, j);
    }
    UpdatesGrows(before, facts[..], marks, dirty[..]);
    SettledStays(residual, before, facts[..], marks, dirty[..], f);
    ok := true;
  }

  lemma UpdatesGrows(a: Table, b: Table, d: seq<bool>, d': seq<bool>)
    requires Updates(a, b, d, d')
    ensures Grows(a, b) && |a| == |b| == |d| == |d'|
  {
  }

  /** Make every root fully unknown. */
  method ActivateRoots(arity: seq<nat>, roots: seq<nat>,
    facts: array<Option<seq<Fact>>>, needed: array<bool>, dirty: array<bool>)
    requires Good(arity, facts[..], needed[..], dirty[..]) && needed != dirty
    requires forall k | 0 <= k < |roots| :: roots[k] < |arity|
    modifies facts, needed, dirty
    ensures Good(arity, facts[..], needed[..], dirty[..])
    ensures Updates(old(facts[..]), facts[..], old(dirty[..]), dirty[..])
    ensures forall k | 0 <= k < |roots| :: AllUnknown(facts[..], roots[k])
    ensures forall f | 0 <= f < |arity| && f !in roots :: facts[f] == old(facts[f])
  {
    ghost var before, marks := facts[..], dirty[..];
    GoodLengths(arity, before, needed[..], marks);
    hide Good, Updates, AllUnknown, Arities;
    UpdatesNone(before, marks);
    for k := 0 to |roots|
      invariant Good(arity, facts[..], needed[..], dirty[..])
      invariant Updates(before, facts[..], marks, dirty[..])
      invariant forall j | 0 <= j < k :: AllUnknown(facts[..], roots[j])
      invariant forall f | 0 <= f < |arity| && f !in roots :: facts[f] == before[f]
    {
      ghost var t, d := facts[..], dirty[..];
      Activate(arity, facts, needed, dirty, roots[k], true);
      NowUnknown(arity, facts[..], needed[..], dirty[..], roots[k]);
      UpdatesTrans(before, t, facts[..], marks, d, dirty[..]);
      UpdatesGrows(t, facts[..], d, dirty[..]);
      forall j | 0 <= j < k ensures AllUnknown(facts[..], roots[j]) {
        AllUnknownStays(t, facts[..], roots[j]);
      }
    }
  }

  lemma GoodLengths(arity: seq<nat>, t: Table, needed: seq<bool>, dirty: seq<bool>)
    requires Good(arity, t, needed, dirty)
    ensures |t| == |needed| == |dirty| == |arity|
  {
  }

  /** A table in which just the roots are described. */
  lemma StartedIs(arity: seq<nat>, roots: seq<nat>, t: Table, needed: seq<bool>, dirty: seq<bool>)
    requires Good(arity, t, needed, dirty)
    requires forall k | 0 <= k < |roots| :: AllUnknown(t, roots[k])
    requires forall f | 0 <= f < |arity| && f !in roots :: t[f] == None
    ensures t == Started(arity, roots)
  {
    forall f | 0 <= f < |t| ensures t[f] == Started(arity, roots)[f] {
      if f in roots {
        var k :| 0 <= k < |roots| && roots[k] == f;
        assert AllUnknown(t, roots[k]);
        assert t[f].value == Unknowns(arity[f]);
      }
    }
  }

  lemma UpdatesNone(t: Table, d: seq<bool>)
    requires |t| == |d|
    ensures Updates(t, t, d, d)
  {
  }

  lemma NowUnknown(arity: seq<nat>, t: Table, needed: seq<bool>, dirty: seq<bool>, f: nat)
    requires Good(arity, t, needed, dirty) && f < |arity| && t[f].Some?
    requires forall i | 0 <= i < arity[f] :: t[f].value[i] == Unknown
    ensures AllUnknown(t, f)
  {
  }

  /** The functions assumed to be entered from outside: those exported or named by a relocation,
      or all of them when there are none. */
  function Roots(n: nat, named: seq<nat>): seq<nat> {
    if named != [] then named else seq(n, (f: nat) => f)
  }

  /** Every root is described by unknown facts and every residual call of a described function by
      the facts of its target. */
  ghost predicate Fixpoint(arity: seq<nat>, named: seq<nat>, residual: Residualizer, t: Table) {
    && Arities(arity, t)
    && (forall f | f in Roots(|arity|, named) :: AllUnknown(t, f))
    && (forall f | 0 <= f < |t| :: Settled(residual, t, f))
  }

  lemma StartsClean(residual: Residualizer, t: Table, dirty: seq<bool>)
    requires |t| == |dirty| && forall f | 0 <= f < |t| :: dirty[f] || t[f] == None
    ensures CleanSettled(residual, t, dirty)
  {
  }

  /** The table before anything is residualized: just the roots are described, and dirty. */
  method Prepare(arity: seq<nat>, named: seq<nat>)
    returns (facts: array<Option<seq<Fact>>>, needed: array<bool>, dirty: array<bool>)
    requires forall k | 0 <= k < |named| :: named[k] < |arity|
    ensures fresh(facts) && fresh(needed) && fresh(dirty) && needed != dirty
    ensures facts.Length == needed.Length == dirty.Length == |arity|
    ensures Good(arity, facts[..], needed[..], dirty[..]) && facts[..] == Started(arity, Roots(|arity|, named))
    ensures forall f | 0 <= f < |arity| :: dirty[f] || facts[f] == None
    ensures forall f | f in Roots(|arity|, named) :: AllUnknown(facts[..], f)
  {
    hide Started;
    var n, roots := |arity|, Roots(|arity|, named);
    facts := new Option<seq<Fact>>[n](_ => None);
    needed, dirty := new bool[n](_ => false), new bool[n](_ => false);
    ActivateRoots(arity, roots, facts, needed, dirty);
    StartedIs(arity, roots, facts[..], needed[..], dirty[..]);
    hide Good, AllUnknown;
    assert forall k | 0 <= k < |roots| :: AllUnknown(facts[..], roots[k]);
  }

  /** The first dirty function, if there is one. */
  method FirstDirty(dirty: array<bool>) returns (i: nat)
    ensures i <= dirty.Length && (i < dirty.Length ==> dirty[i]) && forall f | 0 <= f < i :: !dirty[f]
  {
    i := 0;
    while i < dirty.Length && !dirty[i]
      invariant i <= dirty.Length && forall f | 0 <= f < i :: !dirty[f]
    {
      i := i + 1;
    }
  }

  lemma AllClean(residual: Residualizer, arity: seq<nat>, t: Table, needed: seq<bool>, d: seq<bool>)
    requires Good(arity, t, needed, d) && CleanSettled(residual, t, d) && forall f | 0 <= f < |d| :: !d[f]
    ensures Arities(arity, t) && forall f | 0 <= f < |t| :: Settled(residual, t, f)
  {
  }

  ghost function RoomLeft(arity: seq<nat>, t: Table): nat {
    if |t| == |arity| then TotalRoom(arity, t) else 0
  }

  /** A refreshed function stays clean, or some fact has risen. */
  lemma Progress(arity: seq<nat>, a: Table, b: Table, needed: seq<bool>, needed': seq<bool>, d: seq<bool>,
    d': seq<bool>, f: nat)
    requires Good(arity, a, needed, d) && Good(arity, b, needed', d')
    requires f < |a| == |d| && d[f] && Updates(a, b, d[f := false], d')
    ensures RoomLeft(arity, b) <= RoomLeft(arity, a)
    ensures RoomLeft(arity, b) == RoomLeft(arity, a) ==> Marked(d') < Marked(d)
  {
    RoomDrops(arity, a, b);
    if a == b {
      MarkedClears(d, f);
      assert d' == d[f := false];
    }
  }

  /** Propagation always ends; it fails only on a call with the wrong number of arguments. The facts it ends
      with are those that the calls reported on the way give: nothing else raises them. */
  method Propagate(arity: seq<nat>, named: seq<nat>, residual: Residualizer)
    returns (ok: bool, facts: array<Option<seq<Fact>>>, ghost reported: seq<Call>)
    requires TargetsExist(residual, |arity|) && forall k | 0 <= k < |named| :: named[k] < |arity|
    ensures ok ==> Fixpoint(arity, named, residual, facts[..])
    ensures ok ==> Told(arity, Roots(|arity|, named), ByResidual(residual), reported, facts[..])
    ensures !ok ==> WrongArity(arity, residual)
  {
    hide *;
    var needed, dirty;
    facts, needed, dirty := Prepare(arity, named);
    ghost var first, roots := facts[..], Roots(|arity|, named);
    StartsClean(residual, first, dirty[..]);
    GrowsSelf(first);
    reported := [];
    ToldNone(arity, roots, ByResidual(residual));
    while true
      invariant Good(arity, facts[..], needed[..], dirty[..])
      invariant CleanSettled(residual, facts[..], dirty[..]) && Grows(first, facts[..])
      invariant Told(arity, roots, ByResidual(residual), reported, facts[..])
      decreases RoomLeft(arity, facts[..]), Marked(dirty[..])
    {
      var i := FirstDirty(dirty);
      if i == dirty.Length {
        break;
      }
      ghost var t, m, d := facts[..], needed[..], dirty[..];
      ok, reported := Refresh(arity, residual, facts, needed, dirty, i, roots, reported);
      if !ok {
        return;
      }
      GrowsTrans(first, t, facts[..]);
      Progress(arity, t, facts[..], m, needed[..], d, dirty[..], i);
    }
    ok := true;
    RootsStay(arity, named, first, facts[..]);
    AllClean(residual, arity, facts[..], needed[..], dirty[..]);
    MakeFixpoint(arity, named, residual, facts[..]);
  }

  lemma GrowsSelf(t: Table)
    ensures Grows(t, t)
  {
  }

  lemma RootsStay(arity: seq<nat>, named: seq<nat>, a: Table, b: Table)
    requires Grows(a, b) && forall f | f in Roots(|arity|, named) :: AllUnknown(a, f)
    ensures forall f | f in Roots(|arity|, named) :: AllUnknown(b, f)
  {
    hide Roots, AllUnknown, Grows;
    forall f | f in Roots(|arity|, named) ensures AllUnknown(b, f) {
      AllUnknownStays(a, b, f);
    }
  }

  lemma MakeFixpoint(arity: seq<nat>, named: seq<nat>, residual: Residualizer, t: Table)
    requires Arities(arity, t) && (forall f | f in Roots(|arity|, named) :: AllUnknown(t, f))
    requires forall f | 0 <= f < |t| :: Settled(residual, t, f)
    ensures Fixpoint(arity, named, residual, t)
  {
    hide Roots, AllUnknown, Settled, Arities;
  }

  /** For a monotone residualizer, propagation ends with the least table. */
  lemma PropagatesLeast(arity: seq<nat>, named: seq<nat>, residual: Residualizer, reported: seq<Call>, t: Table,
    u: Table)
    requires Told(arity, Roots(|arity|, named), ByResidual(residual), reported, t)
    requires Monotone(residual) && Fixpoint(arity, named, residual, u)
    ensures Grows(t, u)
  {
    hide Roots, Monotone, Fixpoint, Grows, TableOf, AllReported;
    LeastFixpoint(arity, named, residual, reported, |reported|, u);
    assert reported[..|reported|] == reported;
  }

  // ----- what the fixpoint means for runs -----

  datatype Activation = Activation(callee: nat, arguments: seq<Cell>)

  /** Which activation may call which: any relation at all. */
  type CallRelation = (Activation, Activation) -> bool

  /** Every call made by an activation that satisfies the assumed facts is among the calls reported. */
  ghost predicate Reports(residual: Residualizer, calls: CallRelation) {
    forall a: Activation, b: Activation, facts: seq<Fact> | DescribesAll(facts, a.arguments) && calls(a, b) ::
      exists c :: c in residual(a.callee, facts) && c.target == b.callee && DescribesAll(c.facts, b.arguments)
  }

  predicate Described(t: Table, a: Activation) {
    a.callee < |t| && t[a.callee].Some? && DescribesAll(t[a.callee].value, a.arguments)
  }

  lemma DescribedUpwards(a: seq<Fact>, b: seq<Fact>, values: seq<Cell>)
    requires LeqAll(a, b) && DescribesAll(a, values)
    ensures DescribesAll(b, values)
  {
  }

  ghost predicate CallChain(calls: CallRelation, run: seq<Activation>) {
    forall i | 0 <= i < |run| - 1 :: calls(run[i], run[i + 1])
  }

  /** Whatever arguments the roots are entered with, the arguments of every activation in every chain
      of calls are described by the final facts. */
  lemma {:induction false} ActivationsDescribed(arity: seq<nat>, named: seq<nat>, residual: Residualizer, t: Table,
    calls: CallRelation, run: seq<Activation>, k: nat)
    requires Fixpoint(arity, named, residual, t) && Reports(residual, calls)
    requires k < |run| && CallChain(calls, run)
    requires run[0].callee in Roots(|arity|, named) && run[0].callee < |arity|
    requires |run[0].arguments| == arity[run[0].callee]
    ensures Described(t, run[k])
    decreases k
  {
    if k == 0 {
      assert AllUnknown(t, run[0].callee);
    } else {
      ActivationsDescribed(arity, named, residual, t, calls, run, k - 1);
      var a, b := run[k - 1], run[k];
      assert calls(run[k - 1], run[k - 1 + 1]);
      var c :| c in residual(a.callee, t[a.callee].value) && c.target == b.callee && DescribesAll(c.facts, b.arguments);
      assert Settled(residual, t, a.callee);
      DescribedUpwards(c.facts, t[b.callee].value, b.arguments);
    }
  }

  /** A function assumed to receive a constant receives that constant on every run. */
  lemma ConstantsHold(arity: seq<nat>, named: seq<nat>, residual: Residualizer, t: Table,
    calls: CallRelation, run: seq<Activation>, k: nat, i: nat)
    requires Fixpoint(arity, named, residual, t) && Reports(residual, calls)
    requires k < |run| && CallChain(calls, run)
    requires run[0].callee in Roots(|arity|, named) && run[0].callee < |arity|
    requires |run[0].arguments| == arity[run[0].callee]
    requires i < |run[k].arguments|
    ensures var f := run[k].callee;
      f < |t| && t[f].Some? && i < |t[f].value| && !t[f].value[i].Unreached?
      && (t[f].value[i].Constant? ==> run[k].arguments[i] == t[f].value[i].value)
  {
    ActivationsDescribed(arity, named, residual, t, calls, run, k);
  }
}
