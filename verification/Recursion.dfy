/** What the call-graph analysis says about recursion. */
module Recursion {
  import opened Words
  import opened Digraph
  import opened CallGraph
  import opened Components
  import opened Numbering

  /** Some call of `u` leads to `goal`. */
  ghost predicate Leads(g: Graph, u: nat, goal: nat) {
    exists v :: Edge(g, u, v) && Reach(g, v, goal)
  }

  /** `f` can come back to itself by at least one call. */
  ghost predicate Cyclic(g: Graph, f: nat) {
    Leads(g, f, f)
  }

  ghost predicate Shared(g: Graph, f: nat) {
    exists v :: v != f && Same(g, f, v)
  }

  /** Being on a cycle is sharing a component or calling oneself directly. */
  lemma CyclicShape(g: Graph, f: nat)
    requires Closed(g) && f < |g|
    ensures Cyclic(g, f) <==> Shared(g, f) || Edge(g, f, f)
  {
    if Edge(g, f, f) {
      ReachSelf(g, f);
    }
    if v :| v != f && Same(g, f, v) {
      var p :| IsPath(g, p) && p[0] == f && p[|p| - 1] == v;
      assert Edge(g, p[0], p[1]);
      assert IsPath(g, p[1..]) && p[1..][|p| - 2] == v;
      ReachTrans(g, p[1], v, f);
    }
    if v :| Edge(g, f, v) && Reach(g, v, f) && v != f {
      ReachEdge(g, f, v);
      assert Same(g, f, v);
    }
  }

  function CountOf(comp: seq<nat>, c: nat): nat {
    if comp == [] then 0 else CountOf(comp[..|comp| - 1], c) + if comp[|comp| - 1] == c then 1 else 0
  }

  lemma {:induction false} CountNone(comp: seq<nat>, c: nat)
    ensures CountOf(comp, c) > 0 <==> c in comp
  {
    if comp != [] {
      CountNone(comp[..|comp| - 1], c);
      assert comp == comp[..|comp| - 1] + [comp[|comp| - 1]];
    }
  }

  lemma {:induction false} CountMany(comp: seq<nat>, f: nat)
    requires f < |comp|
    ensures CountOf(comp, comp[f]) > 1 <==> exists v | 0 <= v < |comp| :: v != f && comp[v] == comp[f]
  {
    var last := |comp| - 1;
    var rest := comp[..last];
    if f == last {
      CountNone(rest, comp[f]);
    } else {
      CountMany(rest, f);
      CountNone(rest, comp[f]);
      assert rest[f] == comp[f];
      if v :| 0 <= v < |comp| && v != f && comp[v] == comp[f] && comp[last] != comp[f] {
        assert rest[v] == rest[f];
      }
    }
  }

  lemma SharedCount(g: Graph, comp: seq<nat>, count: nat, f: nat)
    requires Partition(comp, count, g) && f < |g|
    ensures CountOf(comp, comp[f]) > 1 <==> Shared(g, f)
  {
    CountMany(comp, f);
    hide Same;
    if v: nat :| v != f && Same(g, f, v) {
      ReachInRange(g, f, v);
      assert comp[f] == comp[v];
    }
  }

  method Sizes(comp: array<nat>, count: nat) returns (sizes: array<nat>)
    requires forall i | 0 <= i < comp.Length :: comp[i] < count
    ensures fresh(sizes) && sizes.Length == count
    ensures forall c | 0 <= c < count :: sizes[c] == CountOf(comp[..], c)
  {
    sizes := new nat[count](_ => 0);
    for i := 0 to comp.Length
      invariant forall c | 0 <= c < count :: sizes[c] == CountOf(comp[..i], c)
      modifies sizes
    {
      assert comp[..i + 1][..i] == comp[..i];
      sizes[comp[i]] := sizes[comp[i]] + 1;
    }
    assert comp[..comp.Length] == comp[..];
  }

  /** Whether some edge in the row is a call of the function itself. */
  method CallsItself(offsets: array<nat>, edges: array<nat>, ghost g: Graph, comp: array<nat>, from: nat)
    returns (self: bool)
    requires Csr(offsets[..], edges[..], g) && Closed(g) && from < |g| == comp.Length
    ensures self <==> Edge(g, from, from)
  {
    self := false;
    TotalMonotone(g, from + 1, |g|);
    assert RowAt(edges[..], g, from);
    for i := offsets[from] to offsets[from + 1]
      invariant self <==> exists k | 0 <= k < i - offsets[from] :: g[from][k] == from
    {
      assert edges[i] == g[from][i - offsets[from]];
      if comp[edges[i]] == comp[from] && edges[i] == from {
        self := true;
      }
    }
  }

  /** A call that is not a tail call, made inside component `c` to a function of component `c`. */
  predicate StaysNontail(p: Program, comp: seq<nat>, from: nat, k: nat)
    requires Resolved(p) && |comp| == |p| && from < |p| && k < |p[from]|
  {
    !p[from][k].tail && comp[p[from][k].target.value] == comp[from]
  }

  ghost predicate Nontail(p: Program, comp: seq<nat>, c: nat, n: nat)
    requires Resolved(p) && n <= |comp| == |p|
  {
    exists from, k | 0 <= from < n && 0 <= k < |p[from]| :: StaysNontail(p, comp, from, k) && comp[from] == c
  }

  method MarkNontail(p: Program, comp: array<nat>, count: nat) returns (marks: array<bool>)
    requires Resolved(p) && comp.Length == |p| && forall i | 0 <= i < comp.Length :: comp[i] < count
    ensures fresh(marks) && marks.Length == count
    ensures forall c | 0 <= c < count :: marks[c] <==> Nontail(p, comp[..], c, |p|)
  {
    marks := new bool[count](_ => false);
    for from := 0 to |p|
      invariant forall c | 0 <= c < count :: marks[c] <==> Nontail(p, comp[..], c, from)
      modifies marks
    {
      for k := 0 to |p[from]|
        invariant forall c | 0 <= c < count :: marks[c] <==>
          || Nontail(p, comp[..], c, from)
          || (comp[from] == c && exists j | 0 <= j < k :: StaysNontail(p, comp[..], from, j))
        modifies marks
      {
        if !p[from][k].tail && comp[p[from][k].target.value] == comp[from] {
          assert StaysNontail(p, comp[..], from, k);
          marks[comp[from]] := true;
        }
      }
    }
  }

  /** No call inside `f`'s component needs to come back. */
  ghost predicate OnlyTailCalls(p: Program, f: nat)
    requires Resolved(p)
  {
    var g := GraphOf(p);
    forall from, k | 0 <= from < |p| && 0 <= k < |p[from]| && Same(g, from, f) && Same(g, p[from][k].target.value, f) ::
      p[from][k].tail
  }

  lemma TailOnly(p: Program, comp: seq<nat>, count: nat, f: nat)
    requires Resolved(p) && Partition(comp, count, GraphOf(p)) && f < |p|
    ensures !Nontail(p, comp, comp[f], |p|) <==> OnlyTailCalls(p, f)
  {
    hide Same;
    var g := GraphOf(p);
    forall from, k | 0 <= from < |p| && 0 <= k < |p[from]|
      ensures StaysNontail(p, comp, from, k) && comp[from] == comp[f] <==>
        !p[from][k].tail && Same(g, from, f) && Same(g, p[from][k].target.value, f)
    {
    }
  }

  method MarkRecursive(offsets: array<nat>, edges: array<nat>, ghost g: Graph, comp: array<nat>, count: nat)
    returns (recursive: array<bool>)
    requires Csr(offsets[..], edges[..], g) && Closed(g) && Partition(comp[..], count, g)
    ensures fresh(recursive) && recursive.Length == |g| && forall f | 0 <= f < |g| :: recursive[f] <==> Cyclic(g, f)
  {
    var sizes := Sizes(comp, count);
    recursive := new bool[comp.Length](_ => false);
    hide Csr, Same, Cyclic, Shared, CountOf;
    for from := 0 to comp.Length
      invariant forall f | 0 <= f < from :: recursive[f] <==> Cyclic(g, f)
      modifies recursive
    {
      var self := CallsItself(offsets, edges, g, comp, from);
      recursive[from] := sizes[comp[from]] > 1 || self;
      CyclicShape(g, from);
      SharedCount(g, comp[..], count, from);
    }
  }

  method MarkNested(p: Program, ghost g: Graph, comp: array<nat>, count: nat, recursive: array<bool>)
    returns (nested: array<bool>)
    requires Resolved(p) && g == GraphOf(p) && Partition(comp[..], count, g) && recursive.Length == |g|
    ensures fresh(nested) && nested.Length == |p|
    ensures forall f | 0 <= f < |p| :: nested[f] <==> recursive[f] && OnlyTailCalls(p, f)
  {
    var marks := MarkNontail(p, comp, count);
    nested := new bool[|p|](_ => false);
    hide Same, OnlyTailCalls, Nontail;
    for from := 0 to |p|
      invariant forall f | 0 <= f < from :: nested[f] <==> recursive[f] && OnlyTailCalls(p, f)
      modifies nested
    {
      nested[from] := recursive[from] && !marks[comp[from]];
      TailOnly(p, comp[..], count, from);
    }
  }

  /** The whole analysis. It fails exactly when some direct call names no function. Otherwise two
      functions get one number exactly when each reaches the other; a function is recursive exactly
      when it can come back to itself by at least one call; and it may nest exactly when it is
      recursive and every call inside its component is a tail call. */
  method Analyze(p: Program)
    returns (ok: bool, comp: array<nat>, count: nat, recursive: array<bool>, nested: array<bool>)
    requires |p| < UNASSIGNED
    ensures ok <==> Resolved(p)
    ensures ok ==> Partition(comp[..], count, GraphOf(p))
    ensures ok ==> recursive.Length == |p| && forall f | 0 <= f < |p| :: recursive[f] <==> Cyclic(GraphOf(p), f)
    ensures ok ==> nested.Length == |p|
    ensures ok ==> forall f | 0 <= f < |p| :: nested[f] <==> Cyclic(GraphOf(p), f) && OnlyTailCalls(p, f)
  {
    var n := |p|;
    var offsets, edges;
    ok, offsets, edges := BuildForward(p);
    comp, count := new nat[0], 0;
    recursive, nested := new bool[0], new bool[0];
    if !ok {
      return;
    }
    ghost var g := GraphOf(p);
    var roffsets, redges, r := BuildReverse(offsets, edges, n, g);
    var order := SearchAll(offsets, edges, n, g);
    comp, count := NumberComponents(roffsets, redges, r, g, order, n);
    recursive := MarkRecursive(offsets, edges, g, comp, count);
    nested := MarkNested(p, g, comp, count, recursive);
  }

  // ----- the recursive search used by the machine-code back end -----

  function Targets(sites: seq<Site>, n: nat): seq<nat> {
    if sites == [] then []
    else
      var rest, last := Targets(sites[..|sites| - 1], n), sites[|sites| - 1];
      if SiteResolved(last, n) then rest + [last.target.value] else rest
  }

  lemma {:induction false} TargetsMember(sites: seq<Site>, n: nat, v: nat)
    ensures v in Targets(sites, n) <==> v < n && exists k | 0 <= k < |sites| :: sites[k].target == Some(v)
  {
    if sites != [] {
      TargetsMember(sites[..|sites| - 1], n, v);
    }
  }

  /** The call graph of any program: a call that names no function is no edge. */
  function CallsOf(p: Program): Graph {
    seq(|p|, (u: nat) requires u < |p| => Targets(p[u], |p|))
  }

  lemma CallsEdge(p: Program, u: nat, v: nat)
    requires u < |p|
    ensures Edge(CallsOf(p), u, v) <==> v < |p| && exists k | 0 <= k < |p[u]| :: p[u][k].target == Some(v)
  {
    TargetsMember(p[u], |p|, v);
  }

  lemma CallsClosed(p: Program)
    ensures Closed(CallsOf(p))
  {
    var g := CallsOf(p);
    forall u, k | 0 <= u < |g| && 0 <= k < |g[u]| ensures g[u][k] < |g| {
      TargetsMember(p[u], |p|, g[u][k]);
    }
  }

  lemma {:induction false} TargetsAll(sites: seq<Site>, n: nat)
    requires forall k | 0 <= k < |sites| :: SiteResolved(sites[k], n)
    ensures |Targets(sites, n)| == |sites|
    ensures forall k | 0 <= k < |sites| :: sites[k].target == Some(Targets(sites, n)[k])
  {
    if sites != [] {
      TargetsAll(sites[..|sites| - 1], n);
    }
  }

  lemma CallsResolved(p: Program)
    requires Resolved(p)
    ensures CallsOf(p) == GraphOf(p)
  {
    var c, g := CallsOf(p), GraphOf(p);
    forall u | 0 <= u < |p| ensures c[u] == g[u] {
      TargetsAll(p[u], |p|);
      assert |g[u]| == |p[u]|;
    }
  }

  function Unseen(seen: seq<bool>): nat {
    if seen == [] then 0 else Unseen(seen[1..]) + if seen[0] then 0 else 1
  }

  lemma {:induction false} UnseenLess(seen: seq<bool>, seen': seq<bool>)
    requires |seen| == |seen'| && forall v | 0 <= v < |seen| && seen[v] :: seen'[v]
    ensures Unseen(seen') <= Unseen(seen)
    ensures (exists v | 0 <= v < |seen| :: seen'[v] && !seen[v]) ==> Unseen(seen') < Unseen(seen)
  {
    if seen != [] {
      UnseenLess(seen[1..], seen'[1..]);
      if v :| 0 <= v < |seen| && seen'[v] && !seen[v] && v > 0 {
        assert seen'[1..][v - 1] && !seen[1..][v - 1];
      }
    }
  }

  /** `v`'s calls stay inside the marked functions and none is `goal` itself. */
  ghost predicate Exhausted(g: Graph, seen: seq<bool>, goal: nat, v: nat)
    requires |seen| == |g|
  {
    forall w: nat | Edge(g, v, w) :: w < |g| && w != goal && seen[w]
  }

  ghost predicate Newly(before: seq<bool>, after: seq<bool>, v: nat) {
    v < |before| == |after| && after[v] && !before[v]
  }

  /** Every function marked since `before`, except those on the search path, is exhausted. */
  ghost predicate Swept(g: Graph, before: seq<bool>, after: seq<bool>, goal: nat, path: set<nat>)
    requires |before| == |after| == |g|
  {
    && (forall v | 0 <= v < |g| && before[v] :: after[v])
    && (forall v | 0 <= v < |g| && Newly(before, after, v) && v !in path :: Exhausted(g, after, goal, v))
  }

  lemma SweptOn(g: Graph, a: seq<bool>, b: seq<bool>, c: seq<bool>, goal: nat, path: set<nat>)
    requires |a| == |b| == |c| == |g| && Swept(g, a, b, goal, path) && Swept(g, b, c, goal, {})
    ensures Swept(g, a, c, goal, path)
  {
    forall v | 0 <= v < |g| && Newly(a, c, v) && v !in path ensures Exhausted(g, c, goal, v) {
      assert Newly(a, b, v) || Newly(b, c, v);
    }
  }

  method ReachesFunction(p: Program, from: nat, goal: nat, seen: array<bool>) returns (found: bool)
    requires from < |p| == seen.Length && goal < |p|
    modifies seen
    ensures found ==> Leads(CallsOf(p), from, goal)
    ensures !found ==> seen[from] && Swept(CallsOf(p), old(seen[..]), seen[..], goal, {})
    ensures forall v | 0 <= v < |p| && old(seen[v]) :: seen[v]
    decreases Unseen(seen[..])
  {
    ghost var g, before := CallsOf(p), seen[..];
    if seen[from] {
      return false;
    }
    hide Reach, CallsOf;
    seen[from] := true;
    for k := 0 to |p[from]|
      invariant seen[from] && Swept(g, before, seen[..], goal, {from})
      invariant forall j | 0 <= j < k && SiteResolved(p[from][j], |p|) ::
        p[from][j].target.value != goal && seen[p[from][j].target.value]
    {
      var site := p[from][k];
      if SiteResolved(site, |p|) {
        var to := site.target.value;
        CallsEdge(p, from, to);
        if to == goal {
          ReachSelf(g, goal);
          return true;
        }
        ghost var now := seen[..];
        UnseenLess(before, now);
        found := ReachesFunction(p, to, goal, seen);
        if found {
          CallsClosed(p);
          LeadsOn(g, from, to, goal);
          return;
        }
        SweptOn(g, before, now, seen[..], goal, {from});
      }
    }
    found := false;
    forall w: nat | Edge(g, from, w) ensures w < |g| && w != goal && seen[w] {
      CallsEdge(p, from, w);
    }
    assert Exhausted(g, seen[..], goal, from);
  }

  lemma LeadsOn(g: Graph, u: nat, v: nat, goal: nat)
    requires Edge(g, u, v) && Leads(g, v, goal) && v < |g| && Closed(g)
    ensures Leads(g, u, goal)
  {
    var w :| Edge(g, v, w) && Reach(g, w, goal);
    ReachEdge(g, v, w);
    ReachTrans(g, v, w, goal);
  }

  lemma {:induction false} NoWayOut(g: Graph, seen: seq<bool>, goal: nat, q: seq<nat>)
    requires |seen| == |g| && IsPath(g, q) && |q| > 1 && seen[q[0]]
    requires forall v | 0 <= v < |g| && seen[v] :: Exhausted(g, seen, goal, v)
    ensures q[|q| - 1] != goal
  {
    assert Exhausted(g, seen, goal, q[0]) && Edge(g, q[0], q[1]);
    if |q| > 2 {
      assert IsPath(g, q[1..]);
      NoWayOut(g, seen, goal, q[1..]);
    }
  }

  lemma NotLed(g: Graph, seen: seq<bool>, f: nat, goal: nat)
    requires |seen| == |g| && f < |g| && seen[f]
    requires forall v | 0 <= v < |g| && seen[v] :: Exhausted(g, seen, goal, v)
    ensures !Leads(g, f, goal)
  {
    forall v, q: seq<nat> | Edge(g, f, v) && IsPath(g, q) && q[0] == v ensures q[|q| - 1] != goal {
      var r := [f] + q;
      assert forall i | 0 <= i < |r| - 1 :: Edge(g, r[i], r[i + 1]) by {
        assert forall i | 0 < i < |r| :: r[i] == q[i - 1];
      }
      assert IsPath(g, r);
      NoWayOut(g, seen, goal, r);
    }
  }

  /** Starting with nothing marked, the recursive search and the component analysis agree on which
      functions are recursive. */
  method IsRecursive(p: Program, f: nat) returns (found: bool)
    requires f < |p|
    ensures found <==> Cyclic(CallsOf(p), f)
    ensures Resolved(p) ==> (found <==> Cyclic(GraphOf(p), f))
  {
    var seen := new bool[|p|](_ => false);
    ghost var before := seen[..];
    found := ReachesFunction(p, f, f, seen);
    ghost var g := CallsOf(p);
    if !found {
      assert forall v | 0 <= v < |g| && seen[v] :: Newly(before, seen[..], v);
      NotLed(g, seen[..], f, f);
    }
    if Resolved(p) {
      CallsResolved(p);
    }
  }
}
