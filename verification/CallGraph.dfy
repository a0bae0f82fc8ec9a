/** The direct-call graph: compressed adjacency, its reverse, and strongly connected components
    by the iterative two-pass search.
 */
module CallGraph {
  import opened Words
  import opened Digraph

  /** A direct call instruction; `target` is the function whose entry it names, if any. */
  datatype Site = Site(target: Option<nat>, tail: bool)

  /** The call sites of each function, in instruction order. */
  type Program = seq<seq<Site>>

  predicate SiteResolved(s: Site, n: nat) {
    s.target.Some? && s.target.value < n
  }

  predicate Resolved(p: Program) {
    forall f, k | 0 <= f < |p| && 0 <= k < |p[f]| :: SiteResolved(p[f][k], |p|)
  }

  function GraphOf(p: Program): (g: Graph)
    requires Resolved(p)
    ensures |g| == |p| && Closed(g)
    ensures forall u, k | 0 <= u < |p| && 0 <= k < |p[u]| :: |g[u]| == |p[u]| && g[u][k] == p[u][k].target.value
  {
    seq(|p|, (u: nat) requires u < |p| =>
      seq(|p[u]|, (k: nat) requires k < |p[u]| => p[u][k].target.value))
  }

  // ----- compressed adjacency -----

  function Total(g: Graph, k: nat): nat
    requires k <= |g|
  {
    if k == 0 then 0 else Total(g, k - 1) + |g[k - 1]|
  }

  lemma {:induction false} TotalMonotone(g: Graph, i: nat, j: nat)
    requires i <= j <= |g|
    ensures Total(g, i) <= Total(g, j)
    decreases j
  {
    if i < j {
      TotalMonotone(g, i, j - 1);
    }
  }

  predicate RowAt(edges: seq<nat>, g: Graph, u: nat)
    requires u < |g|
  {
    Total(g, u) + |g[u]| <= |edges| && forall k | 0 <= k < |g[u]| :: edges[Total(g, u) + k] == g[u][k]
  }

  /** `offsets` and `edges` hold the adjacency lists of `g` back to back. */
  ghost predicate Csr(offsets: seq<nat>, edges: seq<nat>, g: Graph) {
    && |offsets| == |g| + 1
    && |edges| == Total(g, |g|)
    && (forall u | 0 <= u <= |g| :: offsets[u] == Total(g, u))
    && (forall u | 0 <= u < |g| :: RowAt(edges, g, u))
  }

  /** Degree counts, one place to the right. */
  method CountSites(p: Program) returns (ok: bool, offsets: array<nat>)
    ensures ok <==> Resolved(p)
    ensures fresh(offsets) && offsets.Length == |p| + 1 && offsets[0] == 0
    ensures ok ==> forall u | 1 <= u <= |p| :: offsets[u] == |p[u - 1]|
  {
    var n := |p|;
    offsets := new nat[n + 1](_ => 0);
    for f := 0 to n
      invariant forall u, k | 0 <= u < f && 0 <= k < |p[u]| :: SiteResolved(p[u][k], n)
      invariant offsets[0] == 0
      invariant forall u | 1 <= u <= n :: offsets[u] == if u <= f then |p[u - 1]| else 0
    {
      for k := 0 to |p[f]|
        invariant forall j | 0 <= j < k :: SiteResolved(p[f][j], n)
        invariant offsets[0] == 0
        invariant forall u | 1 <= u <= n :: offsets[u] == if u <= f then |p[u - 1]| else if u == f + 1 then k else 0
      {
        if !SiteResolved(p[f][k], n) {
          return false, offsets;
        }
        offsets[f + 1] := offsets[f + 1] + 1;
      }
    }
    ok := true;
  }

  method PrefixSums(offsets: array<nat>, ghost g: Graph)
    requires offsets.Length == |g| + 1 && offsets[0] == 0
    requires forall u | 1 <= u <= |g| :: offsets[u] == |g[u - 1]|
    modifies offsets
    ensures forall u | 0 <= u <= |g| :: offsets[u] == Total(g, u)
  {
    for i := 1 to offsets.Length
      invariant forall u | 0 <= u < i :: offsets[u] == Total(g, u)
      invariant forall u | i <= u <= |g| :: offsets[u] == |g[u - 1]|
    {
      offsets[i] := offsets[i] + offsets[i - 1];
    }
  }

  /** Write one function's targets at its cursor. */
  method FillRow(sites: seq<Site>, ghost row: seq<nat>, edges: array<nat>, at: nat)
    requires |row| == |sites| && at + |row| <= edges.Length
    requires forall k | 0 <= k < |row| :: sites[k].target == Some(row[k])
    modifies edges
    ensures forall i | 0 <= i < edges.Length :: edges[i] == if at <= i < at + |row| then row[i - at] else old(edges[i])
  {
    var cursor := at;
    for k := 0 to |sites|
      invariant cursor == at + k
      invariant forall i | 0 <= i < edges.Length :: edges[i] == if at <= i < at + k then row[i - at] else old(edges[i])
    {
      edges[cursor] := sites[k].target.value;
      cursor := cursor + 1;
    }
  }

  method BuildForward(p: Program) returns (ok: bool, offsets: array<nat>, edges: array<nat>)
    ensures ok <==> Resolved(p)
    ensures ok ==> Csr(offsets[..], edges[..], GraphOf(p))
    ensures fresh(offsets) && fresh(edges)
  {
    var n := |p|;
    ok, offsets := CountSites(p);
    if !ok {
      edges := new nat[0];
      return;
    }
    ghost var g := GraphOf(p);
    GraphSizes(p);
    PrefixSums(offsets, g);
    edges := new nat[offsets[n]];
    for f := 0 to n
      invariant forall u | 0 <= u < f :: RowAt(edges[..], g, u)
      modifies edges
    {
      TotalMonotone(g, f + 1, n);
      ghost var before := edges[..];
      FillRow(p[f], g[f], edges, offsets[f]);
      RowsKept(before, edges[..], g, f);
    }
  }

  /** Filling one row keeps the rows before it. */
  lemma RowsKept(before: seq<nat>, after: seq<nat>, g: Graph, f: nat)
    requires f < |g| && |before| == |after| && Total(g, f) + |g[f]| <= |after|
    requires forall u | 0 <= u < f :: RowAt(before, g, u)
    requires forall i | 0 <= i < |after| ::
      after[i] == if Total(g, f) <= i < Total(g, f) + |g[f]| then g[f][i - Total(g, f)] else before[i]
    ensures forall u | 0 <= u <= f :: RowAt(after, g, u)
  {
    forall u | 0 <= u <= f ensures RowAt(after, g, u) {
      if u < f {
        assert RowAt(before, g, u);
        TotalMonotone(g, u + 1, f);
      }
    }
  }

  lemma GraphSizes(p: Program)
    requires Resolved(p)
    ensures forall u | 0 <= u < |p| :: |GraphOf(p)[u]| == |p[u]|
  {
  }

  // ----- the reverse graph, by counting sort -----

  /** The row that owns position `i` of the edge array, among the first `n` rows. */
  function RowOf(g: Graph, i: nat, n: nat): (u: nat)
    requires n <= |g| && i < Total(g, n)
    ensures u < n && Total(g, u) <= i < Total(g, u + 1)
  {
    if i >= Total(g, n - 1) then n - 1 else RowOf(g, i, n - 1)
  }

  lemma RowUnique(g: Graph, i: nat, u: nat)
    requires u < |g| && Total(g, u) <= i < Total(g, u + 1)
    ensures i < Total(g, |g|) && RowOf(g, i, |g|) == u
  {
    TotalMonotone(g, u + 1, |g|);
    var w := RowOf(g, i, |g|);
    if w < u {
      TotalMonotone(g, w + 1, u);
    } else if u < w {
      TotalMonotone(g, u + 1, w);
    }
  }

  /** The sources of the edges into `v` among the first `i` positions, in order. */
  function Sources(g: Graph, edges: seq<nat>, v: nat, i: nat): seq<nat>
    requires |edges| == Total(g, |g|) && i <= |edges|
  {
    if i == 0 then []
    else Sources(g, edges, v, i - 1) + (if edges[i - 1] == v then [RowOf(g, i - 1, |g|)] else [])
  }

  lemma {:induction false} SourcesMember(g: Graph, edges: seq<nat>, v: nat, i: nat, u: nat)
    requires |edges| == Total(g, |g|) && i <= |edges|
    ensures u in Sources(g, edges, v, i) <==> exists k | 0 <= k < i :: edges[k] == v && RowOf(g, k, |g|) == u
  {
    if i > 0 {
      SourcesMember(g, edges, v, i - 1, u);
    }
  }

  lemma {:induction false} SourcesGrow(g: Graph, edges: seq<nat>, v: nat, i: nat, j: nat)
    requires |edges| == Total(g, |g|) && i <= j <= |edges|
    ensures Sources(g, edges, v, i) <= Sources(g, edges, v, j)
    decreases j
  {
    if i < j {
      SourcesGrow(g, edges, v, i, j - 1);
    }
  }

  function ReverseOf(g: Graph, edges: seq<nat>): Graph
    requires |edges| == Total(g, |g|)
  {
    seq(|g|, (v: nat) => Sources(g, edges, v, |edges|))
  }

  /** `r` has exactly the edges of `g` turned round. */
  ghost predicate Reverses(r: Graph, g: Graph) {
    |r| == |g| && forall u: nat, v: nat :: Edge(r, v, u) <==> u < |g| && v < |g| && Edge(g, u, v)
  }

  lemma ReverseEdge(offsets: seq<nat>, edges: seq<nat>, g: Graph, u: nat, v: nat)
    requires Csr(offsets, edges, g) && v < |g|
    ensures u in Sources(g, edges, v, |edges|) <==> u < |g| && v in g[u]
  {
    hide RowOf, Sources, RowAt;
    SourcesMember(g, edges, v, |edges|, u);
    if u in Sources(g, edges, v, |edges|) {
      var k :| 0 <= k < |edges| && edges[k] == v && RowOf(g, k, |g|) == u;
      assert RowAt(edges, g, u);
      RowCell(edges, g, u, k - Total(g, u));
    }
    if u < |g| && v in g[u] {
      var j :| 0 <= j < |g[u]| && g[u][j] == v;
      assert RowAt(edges, g, u);
      RowCell(edges, g, u, j);
      RowUnique(g, Total(g, u) + j, u);
    }
  }

  lemma RowCell(edges: seq<nat>, g: Graph, u: nat, j: nat)
    requires u < |g| && j < |g[u]| && RowAt(edges, g, u)
    ensures Total(g, u) + j < |edges| && edges[Total(g, u) + j] == g[u][j] && Total(g, u + 1) == Total(g, u) + |g[u]|
  {
  }

  lemma ReverseCorrect(offsets: seq<nat>, edges: seq<nat>, g: Graph)
    requires Csr(offsets, edges, g) && Closed(g)
    ensures Reverses(ReverseOf(g, edges), g) && Closed(ReverseOf(g, edges))
  {
    var r := ReverseOf(g, edges);
    hide RowOf, Sources, Csr;
    forall u: nat, v: nat
      ensures Edge(r, v, u) <==> u < |g| && v < |g| && Edge(g, u, v)
    {
      if v < |g| {
        ReverseEdge(offsets, edges, g, u, v);
      }
    }
    forall v, k | 0 <= v < |r| && 0 <= k < |r[v]| ensures r[v][k] < |r| {
      assert Edge(r, v, r[v][k]);
    }
  }

  /** In-degree counts, one place to the right. */
  method CountTargets(edges: array<nat>, n: nat, ghost g: Graph) returns (offsets: array<nat>)
    requires |g| == n && edges.Length == Total(g, n) && forall i | 0 <= i < edges.Length :: edges[i] < n
    ensures fresh(offsets) && offsets.Length == n + 1 && offsets[0] == 0
    ensures forall v | 1 <= v <= n :: offsets[v] == |ReverseOf(g, edges[..])[v - 1]|
  {
    hide RowOf;
    ghost var e := edges[..];
    offsets := new nat[n + 1](_ => 0);
    for i := 0 to edges.Length
      invariant offsets[0] == 0
      invariant forall v | 1 <= v <= n :: offsets[v] == |Sources(g, e, v - 1, i)|
    {
      offsets[edges[i] + 1] := offsets[edges[i] + 1] + 1;
    }
  }

  /** The part of each reverse row filled after `i` edges. */
  ghost predicate Filled(redges: seq<nat>, cursor: seq<nat>, g: Graph, edges: seq<nat>, i: nat)
    requires |edges| == Total(g, |g|) && i <= |edges|
  {
    var r := ReverseOf(g, edges);
    && |cursor| == |g| && |redges| == Total(r, |g|)
    && forall v | 0 <= v < |g| :: FilledRow(redges, cursor, g, edges, i, v)
  }

  ghost predicate FilledRow(redges: seq<nat>, cursor: seq<nat>, g: Graph, edges: seq<nat>, i: nat, v: nat)
    requires |edges| == Total(g, |g|) && i <= |edges| && |cursor| == |g| && v < |g|
  {
    var base, part := Total(ReverseOf(g, edges), v), Sources(g, edges, v, i);
    && cursor[v] == base + |part| && base + |part| <= |redges|
    && forall k | 0 <= k < |part| :: redges[base + k] == part[k]
  }

  lemma PlaceRoom(redges: seq<nat>, cursor: seq<nat>, g: Graph, edges: seq<nat>, i: nat)
    requires |edges| == Total(g, |g|) && i < |edges| && Filled(redges, cursor, g, edges, i) && edges[i] < |g|
    ensures var r, v := ReverseOf(g, edges), edges[i];
      Total(r, v) <= cursor[v] < Total(r, v + 1) <= |redges|
  {
    hide RowOf;
    var v, r := edges[i], ReverseOf(g, edges);
    assert FilledRow(redges, cursor, g, edges, i, v);
    SourcesGrow(g, edges, v, i + 1, |edges|);
    TotalMonotone(r, v + 1, |g|);
  }

  lemma RowsApart(r: Graph, v: nat, w: nat, c: nat)
    requires v < |r| && w < |r| && w != v && Total(r, v) <= c < Total(r, v + 1)
    ensures c < Total(r, w) || Total(r, w + 1) <= c
  {
    if w < v {
      TotalMonotone(r, w + 1, v);
    } else {
      TotalMonotone(r, v + 1, w);
    }
  }

  lemma SourcesSkip(g: Graph, edges: seq<nat>, w: nat, i: nat)
    requires |edges| == Total(g, |g|) && i < |edges| && edges[i] != w
    ensures Sources(g, edges, w, i + 1) == Sources(g, edges, w, i)
  {
    hide RowOf;
  }

  lemma ReverseRow(g: Graph, edges: seq<nat>, w: nat)
    requires |edges| == Total(g, |g|) && w < |g|
    ensures |ReverseOf(g, edges)| == |g|
    ensures Total(ReverseOf(g, edges), w + 1) == Total(ReverseOf(g, edges), w) + |Sources(g, edges, w, |edges|)|
  {
    hide Sources;
  }

  /** Another row's cells are elsewhere. */
  lemma OtherRow(redges: seq<nat>, cursor: seq<nat>, g: Graph, edges: seq<nat>, i: nat, u: nat, w: nat)
    requires |edges| == Total(g, |g|) && i < |edges| && Filled(redges, cursor, g, edges, i)
    requires edges[i] < |g| && w < |g| && w != edges[i]
    requires var r, v := ReverseOf(g, edges), edges[i]; Total(r, v) <= cursor[v] < Total(r, v + 1) <= |redges|
    ensures var v := edges[i];
      FilledRow(redges[cursor[v] := u], cursor[v := cursor[v] + 1], g, edges, i + 1, w)
  {
    hide RowOf, Sources, ReverseOf, Total;
    assert FilledRow(redges, cursor, g, edges, i, w);
    SourcesSkip(g, edges, w, i);
    SourcesGrow(g, edges, w, i, |edges|);
    ReverseRow(g, edges, w);
    RowsApart(ReverseOf(g, edges), edges[i], w, cursor[edges[i]]);
  }

  /** Placing one edge fills the next cell of its target's row and touches no other row. */
  lemma PlaceEdge(redges: seq<nat>, cursor: seq<nat>, g: Graph, edges: seq<nat>, i: nat, u: nat)
    requires |edges| == Total(g, |g|) && i < |edges| && Filled(redges, cursor, g, edges, i)
    requires edges[i] < |g| && RowOf(g, i, |g|) == u
    ensures cursor[edges[i]] < |redges|
    ensures var v := edges[i];
      Filled(redges[cursor[v] := u], cursor[v := cursor[v] + 1], g, edges, i + 1)
  {
    PlaceRoom(redges, cursor, g, edges, i);
    var v, j := edges[i], i + 1;
    var redges', cursor' := redges[cursor[v] := u], cursor[v := cursor[v] + 1];
    assert FilledRow(redges', cursor', g, edges, j, v) by {
      assert FilledRow(redges, cursor, g, edges, i, v);
    }
    hide FilledRow, Sources, RowOf;
    forall w | 0 <= w < |g| ensures FilledRow(redges', cursor', g, edges, j, w) {
      if w != v {
        OtherRow(redges, cursor, g, edges, i, u, w);
      }
    }
  }

  lemma FilledAll(offsets: seq<nat>, redges: seq<nat>, cursor: seq<nat>, g: Graph, edges: seq<nat>)
    requires |edges| == Total(g, |g|) && Filled(redges, cursor, g, edges, |edges|)
    requires |offsets| == |g| + 1 && forall u | 0 <= u <= |g| :: offsets[u] == Total(ReverseOf(g, edges), u)
    ensures Csr(offsets, redges, ReverseOf(g, edges))
  {
    var r := ReverseOf(g, edges);
    forall v | 0 <= v < |g| ensures RowAt(redges, r, v) {
      assert FilledRow(redges, cursor, g, edges, |edges|, v);
    }
  }

  /** The reverse graph of a compressed graph, itself compressed. */
  method BuildReverse(offsets: array<nat>, edges: array<nat>, n: nat, ghost g: Graph)
    returns (roffsets: array<nat>, redges: array<nat>, ghost r: Graph)
    requires |g| == n && Csr(offsets[..], edges[..], g) && Closed(g)
    ensures fresh(roffsets) && fresh(redges)
    ensures Csr(roffsets[..], redges[..], r) && Reverses(r, g) && Closed(r)
  {
    hide *;
    ghost var e := edges[..];
    CsrOffsets(offsets[..], e, g);
    EdgesInRange(offsets[..], e, g);
    ReverseCorrect(offsets[..], e, g);
    r := ReverseOf(g, e);
    ReverseLength(g, e);
    roffsets := CountTargets(edges, n, g);
    PrefixSums(roffsets, r);
    redges := new nat[roffsets[n]];
    var cursor := new nat[n](u requires 0 <= u < n reads roffsets => roffsets[u]);
    FilledNone(redges[..], cursor[..], g, e);
    for from := 0 to n
      invariant offsets[from] <= |e| && Filled(redges[..], cursor[..], g, e, offsets[from])
      modifies redges, cursor
    {
      TotalMonotone(g, from + 1, n);
      TotalMonotone(g, from, from + 1);
      for i := offsets[from] to offsets[from + 1]
        invariant i <= |e| && Filled(redges[..], cursor[..], g, e, i)
        modifies redges, cursor
      {
        RowUnique(g, i, from);
        FilledCursor(redges[..], cursor[..], g, e, i);
        PlaceEdge(redges[..], cursor[..], g, e, i, from);
        redges[cursor[edges[i]]] := from;
        cursor[edges[i]] := cursor[edges[i]] + 1;
      }
    }
    FilledAll(roffsets[..], redges[..], cursor[..], g, e);
  }

  lemma CsrOffsets(offsets: seq<nat>, edges: seq<nat>, g: Graph)
    requires Csr(offsets, edges, g)
    ensures |offsets| == |g| + 1 && |edges| == Total(g, |g|) && forall u | 0 <= u <= |g| :: offsets[u] == Total(g, u)
    ensures offsets[0] == 0
  {
  }

  lemma ReverseLength(g: Graph, edges: seq<nat>)
    requires |edges| == Total(g, |g|)
    ensures |ReverseOf(g, edges)| == |g|
  {
  }

  lemma FilledCursor(redges: seq<nat>, cursor: seq<nat>, g: Graph, edges: seq<nat>, i: nat)
    requires |edges| == Total(g, |g|) && i <= |edges| && Filled(redges, cursor, g, edges, i)
    ensures |cursor| == |g|
  {
  }

  lemma FilledNone(redges: seq<nat>, cursor: seq<nat>, g: Graph, edges: seq<nat>)
    requires |edges| == Total(g, |g|) && |cursor| == |g| && |redges| == Total(ReverseOf(g, edges), |g|)
    requires forall v | 0 <= v < |g| :: cursor[v] == Total(ReverseOf(g, edges), v)
    ensures Filled(redges, cursor, g, edges, 0)
  {
    forall v | 0 <= v < |g| ensures FilledRow(redges, cursor, g, edges, 0, v) {
      TotalMonotone(ReverseOf(g, edges), v, |g|);
    }
  }

  lemma EdgesInRange(offsets: seq<nat>, edges: seq<nat>, g: Graph)
    requires Csr(offsets, edges, g) && Closed(g)
    ensures forall i | 0 <= i < |edges| :: edges[i] < |g|
  {
    forall i | 0 <= i < |edges| ensures edges[i] < |g| {
      var u := RowOf(g, i, |g|);
      assert RowAt(edges, g, u);
      assert edges[i] == g[u][i - Total(g, u)];
    }
  }
}
