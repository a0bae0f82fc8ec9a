/** The second pass: number the components by flooding the reverse graph in finishing order. */
module Numbering {
  import opened Digraph
  import opened CallGraph
  import opened Components
  import opened Lists

  const UNASSIGNED: nat := 0xFFFF_FFFF

  predicate Assigned(comp: seq<nat>, v: nat) {
    v < |comp| && comp[v] != UNASSIGNED
  }

  ghost predicate Numbers(comp: seq<nat>, g: Graph, k: nat) {
    && (forall v | 0 <= v < |g| && Assigned(comp, v) :: comp[v] < k)
    && (forall c | 0 <= c < k :: c in comp)
  }

  ghost predicate OnePerComponent(comp: seq<nat>, g: Graph) {
    && (forall u, v | 0 <= u < |g| && 0 <= v < |g| && Assigned(comp, u) && Assigned(comp, v) ::
      comp[u] == comp[v] <==> Same(g, u, v))
    && (forall u, v | Assigned(comp, u) && 0 <= v < |g| && Same(g, u, v) :: Assigned(comp, v))
  }

  /** The components of everything that finished at or after position `oi` are numbered. */
  ghost predicate Numbered(g: Graph, order: seq<nat>, oi: nat, comp: seq<nat>, k: nat) {
    && |comp| == |g| == |order| && oi <= |order| && k <= |order| - oi
    && Numbers(comp, g, k)
    && OnePerComponent(comp, g)
    && (forall j | oi <= j < |order| :: Assigned(comp, order[j]))
  }

  ghost predicate Settled(g: Graph, comp: seq<nat>, v: nat) {
    forall u | Edge(g, u, v) :: Assigned(comp, u)
  }

  /** Component `k` is being collected from `start`; the vertices in `stack` are in it but their
      callers have not all been looked at. */
  ghost predicate Flooding(g: Graph, before: seq<nat>, comp: seq<nat>, k: nat, start: nat, stack: seq<nat>) {
    && |before| == |comp| == |g| && start < |g| && k < UNASSIGNED
    && comp[start] == k
    && (forall v | 0 <= v < |g| && Assigned(before, v) :: comp[v] == before[v])
    && (forall v | 0 <= v < |g| && !Assigned(before, v) :: comp[v] == k || comp[v] == UNASSIGNED)
    && (forall v | 0 <= v < |g| && !Assigned(before, v) && comp[v] == k :: Reach(g, v, start))
    && Distinct(stack) && Below(stack, |g|)
    && (forall v | v in stack :: comp[v] == k && !Assigned(before, v))
  }

  ghost predicate AllSettled(g: Graph, before: seq<nat>, comp: seq<nat>, pending: seq<nat>) {
    forall v | 0 <= v < |g| && Assigned(comp, v) && !Assigned(before, v) && v !in pending :: Settled(g, comp, v)
  }

  lemma AnswerAt(g: Graph, order: seq<nat>, u: nat, v: nat) returns (j: nat)
    requires FinishOrder(g, order) && u < |g| && Reach(g, u, v)
    ensures j < |order| && order[j] < |g| && Same(g, u, order[j]) && v in order[..j + 1]
  {
    hide Reach, Same;
    assert u in order && Answered(g, order, [], u, v);
    var w :| Witness(g, order, [], u, v, w);
    j :| 0 <= j < |order| && order[j] == w && v in order[..j + 1];
  }

  /** Reaching the latest-finished unnumbered vertex means lying in its component. */
  lemma ReachesStart(g: Graph, order: seq<nat>, oi: nat, before: seq<nat>, k: nat, u: nat)
    requires FinishOrder(g, order) && 0 < oi <= |order| && Numbered(g, order, oi, before, k)
    requires u < |g| && !Assigned(before, u) && Reach(g, u, order[oi - 1])
    ensures Same(g, u, order[oi - 1])
  {
    hide Reach, AllAnswered;
    var j := AnswerAt(g, order, u, order[oi - 1]);
    var i :| 0 <= i < j + 1 && order[i] == order[oi - 1];
    assert i == oi - 1;
    assert Same(g, order[j], u);
    assert Assigned(before, order[j]) ==> Assigned(before, u);
  }

  lemma FloodTakes(g: Graph, before: seq<nat>, comp: seq<nat>, k: nat, start: nat, stack: seq<nat>, v: nat, u: nat)
    requires Closed(g) && Flooding(g, before, comp, k, start, stack) && Edge(g, u, v) && !Assigned(comp, u)
    requires comp[v] == k && v < |g| && !Assigned(before, v)
    ensures Flooding(g, before, comp[u := k], k, start, stack + [u]) && |stack| < |g|
  {
    ReachEdge(g, u, v);
    ReachTrans(g, u, v, start);
    hide Reach, Edge;
    assert !Assigned(before, u);
    Pigeonhole(stack + [u], |g|);
  }

  lemma FloodBorder(g: Graph, before: seq<nat>, comp: seq<nat>, x: nat, y: nat)
    requires |before| == |comp| == |g| && Closed(g) && AllSettled(g, before, comp, [])
    requires x < |g| && !Assigned(comp, x) && Edge(g, x, y)
    ensures y < |g| && (!Assigned(comp, y) || Assigned(before, y))
  {
    var i :| 0 <= i < |g[x]| && g[x][i] == y;
    assert Assigned(comp, y) && !Assigned(before, y) ==> Settled(g, comp, y);
  }

  lemma CarriesOver(g: Graph, before: seq<nat>, s: nat, start: nat)
    requires OnePerComponent(before, g) && Assigned(before, s) && start < |g| && Reach(g, s, start)
    requires Reach(g, start, s)
    ensures Assigned(before, start)
  {
    assert Same(g, s, start);
  }

  /** A finished flood holds the whole component of its start. */
  lemma FloodWhole(g: Graph, before: seq<nat>, comp: seq<nat>, k: nat, start: nat, u: nat)
    requires Flooding(g, before, comp, k, start, []) && AllSettled(g, before, comp, [])
    requires Closed(g) && OnePerComponent(before, g) && !Assigned(before, start)
    requires u < |g| && Same(g, u, start)
    ensures comp[u] == k && !Assigned(before, u)
  {
    hide Reach, Edge, AllSettled;
    assert !Assigned(before, u) by {
      assert Same(g, start, u);
    }
    if !Assigned(comp, u) {
      var inside := set v: nat | 0 <= v < |g| && !Assigned(comp, v);
      var border := set v: nat | 0 <= v < |g| && Assigned(before, v);
      forall x: nat, y: nat | x in inside && Edge(g, x, y) ensures y in inside || y in border {
        FloodBorder(g, before, comp, x, y);
      }
      var s := ReachExit(g, u, start, inside, border);
      ReachTrans(g, start, u, s);
      CarriesOver(g, before, s, start);
    }
  }

  lemma FloodMember(g: Graph, order: seq<nat>, oi: nat, before: seq<nat>, comp: seq<nat>, k: nat, start: nat, u: nat)
    requires FinishOrder(g, order) && 0 < oi <= |order| && Numbered(g, order, oi, before, k) && order[oi - 1] == start
    requires Flooding(g, before, comp, k, start, []) && AllSettled(g, before, comp, []) && !Assigned(before, start)
    requires u < |g|
    ensures !Assigned(before, u) && comp[u] == k <==> Same(g, u, start)
  {
    hide Reach, AllSettled;
    if !Assigned(before, u) && comp[u] == k {
      ReachesStart(g, order, oi, before, k, u);
    }
    if Same(g, u, start) {
      
      FloodWhole(g, before, comp, k, start, u);
    }
  }

  lemma FloodNumbers(g: Graph, before: seq<nat>, comp: seq<nat>, k: nat, start: nat)
    requires Flooding(g, before, comp, k, start, []) && Numbers(before, g, k)
    ensures Numbers(comp, g, k + 1)
  {
    hide Reach;
    forall c | 0 <= c < k ensures c in comp {
      assert c in before;
      var v :| 0 <= v < |before| && before[v] == c;
      assert Assigned(before, v);
    }
  }

  lemma FloodComponents(g: Graph, before: seq<nat>, comp: seq<nat>, k: nat, start: nat)
    requires Flooding(g, before, comp, k, start, []) && OnePerComponent(before, g) && Numbers(before, g, k)
    requires forall u | 0 <= u < |g| :: !Assigned(before, u) && comp[u] == k <==> Same(g, u, start)
    ensures OnePerComponent(comp, g)
  {
    hide Reach;
    forall u, v | 0 <= u < |g| && 0 <= v < |g| && Assigned(comp, u)
      ensures Assigned(comp, v) ==> (comp[u] == comp[v] <==> Same(g, u, v))
      ensures Same(g, u, v) ==> Assigned(comp, v)
    {
      if !Assigned(before, u) {
        if Same(g, u, v) {
          SameTrans(g, v, u, start);
        }
        if !Assigned(before, v) && comp[v] == k {
          SameTrans(g, u, start, v);
        }
      } else if Same(g, u, v) {
        assert Assigned(before, v);
      }
    }
  }

  lemma FloodPartition(g: Graph, order: seq<nat>, oi: nat, before: seq<nat>, comp: seq<nat>, k: nat, start: nat)
    requires FinishOrder(g, order) && 0 < oi <= |order| && Numbered(g, order, oi, before, k) && order[oi - 1] == start
    requires Flooding(g, before, comp, k, start, []) && AllSettled(g, before, comp, []) && !Assigned(before, start)
    ensures OnePerComponent(comp, g)
  {
    hide Reach, AllSettled, FinishOrder, OnePerComponent;
    forall u | 0 <= u < |g| ensures !Assigned(before, u) && comp[u] == k <==> Same(g, u, start) {
      FloodMember(g, order, oi, before, comp, k, start, u);
    }
    FloodComponents(g, before, comp, k, start);
  }

  lemma FloodOrder(g: Graph, order: seq<nat>, oi: nat, before: seq<nat>, comp: seq<nat>, k: nat)
    requires 0 < oi <= |order| && Numbered(g, order, oi, before, k) && Below(order, |g|)
    requires Flooding(g, before, comp, k, order[oi - 1], [])
    ensures forall j | oi - 1 <= j < |order| :: Assigned(comp, order[j])
  {
    hide Numbers, OnePerComponent, Reach;
    forall j | oi - 1 <= j < |order| ensures Assigned(comp, order[j]) {
      assert j >= oi ==> Assigned(before, order[j]);
    }
  }

  /** A finished flood leaves one more component numbered. */
  lemma FloodDone(g: Graph, order: seq<nat>, oi: nat, before: seq<nat>, comp: seq<nat>, k: nat)
    requires FinishOrder(g, order) && 0 < oi <= |order| && Numbered(g, order, oi, before, k)
    requires Flooding(g, before, comp, k, order[oi - 1], []) && AllSettled(g, before, comp, [])
    requires !Assigned(before, order[oi - 1])
    ensures Numbered(g, order, oi - 1, comp, k + 1)
  {
    hide AllSettled, OnePerComponent, Numbers, Reach, AllAnswered;
    FloodNumbers(g, before, comp, k, order[oi - 1]);
    FloodPartition(g, order, oi, before, comp, k, order[oi - 1]);
    FloodOrder(g, order, oi, before, comp, k);
  }

  lemma FloodStarts(g: Graph, before: seq<nat>, k: nat, start: nat)
    requires |before| == |g| && start < |g| && k < UNASSIGNED && !Assigned(before, start)
    requires Numbers(before, g, k)
    ensures Flooding(g, before, before[start := k], k, start, [start])
    ensures AllSettled(g, before, before[start := k], [start])
  {
    ReachSelf(g, start);
    hide Reach;
  }

  lemma StillSettled(g: Graph, before: seq<nat>, comp: seq<nat>, comp': seq<nat>, pending: seq<nat>, pending': seq<nat>)
    requires AllSettled(g, before, comp, pending) && |comp| == |comp'|
    requires forall v | Assigned(comp, v) :: Assigned(comp', v)
    requires forall v | Assigned(comp', v) && !Assigned(before, v) ::
      v in pending' || (Assigned(comp, v) && v !in pending)
    ensures AllSettled(g, before, comp', pending')
  {
    forall v | 0 <= v < |g| && Assigned(comp', v) && !Assigned(before, v) && v !in pending'
      ensures Settled(g, comp', v)
    {
      assert Settled(g, comp, v);
    }
  }

  lemma OneSettled(g: Graph, before: seq<nat>, comp: seq<nat>, pending: seq<nat>, v: nat)
    requires AllSettled(g, before, comp, pending + [v]) && Settled(g, comp, v)
    ensures AllSettled(g, before, comp, pending)
  {
    hide Settled;
  }

  /** How many vertices have no number yet. */
  function Free(comp: seq<nat>): nat {
    if comp == [] then 0 else Free(comp[1..]) + if comp[0] == UNASSIGNED then 1 else 0
  }

  lemma {:induction false} FreeTaken(comp: seq<nat>, v: nat, k: nat)
    requires v < |comp| && comp[v] == UNASSIGNED && k != UNASSIGNED
    ensures Free(comp[v := k]) == Free(comp) - 1
  {
    var comp' := comp[v := k];
    if v > 0 {
      assert comp'[1..] == comp[1..][v - 1 := k];
      FreeTaken(comp[1..], v - 1, k);
    } else {
      assert comp'[1..] == comp[1..];
    }
  }

  lemma CallersSettled(g: Graph, r: Graph, comp: seq<nat>, v: nat)
    requires Reverses(r, g) && v < |g| && Looked(r, comp, v, |r[v]|)
    ensures Settled(g, comp, v)
  {
    forall u | Edge(g, u, v) ensures Assigned(comp, u) {
      assert Edge(r, v, u);
    }
  }

  lemma RowEdge(redges: seq<nat>, r: Graph, g: Graph, v: nat, i: nat)
    requires Reverses(r, g) && v < |r| && RowAt(redges, r, v) && Total(r, v) <= i < Total(r, v + 1)
    ensures i < |redges| && redges[i] == r[v][i - Total(r, v)] < |g| && Edge(g, redges[i], v)
  {
    assert Edge(r, v, r[v][i - Total(r, v)]);
  }

  lemma FloodBounds(g: Graph, before: seq<nat>, comp: seq<nat>, k: nat, start: nat, stack: seq<nat>)
    requires Flooding(g, before, comp, k, start, stack)
    ensures k < UNASSIGNED && |before| == |comp|
  {
  }

  ghost predicate Looked(r: Graph, comp: seq<nat>, v: nat, n: int) {
    v < |r| && n <= |r[v]| && forall j | 0 <= j < n :: Assigned(comp, r[v][j])
  }

  lemma SameSize(r: Graph, g: Graph)
    requires Reverses(r, g)
    ensures |r| == |g|
  {
  }

  /** Where a row of a compressed graph begins and ends. */
  lemma CsrRow(offsets: seq<nat>, edges: seq<nat>, g: Graph, v: nat)
    requires Csr(offsets, edges, g) && v < |g|
    ensures |offsets| == |g| + 1 && RowAt(edges, g, v)
    ensures offsets[v] == Total(g, v) && offsets[v + 1] == Total(g, v + 1) == Total(g, v) + |g[v]|
  {
  }

  lemma LookedNone(r: Graph, comp: seq<nat>, v: nat)
    requires v < |r|
    ensures Looked(r, comp, v, 0)
  {
  }

  lemma LookedMore(r: Graph, comp: seq<nat>, comp': seq<nat>, v: nat, n: nat)
    requires Looked(r, comp, v, n) && n < |r[v]| && Assigned(comp', r[v][n])
    requires forall u | Assigned(comp, u) :: Assigned(comp', u)
    ensures Looked(r, comp', v, n + 1)
  {
  }

  /** Give one caller the component's number, unless it has one. */
  method TakeCaller(ghost g: Graph, ghost before: seq<nat>, comp: array<nat>, stack: array<nat>,
    k: nat, ghost start: nat, ghost value: nat, to: nat, depth: nat)
    returns (depth': nat)
    requires Closed(g) && comp.Length == stack.Length == |g| && comp != stack && k < UNASSIGNED
    requires depth <= |g| && Flooding(g, before, comp[..], k, start, stack[..depth])
    requires value < |g| && comp[value] == k && !Assigned(before, value)
    requires AllSettled(g, before, comp[..], stack[..depth] + [value])
    requires to < |g| && Edge(g, to, value)
    modifies comp, stack
    ensures depth' <= |g| && Flooding(g, before, comp[..], k, start, stack[..depth'])
    ensures AllSettled(g, before, comp[..], stack[..depth'] + [value])
    ensures Free(comp[..]) + depth' == old(Free(comp[..])) + depth && Free(comp[..]) <= old(Free(comp[..]))
    ensures Assigned(comp[..], to) && comp[value] == k && forall v | Assigned(old(comp[..]), v) :: Assigned(comp[..], v)
  {
    hide AllSettled, Flooding, Free;
    depth' := depth;
    ghost var was, path := comp[..], stack[..depth];
    if comp[to] == UNASSIGNED {
      FloodTakes(g, before, was, k, start, path, value, to);
      FreeTaken(was, to, k);
      FloodBounds(g, before, was, k, start, path);
      StillSettled(g, before, was, was[to := k], path + [value], path + [to] + [value]);
      comp[to] := k;
      stack[depth] := to;
      depth' := depth + 1;
      assert comp[..] == was[to := k] && stack[..depth'] == path + [to];
    }
  }

  /** Number the callers of one vertex of the component that have no number yet. */
  method FloodFrom(roffsets: array<nat>, redges: array<nat>, ghost r: Graph, ghost g: Graph, ghost before: seq<nat>,
    comp: array<nat>, stack: array<nat>, k: nat, ghost start: nat, value: nat, depth: nat)
    returns (depth': nat)
    requires Closed(g) && Reverses(r, g) && Csr(roffsets[..], redges[..], r)
    requires comp.Length == stack.Length == |g| && comp != stack && {roffsets, redges} !! {comp, stack}
    requires depth < |g| && Flooding(g, before, comp[..], k, start, stack[..depth])
    requires value < |g| && comp[value] == k && !Assigned(before, value)
    requires AllSettled(g, before, comp[..], stack[..depth] + [value])
    modifies comp, stack
    ensures depth' <= |g| && Flooding(g, before, comp[..], k, start, stack[..depth'])
    ensures AllSettled(g, before, comp[..], stack[..depth'])
    ensures Free(comp[..]) + depth' == old(Free(comp[..])) + depth && Free(comp[..]) <= old(Free(comp[..]))
  {
    hide *;
    depth' := depth;
    SameSize(r, g);
    CsrRow(roffsets[..], redges[..], r, value);
    LookedNone(r, comp[..], value);
    FloodBounds(g, before, comp[..], k, start, stack[..depth]);
    for i := roffsets[value] to roffsets[value + 1]
      invariant depth' <= |g| && Flooding(g, before, comp[..], k, start, stack[..depth'])
      invariant comp[value] == k && AllSettled(g, before, comp[..], stack[..depth'] + [value])
      invariant Free(comp[..]) + depth' == old(Free(comp[..])) + depth && Free(comp[..]) <= old(Free(comp[..]))
      invariant Looked(r, comp[..], value, i - Total(r, value))
      modifies comp, stack
    {
      RowEdge(redges[..], r, g, value, i);
      ghost var was := comp[..];
      depth' := TakeCaller(g, before, comp, stack, k, start, value, redges[i], depth');
      LookedMore(r, was, comp[..], value, i - Total(r, value));
    }
    CallersSettled(g, r, comp[..], value);
    OneSettled(g, before, comp[..], stack[..depth'], value);
  }

  method Flood(roffsets: array<nat>, redges: array<nat>, ghost r: Graph, ghost g: Graph,
    comp: array<nat>, stack: array<nat>, k: nat, start: nat)
    requires Closed(g) && Reverses(r, g) && Csr(roffsets[..], redges[..], r)
    requires comp.Length == stack.Length == |g| && comp != stack && {roffsets, redges} !! {comp, stack}
    requires start < |g| && comp[start] == UNASSIGNED && k < UNASSIGNED && Numbers(comp[..], g, k)
    modifies comp, stack
    ensures Flooding(g, old(comp[..]), comp[..], k, start, [])
    ensures AllSettled(g, old(comp[..]), comp[..], [])
  {
    ghost var before := comp[..];
    FloodStarts(g, before, k, start);
    stack[0] := start;
    comp[start] := k;
    var depth: nat := 1;
    assert stack[..1] == [start] && comp[..] == before[start := k];
    hide AllSettled, Flooding, Free, Reverses, Csr;
    while depth > 0
      invariant depth <= |g| && Flooding(g, before, comp[..], k, start, stack[..depth])
      invariant AllSettled(g, before, comp[..], stack[..depth])
      decreases 2 * Free(comp[..]) + depth
    {
      depth := depth - 1;
      var value := stack[depth];
      FloodPop(g, before, comp[..], k, start, stack[..depth + 1]);
      assert stack[..depth + 1] == stack[..depth] + [value] && stack[..depth + 1][..depth] == stack[..depth];
      depth := FloodFrom(roffsets, redges, r, g, before, comp, stack, k, start, value, depth);
    }
    assert stack[..0] == [];
  }

  lemma FloodPop(g: Graph, before: seq<nat>, comp: seq<nat>, k: nat, start: nat, stack: seq<nat>)
    requires Flooding(g, before, comp, k, start, stack) && stack != []
    ensures Flooding(g, before, comp, k, start, stack[..|stack| - 1])
    ensures var v := stack[|stack| - 1]; v < |g| && comp[v] == k && !Assigned(before, v)
  {
    hide Reach;
    assert stack[|stack| - 1] in stack;
  }

  /** `comp` numbers the vertices 0..count by component. */
  ghost predicate Partition(comp: seq<nat>, count: nat, g: Graph) {
    && |comp| == |g|
    && (forall u | 0 <= u < |g| :: comp[u] < count)
    && (forall c | 0 <= c < count :: c in comp)
    && (forall u, v | 0 <= u < |g| && 0 <= v < |g| :: comp[u] == comp[v] <==> Same(g, u, v))
  }

  /** Number the component of the latest-finished vertex that may still lack a number. */
  method NumberNext(roffsets: array<nat>, redges: array<nat>, ghost r: Graph, ghost g: Graph, order: array<nat>,
    oi: nat, comp: array<nat>, stack: array<nat>, count: nat) returns (count': nat)
    requires |g| < UNASSIGNED && Reverses(r, g) && Csr(roffsets[..], redges[..], r) && FinishOrder(g, order[..])
    requires comp.Length == stack.Length == |g| && comp != stack && {roffsets, redges, order} !! {comp, stack}
    requires oi < order.Length == |g| && count < |g| - oi && Numbered(g, order[..], oi + 1, comp[..], count)
    modifies comp, stack
    ensures count' <= |g| - oi && Numbered(g, order[..], oi, comp[..], count')
  {
    hide Csr, Reverses, FinishOrder, Numbered, Flooding, AllSettled;
    ghost var before := comp[..];
    StillFree(g, order[..], oi + 1, before, count);
    var start := order[oi];
    count' := count;
    if comp[start] == UNASSIGNED {
      Flood(roffsets, redges, r, g, comp, stack, count, start);
      FloodDone(g, order[..], oi + 1, before, comp[..], count);
      count' := count + 1;
    } else {
      SkipNumbered(g, order[..], oi + 1, before, count);
    }
  }

  /** Two vertices get the same number exactly when each reaches the other, and the numbers in use
      are 0, 1, ... without a gap. */
  method NumberComponents(roffsets: array<nat>, redges: array<nat>, ghost r: Graph, ghost g: Graph, order: array<nat>,
    n: nat)
    returns (comp: array<nat>, count: nat)
    requires |g| == n < UNASSIGNED && Reverses(r, g) && Csr(roffsets[..], redges[..], r) && FinishOrder(g, order[..])
    ensures fresh(comp) && Partition(comp[..], count, g)
  {
    comp := new nat[n](_ => UNASSIGNED);
    var stack := new nat[n];
    count := 0;
    NoneNumbered(g, order[..], comp[..]);
    hide Csr, Reverses, FinishOrder, Numbered, Flooding, AllSettled;
    for oi := n downto 0
      invariant count <= n - oi && Numbered(g, order[..], oi, comp[..], count)
      modifies comp, stack
    {
      count := NumberNext(roffsets, redges, r, g, order, oi, comp, stack, count);
    }
    AllNumbered(g, order[..], comp[..], count);
  }

  lemma NoneNumbered(g: Graph, order: seq<nat>, comp: seq<nat>)
    requires FinishOrder(g, order) && |comp| == |g| && forall v | 0 <= v < |g| :: comp[v] == UNASSIGNED
    ensures Numbered(g, order, |order|, comp, 0) && |order| == |g|
  {
  }

  lemma StillFree(g: Graph, order: seq<nat>, oi: nat, comp: seq<nat>, k: nat)
    requires FinishOrder(g, order) && Numbered(g, order, oi, comp, k) && 0 < oi <= |order|
    ensures order[oi - 1] < |g| && Closed(g) && Numbers(comp, g, k)
  {
  }

  lemma SkipNumbered(g: Graph, order: seq<nat>, oi: nat, comp: seq<nat>, k: nat)
    requires Numbered(g, order, oi, comp, k) && 0 < oi <= |order| && Assigned(comp, order[oi - 1])
    ensures Numbered(g, order, oi - 1, comp, k)
  {
    hide Numbers, OnePerComponent;
  }

  lemma AllNumbered(g: Graph, order: seq<nat>, comp: seq<nat>, k: nat)
    requires FinishOrder(g, order) && Numbered(g, order, 0, comp, k)
    ensures Partition(comp, k, g)
  {
    hide Same, AllAnswered;
    forall v | 0 <= v < |g| ensures Assigned(comp, v) {
      assert v in order;
    }
  }
}
