/** Strongly connected components of the call graph by two iterative searches. */
module Components {
  import opened Digraph
  import opened CallGraph
  import opened Lists

  // ----- first pass: finishing order -----

  /** `v` finished no later than `w`. */
  ghost predicate Before(order: seq<nat>, v: nat, w: nat) {
    exists j :: 0 <= j < |order| && order[j] == w && v in order[..j + 1]
  }

  ghost predicate Witness(g: Graph, order: seq<nat>, stack: seq<nat>, u: nat, v: nat, w: nat) {
    Same(g, u, w) && (w in stack || Before(order, v, w))
  }

  /** Some member of `u`'s component is unfinished, or finished no earlier than `v`. */
  ghost predicate Answered(g: Graph, order: seq<nat>, stack: seq<nat>, u: nat, v: nat) {
    exists w :: Witness(g, order, stack, u, v, w)
  }

  ghost predicate AllAnswered(g: Graph, order: seq<nat>, stack: seq<nat>) {
    forall u, v | u in order && Reach(g, u, v) :: Answered(g, order, stack, u, v)
  }

  predicate Visited(order: seq<nat>, stack: seq<nat>, v: nat) {
    v in order || v in stack
  }

  ghost predicate Shape(g: Graph, order: seq<nat>, stack: seq<nat>, done: seq<nat>) {
    && Closed(g) && |done| == |stack|
    && Below(order, |g|) && Below(stack, |g|)
    && Distinct(order) && Distinct(stack) && (forall u | u in order :: u !in stack)
    && (forall i | 0 <= i < |stack| :: done[i] <= |g[stack[i]]|)
  }

  ghost predicate Chain(g: Graph, stack: seq<nat>) {
    forall i | 0 <= i < |stack| - 1 :: Edge(g, stack[i], stack[i + 1])
  }

  ghost predicate OrderClosed(g: Graph, order: seq<nat>, stack: seq<nat>) {
    forall u, v | u in order && Edge(g, u, v) :: Visited(order, stack, v)
  }

  ghost predicate DoneVisited(g: Graph, order: seq<nat>, stack: seq<nat>, done: seq<nat>)
    requires Shape(g, order, stack, done)
  {
    forall i, k | 0 <= i < |stack| && 0 <= k < done[i] :: Visited(order, stack, g[stack[i]][k])
  }

  /** The search has finished `order`, is inside `stack`, and has looked at the first `done[i]`
      successors of the `i`th stack entry. */
  ghost predicate Searching(g: Graph, order: seq<nat>, stack: seq<nat>, done: seq<nat>) {
    && Shape(g, order, stack, done)
    && Chain(g, stack)
    && OrderClosed(g, order, stack)
    && DoneVisited(g, order, stack, done)
    && AllAnswered(g, order, stack)
  }

  lemma {:induction false} StackReach(g: Graph, stack: seq<nat>, i: nat, j: nat)
    requires i <= j < |stack| && stack[i] < |g| && Closed(g)
    requires Chain(g, stack)
    ensures Reach(g, stack[i], stack[j])
    decreases j
  {
    if i == j {
      ReachSelf(g, stack[i]);
    } else {
      StackReach(g, stack, i, j - 1);
      ReachEdge(g, stack[j - 1], stack[j]);
      ReachTrans(g, stack[i], stack[j - 1], stack[j]);
    }
  }

  /** Everything reachable from a vertex about to finish is finished, or its component still has
      an unfinished member below it. */
  lemma FinishReaches(g: Graph, order: seq<nat>, stack: seq<nat>, done: seq<nat>, v: nat) returns (s: nat)
    requires Searching(g, order, stack, done) && stack != []
    requires var t := stack[|stack| - 1]; done[|stack| - 1] == |g[t]| && Reach(g, t, v)
    ensures var t := stack[|stack| - 1];
      v in order + [t] || (s in stack[..|stack| - 1] && Same(g, t, s))
  {
    var t, below := stack[|stack| - 1], stack[..|stack| - 1];
    var finished := order + [t];
    s := t;
    if v !in finished {
      var inside, border := (set u | u in finished), (set u | u in below);
      forall x, y | x in inside && Edge(g, x, y) ensures y in inside || y in border {
        if x == t {
          var k :| 0 <= k < |g[t]| && g[t][k] == y;
          assert Visited(order, stack, g[stack[|stack| - 1]][k]);
        } else {
          assert Visited(order, stack, y);
        }
      }
      s := ReachExit(g, t, v, inside, border);
      var i :| 0 <= i < |below| && below[i] == s;
      StackReach(g, stack, i, |stack| - 1);
    }
  }

  lemma BeforeGrows(order: seq<nat>, t: nat, v: nat, w: nat)
    requires Before(order, v, w)
    ensures Before(order + [t], v, w)
  {
    var j :| 0 <= j < |order| && order[j] == w && v in order[..j + 1];
    assert (order + [t])[..j + 1] == order[..j + 1];
  }

  lemma BeforeLast(order: seq<nat>, t: nat, v: nat)
    requires v in order + [t]
    ensures Before(order + [t], v, t)
  {
    var o := order + [t];
    assert o[..|order| + 1] == o && o[|order|] == t;
  }

  lemma FinishAnswers(g: Graph, order: seq<nat>, stack: seq<nat>, done: seq<nat>, u: nat, v: nat)
    requires Searching(g, order, stack, done) && stack != []
    requires var t := stack[|stack| - 1]; done[|stack| - 1] == |g[t]| && u in order + [t] && Reach(g, u, v)
    ensures Answered(g, order + [stack[|stack| - 1]], stack[..|stack| - 1], u, v)
  {
    hide Reach, Before;
    var t, below := stack[|stack| - 1], stack[..|stack| - 1];
    var w: nat := t;
    if u == t {
      ReachSelf(g, t);
    } else {
      assert Answered(g, order, stack, u, v);
      w :| Witness(g, order, stack, u, v, w);
    }
    if w == t {
      ReachTrans(g, t, u, v);
      var s := FinishReaches(g, order, stack, done, v);
      if v in order + [t] {
        BeforeLast(order, t, v);
        assert Witness(g, order + [t], below, u, v, t);
      } else {
        SameTrans(g, u, t, s);
        assert Witness(g, order + [t], below, u, v, s);
      }
    } else if w in stack {
      assert w in below;
      assert Witness(g, order + [t], below, u, v, w);
    } else {
      BeforeGrows(order, t, v, w);
      assert Witness(g, order + [t], below, u, v, w);
    }
  }

  lemma FinishShape(g: Graph, order: seq<nat>, stack: seq<nat>, done: seq<nat>)
    requires Shape(g, order, stack, done) && stack != []
    ensures Shape(g, order + [stack[|stack| - 1]], stack[..|stack| - 1], done[..|stack| - 1])
  {
    var t, below := stack[|stack| - 1], stack[..|stack| - 1];
    assert stack == below + [t];
    assert forall i | 0 <= i < |below| :: below[i] == stack[i] && stack[i] in stack && stack[i] !in order;
    assert t in stack;
  }

  lemma FinishVisited(order: seq<nat>, stack: seq<nat>, v: nat)
    requires stack != []
    ensures Visited(order, stack, v) <==> Visited(order + [stack[|stack| - 1]], stack[..|stack| - 1], v)
  {
    assert stack == stack[..|stack| - 1] + [stack[|stack| - 1]];
  }

  lemma Finish(g: Graph, order: seq<nat>, stack: seq<nat>, done: seq<nat>)
    requires Searching(g, order, stack, done) && stack != []
    requires done[|stack| - 1] == |g[stack[|stack| - 1]]|
    ensures Searching(g, order + [stack[|stack| - 1]], stack[..|stack| - 1], done[..|stack| - 1])
  {
    hide Reach, Answered;
    var t, below := stack[|stack| - 1], stack[..|stack| - 1];
    var order' := order + [t];
    FinishShape(g, order, stack, done);
    assert AllAnswered(g, order', below) by {
      forall u, v | u in order' && Reach(g, u, v) ensures Answered(g, order', below, u, v) {
        FinishAnswers(g, order, stack, done, u, v);
      }
    }
    forall v: nat ensures Visited(order, stack, v) <==> Visited(order', below, v) {
      FinishVisited(order, stack, v);
    }
    assert OrderClosed(g, order', below) by {
      forall u, v | u in order' && Edge(g, u, v) ensures Visited(order', below, v) {
        if u == t {
          var k :| 0 <= k < |g[t]| && g[t][k] == v;
          assert Visited(order, stack, g[stack[|stack| - 1]][k]);
        } else {
          assert Visited(order, stack, v);
        }
      }
    }
    assert DoneVisited(g, order', below, done[..|stack| - 1]) by {
      forall i, k | 0 <= i < |below| && 0 <= k < done[i] ensures Visited(order', below, g[below[i]][k]) {
        assert Visited(order, stack, g[stack[i]][k]);
      }
    }
    assert Chain(g, below) by {
      forall i | 0 <= i < |below| - 1 ensures Edge(g, below[i], below[i + 1]) {
        assert Edge(g, stack[i], stack[i + 1]);
      }
    }
  }

  lemma Enter(g: Graph, order: seq<nat>, stack: seq<nat>, done: seq<nat>, v: nat)
    requires Searching(g, order, stack, done) && v < |g| && !Visited(order, stack, v)
    requires stack != [] ==> Edge(g, stack[|stack| - 1], v)
    ensures Searching(g, order, stack + [v], done + [0])
  {
    hide Reach, Same, Before;
    var stack' := stack + [v];
    forall u, w | u in order && Reach(g, u, w) ensures Answered(g, order, stack', u, w) {
      assert Answered(g, order, stack, u, w);
      var x :| Witness(g, order, stack, u, w, x);
      assert Witness(g, order, stack', u, w, x);
    }
    assert forall u | Visited(order, stack, u) :: Visited(order, stack', u);
  }

  lemma Advance(g: Graph, order: seq<nat>, stack: seq<nat>, done: seq<nat>, i: nat)
    requires Searching(g, order, stack, done) && i < |stack|
    requires done[i] < |g[stack[i]]| && Visited(order, stack, g[stack[i]][done[i]])
    ensures Searching(g, order, stack, done[i := done[i] + 1])
  {
    hide Reach, Answered;
  }

  /** When the search is over every reachable pair is answered by the order alone. */
  ghost predicate FinishOrder(g: Graph, order: seq<nat>) {
    && Closed(g) && Below(order, |g|) && Distinct(order) && |order| == |g|
    && (forall u | 0 <= u < |g| :: u in order)
    && AllAnswered(g, order, [])
  }

  lemma Room(g: Graph, order: seq<nat>, stack: seq<nat>, done: seq<nat>)
    requires Shape(g, order, stack, done)
    ensures |order| + |stack| <= |g|
  {
    var all := order + stack;
    forall i, j | 0 <= i < j < |all| ensures all[i] != all[j] {
      if i < |order| <= j {
        assert all[i] in order && all[j] in stack;
      }
    }
    Pigeonhole(all, |g|);
  }

  /** The arrays of the first pass: what is finished, the path being searched, the next edge to
      look at for each vertex on it, and the visited marks. */
  ghost predicate Tracks(g: Graph, order: seq<nat>, stack: seq<nat>, done: seq<nat>, next: seq<nat>, seen: seq<bool>) {
    && Searching(g, order, stack, done)
    && |seen| == |g| && |next| == |g|
    && |stack| <= |g|
    && (forall v | 0 <= v < |g| :: seen[v] <==> Visited(order, stack, v))
    && (forall i | 0 <= i < |stack| :: next[i] == Total(g, stack[i]) + done[i])
  }

  lemma TrackTop(g: Graph, offsets: seq<nat>, edges: seq<nat>,
    order: seq<nat>, stack: seq<nat>, done: seq<nat>, next: seq<nat>, seen: seq<bool>)
    requires Csr(offsets, edges, g) && Tracks(g, order, stack, done, next, seen) && stack != []
    ensures var i := |stack| - 1; var v := stack[i];
      && v < |g| && i < |g| && (next[i] < offsets[v + 1] <==> done[i] < |g[v]|)
      && (done[i] < |g[v]| ==> next[i] < |edges| && edges[next[i]] == g[v][done[i]] < |g| && Edge(g, v, g[v][done[i]]))
      && (done[i] >= |g[v]| ==> done[i] == |g[v]|)
  {
    hide Reach, Answered;
    var i := |stack| - 1;
    var v := stack[i];
    assert RowAt(edges, g, v);
  }

  lemma SearchLength(g: Graph, order: seq<nat>, stack: seq<nat>, done: seq<nat>)
    requires Searching(g, order, stack, done)
    ensures |done| == |stack|
  {
  }

  lemma TrackEnter(g: Graph, order: seq<nat>, stack: seq<nat>, done: seq<nat>, next: seq<nat>, seen: seq<bool>,
    v: nat, next': seq<nat>)
    requires Tracks(g, order, stack, done, next, seen) && v < |g| && !seen[v]
    requires stack != [] ==> Edge(g, stack[|stack| - 1], v)
    requires |stack| < |next| == |next'| && next'[..|stack|] == next[..|stack|] && next'[|stack|] == Total(g, v)
    ensures Tracks(g, order, stack + [v], done + [0], next', seen[v := true])
  {
    hide Searching, Total;
    SearchLength(g, order, stack, done);
    Enter(g, order, stack, done, v);
    TrackRoom(g, order, stack, done, next, seen);
    assert next'[..|stack|] == next[..|stack|];
    forall i | 0 <= i < |stack| ensures next'[i] == next[i] {
      assert next'[..|stack|][i] == next[..|stack|][i];
    }
    forall u | 0 <= u < |g| ensures seen[v := true][u] <==> Visited(order, stack + [v], u) {
      assert (stack + [v])[|stack|] == v;
    }
  }

  lemma TrackBounds(g: Graph, offsets: seq<nat>, edges: seq<nat>,
    order: seq<nat>, stack: seq<nat>, done: seq<nat>, next: seq<nat>, seen: seq<bool>)
    requires Csr(offsets, edges, g) && Tracks(g, order, stack, done, next, seen)
    ensures |offsets| == |g| + 1 && |seen| == |next| == |g|
    ensures forall u | 0 <= u <= |g| :: offsets[u] == Total(g, u)
  {
  }

  lemma TrackRoom(g: Graph, order: seq<nat>, stack: seq<nat>, done: seq<nat>, next: seq<nat>, seen: seq<bool>)
    requires Tracks(g, order, stack, done, next, seen)
    ensures |order| + |stack| <= |g|
    ensures (exists v | 0 <= v < |g| :: !seen[v]) ==> |order| + |stack| < |g|
  {
    Room(g, order, stack, done);
    if v :| 0 <= v < |g| && !seen[v] {
      Pigeonhole(order, |g|);
      var all := order + stack + [v];
      forall i, j | 0 <= i < j < |all| ensures all[i] != all[j] {
        if i < |order| <= j < |order| + |stack| {
          assert all[i] in order && all[j] in stack;
        }
        if j == |order| + |stack| {
          assert Visited(order, stack, all[i]);
        }
      }
      Pigeonhole(all, |g|);
    }
  }

  lemma TrackAdvance(g: Graph, order: seq<nat>, stack: seq<nat>, done: seq<nat>, next: seq<nat>, seen: seq<bool>,
    i: nat)
    requires Tracks(g, order, stack, done, next, seen) && i < |stack|
    requires done[i] < |g[stack[i]]| && g[stack[i]][done[i]] < |g| && seen[g[stack[i]][done[i]]]
    ensures Tracks(g, order, stack, done[i := done[i] + 1], next[i := next[i] + 1], seen)
  {
    Advance(g, order, stack, done, i);
    hide Searching, Total;
  }

  lemma TrackFinish(g: Graph, order: seq<nat>, stack: seq<nat>, done: seq<nat>, next: seq<nat>, seen: seq<bool>)
    requires Tracks(g, order, stack, done, next, seen) && stack != []
    requires done[|stack| - 1] == |g[stack[|stack| - 1]]|
    ensures Tracks(g, order + [stack[|stack| - 1]], stack[..|stack| - 1], done[..|stack| - 1], next, seen)
  {
    Finish(g, order, stack, done);
    hide Searching, Total;
    forall v | 0 <= v < |g|
      ensures seen[v] <==> Visited(order + [stack[|stack| - 1]], stack[..|stack| - 1], v)
    {
      FinishVisited(order, stack, v);
    }
  }

  lemma NoneTracked(g: Graph, next: seq<nat>, seen: seq<bool>)
    requires Closed(g) && |next| == |g| && |seen| == |g| && forall v | 0 <= v < |g| :: !seen[v]
    ensures Tracks(g, [], [], [], next, seen)
  {
  }

  /** The successors the innermost vertex has still to look at. */
  ghost function Left(g: Graph, stack: seq<nat>, done: seq<nat>): int
  {
    if 0 < |stack| <= |done| && stack[|stack| - 1] < |g| then |g[stack[|stack| - 1]]| - done[|stack| - 1] else 0
  }

  ghost predicate Apart(offsets: array<nat>, edges: array<nat>, order: array<nat>, stack: array<nat>, next: array<nat>)
  {
    && order != stack && order != next && stack != next
    && offsets !in {order, stack, next} && edges !in {order, stack, next}
  }

  /** Look at the next edge of the innermost vertex, going into its target when that is new. */
  method Look(offsets: array<nat>, edges: array<nat>, ghost g: Graph, ghost order: seq<nat>,
    stack: array<nat>, next: array<nat>, seen: array<bool>, depth: nat, ghost done: seq<nat>)
    returns (depth': nat, ghost done': seq<nat>)
    requires Csr(offsets[..], edges[..], g)
    requires stack.Length == next.Length == seen.Length == |g|
    requires stack != next && offsets !in {stack, next} && edges !in {stack, next}
    requires 0 < depth <= |g| && |done| == depth && Tracks(g, order, stack[..depth], done, next[..], seen[..])
    requires stack[depth - 1] < |g| && done[depth - 1] < |g[stack[depth - 1]]|
    modifies stack, next, seen
    ensures depth <= depth' <= |g| && |done'| == depth' && Tracks(g, order, stack[..depth'], done', next[..], seen[..])
    ensures depth' == depth ==> stack[..] == old(stack[..]) && done' == done[depth - 1 := done[depth - 1] + 1]
    ensures forall v | 0 <= v < |g| && old(seen[v]) :: seen[v]
  {
    hide Tracks, Csr;
    depth', done' := depth, done;
    ghost var path, cursors, marks := stack[..depth], next[..], seen[..];
    TrackTop(g, offsets[..], edges[..], order, path, done, cursors, marks);
    TrackBounds(g, offsets[..], edges[..], order, path, done, cursors, marks);
    var at := depth - 1;
    var to := edges[next[at]];
    if seen[to] {
      TrackAdvance(g, order, path, done, cursors, marks, at);
      next[at] := next[at] + 1;
    } else {
      TrackRoom(g, order, path, done, cursors, marks);
      ghost var cursors' := cursors[depth := offsets[to]];
      TrackEnter(g, order, path, done, cursors, marks, to, cursors');
      TrackAdvance(g, order, path + [to], done + [0], cursors', marks[to := true], at);
      next[at] := next[at] + 1;
      seen[to] := true;
      stack[depth] := to;
      next[depth] := offsets[to];
      depth', done' := depth + 1, done + [0];
      assert stack[..depth'] == path + [to] && next[..] == cursors'[at := cursors'[at] + 1];
      assert seen[..] == marks[to := true];
    }
    done' := done'[at := done'[at] + 1];
  }

  /** Search everything reachable from an unvisited vertex. */
  method Visit(offsets: array<nat>, edges: array<nat>, ghost g: Graph, start: nat,
    order: array<nat>, stack: array<nat>, next: array<nat>, seen: array<bool>, count: nat)
    returns (count': nat)
    requires Csr(offsets[..], edges[..], g) && start < |g| && count <= |g|
    requires order.Length == stack.Length == next.Length == seen.Length == |g|
    requires Apart(offsets, edges, order, stack, next)
    requires Tracks(g, order[..count], [], [], next[..], seen[..]) && !seen[start]
    modifies order, stack, next, seen
    ensures count <= count' <= |g| && seen[start]
    ensures Tracks(g, order[..count'], [], [], next[..], seen[..])
    ensures forall v | 0 <= v < |g| && old(seen[v]) :: seen[v]
  {
    hide Tracks, Csr;
    count' := count;
    ghost var cursors, marks := next[..], seen[..];
    TrackBounds(g, offsets[..], edges[..], order[..count], [], [], cursors, marks);
    TrackRoom(g, order[..count], [], [], cursors, marks);
    TrackEnter(g, order[..count], [], [], cursors, marks, start, cursors[0 := offsets[start]]);
    stack[0] := start;
    next[0] := offsets[start];
    seen[start] := true;
    var depth := 1;
    ghost var done: seq<nat> := [] + [0];
    assert stack[..1] == [] + [start] && seen[..] == marks[start := true] && next[..] == cursors[0 := offsets[start]];
    while depth > 0
      invariant count <= count' <= |g| && depth <= |g| && |done| == depth
      invariant Tracks(g, order[..count'], stack[..depth], done, next[..], seen[..])
      invariant seen[start] && forall v | 0 <= v < |g| && old(seen[v]) :: seen[v]
      decreases |g| - count' - depth, depth, Left(g, stack[..depth], done)
    {
      ghost var was, path := order[..count'], stack[..depth];
      var at := depth - 1;
      var value := stack[at];
      TrackTop(g, offsets[..], edges[..], was, path, done, next[..], seen[..]);
      TrackRoom(g, was, path, done, next[..], seen[..]);
      if next[at] < offsets[value + 1] {
        depth, done := Look(offsets, edges, g, was, stack, next, seen, depth, done);
        TrackRoom(g, was, stack[..depth], done, next[..], seen[..]);
      } else {
        TrackFinish(g, was, path, done, next[..], seen[..]);
        order[count'] := value;
        count' := count' + 1;
        depth := depth - 1;
        done := done[..depth];
        assert order[..count'] == was + [value] && stack[..depth] == path[..depth];
      }
    }
    assert stack[..0] == [] && done == [];
  }

  /** The first pass: every vertex, in the order in which its search finished. */
  method SearchAll(offsets: array<nat>, edges: array<nat>, n: nat, ghost g: Graph) returns (order: array<nat>)
    requires |g| == n && Csr(offsets[..], edges[..], g) && Closed(g)
    ensures fresh(order) && FinishOrder(g, order[..])
  {
    order := new nat[n];
    var stack, next, seen := new nat[n], new nat[n], new bool[n](_ => false);
    var count := 0;
    NoneTracked(g, next[..], seen[..]);
    assert order[..0] == [];
    hide Tracks, Csr;
    for start := 0 to n
      invariant count <= n && Tracks(g, order[..count], [], [], next[..], seen[..])
      invariant forall v | 0 <= v < start :: seen[v]
      modifies order, stack, next, seen
    {
      if !seen[start] {
        count := Visit(offsets, edges, g, start, order, stack, next, seen, count);
      }
    }
    AllTracked(g, order[..count], next[..], seen[..]);
    assert order[..] == order[..count];
  }

  lemma AllTracked(g: Graph, order: seq<nat>, next: seq<nat>, seen: seq<bool>)
    requires Tracks(g, order, [], [], next, seen) && forall v | 0 <= v < |g| :: seen[v]
    ensures FinishOrder(g, order)
  {
    hide Answered;
    Pigeonhole(order, |g|);
    forall v | 0 <= v < |g| ensures v in order {
      assert Visited(order, [], v);
    }
    Onto(order, |g|);
  }
}
