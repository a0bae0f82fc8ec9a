/** Reading and changing stacks held in the pool. */
module ShapeOps {
  import opened Words
  import opened Shapes
  import opened ShapePool

  /** What a node says about the stack it stands for. */
  lemma TopOf(nodes: seq<Node>, lists: seq<Layout>, i: nat)
    requires Spells(nodes, lists) && i < |lists|
    ensures Solid(lists[i]) && nodes[i].depth == Depth(lists[i])
    ensures i == 0 <==> lists[i] == []
    ensures i > 0 ==> var l := lists[i];
      && l[|l| - 1] == nodes[i].entry && nodes[i].prev < i && lists[nodes[i].prev] == l[..|l| - 1]
      && Span(nodes[i].entry) > 0 && l == lists[nodes[i].prev] + [nodes[i].entry]
  {
    if i > 0 {
      var a := lists[nodes[i].prev];
      assert lists[i] == a + [nodes[i].entry];
      assert lists[i][..|a|] == a;
      assert Solid(lists[i]) && lists[i][|a|] == nodes[i].entry;
    }
  }

  /** The node of the scalar cell `depth` cells below the top, or 0. */
  method FindCell(pool: Pool, stack: nat, depth: nat) returns (slot: nat)
    requires pool.Valid() && stack < |pool.lists|
    ensures slot < |pool.nodes|
    ensures slot == 0 ==> CellAt(pool.lists[stack], depth) == None
    ensures slot != 0 ==> pool.nodes[slot].entry.Scalar?
    ensures slot != 0 ==> CellAt(pool.lists[stack], depth) == Some(pool.nodes[slot].entry.kind)
  {
    ghost var nodes, lists := pool.nodes, pool.lists;
    assert Spells(nodes, lists);
    hide Spells, Canonical, Table, Depth, Solid, Pool.Valid, Pool.Sound;
    var cursor: nat, left: nat := stack, depth;
    while cursor != 0
      invariant cursor < |lists| && CellAt(lists[cursor], left) == CellAt(lists[stack], depth)
    {
      var node := pool.nodes[cursor];
      TopOf(nodes, lists, cursor);
      if left < Span(node.entry) {
        return if node.entry.Block? then 0 else cursor;
      }
      left := left - Span(node.entry);
      cursor := node.prev;
    }
    slot := 0;
    TopOf(nodes, lists, 0);
  }

  lemma FrameStep(l: Layout, rest: Layout, top: Entry, above: nat, next: nat, offset: nat, width: nat)
    requires l == rest + [top] && next == above + 8 * Span(top)
    ensures Covers(top, above, offset) ==> (FrameBytes(l, above, offset, width) <==> Inside(top, above, offset, width))
    ensures !Covers(top, above, offset) ==>
      (FrameBytes(l, above, offset, width) <==> FrameBytes(rest, next, offset, width))
  {
    assert l[..|l| - 1] == rest;
  }

  /** Whether a byte access lies inside one live block. */
  method FrameAccess(pool: Pool, stack: nat, offset: nat, width: nat) returns (ok: bool)
    requires pool.Valid() && stack < |pool.lists|
    ensures ok <==> FrameBytes(pool.lists[stack], 0, offset, width)
  {
    ghost var nodes, lists := pool.nodes, pool.lists;
    assert Spells(nodes, lists) && |lists| == |nodes|;
    hide Spells, Canonical, Table, Depth, Solid, Inside, Covers, Span, Pool.Valid, Pool.Sound;
    var cursor: nat, above: nat := stack, 0;
    while cursor != 0
      invariant cursor < |lists|
      invariant FrameBytes(lists[cursor], above, offset, width) <==> FrameBytes(lists[stack], 0, offset, width)
    {
      var node := pool.nodes[cursor];
      TopOf(nodes, lists, cursor);
      var next := above + 8 * Span(node.entry);
      FrameStep(lists[cursor], lists[node.prev], node.entry, above, next, offset, width);
      if Covers(node.entry, above, offset) {
        return Inside(node.entry, above, offset, width);
      }
      above := next;
      cursor := node.prev;
    }
    ok := false;
    TopOf(nodes, lists, 0);
    FrameNone(above, offset, width);
  }

  lemma FrameNone(above: nat, offset: nat, width: nat)
    ensures !FrameBytes([], above, offset, width)
  {
  }

  /** Whether the stack holds exactly the given kinds, the last on top. */
  method Holds(pool: Pool, stack: nat, kinds: seq<Kind>) returns (ok: bool)
    requires pool.Valid() && stack < |pool.lists|
    ensures ok <==> pool.lists[stack] == Lift(kinds)
  {
    ghost var nodes, lists := pool.nodes, pool.lists;
    assert Spells(nodes, lists) && |lists| == |nodes|;
    var cursor: nat := stack;
    HoldsStart(lists[stack], kinds);
    hide *;
    for index := |kinds| downto 0
      invariant cursor < |lists| && Matched(lists[stack], lists[cursor], kinds, index)
    {
      TopOf(nodes, lists, cursor);
      HoldsStep(lists[stack], lists[cursor], kinds, index);
      if cursor == 0 || pool.nodes[cursor].entry != Scalar(kinds[index]) {
        return false;
      }
      cursor := pool.nodes[cursor].prev;
    }
    TopOf(nodes, lists, cursor);
    HoldsEnd(lists[stack], lists[cursor], kinds);
    ok := cursor == 0;
  }

  /** All but the first `n` kinds have been seen on top of `rest`. */
  predicate Matched(l: Layout, rest: Layout, kinds: seq<Kind>, n: nat) {
    n <= |kinds| && l == rest + Lift(kinds[n..])
  }

  lemma HoldsStart(l: Layout, kinds: seq<Kind>)
    ensures Matched(l, l, kinds, |kinds|)
  {
  }

  lemma HoldsStep(l: Layout, rest: Layout, kinds: seq<Kind>, n: nat)
    requires Matched(l, rest, kinds, n + 1)
    ensures
      if rest != [] && rest[|rest| - 1] == Scalar(kinds[n]) then Matched(l, rest[..|rest| - 1], kinds, n)
      else l != Lift(kinds)
  {
    if rest != [] && rest[|rest| - 1] == Scalar(kinds[n]) {
      assert Lift(kinds[n..]) == [Scalar(kinds[n])] + Lift(kinds[n + 1..]);
      assert rest == rest[..|rest| - 1] + [rest[|rest| - 1]];
    } else {
      LiftEnds(rest, kinds, n + 1);
      assert Lift(kinds[..n + 1])[n] == Scalar(kinds[n]);
    }
  }

  lemma HoldsEnd(l: Layout, rest: Layout, kinds: seq<Kind>)
    requires Matched(l, rest, kinds, 0)
    ensures l == Lift(kinds) <==> rest == []
  {
    assert kinds[0..] == kinds;
    LiftEnds(rest, kinds, 0);
  }

  lemma LiftEnds(l: Layout, kinds: seq<Kind>, n: nat)
    requires n <= |kinds|
    ensures l + Lift(kinds[n..]) == Lift(kinds) <==> l == Lift(kinds[..n])
  {
    assert Lift(kinds) == Lift(kinds[..n]) + Lift(kinds[n..]);
    assert l == (l + Lift(kinds[n..]))[..|l|];
    assert Lift(kinds[..n]) == Lift(kinds)[..n];
  }

  // ----- replacing a cell -----

  /** Indices of nodes whose entries take up room. */
  predicate Proper(nodes: seq<Node>, prefix: seq<nat>) {
    forall i | 0 <= i < |prefix| :: prefix[i] < |nodes| && Span(nodes[prefix[i]].entry) > 0
  }

  /** The entries of the nodes in `prefix`, the first of them on top. */
  function Above(nodes: seq<Node>, prefix: seq<nat>): Layout
    requires Proper(nodes, prefix)
  {
    if prefix == [] then [] else [nodes[prefix[|prefix| - 1]].entry] + Above(nodes, prefix[..|prefix| - 1])
  }

  /** The cells those entries take up. */
  function Passed(nodes: seq<Node>, prefix: seq<nat>): nat
    requires Proper(nodes, prefix)
  {
    if prefix == [] then 0 else Passed(nodes, prefix[..|prefix| - 1]) + Span(nodes[prefix[|prefix| - 1]].entry)
  }

  lemma AboveMore(nodes: seq<Node>, prefix: seq<nat>, n: nat, l: Layout)
    requires n < |nodes| && Span(nodes[n].entry) > 0 && Proper(nodes, prefix)
    ensures l + Above(nodes, prefix + [n]) == l + [nodes[n].entry] + Above(nodes, prefix)
    ensures Passed(nodes, prefix + [n]) == Passed(nodes, prefix) + Span(nodes[n].entry)
  {
    assert (prefix + [n])[..|prefix|] == prefix;
  }

  /** What the walk down to the cell keeps: the entries passed go back on top of the changed rest. */
  ghost predicate Descent(nodes: seq<Node>, l: Layout, depth: nat, kind: Kind, rest: Layout, left: nat,
    prefix: seq<nat>)
  {
    && Proper(nodes, prefix) && Passed(nodes, prefix) + left == depth
    && CellAt(l, depth).Some? && CellAt(rest, left).Some?
    && CellSet(l, depth, kind) == CellSet(rest, left, kind) + Above(nodes, prefix)
    && (CellAt(rest, left) == CellAt(l, depth))
  }

  lemma DescentStep(nodes: seq<Node>, l: Layout, depth: nat, kind: Kind, rest: Layout, left: nat, prefix: seq<nat>,
    n: nat, under: Layout)
    requires Descent(nodes, l, depth, kind, rest, left, prefix)
    requires n < |nodes| && Span(nodes[n].entry) > 0 && rest == under + [nodes[n].entry] && left >= Span(nodes[n].entry)
    ensures Descent(nodes, l, depth, kind, under, left - Span(nodes[n].entry), prefix + [n])
  {
    assert rest[..|rest| - 1] == under;
    AboveMore(nodes, prefix, n, CellSet(under, left - Span(nodes[n].entry), kind));
  }

  lemma DescentEnd(nodes: seq<Node>, l: Layout, depth: nat, kind: Kind, rest: Layout, left: nat, prefix: seq<nat>,
    top: Entry, under: Layout)
    requires Descent(nodes, l, depth, kind, rest, left, prefix)
    requires rest == under + [top] && left < Span(top)
    ensures top.Scalar? && CellAt(l, depth) == Some(top.kind)
    ensures CellSet(l, depth, kind) == under + [Scalar(kind)] + Above(nodes, prefix) && Passed(nodes, prefix) <= depth
  {
    assert rest[..|rest| - 1] == under;
  }

  lemma ProperAt(nodes: seq<Node>, nodes': seq<Node>, prefix: seq<nat>, n: nat)
    requires Proper(nodes, prefix) && nodes <= nodes' && n < |prefix|
    ensures prefix[n] < |nodes| && nodes'[prefix[n]] == nodes[prefix[n]] && Span(nodes[prefix[n]].entry) > 0
  {
  }

  lemma DescentStart(nodes: seq<Node>, l: Layout, depth: nat, kind: Kind)
    requires CellAt(l, depth).Some?
    ensures Descent(nodes, l, depth, kind, l, depth, [])
  {
  }

  lemma DescentInside(nodes: seq<Node>, l: Layout, depth: nat, kind: Kind, rest: Layout, left: nat, prefix: seq<nat>)
    requires Descent(nodes, l, depth, kind, rest, left, prefix)
    ensures rest != [] && Proper(nodes, prefix)
  {
  }

  lemma PoolSpells(pool: Pool)
    requires pool.Valid()
    ensures Spells(pool.nodes, pool.lists) && |pool.lists| == |pool.nodes|
  {
  }

  /** The walk goes on under the top entry. */
  lemma DescentNext(nodes: seq<Node>, lists: seq<Layout>, l: Layout, depth: nat, kind: Kind, cursor: nat, left: nat,
    prefix: seq<nat>)
    requires Spells(nodes, lists) && cursor < |lists| == |nodes|
    requires Descent(nodes, l, depth, kind, lists[cursor], left, prefix)
    ensures nodes[cursor].prev < cursor && Span(nodes[cursor].entry) > 0
    ensures left >= Span(nodes[cursor].entry) ==>
      Descent(nodes, l, depth, kind, lists[nodes[cursor].prev], left - Span(nodes[cursor].entry), prefix + [cursor])
  {
    hide *;
    DescentInside(nodes, l, depth, kind, lists[cursor], left, prefix);
    TopOf(nodes, lists, cursor);
    if left >= Span(nodes[cursor].entry) {
      DescentStep(nodes, l, depth, kind, lists[cursor], left, prefix, cursor, lists[nodes[cursor].prev]);
    }
  }

  /** The walk has reached the cell. */
  lemma DescentLast(nodes: seq<Node>, lists: seq<Layout>, l: Layout, depth: nat, kind: Kind, cursor: nat, left: nat,
    prefix: seq<nat>)
    requires Spells(nodes, lists) && cursor < |lists| == |nodes|
    requires Descent(nodes, l, depth, kind, lists[cursor], left, prefix)
    requires left < Span(nodes[cursor].entry)
    ensures 0 < cursor && nodes[cursor].prev < |lists| && nodes[cursor].entry.Scalar? && Proper(nodes, prefix)
    ensures CellAt(l, depth) == Some(nodes[cursor].entry.kind)
    ensures CellSet(l, depth, kind) == lists[nodes[cursor].prev] + [Scalar(kind)] + Above(nodes, prefix)
    ensures Passed(nodes, prefix) <= depth
  {
    hide *;
    DescentInside(nodes, l, depth, kind, lists[cursor], left, prefix);
    TopOf(nodes, lists, cursor);
    DescentEnd(nodes, l, depth, kind, lists[cursor], left, prefix, nodes[cursor].entry, lists[nodes[cursor].prev]);
  }

  /** Walk down to the cell, keeping the entries passed. */
  method Descend(pool: Pool, stack: nat, depth: nat, ghost kind: Kind, prefix: array<nat>)
    returns (count: nat, cursor: nat)
    requires pool.Valid() && stack < |pool.lists| && depth < 256 == prefix.Length
    requires CellAt(pool.lists[stack], depth).Some?
    modifies prefix
    ensures count <= 255 && 0 < cursor < |pool.lists| && Proper(pool.nodes, prefix[..count])
    ensures pool.nodes[cursor].prev < |pool.lists| && pool.nodes[cursor].entry.Scalar?
    ensures Passed(pool.nodes, prefix[..count]) <= depth
    ensures CellAt(pool.lists[stack], depth) == Some(pool.nodes[cursor].entry.kind)
    ensures CellSet(pool.lists[stack], depth, kind) ==
      pool.lists[pool.nodes[cursor].prev] + [Scalar(kind)] + Above(pool.nodes, prefix[..count])
  {
    hide *;
    PoolSpells(pool);
    ghost var nodes, lists := pool.nodes, pool.lists;
    ghost var l := lists[stack];
    count, cursor := 0, stack;
    var left: nat := depth;
    DescentStart(nodes, l, depth, kind);
    ghost var passed: seq<nat> := [];
    while left >= Span(pool.nodes[cursor].entry)
      invariant cursor < |lists| && count + left <= depth && passed == prefix[..count]
      invariant Descent(nodes, l, depth, kind, lists[cursor], left, passed)
      decreases cursor
    {
      var node := pool.nodes[cursor];
      DescentNext(nodes, lists, l, depth, kind, cursor, left, passed);
      prefix[count] := cursor;
      passed := passed + [cursor];
      count := count + 1;
      left := left - Span(node.entry);
      cursor := node.prev;
    }
    DescentLast(nodes, lists, l, depth, kind, cursor, left, passed);
  }

  /** Replace the kind of one cell, putting back the entries above it. The walk passes at most as
      many entries as the cell is deep, so 256 places hold them. */
  method SetCell(pool: Pool, stack: nat, depth: nat, kind: Kind) returns (result: nat)
    requires pool.Valid() && stack < |pool.lists| && depth < 256 && CellAt(pool.lists[stack], depth).Some?
    modifies pool
    ensures pool.Valid() && old(pool.lists) <= pool.lists && result < |pool.lists|
    ensures old(pool.limited) ==> pool.limited
    ensures !pool.limited ==> pool.lists[result] == CellSet(pool.lists[stack], depth, kind)
    ensures pool.cells <= old(pool.cells) + depth + 1
  {
    var prefix := new nat[256](_ => 0);
    ghost var l := pool.lists[stack];
    CellSetSame(l, depth);
    var count, cursor := Descend(pool, stack, depth, kind, prefix);
    if pool.nodes[cursor].entry == Scalar(kind) {
      return stack;
    }
    result := PutBack(pool, pool.nodes[cursor].prev, kind, prefix, count);
  }

  /** Push the new cell and then the entries that were above the old one. */
  method PutBack(pool: Pool, under: nat, kind: Kind, prefix: array<nat>, passed: nat) returns (result: nat)
    requires pool.Valid() && under < |pool.lists| && passed <= prefix.Length && Proper(pool.nodes, prefix[..passed])
    modifies pool
    ensures pool.Valid() && old(pool.lists) <= pool.lists && result < |pool.lists|
    ensures old(pool.limited) ==> pool.limited
    ensures !pool.limited ==>
      pool.lists[result] == old(pool.lists)[under] + [Scalar(kind)] + Above(old(pool.nodes), old(prefix[..passed]))
    ensures pool.cells <= old(pool.cells) + 1 + Passed(old(pool.nodes), old(prefix[..passed]))
  {
    hide *;
    ghost var nodes, lists, limited, entries := pool.nodes, pool.lists, pool.limited, prefix[..passed];
    ghost var wanted := lists[under] + [Scalar(kind)] + Above(nodes, entries);
    ghost var most := pool.cells + 1 + Passed(nodes, entries);
    var count := passed;
    SpanOne(kind);
    result := pool.Intern(under, Scalar(kind));
    RestoringStart(pool, lists, limited, nodes, entries, result, wanted, most);
    while count > 0
      invariant count <= passed && Restoring(pool, lists, limited, nodes, entries, count, result, wanted, most)
    {
      count := count - 1;
      result := PutOne(pool, lists, limited, nodes, entries, count, prefix[count], result, wanted, most);
    }
    RestoringEnd(pool, lists, limited, nodes, entries, result, wanted, most);
  }

  lemma SpanOne(kind: Kind)
    ensures Span(Scalar(kind)) == 1
  {
  }

  /** `n` of the entries passed are still to be pushed on `stack`. */
  ghost predicate Restoring(pool: Pool, lists: seq<Layout>, limited: bool, nodes: seq<Node>, entries: seq<nat>, n: nat,
    stack: nat, wanted: Layout, most: nat)
    reads pool
  {
    && pool.Valid() && lists <= pool.lists && nodes <= pool.nodes && stack < |pool.lists|
    && (limited ==> pool.limited)
    && n <= |entries| && Proper(nodes, entries)
    && pool.cells + Passed(nodes, entries[..n]) <= most
    && (!pool.limited ==> Rebuilt(nodes, entries, n, pool.lists[stack], wanted))
  }

  lemma RestoringStart(pool: Pool, lists: seq<Layout>, limited: bool, nodes: seq<Node>, entries: seq<nat>, stack: nat,
    wanted: Layout, most: nat)
    requires pool.Valid() && lists <= pool.lists && nodes <= pool.nodes && stack < |pool.lists|
    requires (limited ==> pool.limited) && Proper(nodes, entries) && pool.cells + Passed(nodes, entries) <= most
    requires !pool.limited ==> wanted == pool.lists[stack] + Above(nodes, entries)
    ensures Restoring(pool, lists, limited, nodes, entries, |entries|, stack, wanted, most)
  {
    hide Pool.Valid;
    assert entries[..|entries|] == entries;
  }

  lemma RestoringEnd(pool: Pool, lists: seq<Layout>, limited: bool, nodes: seq<Node>, entries: seq<nat>, stack: nat,
    wanted: Layout, most: nat)
    requires Restoring(pool, lists, limited, nodes, entries, 0, stack, wanted, most)
    ensures pool.Valid() && lists <= pool.lists && stack < |pool.lists| && (limited ==> pool.limited)
    ensures pool.cells <= most
    ensures !pool.limited ==> pool.lists[stack] == wanted
  {
    hide Pool.Valid;
  }

  method PutOne(pool: Pool, ghost lists: seq<Layout>, ghost limited: bool, ghost nodes: seq<Node>,
    ghost entries: seq<nat>, ghost n: nat, slot: nat, stack: nat, ghost wanted: Layout, ghost most: nat)
    returns (result: nat)
    requires Restoring(pool, lists, limited, nodes, entries, n + 1, stack, wanted, most) && slot == entries[n]
    modifies pool
    ensures Restoring(pool, lists, limited, nodes, entries, n, result, wanted, most)
  {
    hide Pool.Valid, Proper, Passed, Rebuilt;
    ProperAt(nodes, pool.nodes, entries, n);
    PassedStep(nodes, entries, n);
    ghost var l := pool.lists[stack];
    result := pool.Intern(stack, pool.nodes[slot].entry);
    if !pool.limited {
      RebuildStep(nodes, entries, n, l, wanted);
    }
  }

  lemma PassedStep(nodes: seq<Node>, entries: seq<nat>, n: nat)
    requires n < |entries| && Proper(nodes, entries)
    ensures Passed(nodes, entries[..n + 1]) == Passed(nodes, entries[..n]) + Span(nodes[entries[n]].entry)
  {
    assert entries[..n + 1][..n] == entries[..n];
  }

  /** What is still missing are the first `n` entries passed. */
  ghost predicate Rebuilt(nodes: seq<Node>, entries: seq<nat>, n: nat, l: Layout, wanted: Layout) {
    n <= |entries| && Proper(nodes, entries) && wanted == l + Above(nodes, entries[..n])
  }

  lemma RebuildStep(nodes: seq<Node>, entries: seq<nat>, n: nat, l: Layout, wanted: Layout)
    requires n < |entries| && Rebuilt(nodes, entries, n + 1, l, wanted)
    ensures Rebuilt(nodes, entries, n, l + [nodes[entries[n]].entry], wanted)
  {
    var left := entries[..n + 1];
    assert left[..n] == entries[..n] && left == left[..n] + [left[n]];
    AboveMore(nodes, left[..n], left[n], l);
  }
}
