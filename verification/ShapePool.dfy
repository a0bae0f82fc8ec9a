/** Hash-consed stack shapes: a stack is an index, and equal stacks have equal indices. */
module ShapePool {
  import opened Lists
  import opened Shapes

  const MAX_NODES: nat := 1048576

  datatype Node = Node(prev: nat, entry: Entry, depth: nat)

  // ----- open addressing -----

  function Code(e: Entry): nat {
    match e
    case Scalar(Int) => 0
    case Scalar(Addr) => 1
    case Scalar(Float) => 2
    case Block(_) => 4
  }

  function Bytes(e: Entry): nat {
    if e.Block? then e.bytes else 0
  }

  function Xor(a: nat, b: nat): nat {
    if a == 0 then b else 2 * Xor(a / 2, b / 2) + (a + b) % 2
  }

  function Times(a: nat, b: nat): nat {
    (a * b) % 0x1_0000_0000
  }

  /** The hash of a node, in 32-bit arithmetic. */
  function HashOf(prev: nat, e: Entry): nat {
    Xor(Xor(Times(prev, 2654435761), Times(Span(e), 2246822519)), Xor(Times(Bytes(e), 3266489917), Code(e)))
  }

  /** Where probing for a node starts. Table sizes are powers of two, so masking is a remainder. */
  function Home(prev: nat, e: Entry, size: nat): (home: nat)
    requires size > 0
    ensures home < size
  {
    HashOf(prev, e) % size
  }

  /** The slot `d` steps along from `home`. */
  function Along(home: nat, d: nat, size: nat): (slot: nat)
    requires home < size && d <= size
    ensures slot < size
  {
    if home + d < size then home + d else home + d - size
  }

  predicate Reaches(hash: seq<nat>, home: nat, d: nat) {
    home < |hash| && d <= |hash| && forall k | 0 <= k < d :: hash[Along(home, k, |hash|)] != 0
  }

  predicate FoundAt(hash: seq<nat>, home: nat, d: nat, i: nat) {
    Reaches(hash, home, d) && d < |hash| && hash[Along(home, d, |hash|)] == i
  }

  ghost predicate Findable(hash: seq<nat>, home: nat, i: nat) {
    exists d :: FoundAt(hash, home, d, i)
  }

  /** The table holds each of 1..n-1 once, where probing finds it, and has a free slot. */
  ghost predicate Table(hash: seq<nat>, nodes: seq<Node>, n: nat) {
    && n <= |nodes| && n < |hash|
    && Below(hash, n)
    && (forall p, q | 0 <= p < q < |hash| :: hash[p] == hash[q] ==> hash[p] == 0)
    && (forall i | 1 <= i < n :: Findable(hash, Home(nodes[i].prev, nodes[i].entry, |hash|), i))
  }

  /** Probing meets a free slot. */
  lemma Gap(hash: seq<nat>, nodes: seq<Node>, n: nat, home: nat)
    requires Table(hash, nodes, n)
    ensures !Reaches(hash, home, |hash|)
  {
    if Reaches(hash, home, |hash|) {
      forall p | 0 <= p < |hash| ensures hash[p] != 0 {
        var k := if p >= home then p - home else p + |hash| - home;
        assert hash[Along(home, k, |hash|)] != 0;
      }
      Pigeonhole(hash, n);
    }
  }

  lemma ReachesFurther(hash: seq<nat>, home: nat, d: nat)
    requires Reaches(hash, home, d) && d < |hash| && hash[Along(home, d, |hash|)] != 0
    ensures Reaches(hash, home, d + 1)
  {
  }

  lemma FindableStays(hash: seq<nat>, home: nat, i: nat, slot: nat, n: nat)
    requires Findable(hash, home, i) && i != 0 && n != 0 && slot < |hash| && hash[slot] == 0
    ensures Findable(hash[slot := n], home, i)
  {
    var d :| FoundAt(hash, home, d, i);
    assert FoundAt(hash[slot := n], home, d, i);
  }

  /** Filling the first free slot along a node's probe path adds that node and loses none. */
  lemma Filled(hash: seq<nat>, nodes: seq<Node>, n: nat, d: nat, slot: nat)
    requires Table(hash, nodes, n) && 0 < n < |nodes| && n + 1 < |hash|
    requires FreeSlot(hash, nodes[n].prev, nodes[n].entry, d, slot)
    ensures Table(hash[slot := n], nodes, n + 1)
  {
    hide Home, HashOf;
    var home := Home(nodes[n].prev, nodes[n].entry, |hash|);
    var hash' := hash[slot := n];
    forall i | 1 <= i < n + 1 ensures Findable(hash', Home(nodes[i].prev, nodes[i].entry, |hash'|), i) {
      if i < n {
        FindableStays(hash, Home(nodes[i].prev, nodes[i].entry, |hash|), i, slot, n);
      } else {
        assert forall k | 0 <= k < d :: Along(home, k, |hash|) != slot;
        assert FoundAt(hash', home, d, n);
      }
    }
  }

  lemma NextSlot(home: nat, d: nat, size: nat)
    requires home < size && d < size
    ensures (Along(home, d, size) + 1) % size == Along(home, d + 1, size)
  {
    var slot := Along(home, d, size);
    if slot + 1 == size {
      assert (slot + 1) % size == 0;
    } else {
      assert (slot + 1) % size == slot + 1;
    }
  }

  // ----- the pool -----

  /** `lists[i]` is the stack that index `i` stands for. */
  ghost predicate Spells(nodes: seq<Node>, lists: seq<Layout>) {
    && |lists| == |nodes| > 0 && lists[0] == [] && nodes[0].depth == 0
    && (forall i | 1 <= i < |nodes| :: nodes[i].prev < i && lists[i] == lists[nodes[i].prev] + [nodes[i].entry])
    && (forall i | 0 <= i < |nodes| :: nodes[i].depth == Depth(lists[i]) <= MAX_DEPTH && Solid(lists[i]))
  }

  /** Equal stacks have equal indices. */
  ghost predicate Canonical(lists: seq<Layout>) {
    forall i, j | 0 <= i < |lists| && 0 <= j < |lists| :: lists[i] == lists[j] <==> i == j
  }

  predicate IsNode(n: Node, prev: nat, e: Entry) {
    n.prev == prev && n.entry == e
  }

  lemma NodeOfList(nodes: seq<Node>, lists: seq<Layout>, prev: nat, e: Entry, i: nat)
    requires Spells(nodes, lists) && Canonical(lists) && prev < |lists| && i < |lists|
    ensures 0 < i && IsNode(nodes[i], prev, e) <==> lists[i] == lists[prev] + [e]
  {
    if i > 0 {
      var a, b := lists[nodes[i].prev], nodes[i].entry;
      assert lists[i] == a + [b];
      if lists[i] == lists[prev] + [e] {
        assert (a + [b])[..|a|] == a && (lists[prev] + [e])[..|a|] == lists[prev];
      }
    }
  }

  lemma SolidMore(l: Layout, e: Entry)
    requires Solid(l) && Span(e) > 0
    ensures Solid(l + [e])
  {
  }

  lemma NewSpells(nodes: seq<Node>, lists: seq<Layout>, n: Node)
    requires Spells(nodes, lists) && n.prev < |lists|
    requires Span(n.entry) > 0 && n.depth == nodes[n.prev].depth + Span(n.entry) <= MAX_DEPTH
    ensures Spells(nodes + [n], lists + [lists[n.prev] + [n.entry]])
  {
    hide Depth, Span, Solid;
    DepthAppend(lists[n.prev], n.entry);
    SolidMore(lists[n.prev], n.entry);
    var nodes', lists' := nodes + [n], lists + [lists[n.prev] + [n.entry]];
    forall i | 1 <= i < |nodes'|
      ensures nodes'[i].prev < i && lists'[i] == lists'[nodes'[i].prev] + [nodes'[i].entry]
    {
      if i < |nodes| {
        assert nodes'[i] == nodes[i] && lists'[i] == lists[i];
      }
    }
    forall i | 0 <= i < |nodes'| ensures nodes'[i].depth == Depth(lists'[i]) <= MAX_DEPTH && Solid(lists'[i]) {
      if i < |nodes| {
        assert nodes'[i] == nodes[i] && lists'[i] == lists[i];
      }
    }
  }

  lemma SpellsLength(nodes: seq<Node>, lists: seq<Layout>)
    requires Spells(nodes, lists)
    ensures |lists| == |nodes|
  {
  }

  /** A new node keeps the lists distinct when no node has its parent and entry. */
  lemma NewDistinct(nodes: seq<Node>, lists: seq<Layout>, prev: nat, e: Entry)
    requires Spells(nodes, lists) && Canonical(lists) && prev < |lists|
    requires Missing(nodes, prev, e)
    ensures Canonical(lists + [lists[prev] + [e]])
  {
    var l := lists[prev] + [e];
    forall i | 0 <= i < |lists| ensures lists[i] != l {
      NodeOfList(nodes, lists, prev, e, i);
    }
  }

  ghost predicate Missing(nodes: seq<Node>, prev: nat, e: Entry) {
    forall i | 1 <= i < |nodes| :: !IsNode(nodes[i], prev, e)
  }

  predicate FreeSlot(hash: seq<nat>, prev: nat, e: Entry, d: nat, slot: nat) {
    && d < |hash| && Reaches(hash, Home(prev, e, |hash|), d)
    && slot == Along(Home(prev, e, |hash|), d, |hash|) && hash[slot] == 0
  }

  /** Probing for a node from its home has passed `d` slots, all taken by other nodes. */
  ghost predicate Probed(hash: seq<nat>, nodes: seq<Node>, prev: nat, e: Entry, d: nat) {
    && 0 < |hash| && d < |hash|
    && var home := Home(prev, e, |hash|);
      Reaches(hash, home, d) && forall k | 0 <= k < d :: Differs(hash, nodes, home, k, prev, e)
  }

  ghost predicate Differs(hash: seq<nat>, nodes: seq<Node>, home: nat, k: nat, prev: nat, e: Entry) {
    && home < |hash| && k < |hash| && hash[Along(home, k, |hash|)] < |nodes|
    && !IsNode(nodes[hash[Along(home, k, |hash|)]], prev, e)
  }

  lemma ProbeStarts(hash: seq<nat>, nodes: seq<Node>, prev: nat, e: Entry)
    requires Table(hash, nodes, |nodes|)
    ensures Probed(hash, nodes, prev, e, 0) && Along(Home(prev, e, |hash|), 0, |hash|) == Home(prev, e, |hash|)
    ensures forall i | 0 <= i < |hash| :: hash[i] < |nodes|
  {
    hide Home, Findable;
  }

  lemma ProbeStep(hash: seq<nat>, nodes: seq<Node>, prev: nat, e: Entry, d: nat)
    requires Table(hash, nodes, |nodes|) && Probed(hash, nodes, prev, e, d)
    requires var slot := Along(Home(prev, e, |hash|), d, |hash|);
      hash[slot] != 0 && !IsNode(nodes[hash[slot]], prev, e)
    ensures Probed(hash, nodes, prev, e, d + 1)
    ensures d + 1 < |hash|
    ensures (Along(Home(prev, e, |hash|), d, |hash|) + 1) % |hash| == Along(Home(prev, e, |hash|), d + 1, |hash|)
  {
    hide Home;
    var home := Home(prev, e, |hash|);
    ReachesFurther(hash, home, d);
    Gap(hash, nodes, |nodes|, home);
    NextSlot(home, d, |hash|);
    assert Differs(hash, nodes, home, d, prev, e);
  }

  /** A node that probing has not met before a free slot is not in the pool. */
  lemma Absent(hash: seq<nat>, nodes: seq<Node>, prev: nat, e: Entry, d: nat)
    requires Table(hash, nodes, |nodes|) && Probed(hash, nodes, prev, e, d)
    requires hash[Along(Home(prev, e, |hash|), d, |hash|)] == 0
    ensures Missing(nodes, prev, e) && FreeSlot(hash, prev, e, d, Along(Home(prev, e, |hash|), d, |hash|))
  {
    hide Home, HashOf;
    var home := Home(prev, e, |hash|);
    forall i | 1 <= i < |nodes| ensures !IsNode(nodes[i], prev, e) {
      var own := Home(nodes[i].prev, nodes[i].entry, |hash|);
      assert Findable(hash, own, i);
      var k: nat :| FoundAt(hash, own, k, i);
      assert k < d ==> Differs(hash, nodes, home, k, prev, e);
    }
  }

  lemma FreeStep(hash: seq<nat>, nodes: seq<Node>, n: nat, home: nat, d: nat)
    requires Table(hash, nodes, n) && d < |hash| && Reaches(hash, home, d) && hash[Along(home, d, |hash|)] != 0
    ensures d + 1 < |hash| && Reaches(hash, home, d + 1)
    ensures (Along(home, d, |hash|) + 1) % |hash| == Along(home, d + 1, |hash|)
  {
    hide Home;
    ReachesFurther(hash, home, d);
    Gap(hash, nodes, n, home);
    NextSlot(home, d, |hash|);
  }

  lemma FreeHere(hash: seq<nat>, prev: nat, e: Entry, d: nat)
    requires d < |hash| && Reaches(hash, Home(prev, e, |hash|), d) && hash[Along(Home(prev, e, |hash|), d, |hash|)] == 0
    ensures FreeSlot(hash, prev, e, d, Along(Home(prev, e, |hash|), d, |hash|))
  {
  }

  lemma TableExtends(hash: seq<nat>, nodes: seq<Node>, n: nat, node: Node)
    requires Table(hash, nodes, n)
    ensures Table(hash, nodes + [node], n)
  {
    hide Home, Findable;
  }

  lemma EmptyTable(hash: seq<nat>, nodes: seq<Node>)
    requires nodes != [] && 1 < |hash| && forall p | 0 <= p < |hash| :: hash[p] == 0
    ensures Table(hash, nodes, 1)
  {
  }

  /** `cells` counts the cells of all entries ever asked for. Neither limit can be met before
      that many reach the node limit, which is below the depth limit. */
  ghost predicate Counted(lists: seq<Layout>, limited: bool, cells: nat) {
    && |lists| <= 1 + cells && (limited ==> MAX_NODES <= cells)
    && forall i | 0 <= i < |lists| :: Depth(lists[i]) <= cells
  }

  lemma CountedMore(lists: seq<Layout>, cells: nat, prev: nat, e: Entry)
    requires Counted(lists, false, cells) && prev < |lists| && Span(e) > 0
    ensures Counted(lists, false, cells + Span(e))
    ensures Counted(lists + [lists[prev] + [e]], false, cells + Span(e))
    ensures Depth(lists[prev] + [e]) > MAX_DEPTH || |lists| == MAX_NODES ==> Counted(lists, true, cells + Span(e))
  {
    DepthAppend(lists[prev], e);
  }

  lemma CountedLimited(lists: seq<Layout>, cells: nat, more: nat)
    requires Counted(lists, true, cells)
    ensures Counted(lists, true, cells + more)
  {
  }

  lemma CountedNone()
    ensures Counted([[]], false, 0)
  {
  }

  class Pool {
    var nodes: seq<Node>
    var hash: seq<nat>
    var limited: bool
    ghost var lists: seq<Layout>
    ghost var cells: nat

    ghost predicate Sound()
      reads `nodes, `hash, `lists
    {
      && 1 <= |nodes| <= MAX_NODES && 8 <= |hash|
      && Table(hash, nodes, |nodes|)
      && Spells(nodes, lists) && Canonical(lists)
    }

    /** At most three quarters of the table is in use. */
    ghost predicate Ready()
      reads `nodes, `hash, `lists
    {
      Sound() && 4 * |nodes| <= 3 * |hash|
    }

    ghost predicate Valid()
      reads this
    {
      Ready() && Counted(lists, limited, cells)
    }

    constructor ()
      ensures Valid() && lists == [[]] && !limited && cells == 0
    {
      nodes := [Node(0, Scalar(Int), 0)];
      hash := seq(2048, _ => 0);
      limited := false;
      lists := [[]];
      cells := 0;
      new;
      CountedNone();
    }

    /** Walk the slots from a node's home to the node or to a free slot. */
    method Walk(prev: nat, e: Entry) returns (slot: nat, ghost d: nat, index: nat)
      requires Table(hash, nodes, |nodes|)
      ensures slot < |hash| && index == hash[slot] < |nodes|
      ensures index != 0 ==> IsNode(nodes[index], prev, e)
      ensures Probed(hash, nodes, prev, e, d) && slot == Along(Home(prev, e, |hash|), d, |hash|)
    {
      slot := Home(prev, e, |hash|);
      d := 0;
      ghost var home := slot;
      ProbeStarts(hash, nodes, prev, e);
      hide *;
      while hash[slot] != 0
        invariant d < |hash| && slot == Along(home, d, |hash|) && Probed(hash, nodes, prev, e, d)
        decreases |hash| - d
      {
        index := hash[slot];
        if IsNode(nodes[index], prev, e) {
          return;
        }
        ProbeStep(hash, nodes, prev, e, d);
        slot := (slot + 1) % |hash|;
        d := d + 1;
      }
      index := 0;
    }

    /** Look for a node; otherwise stop at the free slot where it belongs. */
    method Probe(prev: nat, e: Entry) returns (slot: nat, ghost d: nat, index: nat)
      requires Ready() && prev < |nodes|
      ensures index < |nodes| && slot < |hash|
      ensures index != 0 ==> lists[index] == lists[prev] + [e]
      ensures index == 0 ==> Missing(nodes, prev, e) && FreeSlot(hash, prev, e, d, slot)
    {
      slot, d, index := Walk(prev, e);
      if index == 0 {
        Absent(hash, nodes, prev, e, d);
      } else {
        NodeOfList(nodes, lists, prev, e, index);
      }
    }

    /** The first free slot on a node's probe path. */
    static method WalkFree(hash: seq<nat>, ghost nodes: seq<Node>, ghost n: nat, prev: nat, e: Entry)
      returns (slot: nat, ghost d: nat)
      requires Table(hash, nodes, n)
      ensures slot < |hash| && FreeSlot(hash, prev, e, d, slot)
    {
      slot := Home(prev, e, |hash|);
      d := 0;
      ghost var home := slot;
      assert Reaches(hash, home, 0) && slot == Along(home, 0, |hash|);
      hide *;
      while hash[slot] != 0
        invariant d < |hash| && slot == Along(home, d, |hash|) && Reaches(hash, home, d)
        decreases |hash| - d
      {
        FreeStep(hash, nodes, n, home, d);
        slot := (slot + 1) % |hash|;
        d := d + 1;
      }
      FreeHere(hash, prev, e, d);
    }

    /** A larger table holding the same nodes. */
    static method Rehash(nodes: seq<Node>, size: nat) returns (table: seq<nat>)
      requires 0 < |nodes| < size
      ensures |table| == size && Table(table, nodes, |nodes|)
    {
      table := seq(size, _ => 0);
      EmptyTable(table, nodes);
      hide FreeSlot, Home, Table;
      for i := 1 to |nodes|
        invariant |table| == size && Table(table, nodes, i)
      {
        var slot, d := WalkFree(table, nodes, i, nodes[i].prev, nodes[i].entry);
        Filled(table, nodes, i, d, slot);
        table := table[slot := i];
      }
    }

    /** Double the table when more than three quarters of it is in use. */
    method Balance()
      requires Sound() && 4 * |nodes| <= 6 * |hash|
      modifies `hash
      ensures Ready()
    {
      hide Spells, Canonical;
      if 4 * |nodes| > 3 * |hash| {
        hash := Rehash(nodes, 2 * |hash|);
      }
    }

    method Put(node: Node, slot: nat, ghost d: nat)
      requires Ready() && node.prev < |nodes| < MAX_NODES && Span(node.entry) > 0
      requires node.depth == nodes[node.prev].depth + Span(node.entry) <= MAX_DEPTH
      requires Missing(nodes, node.prev, node.entry)
      requires slot < |hash| && FreeSlot(hash, node.prev, node.entry, d, slot)
      modifies `nodes, `hash, `lists
      ensures Ready()
      ensures nodes == old(nodes) + [node] && lists == old(lists) + [old(lists)[node.prev] + [node.entry]]
    {
      hide Spells, Canonical, Table, Missing, FreeSlot, Span;
      var index := |nodes|;
      SpellsLength(nodes, lists);
      NewSpells(nodes, lists, node);
      NewDistinct(nodes, lists, node.prev, node.entry);
      TableExtends(hash, nodes, index, node);
      Filled(hash, nodes + [node], index, d, slot);
      nodes := nodes + [node];
      hash := hash[slot := index];
      lists := lists + [lists[node.prev] + [node.entry]];
      Balance();
    }

    lemma Sizes(prev: nat, e: Entry)
      requires Ready() && prev < |lists|
      ensures |lists| == |nodes| <= MAX_NODES && nodes[prev].depth + Span(e) == Depth(lists[prev] + [e])
    {
      DepthAppend(lists[prev], e);
    }

    /** Find the node, add it, or reach a limit. */
    method Find(prev: nat, e: Entry) returns (index: nat)
      requires Ready() && !limited && prev < |lists| && Span(e) > 0
      modifies `nodes, `hash, `lists, `limited
      ensures Ready() && old(nodes) <= nodes && index < |lists|
      ensures !limited ==> lists[index] == lists[prev] + [e]
      ensures lists == old(lists) || (!limited && lists == old(lists) + [old(lists)[prev] + [e]])
      ensures limited ==> Depth(lists[prev] + [e]) > MAX_DEPTH || |lists| == MAX_NODES
    {
      hide *;
      Sizes(prev, e);
      var node := Node(prev, e, nodes[prev].depth + Span(e));
      if node.depth > MAX_DEPTH {
        limited := true;
        return 0;
      }
      var slot, d, found := Probe(prev, e);
      if found != 0 {
        return found;
      }
      if |nodes| == MAX_NODES {
        limited := true;
        return 0;
      }
      index := |nodes|;
      Put(node, slot, d);
    }

    /** The index of a stack with one more entry. Two calls give the same index exactly when they
        ask for the same stack. */
    method Intern(prev: nat, e: Entry) returns (index: nat)
      requires Valid() && prev < |lists| && Span(e) > 0
      modifies this
      ensures Valid() && old(lists) <= lists && old(nodes) <= nodes && index < |lists|
      ensures old(limited) ==> limited
      ensures !limited ==> lists[index] == lists[prev] + [e]
      ensures limited && !old(limited) ==>
        lists == old(lists) && (Depth(lists[prev] + [e]) > MAX_DEPTH || |lists| == MAX_NODES)
      ensures cells == old(cells) + Span(e)
    {
      ghost var spent := cells;
      hide Ready, Counted, Depth, Span;
      cells := cells + Span(e);
      if limited {
        CountedLimited(lists, spent, Span(e));
        index := 0;
      } else {
        CountedMore(lists, spent, prev, e);
        index := Find(prev, e);
      }
    }
  }
}
