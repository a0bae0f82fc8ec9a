/** Stack shapes: what the verifier knows about the cells and byte blocks on a stack. */
module Shapes {
  import opened Words

  /** The depth at which the verifier gives up. */
  const MAX_DEPTH: nat := 16 * 1024 * 1024

  datatype Kind = Int | Addr | Float

  /** One cell of known kind, or an indivisible block of bytes padded to whole cells. */
  datatype Entry = Scalar(kind: Kind) | Block(bytes: nat)

  /** A stack, deepest entry first. */
  type Layout = seq<Entry>

  function Span(e: Entry): nat {
    match e
    case Scalar(_) => 1
    case Block(bytes) => (bytes + 7) / 8
  }

  function Depth(l: Layout): nat {
    if l == [] then 0 else Depth(l[..|l| - 1]) + Span(l[|l| - 1])
  }

  predicate AllScalar(l: Layout) {
    forall i | 0 <= i < |l| :: l[i].Scalar?
  }

  function Lift(kinds: seq<Kind>): Layout {
    seq(|kinds|, (i: nat) requires i < |kinds| => Scalar(kinds[i]))
  }

  /** Blocks are never empty. */
  predicate Solid(l: Layout) {
    forall i | 0 <= i < |l| :: Span(l[i]) > 0
  }

  /** The kind of the scalar cell `depth` cells below the top, if there is one there. */
  function CellAt(l: Layout, depth: nat): Option<Kind> {
    if l == [] then None
    else
      var top := l[|l| - 1];
      if depth < Span(top) then
        (if top.Scalar? then Some(top.kind) else None)
      else CellAt(l[..|l| - 1], depth - Span(top))
  }

  /** The layout with that cell's kind replaced. */
  function CellSet(l: Layout, depth: nat, kind: Kind): (r: Layout)
    requires CellAt(l, depth).Some?
    ensures |r| == |l|
  {
    var rest, top := l[..|l| - 1], l[|l| - 1];
    if depth < Span(top) then rest + [Scalar(kind)] else CellSet(rest, depth - Span(top), kind) + [top]
  }

  /** Whether byte offset `offset` below the top falls in an entry that has `above` bytes above it. */
  predicate Covers(e: Entry, above: nat, offset: nat) {
    above < offset <= above + 8 * Span(e)
  }

  /** Whether `width` bytes there lie inside that entry, and the entry is a block. */
  predicate Inside(e: Entry, above: nat, offset: nat, width: nat)
    requires Covers(e, above, offset)
  {
    var index := above + 8 * Span(e) - offset;
    e.Block? && index < e.bytes && width <= e.bytes - index
  }

  /** Whether `width` bytes at byte offset `offset` below the top lie inside one live block. The
      entries above the ones listed take up `above` bytes. */
  predicate FrameBytes(l: Layout, above: nat, offset: nat, width: nat) {
    l != [] &&
    var top := l[|l| - 1];
    if Covers(top, above, offset) then Inside(top, above, offset, width)
    else FrameBytes(l[..|l| - 1], above + 8 * Span(top), offset, width)
  }

  /** A block takes the fewest whole cells that hold its bytes. */
  lemma SpanLeast(bytes: nat, n: nat)
    ensures Span(Block(bytes)) <= n <==> bytes <= 8 * n
  {
  }

  lemma SuffixRest(l: Layout, i: nat)
    requires i < |l|
    ensures Depth(l[i..]) == Depth(l[..|l| - 1][i..]) + Span(l[|l| - 1])
  {
    assert l[i..][..|l| - i - 1] == l[..|l| - 1][i..];
  }

  lemma {:induction false} SuffixDepth(l: Layout, i: nat)
    requires i <= |l|
    ensures Depth(l[i..]) <= Depth(l)
  {
    if i < |l| {
      SuffixRest(l, i);
      SuffixDepth(l[..|l| - 1], i);
    } else {
      assert l[i..] == [];
    }
  }

  /** A depth below the cells above entry `i`, and above those below it, is one of entry `i`'s. */
  lemma {:induction false} CellAtEntry(l: Layout, depth: nat, i: nat)
    requires i < |l| && Depth(l[i + 1..]) <= depth < Depth(l[i..])
    ensures CellAt(l, depth) == if l[i].Scalar? then Some(l[i].kind) else None
  {
    var rest, top := l[..|l| - 1], l[|l| - 1];
    SuffixRest(l, i);
    if i < |l| - 1 {
      SuffixRest(l, i + 1);
      CellAtEntry(rest, depth - Span(top), i);
      assert rest[i] == l[i];
    } else {
      assert rest[i..] == [];
    }
  }

  /** A byte offset that falls in entry `i`: the access is allowed exactly when the entry is a block and
      the bytes, counted from its start, end where the block does or before. */
  lemma {:induction false} FrameBytesEntry(l: Layout, above: nat, offset: nat, width: nat, i: nat)
    requires i < |l| && above + 8 * Depth(l[i + 1..]) < offset <= above + 8 * Depth(l[i..])
    ensures FrameBytes(l, above, offset, width) <==>
      var start := above + 8 * Depth(l[i..]) - offset;
      l[i].Block? && start < l[i].bytes && start + width <= l[i].bytes
  {
    var rest, top := l[..|l| - 1], l[|l| - 1];
    SuffixRest(l, i);
    if i < |l| - 1 {
      SuffixRest(l, i + 1);
      FrameBytesEntry(rest, above + 8 * Span(top), offset, width, i);
      assert rest[i] == l[i];
    } else {
      assert rest[i..] == [] && l[i + 1..] == [];
    }
  }

  /** An offset that falls in no entry allows nothing. */
  lemma {:induction false} FrameBytesOutside(l: Layout, above: nat, offset: nat, width: nat)
    requires offset <= above || above + 8 * Depth(l) < offset
    ensures !FrameBytes(l, above, offset, width)
  {
    if l != [] {
      FrameBytesOutside(l[..|l| - 1], above + 8 * Span(l[|l| - 1]), offset, width);
    }
  }

  lemma {:induction false} DepthAppend(l: Layout, e: Entry)
    ensures Depth(l + [e]) == Depth(l) + Span(e)
  {
    assert (l + [e])[..|l|] == l;
  }

  lemma {:induction false} DepthScalar(l: Layout)
    requires AllScalar(l)
    ensures Depth(l) == |l|
  {
    if l != [] {
      DepthScalar(l[..|l| - 1]);
    }
  }

  lemma {:induction false} DepthCovers(l: Layout)
    requires Solid(l)
    ensures |l| <= Depth(l)
  {
    if l != [] {
      DepthCovers(l[..|l| - 1]);
    }
  }

  /** A scalar cell lies inside the stack. */
  lemma {:induction false} CellInside(l: Layout, depth: nat)
    requires CellAt(l, depth).Some?
    ensures depth < Depth(l)
  {
    var rest, top := l[..|l| - 1], l[|l| - 1];
    if depth >= Span(top) {
      CellInside(rest, depth - Span(top));
    }
  }

  /** Replacing a cell's kind changes that cell only: not the depth, not any other cell, and not
      which bytes are accessible. */
  lemma {:induction false} CellSetFrame(l: Layout, depth: nat, kind: Kind, other: nat)
    requires CellAt(l, depth).Some?
    ensures var l' := CellSet(l, depth, kind);
      && |l'| == |l| && Depth(l') == Depth(l)
      && CellAt(l', other) == if other == depth then Some(kind) else CellAt(l, other)
  {
    var rest, top := l[..|l| - 1], l[|l| - 1];
    var l' := CellSet(l, depth, kind);
    assert l'[..|l| - 1] == if depth < Span(top) then rest else CellSet(rest, depth - Span(top), kind);
    if depth >= Span(top) {
      CellSetFrame(rest, depth - Span(top), kind, if other >= Span(top) then other - Span(top) else 0);
    }
  }

  lemma {:induction false} CellSetBytes(l: Layout, depth: nat, kind: Kind, above: nat, offset: nat, width: nat)
    requires CellAt(l, depth).Some?
    ensures FrameBytes(CellSet(l, depth, kind), above, offset, width) <==> FrameBytes(l, above, offset, width)
  {
    var rest, top := l[..|l| - 1], l[|l| - 1];
    var l' := CellSet(l, depth, kind);
    assert l'[..|l| - 1] == if depth < Span(top) then rest else CellSet(rest, depth - Span(top), kind);
    if depth >= Span(top) {
      CellSetBytes(rest, depth - Span(top), kind, above + 8 * Span(top), offset, width);
    }
  }

  lemma {:induction false} CellSetSame(l: Layout, depth: nat)
    requires CellAt(l, depth).Some?
    ensures CellSet(l, depth, CellAt(l, depth).value) == l
  {
    var rest, top := l[..|l| - 1], l[|l| - 1];
    assert l == rest + [top];
    if depth >= Span(top) {
      CellSetSame(rest, depth - Span(top));
    }
  }
}
