/** The interpreter's stack cache: four registers shared by A from one end and B from the other, and
    three for C, above stacks kept in arrays.
 */
module BankedCache {
  import opened Words
  import opened Bytecode

  lemma ReversedOne(l: seq<Cell>, v: Cell)
    ensures Reversed(l + [v]) == [v] + Reversed(l) && Reversed([v] + l) == Reversed(l) + [v]
  {
  }

  /** Close the gap at the start of the first `n` registers. */
  method ShiftDown(r: array<Cell>, n: nat)
    requires 0 < n <= r.Length
    modifies r
    ensures forall k | 0 <= k < r.Length :: r[k] == old(r[if k + 1 < n then k + 1 else k])
  {
    for j := 1 to n
      invariant forall k | 0 <= k < r.Length :: r[k] == old(r[if k + 1 < j then k + 1 else k])
    {
      r[j - 1] := r[j];
    }
  }

  /** Close the gap at the end of the registers from `low`. */
  method ShiftUp(r: array<Cell>, low: nat)
    requires low < r.Length
    modifies r
    ensures forall k | 0 <= k < r.Length :: r[k] == old(r[if k > low then k - 1 else k])
  {
    var j := r.Length - 1;
    while j > low
      invariant low <= j < r.Length
      invariant forall k | 0 <= k < r.Length :: r[k] == old(r[if k > j then k - 1 else k])
    {
      r[j] := r[j - 1];
      j := j - 1;
    }
  }

  class Cache {
    const h: array<Cell>
    const cr: array<Cell>
    const a: array<Cell>
    const b: array<Cell>
    const c: array<Cell>
    var na: nat
    var nb: nat
    var nc: nat
    var ca: nat
    var cb: nat
    var cc: nat

    ghost predicate Valid()
      reads this
    {
      && h.Length == 4 && cr.Length == 3
      && h != cr && h != a && h != b && h != c && cr != a && cr != b && cr != c && a != b && a != c && b != c
      && ca + cb <= 4 && cc <= 3
      && na + ca <= a.Length && nb + cb <= b.Length && nc + cc <= c.Length
    }

    ghost function StackA(): seq<Cell>
      reads this, h, a
      requires Valid()
    {
      a[..na] + h[..ca]
    }

    ghost function StackB(): seq<Cell>
      reads this, h, b
      requires Valid()
    {
      b[..nb] + Reversed(h[4 - cb..])
    }

    ghost function StackC(): seq<Cell>
      reads this, cr, c
      requires Valid()
    {
      c[..nc] + cr[..cc]
    }

    /** The three stacks the registers and arrays stand for. */
    ghost function Stacks(): Banks<Cell>
      reads this, h, cr, a, b, c
      requires Valid()
    {
      Banks(StackA(), StackB(), StackC())
    }

    /** How many cells fit on a stack. */
    function Capacity(x: Stack): nat {
      match x case A => a.Length case B => b.Length case C => c.Length
    }

    constructor (capacity: nat)
      ensures Valid() && fresh(h) && fresh(cr) && fresh(a) && fresh(b) && fresh(c)
      ensures Stacks() == Banks([], [], []) && forall x: Stack :: Capacity(x) == capacity
    {
      h, cr := new Cell[4], new Cell[3];
      a, b, c := new Cell[capacity], new Cell[capacity], new Cell[capacity];
      na, nb, nc, ca, cb, cc := 0, 0, 0, 0, 0, 0;
    }

    method Depth(x: Stack) returns (n: nat)
      requires Valid()
      ensures n == |Stacks().At(x)|
    {
      n := match x case A => na + ca case B => nb + cb case C => nc + cc;
    }

    method Read(x: Stack, depth: nat) returns (v: Cell)
      requires Valid() && Stacks().Has(x, depth)
      ensures v == Stacks().Peek(x, depth)
    {
      match x
      case A => v := if depth < ca then h[ca - 1 - depth] else a[na - 1 - (depth - ca)];
      case B => v := if depth < cb then h[4 - cb + depth] else b[nb - 1 - (depth - cb)];
      case C => v := if depth < cc then cr[cc - 1 - depth] else c[nc - 1 - (depth - cc)];
    }

    method Write(x: Stack, depth: nat, v: Cell)
      requires Valid() && Stacks().Has(x, depth)
      modifies h, cr, a, b, c
      ensures Valid() && Stacks() == old(Stacks()).Replace(x, depth, v)
    {
      match x {
        case A => WriteA(depth, v);
        case B => WriteB(depth, v);
        case C => WriteC(depth, v);
      }
    }

    method WriteA(depth: nat, v: Cell)
      requires Valid() && depth < |StackA()|
      modifies h, a
      ensures StackA() == old(StackA())[|old(StackA())| - 1 - depth := v]
      ensures StackB() == old(StackB()) && StackC() == old(StackC())
    {
      ghost var was := h[..];
      if depth < ca {
        h[ca - 1 - depth] := v;
      } else {
        a[na - 1 - (depth - ca)] := v;
      }
      assert h[4 - cb..] == was[4 - cb..];
    }

    method WriteB(depth: nat, v: Cell)
      requires Valid() && depth < |StackB()|
      modifies h, b
      ensures StackB() == old(StackB())[|old(StackB())| - 1 - depth := v]
      ensures StackA() == old(StackA()) && StackC() == old(StackC())
    {
      ghost var was := h[..];
      if depth < cb {
        h[4 - cb + depth] := v;
      } else {
        b[nb - 1 - (depth - cb)] := v;
      }
      assert h[..ca] == was[..ca];
    }

    method WriteC(depth: nat, v: Cell)
      requires Valid() && depth < |StackC()|
      modifies cr, c
      ensures StackC() == old(StackC())[|old(StackC())| - 1 - depth := v]
      ensures StackA() == old(StackA()) && StackB() == old(StackB())
    {
      if depth < cc {
        cr[cc - 1 - depth] := v;
      } else {
        c[nc - 1 - (depth - cc)] := v;
      }
    }

    /** Move the deepest cached cell to the array; no stack changes. */
    method SpillA()
      requires Valid() && ca > 0
      modifies this`na, this`ca, h, a
      ensures Valid() && StackA() == old(StackA()) && StackB() == old(StackB()) && StackC() == old(StackC())
      ensures ca == old(ca) - 1
    {
      ghost var was := h[..];
      a[na] := h[0];
      na := na + 1;
      ShiftDown(h, ca);
      ca := ca - 1;
      assert h[..ca] == was[1..ca + 1] && h[4 - cb..] == was[4 - cb..];
      assert was[..ca + 1] == [was[0]] + was[1..ca + 1];
    }

    method SpillB()
      requires Valid() && cb > 0
      modifies this`nb, this`cb, h, b
      ensures Valid() && StackA() == old(StackA()) && StackB() == old(StackB()) && StackC() == old(StackC())
      ensures cb == old(cb) - 1
    {
      hide Reversed;
      ghost var was, below := h[..], b[..nb];
      ReversedOne(was[4 - cb..3], was[3]);
      assert was[4 - cb..] == was[4 - cb..3] + [was[3]];
      b[nb] := h[3];
      nb := nb + 1;
      ShiftUp(h, 4 - cb);
      cb := cb - 1;
      assert h[4 - cb..] == was[3 - cb..3] && h[..ca] == was[..ca];
      assert b[..nb] == below + [was[3]];
    }

    method SpillC()
      requires Valid() && cc > 0
      modifies this`nc, this`cc, cr, c
      ensures Valid() && StackA() == old(StackA()) && StackB() == old(StackB()) && StackC() == old(StackC())
      ensures cc == old(cc) - 1
    {
      ghost var was := cr[..];
      c[nc] := cr[0];
      nc := nc + 1;
      ShiftDown(cr, cc);
      cc := cc - 1;
      assert cr[..cc] == was[1..cc + 1];
      assert was[..cc + 1] == [was[0]] + was[1..cc + 1];
    }

    /** Push one cell, spilling one first if its registers are full: of the same stack if that has any
        cached, and otherwise of the other. */
    method Push(x: Stack, v: Cell)
      requires Valid() && |Stacks().At(x)| < Capacity(x)
      modifies this, h, cr, a, b, c
      ensures Valid() && Stacks() == old(Stacks()).Push(x, v)
    {
      if x == C {
        if cc == 3 {
          SpillC();
        }
        AddC(v);
      } else {
        if ca + cb == 4 {
          if (x == A && ca > 0) || (x == B && cb == 0) {
            SpillA();
          } else {
            SpillB();
          }
        }
        if x == A {
          AddA(v);
        } else {
          AddB(v);
        }
      }
    }

    method AddA(v: Cell)
      requires Valid() && ca + cb < 4 && na + ca < a.Length
      modifies this`ca, h
      ensures Valid() && Stacks() == Banks(old(StackA()) + [v], old(StackB()), old(StackC()))
    {
      ghost var was := h[..];
      h[ca] := v;
      ca := ca + 1;
      assert h[..ca] == was[..ca - 1] + [v] && h[4 - cb..] == was[4 - cb..];
    }

    method AddB(v: Cell)
      requires Valid() && ca + cb < 4 && nb + cb < b.Length
      modifies this`cb, h
      ensures Valid() && Stacks() == Banks(old(StackA()), old(StackB()) + [v], old(StackC()))
    {
      ghost var was := h[..];
      h[3 - cb] := v;
      cb := cb + 1;
      assert h[..ca] == was[..ca] && h[4 - cb..] == [v] + was[4 - cb + 1..];
      hide Reversed;
      ReversedOne(was[4 - cb + 1..], v);
    }

    method AddC(v: Cell)
      requires Valid() && cc < 3 && nc + cc < c.Length
      modifies this`cc, cr
      ensures Valid() && Stacks() == Banks(old(StackA()), old(StackB()), old(StackC()) + [v])
    {
      ghost var was := cr[..];
      cr[cc] := v;
      cc := cc + 1;
      assert cr[..cc] == was[..cc - 1] + [v];
    }

    /** Pop one cell; a register is never refilled. */
    method Pop(x: Stack) returns (v: Cell)
      requires Valid() && Stacks().Has(x, 0)
      modifies this
      ensures Valid() && v == old(Stacks()).Peek(x, 0) && Stacks() == old(Stacks()).Pop(x)
    {
      match x {
        case A => v := PopA();
        case B => v := PopB();
        case C => v := PopC();
      }
    }

    method PopA() returns (v: Cell)
      requires Valid() && StackA() != []
      modifies this`ca, this`na
      ensures Valid() && old(StackA()) == StackA() + [v] && StackB() == old(StackB()) && StackC() == old(StackC())
    {
      if ca > 0 {
        ca := ca - 1;
        v := h[ca];
      } else {
        na := na - 1;
        v := a[na];
      }
    }

    method PopB() returns (v: Cell)
      requires Valid() && StackB() != []
      modifies this`cb, this`nb
      ensures Valid() && old(StackB()) == StackB() + [v] && StackA() == old(StackA()) && StackC() == old(StackC())
    {
      if cb > 0 {
        v := h[4 - cb];
        cb := cb - 1;
        assert h[3 - cb..] == [v] + h[4 - cb..];
        hide Reversed;
        ReversedOne(h[4 - cb..], v);
      } else {
        nb := nb - 1;
        v := b[nb];
      }
    }

    method PopC() returns (v: Cell)
      requires Valid() && StackC() != []
      modifies this`cc, this`nc
      ensures Valid() && old(StackC()) == StackC() + [v] && StackA() == old(StackA()) && StackB() == old(StackB())
    {
      if cc > 0 {
        cc := cc - 1;
        v := cr[cc];
      } else {
        nc := nc - 1;
        v := c[nc];
      }
    }

    /** Move every cached cell to the arrays. */
    method PublishAll()
      requires Valid()
      modifies this, h, cr, a, b, c
      ensures Valid() && Stacks() == old(Stacks()) && ca == cb == cc == 0
      ensures a[..na] == old(Stacks()).a && b[..nb] == old(Stacks()).b && c[..nc] == old(Stacks()).c
    {
      while ca > 0
        invariant Valid() && Stacks() == old(Stacks())
      {
        SpillA();
      }
      while cb > 0
        invariant Valid() && Stacks() == old(Stacks()) && ca == 0
      {
        SpillB();
      }
      while cc > 0
        invariant Valid() && Stacks() == old(Stacks()) && ca == 0 && cb == 0
      {
        SpillC();
      }
      assert a[..na] == StackA() && b[..nb] == StackB() && c[..nc] == StackC();
    }
  }
}
