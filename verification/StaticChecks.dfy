/** The two passes over every instruction, reachable or not: instruction starts, branch targets and
    call contracts.
 */
module StaticChecks {
  import opened Words
  import opened TypedCode

  /** Decoding has reached `pc`, and `seen` are the starts passed. */
  ghost predicate Scanning(m: Module, f: Function, pc: nat, seen: set<nat>)
    requires Loaded(m) && f in m.functions
  {
    && f.entry <= pc <= f.end <= |m.code|
    && (Scan(m, f.end, pc).None? ==> Starts(m, f).None?)
    && (Scan(m, f.end, pc).Some? ==> Starts(m, f) == Some(seen + Scan(m, f.end, pc).value))
    && (forall p | p in seen :: f.entry <= p < pc)
  }

  lemma ScanStep(m: Module, f: Function, pc: nat, seen: set<nat>)
    requires Loaded(m) && f in m.functions && Scanning(m, f, pc, seen) && pc < f.end
    requires m.code[pc].Some? && pc + m.code[pc].value.length <= f.end
    ensures Scanning(m, f, pc + m.code[pc].value.length, seen + {pc})
  {
    var next := pc + m.code[pc].value.length;
    var rest := Scan(m, f.end, next);
    if rest.Some? {
      assert seen + ({pc} + rest.value) == seen + {pc} + rest.value;
    }
  }

  lemma ScanDone(m: Module, f: Function, pc: nat, seen: set<nat>)
    requires Loaded(m) && f in m.functions && Scanning(m, f, pc, seen) && pc >= f.end
    ensures Starts(m, f) == Some(seen)
  {
    assert seen + {} == seen;
  }

  predicate AbortOk(m: Module, pc: nat) {
    pc < |m.code| && m.code[pc].Some? && (m.code[pc].value.op.OpAbort? ==> m.code[pc].value.op.reason != 0)
  }

  lemma ScanFails(m: Module, f: Function, pc: nat, seen: set<nat>)
    requires Loaded(m) && f in m.functions && Scanning(m, f, pc, seen) && pc < f.end
    requires m.code[pc].None? || pc + m.code[pc].value.length > f.end || !AbortOk(m, pc)
    ensures !StaticOk(m)
  {
    if AllScan(m) {
      assert Starts(m, f).Some?;
      assert StartIn(m, f, pc);
      assert !FitsAt(m, f, pc);
    }
  }

  /** The marks of one function's positions. */
  ghost predicate Marked(m: Module, f: Function, starts: seq<bool>, halted: bool)
    requires Loaded(m) && f in m.functions
  {
    && |starts| == |m.code| && Starts(m, f).Some?
    && (forall p | f.entry <= p < f.end :: starts[p] <==> StartIn(m, f, p))
    && (halted <==> HasHalt(m, f))
    && (forall p | StartIn(m, f, p) :: AbortOk(m, p))
  }

  /** The marks made so far. */
  ghost predicate Marking(m: Module, f: Function, pc: nat, seen: set<nat>, starts: seq<bool>, halted: bool)
    requires Loaded(m) && f in m.functions
  {
    && Scanning(m, f, pc, seen) && |starts| == |m.code|
    && (forall p | f.entry <= p < f.end :: starts[p] <==> p in seen)
    && (halted <==> exists p :: p in seen && IsHalt(m, p))
    && (forall p | p in seen :: AbortOk(m, p))
  }

  lemma MarkStep(m: Module, f: Function, pc: nat, seen: set<nat>, starts: seq<bool>, halted: bool)
    requires Loaded(m) && f in m.functions && Marking(m, f, pc, seen, starts, halted) && pc < f.end
    requires m.code[pc].Some? && pc + m.code[pc].value.length <= f.end && AbortOk(m, pc)
    ensures Marking(m, f, pc + m.code[pc].value.length, seen + {pc}, starts[pc := true],
      halted || m.code[pc].value.op.OpHalt?)
  {
    ScanStep(m, f, pc, seen);
    hide Scan, Starts, Scanning;
    var seen' := seen + {pc};
    if halted {
      var p :| p in seen && IsHalt(m, p);
      assert p in seen';
    }
    if m.code[pc].value.op.OpHalt? {
      assert pc in seen' && IsHalt(m, pc);
    }
  }

  lemma MarkDone(m: Module, f: Function, pc: nat, seen: set<nat>, starts: seq<bool>, halted: bool)
    requires Loaded(m) && f in m.functions && Marking(m, f, pc, seen, starts, halted) && pc >= f.end
    ensures Marked(m, f, starts, halted)
  {
    ScanDone(m, f, pc, seen);
    hide Scan;
    if halted {
      var p :| p in seen && IsHalt(m, p);
      assert StartIn(m, f, p);
    }
  }

  lemma MarkStart(m: Module, f: Function, starts: seq<bool>)
    requires Loaded(m) && f in m.functions && |starts| == |m.code|
    requires forall p | f.entry <= p < f.end :: !starts[p]
    ensures Marking(m, f, f.entry, {}, starts, false)
  {
    var r := Scan(m, f.end, f.entry);
    if r.Some? {
      assert {} + r.value == r.value;
    }
  }

  method MarkFunction(m: Module, fi: nat, starts: array<bool>) returns (ok: bool, halted: bool)
    requires Loaded(m) && fi < |m.functions| && starts.Length == |m.code|
    requires forall p | m.functions[fi].entry <= p < m.functions[fi].end :: !starts[p]
    modifies starts
    ensures ok ==> Marked(m, m.functions[fi], starts[..], halted)
    ensures !ok ==> !StaticOk(m)
    ensures forall p | 0 <= p < |m.code| && !(m.functions[fi].entry <= p < m.functions[fi].end) ::
      starts[p] == old(starts[p])
  {
    hide Marking, Marked, StaticOk, AbortOk;
    var f := m.functions[fi];
    assert f in m.functions;
    var pc := f.entry;
    halted := false;
    ghost var seen: set<nat> := {};
    MarkStart(m, f, starts[..]);
    while pc < f.end
      invariant f.entry <= pc && Marking(m, f, pc, seen, starts[..], halted)
      invariant forall p | 0 <= p < |m.code| && !(f.entry <= p < f.end) :: starts[p] == old(starts[p])
      decreases f.end - pc
    {
      var d := m.code[pc];
      if d.None? || pc + d.value.length > f.end || (d.value.op.OpAbort? && d.value.op.reason == 0) {
        MarkFails(m, f, pc, seen, starts[..], halted);
        return false, halted;
      }
      MarkStepAt(m, f, pc, seen, starts[..], halted);
      if d.value.op.OpHalt? {
        halted := true;
      }
      ghost var marks := starts[..];
      starts[pc] := true;
      assert starts[..] == marks[pc := true];
      seen := seen + {pc};
      pc := pc + d.value.length;
    }
    MarkDone(m, f, pc, seen, starts[..], halted);
    ok := true;
  }

  lemma MarkFails(m: Module, f: Function, pc: nat, seen: set<nat>, starts: seq<bool>, halted: bool)
    requires Loaded(m) && f in m.functions && Marking(m, f, pc, seen, starts, halted) && pc < f.end <= |m.code|
    requires var d := m.code[pc];
      d.None? || pc + d.value.length > f.end || (d.value.op.OpAbort? && d.value.op.reason == 0)
    ensures !StaticOk(m)
  {
    ScanFails(m, f, pc, seen);
  }

  lemma MarkStepAt(m: Module, f: Function, pc: nat, seen: set<nat>, starts: seq<bool>, halted: bool)
    requires Loaded(m) && f in m.functions && Marking(m, f, pc, seen, starts, halted) && pc < f.end <= |m.code|
    requires var d := m.code[pc];
      d.Some? && pc + d.value.length <= f.end && !(d.value.op.OpAbort? && d.value.op.reason == 0)
    ensures pc < |starts| && Marking(m, f, pc + m.code[pc].value.length, seen + {pc}, starts[pc := true],
      halted || m.code[pc].value.op.OpHalt?)
  {
    MarkStep(m, f, pc, seen, starts, halted);
  }

  ghost predicate AllMarked(m: Module, n: nat, starts: seq<bool>, halts: seq<bool>)
    requires Loaded(m) && n <= |m.functions|
  {
    |halts| == |m.functions| && forall g | 0 <= g < n :: MarkedAt(m, g, starts, halts)
  }

  ghost predicate MarkedAt(m: Module, g: nat, starts: seq<bool>, halts: seq<bool>)
    requires Loaded(m) && g < |m.functions| == |halts|
  {
    Marked(m, m.functions[g], starts, halts[g])
  }

  lemma MarkedStays(m: Module, g: nat, f: nat, starts: seq<bool>, starts': seq<bool>, halted: bool)
    requires Loaded(m) && g < f < |m.functions| && |starts'| == |m.code|
    requires Marked(m, m.functions[g], starts, halted)
    requires forall p | 0 <= p < |m.code| && !(m.functions[f].entry <= p < m.functions[f].end) ::
      starts'[p] == starts[p]
    ensures Marked(m, m.functions[g], starts', halted)
  {
    hide StartIn, HasHalt;
    Ordered(m, g, f);
  }

  /** The first pass: mark every instruction start and every function with a HALT. */
  method MarkAll(m: Module) returns (ok: bool, starts: array<bool>, halts: array<bool>)
    requires Loaded(m)
    ensures fresh(starts) && fresh(halts)
    ensures ok ==> AllMarked(m, |m.functions|, starts[..], halts[..])
    ensures !ok ==> !StaticOk(m)
  {
    hide Marked, StaticOk;
    starts := new bool[|m.code|](_ => false);
    halts := new bool[|m.functions|](_ => false);
    for fi := 0 to |m.functions|
      invariant AllMarked(m, fi, starts[..], halts[..])
      invariant forall p | 0 <= p < |m.code| && Later(m, fi, p) :: !starts[p]
      modifies starts, halts
    {
      ghost var before, flags := starts[..], halts[..];
      assert forall p | 0 <= p < |m.code| && Later(m, fi + 1, p) :: Later(m, fi, p);
      assert forall p | m.functions[fi].entry <= p < m.functions[fi].end :: Later(m, fi, p);
      var halted;
      ok, halted := MarkFunction(m, fi, starts);
      if !ok {
        return;
      }
      halts[fi] := halted;
      forall g | 0 <= g <= fi ensures MarkedAt(m, g, starts[..], halts[..]) {
        if g < fi {
          assert MarkedAt(m, g, before, flags);
          MarkedStays(m, g, fi, before, starts[..], flags[g]);
        }
      }
    }
    ok := true;
  }

  /** Position `p` lies in function `fi` or after it. */
  predicate Later(m: Module, fi: nat, p: nat) {
    fi < |m.functions| && p >= m.functions[fi].entry
  }

  /** Binary search for the function that starts at `pc`. */
  method FindFunction(m: Module, pc: nat) returns (r: Option<nat>)
    requires Loaded(m)
    ensures r.Some? ==> IsEntry(m, pc, r.value)
    ensures r.None? ==> forall f: nat :: !IsEntry(m, pc, f)
  {
    var lo, hi := 0, |m.functions|;
    while lo < hi
      invariant 0 <= lo <= hi <= |m.functions|
      invariant forall f | 0 <= f < lo :: m.functions[f].entry < pc
      invariant forall f | hi <= f < |m.functions| :: m.functions[f].entry >= pc
    {
      var mid := lo + (hi - lo) / 2;
      if m.functions[mid].entry < pc {
        forall f | 0 <= f <= mid ensures m.functions[f].entry < pc {
          if f < mid {
            Ordered(m, f, mid);
          }
        }
        lo := mid + 1;
      } else {
        forall f | mid <= f < |m.functions| ensures m.functions[f].entry >= pc {
          if mid < f {
            Ordered(m, mid, f);
          }
        }
        hi := mid;
      }
    }
    if lo < |m.functions| && m.functions[lo].entry == pc {
      return Some(lo);
    }
    forall f: nat ensures !IsEntry(m, pc, f) {
      if lo < f < |m.functions| {
        Ordered(m, lo, f);
      }
    }
    r := None;
  }

  // ----- the second pass -----

  /** Whether every branch target is an instruction of the function. */
  method CheckTargets(m: Module, f: Function, op: Op, starts: array<bool>, ghost halted: bool) returns (ok: bool)
    requires Loaded(m) && f in m.functions && Marked(m, f, starts[..], halted)
    ensures ok <==> forall t | t in Targets(op) :: StartIn(m, f, t)
  {
    hide StartIn, HasHalt;
    var ts := Targets(op);
    for k := 0 to |ts|
      invariant forall j | 0 <= j < k :: StartIn(m, f, ts[j])
    {
      if ts[k] < f.entry || ts[k] >= f.end || !starts[ts[k]] {
        OutsideStart(m, f, ts[k]);
        assert ts[k] in ts;
        return false;
      }
    }
    ok := true;
  }

  lemma OutsideStart(m: Module, f: Function, p: nat)
    requires Loaded(m) && f in m.functions
    ensures StartIn(m, f, p) ==> f.entry <= p < f.end <= |m.code|
    ensures f.end <= |m.code|
  {
    if StartIn(m, f, p) {
      StartSound(m, f, p);
    }
  }

  /** Whether a call names a function that may be called, with its argument count, and a tail call one
      with the caller's results. */
  method CheckCall(m: Module, f: Function, op: Op, halts: array<bool>, ghost starts: seq<bool>) returns (ok: bool)
    requires Loaded(m) && IsCall(op) && AllMarked(m, |m.functions|, starts, halts[..])
    ensures ok <==> CallFits(m, f, op)
  {
    hide Marked, HasHalt;
    var r := FindFunction(m, op.target);
    if r == None {
      return false;
    }
    var g := m.functions[r.value];
    assert MarkedAt(m, r.value, starts, halts[..]);
    HaltMark(m, r.value, starts, halts[..]);
    ok := !halts[r.value] && op.count == |g.arguments| && (op.OpTailCall? ==> SameResults(f, g));
    if CallFits(m, f, op) {
      var h: nat :| IsEntry(m, op.target, h) && CalleeFits(m, f, op, m.functions[h]);
      SameEntry(m, op.target, h, r.value);
    }
  }

  lemma HaltMark(m: Module, g: nat, starts: seq<bool>, halts: seq<bool>)
    requires Loaded(m) && g < |m.functions| == |halts| && MarkedAt(m, g, starts, halts)
    ensures halts[g] <==> HasHalt(m, m.functions[g])
  {
  }

  lemma SameEntry(m: Module, pc: nat, f: nat, g: nat)
    requires Loaded(m) && IsEntry(m, pc, f) && IsEntry(m, pc, g)
    ensures f == g
  {
    if f < g {
      Ordered(m, f, g);
    } else if g < f {
      Ordered(m, g, f);
    }
  }

  method CheckFunction(m: Module, fi: nat, starts: array<bool>, halts: array<bool>) returns (ok: bool)
    requires Loaded(m) && fi < |m.functions| && AllMarked(m, |m.functions|, starts[..], halts[..])
    ensures ok <==> forall pc | StartIn(m, m.functions[fi], pc) :: FitsAt(m, m.functions[fi], pc)
  {
    hide Marked, Scan;
    var f := m.functions[fi];
    assert MarkedAt(m, fi, starts[..], halts[..]) && f in m.functions;
    var pc := f.entry;
    ghost var seen: set<nat> := {};
    AllKnown(m, f, starts[..], halts[fi]);
    while pc < f.end
      invariant Scanning(m, f, pc, seen)
      invariant forall p | p in seen :: StartIn(m, f, p) && FitsAt(m, f, p)
      decreases f.end - pc
    {
      NextKnown(m, f, pc, seen);
      AbortKnown(m, f, pc, starts[..], halts[fi]);
      var op := m.code[pc].value.op;
      ok := CheckTargets(m, f, op, starts, halts[fi]);
      if ok && IsCall(op) {
        ok := CheckCall(m, f, op, halts, starts[..]);
      }
      if !ok {
        assert !FitsAt(m, f, pc);
        return;
      }
      assert FitsAt(m, f, pc);
      ScanStep(m, f, pc, seen);
      seen := seen + {pc};
      pc := pc + m.code[pc].value.length;
    }
    ScanDone(m, f, pc, seen);
    ok := true;
  }

  lemma AllKnown(m: Module, f: Function, starts: seq<bool>, halted: bool)
    requires Loaded(m) && f in m.functions && Marked(m, f, starts, halted)
    ensures Scanning(m, f, f.entry, {}) && Starts(m, f).Some?
  {
    var r := Scan(m, f.end, f.entry);
    if r.Some? {
      assert {} + r.value == r.value;
    }
  }

  lemma NextKnown(m: Module, f: Function, pc: nat, seen: set<nat>)
    requires Loaded(m) && f in m.functions && Scanning(m, f, pc, seen) && pc < f.end && Starts(m, f).Some?
    ensures StartIn(m, f, pc) && pc < |m.code| && m.code[pc].Some? && pc + m.code[pc].value.length <= f.end
  {
  }

  lemma AbortKnown(m: Module, f: Function, pc: nat, starts: seq<bool>, halted: bool)
    requires Loaded(m) && f in m.functions && Marked(m, f, starts, halted) && StartIn(m, f, pc)
    ensures AbortOk(m, pc)
  {
  }

  /** The two passes accept a module exactly when it passes every static check. */
  method CheckAll(m: Module) returns (ok: bool, starts: array<bool>)
    requires Loaded(m)
    ensures ok <==> StaticOk(m)
  {
    hide Marked, FitsAt, StartIn;
    var halts;
    ok, starts, halts := MarkAll(m);
    if !ok {
      return;
    }
    ScansAll(m, starts[..], halts[..]);
    for fi := 0 to |m.functions|
      invariant AllMarked(m, |m.functions|, starts[..], halts[..])
      invariant forall g, pc | 0 <= g < fi && StartIn(m, m.functions[g], pc) :: FitsAt(m, m.functions[g], pc)
    {
      ok := CheckFunction(m, fi, starts, halts);
      if !ok {
        assert m.functions[fi] in m.functions;
        return;
      }
    }
    ok := true;
  }

  lemma ScansAll(m: Module, starts: seq<bool>, halts: seq<bool>)
    requires Loaded(m) && AllMarked(m, |m.functions|, starts, halts)
    ensures AllScan(m)
  {
    forall f | f in m.functions ensures Starts(m, f).Some? {
      var g :| 0 <= g < |m.functions| && m.functions[g] == f;
      assert MarkedAt(m, g, starts, halts);
    }
  }
}
