/** What a work list of instructions with known shapes says about the typings of a function. */
module Inference {
  import opened Words
  import opened Lists
  import opened TypedCode

  predicate Within(t: Typing, u: Typing) {
    forall pc | pc in t :: pc in u && u[pc] == t[pc]
  }

  /** Every typing of the function contains the shapes found so far. */
  ghost predicate Forced(m: Module, f: Function, t: Typing) {
    forall u: Typing | Types(m, f, u) :: Within(t, u)
  }

  ghost predicate Placed(m: Module, f: Function, t: Typing)
    requires Loaded(m) && f in m.functions
  {
    forall pc | pc in t :: StartIn(m, f, pc)
  }

  /** Everything found is still to be looked at, is being looked at, or flows on correctly. */
  ghost predicate Settled(m: Module, f: Function, t: Typing, work: seq<nat>, skip: set<nat>) {
    forall pc | pc in t && pc !in work && pc !in skip :: TypedAt(m, f, t, pc)
  }

  ghost predicate Exploring(m: Module, f: Function, t: Typing, work: seq<nat>, skip: set<nat>)
    requires Loaded(m) && f in m.functions
  {
    && f.entry in t && t[f.entry] == EntryShape(f)
    && Placed(m, f, t) && Forced(m, f, t)
    && Distinct(work) && (forall pc | pc in work :: pc in t)
    && Settled(m, f, t, work, skip)
  }

  lemma Begin(m: Module, f: Function)
    requires Loaded(m) && f in m.functions && Starts(m, f).Some?
    ensures Exploring(m, f, map[f.entry := EntryShape(f)], [f.entry], {})
  {
    var t: Typing := map[f.entry := EntryShape(f)];
    assert f.entry < f.end;
    forall u: Typing | Types(m, f, u) ensures Within(t, u) {
    }
  }

  lemma Finish(m: Module, f: Function, t: Typing)
    requires Loaded(m) && f in m.functions && Exploring(m, f, t, [], {})
    ensures Types(m, f, t)
  {
    forall pc | pc in t ensures f.entry <= pc < f.end && TypedAt(m, f, t, pc) {
      assert StartIn(m, f, pc);
      StartSound(m, f, pc);
    }
  }

  /** What any typing must say about an instruction whose shape is known. */
  lemma MustFlow(m: Module, f: Function, t: Typing, pc: nat, u: Typing)
    requires Loaded(m) && f in m.functions && Placed(m, f, t) && Forced(m, f, t) && Types(m, f, u) && pc in t
    ensures pc < |m.code| && m.code[pc].Some?
    ensures var d := m.code[pc].value;
      Flows(f, u, Successors(d.op, pc + d.length), Transfer(f, Callee(m, d.op), d.op, t[pc]))
  {
    hide Transfer, Flows, Callee, Successors;
    assert Within(t, u);
    assert TypedAt(m, f, u, pc);
  }

  /** An instruction that does not fit its only possible shape leaves no typing. */
  lemma NoFit(m: Module, f: Function, t: Typing, work: seq<nat>, skip: set<nat>, pc: nat)
    requires Loaded(m) && f in m.functions && Exploring(m, f, t, work, skip) && pc in t
    requires pc < |m.code| && m.code[pc].Some?
    requires var i := m.code[pc].value.op; Transfer(f, Callee(m, i), i, t[pc]) == None
    ensures !Typeable(m, f)
  {
    hide Transfer, Callee, Successors, Types;
    forall u: Typing | Types(m, f, u) ensures false {
      MustFlow(m, f, t, pc, u);
    }
  }

  lemma MustArrive(m: Module, f: Function, t: Typing, pc: nat, u: Typing, p: nat)
    requires Loaded(m) && f in m.functions && Placed(m, f, t) && Forced(m, f, t) && Types(m, f, u) && pc in t
    requires pc < |m.code| && m.code[pc].Some?
    requires var d := m.code[pc].value; p in Successors(d.op, pc + d.length)
    ensures var i := m.code[pc].value.op;
      var s := Transfer(f, Callee(m, i), i, t[pc]);
      s.Some? && Arrives(f, u, p, s.value) && (p in t ==> u[p] == t[p])
  {
    hide Transfer, Callee, Successors, Types;
    MustFlow(m, f, t, pc, u);
    assert Within(t, u);
  }

  /** So does an edge that leaves the function or meets another shape. */
  lemma NoEdge(m: Module, f: Function, t: Typing, work: seq<nat>, skip: set<nat>, pc: nat, p: nat)
    requires Loaded(m) && f in m.functions && Exploring(m, f, t, work, skip) && pc in t
    requires pc < |m.code| && m.code[pc].Some?
    requires var d := m.code[pc].value;
      var s := Transfer(f, Callee(m, d.op), d.op, t[pc]);
      && p in Successors(d.op, pc + d.length)
      && s.Some? && (p >= f.end || (p in t && t[p] != s.value))
    ensures !Typeable(m, f)
  {
    hide Transfer, Callee, Successors, Types;
    forall u: Typing | Types(m, f, u) ensures false {
      MustArrive(m, f, t, pc, u, p);
    }
  }

  predicate EdgesDone(f: Function, t: Typing, targets: seq<nat>, k: nat, s: Shape) {
    k <= |targets| && forall j | 0 <= j < k :: Arrives(f, t, targets[j], s)
  }

  /** The first `k` edges of the instruction being looked at have been followed. */
  ghost predicate Following(m: Module, f: Function, t: Typing, work: seq<nat>, pc: nat, s: Shape, k: nat)
    requires Loaded(m) && f in m.functions
  {
    && Exploring(m, f, t, work, {pc}) && pc in t && pc !in work
    && pc < |m.code| && m.code[pc].Some?
    && var d := m.code[pc].value;
      && Transfer(f, Callee(m, d.op), d.op, t[pc]) == Some(s)
      && EdgesDone(f, t, Successors(d.op, pc + d.length), k, s)
  }

  lemma Take(m: Module, f: Function, t: Typing, work: seq<nat>, s: Shape)
    requires Loaded(m) && f in m.functions && Exploring(m, f, t, work, {}) && work != []
    requires var pc := work[|work| - 1];
      pc < |m.code| && m.code[pc].Some?
      && var i := m.code[pc].value.op; pc in t && Transfer(f, Callee(m, i), i, t[pc]) == Some(s)
    ensures Following(m, f, t, work[..|work| - 1], work[|work| - 1], s, 0)
  {
    hide Transfer, Callee, Successors, TypedAt, Types;
    var pc, rest := work[|work| - 1], work[..|work| - 1];
    assert work == rest + [pc];
    assert pc in work;
  }

  lemma TakeIn(m: Module, f: Function, t: Typing, work: seq<nat>)
    requires Loaded(m) && f in m.functions && Exploring(m, f, t, work, {}) && work != []
    ensures work[|work| - 1] in t && StartIn(m, f, work[|work| - 1])
  {
    assert work[|work| - 1] in work;
  }

  /** An edge to a place whose shape is already known to agree. */
  lemma KnownEdge(m: Module, f: Function, t: Typing, work: seq<nat>, pc: nat, s: Shape, k: nat)
    requires Loaded(m) && f in m.functions && Following(m, f, t, work, pc, s, k)
    requires var d := m.code[pc].value;
      k < |Successors(d.op, pc + d.length)| && Arrives(f, t, Successors(d.op, pc + d.length)[k], s)
    ensures Following(m, f, t, work, pc, s, k + 1)
  {
    hide Transfer, Callee, Successors, Exploring;
  }

  lemma StaysTyped(m: Module, f: Function, t: Typing, p: nat, s: Shape, pc: nat)
    requires pc in t && p !in t && TypedAt(m, f, t, pc)
    ensures pc in t[p := s] && TypedAt(m, f, t[p := s], pc)
  {
    hide Transfer, Callee, Successors;
    var d := m.code[pc].value;
    var u := t[p := s];
    var r := Transfer(f, Callee(m, d.op), d.op, t[pc]);
    forall q | q in Successors(d.op, pc + d.length) ensures Arrives(f, u, q, r.value) {
      assert Arrives(f, t, q, r.value);
    }
  }

  lemma MoreForced(m: Module, f: Function, t: Typing, pc: nat, s: Shape, p: nat)
    requires Loaded(m) && f in m.functions && Placed(m, f, t) && Forced(m, f, t) && pc in t
    requires pc < |m.code| && m.code[pc].Some?
    requires var d := m.code[pc].value;
      Transfer(f, Callee(m, d.op), d.op, t[pc]) == Some(s) && p in Successors(d.op, pc + d.length)
    ensures Forced(m, f, t[p := s])
  {
    hide Transfer, Callee, Successors, Types;
    forall u: Typing | Types(m, f, u) ensures Within(t[p := s], u) {
      MustFlow(m, f, t, pc, u);
      assert Arrives(f, u, p, s);
      assert Within(t, u);
    }
  }

  /** An edge to a new place gives it the shape and puts it on the work list. */
  lemma NewEdge(m: Module, f: Function, t: Typing, work: seq<nat>, pc: nat, s: Shape, k: nat)
    requires Loaded(m) && f in m.functions && Following(m, f, t, work, pc, s, k)
    requires var d := m.code[pc].value;
      k < |Successors(d.op, pc + d.length)|
      && var p := Successors(d.op, pc + d.length)[k]; p !in t && p < f.end && StartIn(m, f, p)
    ensures var d := m.code[pc].value;
      var p := Successors(d.op, pc + d.length)[k];
      Following(m, f, t[p := s], work + [p], pc, s, k + 1)
  {
    hide Transfer, Callee, Successors, TypedAt, Types, StartIn;
    var d := m.code[pc].value;
    var p := Successors(d.op, pc + d.length)[k];
    var u := t[p := s];
    MoreForced(m, f, t, pc, s, p);
    forall q | q in u && q !in work + [p] && q !in {pc} ensures TypedAt(m, f, u, q) {
      assert q in t && q !in work;
      StaysTyped(m, f, t, p, s, q);
    }
    assert Exploring(m, f, u, work + [p], {pc});
  }

  /** When all edges have been followed the instruction is settled. */
  lemma Leave(m: Module, f: Function, t: Typing, work: seq<nat>, pc: nat, s: Shape)
    requires Loaded(m) && f in m.functions
    requires pc < |m.code| && m.code[pc].Some?
    requires var d := m.code[pc].value; Following(m, f, t, work, pc, s, |Successors(d.op, pc + d.length)|)
    ensures Exploring(m, f, t, work, {})
  {
    hide Transfer, Callee, Successors, Types, StartIn;
    var d := m.code[pc].value;
    var succs := Successors(d.op, pc + d.length);
    forall p | p in succs ensures Arrives(f, t, p, s) {
      var j :| 0 <= j < |succs| && succs[j] == p;
    }
    assert TypedAt(m, f, t, pc);
  }
}
