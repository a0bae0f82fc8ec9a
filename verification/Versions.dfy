/** Block keys: which cells of the three stacks a block version fixes, and which it takes as
    parameters.
 */
module Versions {
  import opened Words
  import opened Bytecode
  import opened ResidualCode

  /** At most this many versions of one instruction for one shape of context. */
  const VERSION_LIMIT: nat := 8

  /** A cell of a key: a constant the version relies on, or a parameter. */
  datatype Slot = Fixed(value: Cell) | Open

  /** What the symbolic machine knows: the stacks, and where the frame stack's homes begin. */
  datatype Context = Context(stacks: Banks<Sym>, origin: int, bias: int)

  datatype Key = Key(slots: Banks<Slot>, origin: int, bias: int, generic: bool)

  function SlotOf(v: Sym): Slot {
    match v case Const(c) => Fixed(c) case Value(_) => Open
  }

  function SlotsOf(l: seq<Sym>): (r: seq<Slot>)
    ensures |r| == |l| && forall i | 0 <= i < |l| :: r[i] == SlotOf(l[i])
  {
    seq(|l|, (i: nat) requires i < |l| => SlotOf(l[i]))
  }

  function AllOpen(n: nat): (r: seq<Slot>)
    ensures |r| == n && forall i | 0 <= i < n :: r[i] == Open
  {
    seq(n, _ => Open)
  }

  /** Keep constants, forget everything else. */
  function KeyOf(x: Context): Key {
    Key(Banks(SlotsOf(x.stacks.a), SlotsOf(x.stacks.b), SlotsOf(x.stacks.c)), x.origin, x.bias, false)
  }

  function Forgotten(k: Key): Key {
    Key(Banks(AllOpen(|k.slots.a|), AllOpen(|k.slots.b|), AllOpen(|k.slots.c|)), k.origin, k.bias, true)
  }

  /** `k` fixes only cells that `x` holds as the same constants. */
  predicate CoversAll(k: seq<Slot>, l: seq<Sym>) {
    |k| == |l| && forall i | 0 <= i < |k| && k[i].Fixed? :: l[i] == Const(k[i].value)
  }

  predicate Covers(k: Key, x: Context) {
    && CoversAll(k.slots.a, x.stacks.a) && CoversAll(k.slots.b, x.stacks.b) && CoversAll(k.slots.c, x.stacks.c)
    && k.origin == x.origin && k.bias == x.bias
  }

  predicate SameFamily(j: Key, k: Key) {
    && |j.slots.a| == |k.slots.a| && |j.slots.b| == |k.slots.b| && |j.slots.c| == |k.slots.c|
    && j.origin == k.origin && j.bias == k.bias
  }

  /** Forget each constant on which the two lists differ. */
  function Meet(k: seq<Slot>, prior: seq<Slot>): (r: seq<Slot>)
    requires |k| == |prior|
    ensures |r| == |k|
  {
    seq(|k|, (i: nat) requires i < |k| => if k[i].Fixed? && k[i] == prior[i] then k[i] else Open)
  }

  function MeetKey(k: Key, prior: Key): Key
    requires SameFamily(prior, k)
  {
    k.(slots := Banks(Meet(k.slots.a, prior.slots.a), Meet(k.slots.b, prior.slots.b), Meet(k.slots.c, prior.slots.c)))
  }

  lemma KeyOfCovers(x: Context)
    ensures Covers(KeyOf(x), x)
  {
  }

  lemma ForgottenCovers(k: Key, x: Context)
    requires Covers(k, x)
    ensures Covers(Forgotten(k), x) && SameFamily(Forgotten(k), k)
  {
  }

  lemma MeetCovers(k: Key, prior: Key, x: Context)
    requires Covers(k, x) && SameFamily(prior, k)
    ensures Covers(MeetKey(k, prior), x) && SameFamily(MeetKey(k, prior), k)
  {
  }

  // ----- which constants a key keeps -----

  /** `k` fixes exactly the constants of `x` that `keep` keeps. */
  ghost predicate Exactly(k: Key, x: Context, keep: (Stack, nat) -> bool) {
    && Covers(k, x) && !k.generic
    && forall s: Stack, i: nat | i < |x.stacks.At(s)| && x.stacks.At(s)[i].Const? ::
      k.slots.At(s)[i].Fixed? <==> keep(s, i)
  }

  /** `k` fixes every constant of `x`. */
  ghost predicate Keeps(k: Key, x: Context) {
    Exactly(k, x, (s, i) => true)
  }

  /** `k` has the shape of `x` and fixes nothing. */
  ghost predicate Forgets(k: Key, x: Context) {
    Covers(k, x) && k.generic && forall s: Stack, i: nat | i < |k.slots.At(s)| :: k.slots.At(s)[i] == Open
  }

  lemma CoversAt(k: Key, x: Context, s: Stack)
    requires Covers(k, x)
    ensures CoversAll(k.slots.At(s), x.stacks.At(s))
  {
  }

  lemma SlotsEqual(k: seq<Slot>, j: seq<Slot>, l: seq<Sym>)
    requires CoversAll(k, l) && CoversAll(j, l)
    requires forall i | 0 <= i < |l| && l[i].Const? :: k[i].Fixed? <==> j[i].Fixed?
    ensures k == j
  {
    forall i | 0 <= i < |l| ensures k[i] == j[i] {
    }
  }

  /** What is kept determines the key. */
  lemma ExactlyOne(k: Key, j: Key, x: Context, keep: (Stack, nat) -> bool)
    requires Exactly(k, x, keep) && Exactly(j, x, keep)
    ensures k == j
  {
    forall s: Stack ensures k.slots.At(s) == j.slots.At(s) {
      CoversAt(k, x, s);
      CoversAt(j, x, s);
      hide Covers;
      SlotsEqual(k.slots.At(s), j.slots.At(s), x.stacks.At(s));
    }
    assert k.slots.At(A) == j.slots.At(A) && k.slots.At(B) == j.slots.At(B) && k.slots.At(C) == j.slots.At(C);
  }

  lemma ForgetsOne(k: Key, j: Key, x: Context)
    requires Forgets(k, x) && Forgets(j, x)
    ensures k == j
  {
    forall s: Stack ensures k.slots.At(s) == j.slots.At(s) {
      CoversAt(k, x, s);
      CoversAt(j, x, s);
    }
    assert k.slots.At(A) == j.slots.At(A) && k.slots.At(B) == j.slots.At(B) && k.slots.At(C) == j.slots.At(C);
  }

  lemma KeyOfKeeps(x: Context)
    ensures Keeps(KeyOf(x), x)
  {
  }

  lemma ForgottenForgets(k: Key, x: Context)
    requires Covers(k, x)
    ensures Forgets(Forgotten(k), x)
  {
  }

  // ----- parameters -----

  function Opens(k: seq<Slot>): nat {
    if k == [] then 0 else Opens(k[..|k| - 1]) + if k[|k| - 1] == Open then 1 else 0
  }

  function Arity(k: Key): nat {
    Opens(k.slots.a) + Opens(k.slots.b) + Opens(k.slots.c)
  }

  /** The arguments an edge passes to the open cells of one stack. */
  function Passed<T>(k: seq<Slot>, l: seq<T>): (r: seq<T>)
    requires |k| == |l|
    ensures |r| == Opens(k)
  {
    if k == [] then []
    else Passed(k[..|k| - 1], l[..|k| - 1]) + if k[|k| - 1] == Open then [l[|k| - 1]] else []
  }

  function PassedAll<T>(k: Key, s: Banks<T>): (r: seq<T>)
    requires |k.slots.a| == |s.a| && |k.slots.b| == |s.b| && |k.slots.c| == |s.c|
    ensures |r| == Arity(k)
  {
    Passed(k.slots.a, s.a) + Passed(k.slots.b, s.b) + Passed(k.slots.c, s.c)
  }

  /** The stack a version starts with: parameters are numbered from `base`. */
  function Named(k: seq<Slot>, base: nat): (r: seq<Sym>)
    ensures |r| == |k|
  {
    if k == [] then []
    else
      var top := k[|k| - 1];
      Named(k[..|k| - 1], base) +
        [if top.Fixed? then Const(top.value) else Value(base + Opens(k[..|k| - 1]))]
  }

  function NamedAll(k: Key, base: nat): Banks<Sym> {
    Banks(Named(k.slots.a, base), Named(k.slots.b, base + Opens(k.slots.a)),
      Named(k.slots.c, base + Opens(k.slots.a) + Opens(k.slots.b)))
  }

  /** The stack a key stands for when its parameters have the given values. */
  function Filled(k: seq<Slot>, values: seq<Cell>): (r: seq<Cell>)
    requires |values| == Opens(k)
    ensures |r| == |k|
  {
    if k == [] then []
    else
      var top := k[|k| - 1];
      Filled(k[..|k| - 1], values[..Opens(k[..|k| - 1])]) +
        [if top.Fixed? then top.value else values[|values| - 1]]
  }

  function FilledAll(k: Key, values: seq<Cell>): Banks<Cell>
    requires |values| == Arity(k)
  {
    var na, nb := Opens(k.slots.a), Opens(k.slots.b);
    Banks(Filled(k.slots.a, values[..na]), Filled(k.slots.b, values[na..na + nb]), Filled(k.slots.c, values[na + nb..]))
  }

  predicate Supplies(env: Env, base: nat, values: seq<Cell>) {
    forall i: nat | base <= i < base + |values| :: i in env && env[i] == ParameterAt(values, base, i)
  }

  lemma SuppliesPart(env: Env, base: nat, values: seq<Cell>, lo: nat, hi: nat)
    requires Supplies(env, base, values) && lo <= hi <= |values|
    ensures Supplies(env, base + lo, values[lo..hi])
  {
  }

  lemma {:induction false} NamedDenotes(k: seq<Slot>, base: nat, values: seq<Cell>, env: Env)
    requires |values| == Opens(k) && Supplies(env, base, values)
    ensures AllKnown(Named(k, base), env) && DenoteAll(Named(k, base), env) == Filled(k, values)
  {
    hide AllKnown, DenoteAll, Supplies;
    if k == [] {
      DenoteNone(env);
    } else {
      var rest, top := k[..|k| - 1], k[|k| - 1];
      SuppliesPart(env, base, values, 0, Opens(rest));
      assert values[0..Opens(rest)] == values[..Opens(rest)];
      NamedDenotes(rest, base, values[..Opens(rest)], env);
      var v := if top.Fixed? then Const(top.value) else Value(base + Opens(rest));
      if top == Open {
        SuppliesLast(env, base, values);
      }
      DenoteOne(v, env);
      DenoteConcat(Named(rest, base), [v], env);
    }
  }

  lemma SuppliesLast(env: Env, base: nat, values: seq<Cell>)
    requires Supplies(env, base, values) && values != []
    ensures base + |values| - 1 in env && env[base + |values| - 1] == values[|values| - 1]
  {
  }

  lemma DenoteNone(env: Env)
    ensures AllKnown([], env) && DenoteAll([], env) == []
  {
  }

  lemma DenoteOne(v: Sym, env: Env)
    requires Known(v, env)
    ensures AllKnown([v], env) && DenoteAll([v], env) == [Denote(v, env)]
  {
  }

  lemma {:induction false} NamedOlder(k: seq<Slot>, base: nat)
    ensures AllOlder(Named(k, base), base + Opens(k))
  {
    if k != [] {
      NamedOlder(k[..|k| - 1], base);
    }
  }

  lemma ParametersSupply(base: nat, values: seq<Cell>)
    ensures Supplies(Parameters(base, values), base, values)
  {
  }

  /** At block entry the named stacks denote the filled ones. */
  lemma EntryDenotes(k: Key, base: nat, values: seq<Cell>)
    requires |values| == Arity(k)
    ensures var env := Parameters(base, values);
      BanksKnown(NamedAll(k, base), env) && DenoteBanks(NamedAll(k, base), env) == FilledAll(k, values)
  {
    var na, nb := Opens(k.slots.a), Opens(k.slots.b);
    var env := Parameters(base, values);
    hide Named, Filled, Opens, AllKnown, DenoteAll;
    ParametersSupply(base, values);
    hide Parameters, Supplies;
    SuppliesPart(env, base, values, 0, na);
    SuppliesPart(env, base, values, na, na + nb);
    SuppliesPart(env, base, values, na + nb, |values|);
    assert values[0..na] == values[..na] && values[na + nb..|values|] == values[na + nb..];
    NamedDenotes(k.slots.a, base, values[..na], env);
    NamedDenotes(k.slots.b, base + na, values[na..na + nb], env);
    NamedDenotes(k.slots.c, base + na + nb, values[na + nb..], env);
  }

  lemma EntryOlder(k: Key, base: nat)
    ensures BanksOlder(NamedAll(k, base), base + Arity(k))
  {
    NamedOlder(k.slots.a, base);
    NamedOlder(k.slots.b, base + Opens(k.slots.a));
    NamedOlder(k.slots.c, base + Opens(k.slots.a) + Opens(k.slots.b));
  }

  lemma {:induction false} PassedFills(k: seq<Slot>, l: seq<Sym>, env: Env)
    requires CoversAll(k, l) && AllKnown(l, env)
    ensures AllKnown(Passed(k, l), env) && Filled(k, DenoteAll(Passed(k, l), env)) == DenoteAll(l, env)
  {
    hide AllKnown, DenoteAll, CoversAll, Filled;
    CoversLast(k, l);
    if k == [] {
      DenoteNone(env);
      assert Filled(k, []) == [] by { FilledNone(k); }
    } else {
      var rest, top := k[..|k| - 1], k[|k| - 1];
      var under, v := l[..|k| - 1], l[|k| - 1];
      assert l == under + [v];
      DenoteConcat(under, [v], env);
      KnownOne(v, env);
      DenoteOne(v, env);
      PassedFills(rest, under, env);
      DenoteConcat(Passed(rest, under), if top == Open then [v] else [], env);
      if top == Open {
        FilledOpen(k, DenoteAll(Passed(rest, under), env), Denote(v, env));
      } else {
        FilledFixed(k, DenoteAll(Passed(rest, under), env));
        assert Passed(rest, under) + [] == Passed(rest, under);
      }
    }
  }

  lemma FilledNone(k: seq<Slot>)
    requires k == []
    ensures Filled(k, []) == []
  {
  }

  lemma KnownOne(v: Sym, env: Env)
    requires AllKnown([v], env)
    ensures Known(v, env)
  {
    assert [v][0] == v;
  }

  lemma CoversLast(k: seq<Slot>, l: seq<Sym>)
    requires CoversAll(k, l)
    ensures k == [] ==> l == []
    ensures k != [] ==> |l| == |k| && CoversAll(k[..|k| - 1], l[..|k| - 1])
    ensures k != [] && k[|k| - 1].Fixed? ==> l[|k| - 1] == Const(k[|k| - 1].value)
  {
  }

  lemma FilledOpen(k: seq<Slot>, values: seq<Cell>, v: Cell)
    requires k != [] && k[|k| - 1] == Open && |values| == Opens(k[..|k| - 1])
    ensures Filled(k, values + [v]) == Filled(k[..|k| - 1], values) + [v]
  {
    assert (values + [v])[..|values|] == values;
  }

  lemma FilledFixed(k: seq<Slot>, values: seq<Cell>)
    requires k != [] && k[|k| - 1].Fixed? && |values| == Opens(k[..|k| - 1])
    ensures Filled(k, values) == Filled(k[..|k| - 1], values) + [k[|k| - 1].value]
  {
    assert values[..|values|] == values;
  }

  /** Passing a context's cells to a key that covers it rebuilds the context's stacks. */
  lemma EdgeFills(k: Key, x: Context, env: Env)
    requires Covers(k, x) && BanksKnown(x.stacks, env)
    ensures AllKnown(PassedAll(k, x.stacks), env)
    ensures FilledAll(k, DenoteAll(PassedAll(k, x.stacks), env)) == DenoteBanks(x.stacks, env)
  {
    hide Filled, Passed, AllKnown, DenoteAll, CoversAll, Opens;
    PassedFills(k.slots.a, x.stacks.a, env);
    PassedFills(k.slots.b, x.stacks.b, env);
    PassedFills(k.slots.c, x.stacks.c, env);
    CoversLength(k, x);
    var a, b, c := Passed(k.slots.a, x.stacks.a), Passed(k.slots.b, x.stacks.b), Passed(k.slots.c, x.stacks.c);
    DenoteConcat(a, b, env);
    DenoteConcat(a + b, c, env);
    var p, q, r := DenoteAll(a, env), DenoteAll(b, env), DenoteAll(c, env);
    var all := p + q + r;
    assert all[..|p|] == p && all[|p|..|p| + |q|] == q && all[|p| + |q|..] == r;
  }

  lemma CoversLength(k: Key, x: Context)
    requires Covers(k, x)
    ensures |k.slots.a| == |x.stacks.a| && |k.slots.b| == |x.stacks.b| && |k.slots.c| == |x.stacks.c|
  {
  }

  predicate AllValues(l: seq<Sym>) {
    forall i | 0 <= i < |l| :: l[i].Value?
  }

  lemma {:induction false} PassedValues(k: seq<Slot>, l: seq<Sym>)
    requires CoversAll(k, l) && forall i | 0 <= i < |l| && l[i].Const? :: k[i].Fixed?
    ensures AllValues(Passed(k, l))
  {
    if k != [] {
      PassedValues(k[..|k| - 1], l[..|k| - 1]);
    }
  }

  /** A key that keeps every constant is passed none. */
  lemma KeepsPasses(k: Key, x: Context)
    requires Keeps(k, x)
    ensures Covers(k, x) && AllValues(PassedAll(k, x.stacks))
  {
    forall s: Stack
      ensures CoversAll(k.slots.At(s), x.stacks.At(s)) && AllValues(Passed(k.slots.At(s), x.stacks.At(s)))
    {
      CoversAt(k, x, s);
      PassedValues(k.slots.At(s), x.stacks.At(s));
    }
    assert AllValues(Passed(k.slots.At(A), x.stacks.At(A))) && AllValues(Passed(k.slots.At(B), x.stacks.At(B)));
    assert AllValues(Passed(k.slots.At(C), x.stacks.At(C)));
  }

  // ----- the versions made so far -----

  /** `base` numbers the version's parameters. */
  datatype Version = Version(pc: nat, key: Key, base: nat)

  predicate Kin(v: Version, pc: nat, k: Key) {
    v.pc == pc && SameFamily(v.key, k)
  }

  function FamilyCount(versions: seq<Version>, pc: nat, k: Key): nat {
    if versions == [] then 0
    else FamilyCount(versions[..|versions| - 1], pc, k) + if Kin(versions[|versions| - 1], pc, k) then 1 else 0
  }

  /** Forget every constant on which some version of the family differs. */
  function Widened(versions: seq<Version>, pc: nat, k: Key): (r: Key)
    ensures SameFamily(r, k) && r.generic == k.generic
  {
    if versions == [] then k
    else
      var w := Widened(versions[..|versions| - 1], pc, k);
      var v := versions[|versions| - 1];
      if Kin(v, pc, w) then MeetKey(w, v.key) else w
  }

  lemma {:induction false} WidenedCovers(versions: seq<Version>, pc: nat, k: Key, x: Context)
    requires Covers(k, x)
    ensures Covers(Widened(versions, pc, k), x)
  {
    hide Covers;
    if versions != [] {
      WidenedCovers(versions[..|versions| - 1], pc, k, x);
      var w := Widened(versions[..|versions| - 1], pc, k);
      var v := versions[|versions| - 1];
      if Kin(v, pc, w) {
        MeetCovers(w, v.key, x);
      }
    }
  }

  /** Every version of the family fixes the cell to this constant. */
  ghost predicate Agreed(versions: seq<Version>, pc: nat, k: Key, s: Stack, i: nat, c: Slot) {
    forall j | 0 <= j < |versions| && Kin(versions[j], pc, k) ::
      i < |versions[j].key.slots.At(s)| && versions[j].key.slots.At(s)[i] == c
  }

  lemma MeetAt(k: Key, prior: Key, s: Stack, i: nat)
    requires SameFamily(prior, k) && i < |k.slots.At(s)|
    ensures |prior.slots.At(s)| == |k.slots.At(s)| == |MeetKey(k, prior).slots.At(s)|
    ensures var c := k.slots.At(s)[i];
      MeetKey(k, prior).slots.At(s)[i] == if c.Fixed? && prior.slots.At(s)[i] == c then c else Open
  {
  }

  lemma KinSame(v: Version, pc: nat, j: Key, k: Key)
    requires SameFamily(j, k)
    ensures Kin(v, pc, j) <==> Kin(v, pc, k)
  {
  }

  /** A constant survives widening exactly when the whole family agrees on it. */
  lemma {:induction false} WidenedAt(versions: seq<Version>, pc: nat, k: Key, s: Stack, i: nat)
    requires i < |k.slots.At(s)|
    ensures |Widened(versions, pc, k).slots.At(s)| == |k.slots.At(s)|
    ensures var c := k.slots.At(s)[i];
      Widened(versions, pc, k).slots.At(s)[i] == if c.Fixed? && Agreed(versions, pc, k, s, i, c) then c else Open
  {
    hide MeetKey, Kin, SameFamily;
    if versions != [] {
      var rest, v := versions[..|versions| - 1], versions[|versions| - 1];
      WidenedAt(rest, pc, k, s, i);
      var w := Widened(rest, pc, k);
      KinSame(v, pc, w, k);
      assert forall j | 0 <= j < |rest| :: rest[j] == versions[j];
      if Kin(v, pc, w) {
        KinFamily(v, pc, w);
        MeetAt(w, v.key, s, i);
      }
    }
  }

  lemma KinFamily(v: Version, pc: nat, k: Key)
    requires Kin(v, pc, k)
    ensures SameFamily(v.key, k)
  {
  }

  /** What widening keeps: the constants every version of the family fixes as well. */
  ghost predicate Widest(versions: seq<Version>, pc: nat, k: Key, x: Context) {
    Exactly(k, x, (s: Stack, i: nat) =>
      i < |x.stacks.At(s)| && Agreed(versions, pc, k, s, i, SlotOf(x.stacks.At(s)[i])))
  }

  lemma KeyOfAt(x: Context, s: Stack, i: nat)
    requires i < |x.stacks.At(s)|
    ensures |KeyOf(x).slots.At(s)| == |x.stacks.At(s)| && KeyOf(x).slots.At(s)[i] == SlotOf(x.stacks.At(s)[i])
  {
  }

  lemma AgreedSame(versions: seq<Version>, pc: nat, j: Key, k: Key, s: Stack, i: nat, c: Slot)
    requires SameFamily(j, k)
    ensures Agreed(versions, pc, j, s, i, c) <==> Agreed(versions, pc, k, s, i, c)
  {
    forall v: Version ensures Kin(v, pc, j) <==> Kin(v, pc, k) {
      KinSame(v, pc, j, k);
    }
  }

  lemma WidenedWidest(versions: seq<Version>, pc: nat, x: Context)
    ensures Widest(versions, pc, Widened(versions, pc, KeyOf(x)), x)
  {
    var k := KeyOf(x);
    var w := Widened(versions, pc, k);
    KeyOfCovers(x);
    WidenedCovers(versions, pc, k, x);
    hide Covers, Agreed, KeyOf, SameFamily, Widened;
    forall s: Stack, i: nat | i < |x.stacks.At(s)| && x.stacks.At(s)[i].Const?
      ensures i < |w.slots.At(s)|
      ensures w.slots.At(s)[i].Fixed? <==> Agreed(versions, pc, w, s, i, SlotOf(x.stacks.At(s)[i]))
    {
      KeyOfAt(x, s, i);
      WidenedAt(versions, pc, k, s, i);
      AgreedSame(versions, pc, w, k, s, i, SlotOf(x.stacks.At(s)[i]));
    }
    NotGeneric(x);
  }

  lemma NotGeneric(x: Context)
    ensures !KeyOf(x).generic
  {
  }

  lemma CoversFamily(j: Key, k: Key, x: Context)
    requires Covers(j, x) && Covers(k, x)
    ensures SameFamily(j, k)
  {
  }

  lemma WidestOne(versions: seq<Version>, pc: nat, j: Key, k: Key, x: Context)
    requires Widest(versions, pc, j, x) && Widest(versions, pc, k, x)
    ensures j == k
  {
    CoversFamily(j, k, x);
    hide Covers, Agreed, SameFamily;
    forall s: Stack, i: nat | i < |x.stacks.At(s)|
      ensures var c := SlotOf(x.stacks.At(s)[i]); Agreed(versions, pc, j, s, i, c) <==> Agreed(versions, pc, k, s, i, c)
    {
      AgreedSame(versions, pc, j, k, s, i, SlotOf(x.stacks.At(s)[i]));
    }
    ExactlyOne(j, k, x, (s: Stack, i: nat) =>
      i < |x.stacks.At(s)| && Agreed(versions, pc, k, s, i, SlotOf(x.stacks.At(s)[i])));
  }

  predicate HasGeneric(versions: seq<Version>, pc: nat, k: Key) {
    exists i | 0 <= i < |versions| :: versions[i].pc == pc && versions[i].key == Forgotten(k)
  }

  /** Each family has fewer versions than the limit, or exactly the limit and one that fixes nothing. */
  ghost predicate Limited(versions: seq<Version>) {
    forall pc: nat, k: Key ::
      && FamilyCount(versions, pc, k) <= VERSION_LIMIT
      && (FamilyCount(versions, pc, k) == VERSION_LIMIT ==> HasGeneric(versions, pc, k))
  }

  lemma FamilyEqual(j: Key, k: Key)
    requires SameFamily(j, k)
    ensures Forgotten(j) == Forgotten(k)
    ensures forall h: Key :: SameFamily(j, h) <==> SameFamily(k, h)
  {
  }

  lemma {:induction false} CountMore(versions: seq<Version>, more: seq<Version>, pc: nat, k: Key)
    requires versions <= more
    ensures FamilyCount(versions, pc, k) <= FamilyCount(more, pc, k)
    decreases |more|
  {
    if |versions| < |more| {
      CountMore(versions, more[..|more| - 1], pc, k);
    } else {
      assert versions == more;
    }
  }

  lemma {:induction false} CountEqual(versions: seq<Version>, pc: nat, j: Key, k: Key)
    requires SameFamily(j, k)
    ensures FamilyCount(versions, pc, j) == FamilyCount(versions, pc, k)
  {
    if versions != [] {
      CountEqual(versions[..|versions| - 1], pc, j, k);
    }
  }

  lemma GenericStays(versions: seq<Version>, v: Version, pc: nat, k: Key)
    requires HasGeneric(versions, pc, k)
    ensures HasGeneric(versions + [v], pc, k)
  {
    var i :| 0 <= i < |versions| && versions[i].pc == pc && versions[i].key == Forgotten(k);
    assert (versions + [v])[i] == versions[i];
  }

  /** A new version keeps the limit if the family has room, or if it fills it with the one that fixes
      nothing. */
  lemma AddLimited(versions: seq<Version>, v: Version)
    requires Limited(versions)
    requires FamilyCount(versions, v.pc, v.key) < VERSION_LIMIT - 1
      || (v.key == Forgotten(v.key) && !HasGeneric(versions, v.pc, v.key))
    ensures Limited(versions + [v])
  {
    var all := versions + [v];
    assert all[..|versions|] == versions;
    forall pc: nat, k: Key
      ensures FamilyCount(all, pc, k) <= VERSION_LIMIT
      ensures FamilyCount(all, pc, k) == VERSION_LIMIT ==> HasGeneric(all, pc, k)
    {
      if Kin(v, pc, k) {
        CountEqual(versions, pc, v.key, k);
        FamilyEqual(v.key, k);
        if v.key == Forgotten(v.key) {
          assert all[|versions|].key == Forgotten(k);
        }
      } else if HasGeneric(versions, pc, k) {
        GenericStays(versions, v, pc, k);
      }
    }
  }

  // ----- how many versions there can be -----

  function AtPc(versions: seq<Version>, pc: nat): nat {
    if versions == [] then 0
    else AtPc(versions[..|versions| - 1], pc) + if versions[|versions| - 1].pc == pc then 1 else 0
  }

  function BelowPc(versions: seq<Version>, n: nat): nat {
    if versions == [] then 0
    else BelowPc(versions[..|versions| - 1], n) + if versions[|versions| - 1].pc < n then 1 else 0
  }

  /** Versions of one instruction have one shape. */
  ghost predicate OneFamily(versions: seq<Version>) {
    forall i, j | 0 <= i < |versions| && 0 <= j < |versions| && versions[i].pc == versions[j].pc ::
      SameFamily(versions[i].key, versions[j].key)
  }

  lemma {:induction false} AtPcFamily(versions: seq<Version>, all: seq<Version>, k: nat)
    requires OneFamily(all) && k < |all| && versions <= all
    ensures AtPc(versions, all[k].pc) == FamilyCount(versions, all[k].pc, all[k].key)
  {
    if versions != [] {
      AtPcFamily(versions[..|versions| - 1], all, k);
      assert versions[|versions| - 1] == all[|versions| - 1];
    }
  }

  lemma {:induction false} AtPcNone(versions: seq<Version>, pc: nat)
    ensures AtPc(versions, pc) > 0 ==> exists k | 0 <= k < |versions| :: versions[k].pc == pc
  {
    if versions != [] {
      AtPcNone(versions[..|versions| - 1], pc);
    }
  }

  lemma {:induction false} BelowStep(versions: seq<Version>, n: nat)
    ensures BelowPc(versions, n + 1) == BelowPc(versions, n) + AtPc(versions, n)
  {
    if versions != [] {
      BelowStep(versions[..|versions| - 1], n);
    }
  }

  lemma {:induction false} BelowNone(versions: seq<Version>)
    ensures BelowPc(versions, 0) == 0
  {
    if versions != [] {
      BelowNone(versions[..|versions| - 1]);
    }
  }

  lemma {:induction false} BelowAll(versions: seq<Version>, n: nat)
    requires forall k | 0 <= k < |versions| :: versions[k].pc < n
    ensures BelowPc(versions, n) == |versions|
  {
    if versions != [] {
      BelowAll(versions[..|versions| - 1], n);
    }
  }

  lemma {:induction false} BelowBound(versions: seq<Version>, n: nat)
    requires Limited(versions) && OneFamily(versions)
    ensures BelowPc(versions, n) <= VERSION_LIMIT * n
  {
    hide Limited, OneFamily;
    if n == 0 {
      BelowNone(versions);
    } else {
      BelowBound(versions, n - 1);
      BelowStep(versions, n - 1);
      AtPcNone(versions, n - 1);
      if k :| 0 <= k < |versions| && versions[k].pc == n - 1 {
        AtPcFamily(versions, versions, k);
        LimitedAt(versions, n - 1, versions[k].key);
      }
    }
  }

  lemma LimitedAt(versions: seq<Version>, pc: nat, k: Key)
    requires Limited(versions)
    ensures FamilyCount(versions, pc, k) <= VERSION_LIMIT
  {
  }

  /** Whole functions are bounded too. */
  lemma TotalBound(versions: seq<Version>, n: nat)
    requires Limited(versions) && OneFamily(versions) && forall k | 0 <= k < |versions| :: versions[k].pc < n
    ensures |versions| <= VERSION_LIMIT * n
  {
    BelowAll(versions, n);
    BelowBound(versions, n);
  }
}
