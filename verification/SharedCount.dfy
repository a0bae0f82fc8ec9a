/** Shared counting: any number of threads retain by load and compare-exchange and release by
    fetch-subtract, one atomic step at a time and in any order.
 */
module SharedCount {

  const WIDTH: nat := 0x1_0000_0000_0000_0000

  /** Where a thread is. A retain runs under the protection of some thread's holding. */
  datatype Phase =
    | Ready
    | Trying(seen: nat, lender: nat)
    | Observed(prior: nat)
    | Queued

  datatype Thread = Thread(holdings: nat, phase: Phase)

  /** The object's count, the threads, how many releases have observed one, and how often it was freed. */
  datatype World = World(count: nat, threads: seq<Thread>, ones: nat, frees: nat)

  datatype Action =
    | Load(thread: nat, lender: nat)
    | Exchange(thread: nat, spurious: bool)
    | Subtract(thread: nat)
    | Decide(thread: nat)
    | Free(thread: nat)
    | Give(thread: nat, receiver: nat)

  datatype Outcome = Moved(world: World) | Refused(world: World) | Resurrected | Disabled

  function Put(w: World, t: nat, x: Thread): World
    requires t < |w.threads|
  {
    w.(threads := w.threads[t := x])
  }

  /** Retains under way that rely on a holding of thread `u`. */
  function Pins(threads: seq<Thread>, u: nat): nat {
    if threads == [] then 0
    else
      var last := threads[|threads| - 1].phase;
      Pins(threads[..|threads| - 1], u) + if last.Trying? && last.lender == u then 1 else 0
  }

  function Total(threads: seq<Thread>): nat {
    if threads == [] then 0 else Total(threads[..|threads| - 1]) + threads[|threads| - 1].holdings
  }

  predicate Last(x: Thread) {
    x.phase == Observed(1) || x.phase == Queued
  }

  function Lasts(threads: seq<Thread>): nat {
    if threads == [] then 0 else Lasts(threads[..|threads| - 1]) + if Last(threads[|threads| - 1]) then 1 else 0
  }

  /** `u` may give a holding up: retains that rely on it still have another. */
  predicate Spare(w: World, u: nat)
    requires u < |w.threads|
  {
    && w.threads[u].phase == Ready && w.threads[u].holdings > 0
    && (Pins(w.threads, u) > 0 ==> w.threads[u].holdings > 1)
  }

  /** One atomic step. */
  function Act(w: World, a: Action): Outcome {
    if a.thread >= |w.threads| then Disabled
    else
      var t, x := a.thread, w.threads[a.thread];
      match a
      case Load(_, u) =>
        if x.phase != Ready || u >= |w.threads| || w.threads[u].holdings == 0 then Disabled
        else Moved(Put(w, t, x.(phase := Trying(w.count, u))))
      case Exchange(_, spurious) =>
        if !x.phase.Trying? then Disabled
        else if x.phase.seen == 0 then Resurrected
        else if x.phase.seen == WIDTH - 1 then Refused(Put(w, t, x.(phase := Ready)))
        else if w.count == x.phase.seen && !spurious then
          Moved(Put(w, t, Thread(x.holdings + 1, Ready)).(count := x.phase.seen + 1))
        else Moved(Put(w, t, x.(phase := Trying(w.count, x.phase.lender))))
      case Subtract(_) =>
        if !Spare(w, t) then Disabled
        else
          Moved(Put(w, t, Thread(x.holdings - 1, Observed(w.count)))
            .(count := (w.count + WIDTH - 1) % WIDTH, ones := w.ones + if w.count == 1 then 1 else 0))
      case Decide(_) =>
        if !x.phase.Observed? then Disabled
        else Moved(Put(w, t, x.(phase := if x.phase.prior == 1 then Queued else Ready)))
      case Free(_) =>
        if x.phase != Queued then Disabled else Moved(Put(w, t, x.(phase := Ready)).(frees := w.frees + 1))
      case Give(_, u) =>
        if !Spare(w, t) || u >= |w.threads| || u == t then Disabled
        else
          var given := Put(w, t, x.(holdings := x.holdings - 1));
          Moved(Put(given, u, w.threads[u].(holdings := w.threads[u].holdings + 1)))
  }

  /** Steps that read or write the object's count. */
  predicate Touches(a: Action) {
    a.Load? || a.Exchange? || a.Subtract?
  }

  /** One thread has just published the object, holding it once. */
  predicate Initial(w: World) {
    && w.count == 1 && w.ones == 0 && w.frees == 0 && Total(w.threads) == 1
    && forall t | 0 <= t < |w.threads| :: w.threads[t].phase == Ready
  }

  ghost predicate Protected(w: World) {
    forall u | 0 <= u < |w.threads| :: Pinned(w, u)
  }

  /** A thread that retains rely on holds the object. */
  predicate Pinned(w: World, u: nat)
    requires u < |w.threads|
  {
    Pins(w.threads, u) > 0 ==> w.threads[u].holdings > 0
  }

  ghost predicate Lenders(w: World) {
    forall t | 0 <= t < |w.threads| && w.threads[t].phase.Trying? ::
      w.threads[t].phase.lender < |w.threads| && 0 < w.threads[t].phase.seen < WIDTH
  }

  /** The count is the number of holdings. While it is positive nothing has been queued; once it is zero
      exactly one release has observed one, and its thread alone queues and frees the object. */
  ghost predicate Sound(w: World) {
    && w.count == Total(w.threads) < WIDTH
    && w.ones == (if w.count == 0 then 1 else 0)
    && w.ones == Lasts(w.threads) + w.frees
    && Protected(w) && Lenders(w)
  }

  // ----- sums over threads -----

  lemma {:induction false} TotalPut(threads: seq<Thread>, t: nat, x: Thread)
    requires t < |threads|
    ensures Total(threads[t := x]) + threads[t].holdings == Total(threads) + x.holdings
  {
    var n := |threads| - 1;
    if t < n {
      TotalPut(threads[..n], t, x);
      assert threads[t := x][..n] == threads[..n][t := x];
    } else {
      assert threads[t := x][..n] == threads[..n];
    }
  }

  lemma {:induction false} TotalAtLeast(threads: seq<Thread>, t: nat)
    requires t < |threads|
    ensures Total(threads) >= threads[t].holdings
  {
    if t < |threads| - 1 {
      TotalAtLeast(threads[..|threads| - 1], t);
    }
  }

  function One(b: bool): nat {
    if b then 1 else 0
  }

  lemma {:induction false} LastsPut(threads: seq<Thread>, t: nat, x: Thread)
    requires t < |threads|
    ensures Lasts(threads[t := x]) + One(Last(threads[t])) == Lasts(threads) + One(Last(x))
  {
    var n := |threads| - 1;
    if t < n {
      LastsPut(threads[..n], t, x);
      assert threads[t := x][..n] == threads[..n][t := x];
    } else {
      assert threads[t := x][..n] == threads[..n];
    }
  }

  predicate On(x: Thread, u: nat) {
    x.phase.Trying? && x.phase.lender == u
  }

  lemma {:induction false} PinsPut(threads: seq<Thread>, u: nat, t: nat, x: Thread)
    requires t < |threads|
    ensures Pins(threads[t := x], u) + One(On(threads[t], u)) == Pins(threads, u) + One(On(x, u))
  {
    var n := |threads| - 1;
    if t < n {
      PinsPut(threads[..n], u, t, x);
      assert threads[t := x][..n] == threads[..n][t := x];
    } else {
      assert threads[t := x][..n] == threads[..n];
    }
  }

  lemma {:induction false} PinsAtLeast(threads: seq<Thread>, t: nat, u: nat)
    requires t < |threads| && On(threads[t], u)
    ensures Pins(threads, u) > 0
  {
    if t < |threads| - 1 {
      PinsAtLeast(threads[..|threads| - 1], t, u);
    }
  }

  lemma {:induction false} PinsNone(threads: seq<Thread>, u: nat)
    requires forall t | 0 <= t < |threads| :: !threads[t].phase.Trying?
    ensures Pins(threads, u) == 0
  {
    if threads != [] {
      PinsNone(threads[..|threads| - 1], u);
    }
  }

  lemma {:induction false} LastsNone(threads: seq<Thread>)
    requires forall t | 0 <= t < |threads| :: !Last(threads[t])
    ensures Lasts(threads) == 0
  {
    if threads != [] {
      LastsNone(threads[..|threads| - 1]);
    }
  }

  lemma {:induction false} LastsAtLeast(threads: seq<Thread>, t: nat)
    requires t < |threads| && Last(threads[t])
    ensures Lasts(threads) > 0
  {
    if t < |threads| - 1 {
      LastsAtLeast(threads[..|threads| - 1], t);
    }
  }

  // ----- every step -----

  lemma InitialSound(w: World)
    requires Initial(w)
    ensures Sound(w)
  {
    LastsNone(w.threads);
    forall u | 0 <= u < |w.threads| ensures Pinned(w, u) {
      PinsNone(w.threads, u);
    }
  }

  /** A retain under way relies on a thread that holds the object, so the count is positive. */
  lemma TryingHeld(w: World, t: nat)
    requires Sound(w) && t < |w.threads| && w.threads[t].phase.Trying?
    ensures w.count > 0 && 0 < w.threads[t].phase.seen < WIDTH
  {
    var u := w.threads[t].phase.lender;
    PinsAtLeast(w.threads, t, u);
    assert Pinned(w, u);
    TotalAtLeast(w.threads, u);
  }

  lemma LoadSound(w: World, t: nat, u: nat)
    requires Sound(w) && Act(w, Load(t, u)).Moved?
    ensures Sound(Act(w, Load(t, u)).world) && w.count > 0
  {
    hide Total, Lasts, Pins;
    var w' := Act(w, Load(t, u)).world;
    TotalAtLeast(w.threads, u);
    TotalPut(w.threads, t, w'.threads[t]);
    LastsPut(w.threads, t, w'.threads[t]);
    forall v | 0 <= v < |w'.threads| ensures Pinned(w', v) {
      assert Pinned(w, v);
      PinsPut(w.threads, v, t, w'.threads[t]);
    }
  }

  lemma ExchangeSound(w: World, t: nat, spurious: bool)
    requires Sound(w) && Act(w, Exchange(t, spurious)) != Disabled
    ensures w.count > 0 && Act(w, Exchange(t, spurious)) != Resurrected
    ensures Sound(Act(w, Exchange(t, spurious)).world)
  {
    hide Total, Lasts, Pins;
    TryingHeld(w, t);
    var w' := Act(w, Exchange(t, spurious)).world;
    TotalPut(w.threads, t, w'.threads[t]);
    LastsPut(w.threads, t, w'.threads[t]);
    forall v | 0 <= v < |w'.threads| ensures Pinned(w', v) {
      assert Pinned(w, v);
      PinsPut(w.threads, v, t, w'.threads[t]);
    }
  }

  lemma SubtractSound(w: World, t: nat)
    requires Sound(w) && Act(w, Subtract(t)).Moved?
    ensures Sound(Act(w, Subtract(t)).world) && w.count > 0
    ensures Act(w, Subtract(t)).world.count == w.count - 1
  {
    hide Total, Lasts, Pins;
    var w' := Act(w, Subtract(t)).world;
    TotalAtLeast(w.threads, t);
    TotalPut(w.threads, t, w'.threads[t]);
    LastsPut(w.threads, t, w'.threads[t]);
    assert (w.count + WIDTH - 1) % WIDTH == w.count - 1;
    forall v | 0 <= v < |w'.threads| ensures Pinned(w', v) {
      assert Pinned(w, v);
      PinsPut(w.threads, v, t, w'.threads[t]);
    }
  }

  lemma OtherSound(w: World, a: Action)
    requires Sound(w) && (a.Decide? || a.Free?) && Act(w, a).Moved?
    ensures Sound(Act(w, a).world) && Act(w, a).world.count == w.count
    ensures a.Free? ==> w.count == 0 && w.frees == 0
  {
    hide Total, Lasts, Pins;
    var t, w' := a.thread, Act(w, a).world;
    TotalPut(w.threads, t, w'.threads[t]);
    LastsPut(w.threads, t, w'.threads[t]);
    if a.Free? {
      LastsAtLeast(w.threads, t);
    }
    forall v | 0 <= v < |w'.threads| ensures Pinned(w', v) {
      assert Pinned(w, v);
      PinsPut(w.threads, v, t, w'.threads[t]);
    }
  }

  lemma GiveSound(w: World, t: nat, u: nat)
    requires Sound(w) && Act(w, Give(t, u)).Moved?
    ensures Sound(Act(w, Give(t, u)).world) && Act(w, Give(t, u)).world.count == w.count
  {
    hide Total, Lasts, Pins;
    var x, y := w.threads[t], w.threads[u];
    var x', y' := x.(holdings := x.holdings - 1), y.(holdings := y.holdings + 1);
    var middle := w.threads[t := x'];
    var w' := Act(w, Give(t, u)).world;
    assert w'.threads == middle[u := y'];
    TotalPut(w.threads, t, x');
    TotalPut(middle, u, y');
    LastsPut(w.threads, t, x');
    LastsPut(middle, u, y');
    forall v | 0 <= v < |w'.threads| ensures Pinned(w', v) {
      assert Pinned(w, v);
      PinsPut(w.threads, v, t, x');
      PinsPut(middle, v, u, y');
    }
  }

  /** Every step of every thread keeps the count equal to the holdings. No retain ever finds the count
      zero, zero is never left again, and nothing touches the object once it is freed. */
  lemma StepSound(w: World, a: Action)
    requires Sound(w) && Act(w, a) != Disabled
    ensures Act(w, a) != Resurrected && Sound(Act(w, a).world)
    ensures w.count == 0 ==> Act(w, a).world.count == 0
    ensures Touches(a) ==> w.count > 0 && w.frees == 0
    ensures w.frees <= Act(w, a).world.frees <= 1
  {
    hide Sound, Act;
    match a {
      case Load(t, u) => LoadParts(w, a); LoadSound(w, t, u);
      case Exchange(t, spurious) => ExchangeSound(w, t, spurious);
      case Subtract(t) => LoadParts(w, a); SubtractSound(w, t);
      case Decide(_) => LoadParts(w, a); OtherSound(w, a);
      case Free(_) => LoadParts(w, a); OtherSound(w, a);
      case Give(t, u) => LoadParts(w, a); GiveSound(w, t, u);
    }
    SoundParts(w);
    SoundParts(Act(w, a).world);
    FreesGrow(w, a);
  }

  lemma LoadParts(w: World, a: Action)
    requires Act(w, a) != Disabled && !a.Exchange?
    ensures Act(w, a).Moved?
  {
  }

  lemma SoundParts(w: World)
    requires Sound(w)
    ensures w.frees <= 1 && (w.count > 0 ==> w.frees == 0)
  {
  }

  lemma FreesGrow(w: World, a: Action)
    requires Act(w, a).Moved? || Act(w, a).Refused?
    ensures w.frees <= Act(w, a).world.frees
  {
  }

  // ----- every run -----

  /** A run from a published object. */
  ghost predicate IsRun(worlds: seq<World>, actions: seq<Action>) {
    && |worlds| == |actions| + 1 && Initial(worlds[0])
    && forall i | 0 <= i < |actions| :: Follows(worlds[i], actions[i], worlds[i + 1])
  }

  predicate Follows(w: World, a: Action, w': World) {
    Act(w, a) == Moved(w') || Act(w, a) == Refused(w')
  }

  /** In every interleaving, at every moment: the count is the number of holdings, at most one release has
      observed one, and the object has been freed at most once. */
  lemma {:induction false} RunsSound(worlds: seq<World>, actions: seq<Action>, i: nat)
    requires IsRun(worlds, actions) && i < |worlds|
    ensures Sound(worlds[i])
  {
    if i == 0 {
      InitialSound(worlds[0]);
    } else {
      RunsSound(worlds, actions, i - 1);
      assert Follows(worlds[i - 1], actions[i - 1], worlds[i - 1 + 1]);
      StepSound(worlds[i - 1], actions[i - 1]);
    }
  }

  /** Once no thread holds the object and none is in the middle of anything, it has been freed, once. */
  lemma QuietFreed(w: World)
    requires Sound(w) && forall t | 0 <= t < |w.threads| :: w.threads[t] == Thread(0, Ready)
    ensures w.frees == 1 && w.ones == 1 && w.count == 0
  {
    LastsNone(w.threads);
    TotalNone(w.threads);
  }

  lemma {:induction false} TotalNone(threads: seq<Thread>)
    requires forall t | 0 <= t < |threads| :: threads[t].holdings == 0
    ensures Total(threads) == 0
  {
    if threads != [] {
      TotalNone(threads[..|threads| - 1]);
    }
  }

  // ----- retains without a holding -----

  /** The load of a retain that no holding protects. */
  function LoadAnyway(w: World, t: nat): World
    requires t < |w.threads|
  {
    Put(w, t, w.threads[t].(phase := Trying(w.count, t)))
  }

  /** The shortest life of an object: published by one of two threads, released, and its last release
      seen. */
  function ShortLife(): seq<World> {
    var idle := Thread(0, Ready);
    [
      World(1, [Thread(1, Ready), idle], 0, 0),
      World(0, [Thread(0, Observed(1)), idle], 1, 0),
      World(0, [Thread(0, Queued), idle], 1, 0)
    ]
  }

  /** At any moment a retain begun by a thread that holds nothing finds zero exactly when the last release
      has come first, and there is a run where it has: without a holding to protect it the refusal is
      needed. */
  lemma UnprotectedRetain(worlds: seq<World>, actions: seq<Action>, i: nat, t: nat)
    requires IsRun(worlds, actions) && i < |worlds| && t < |worlds[i].threads|
    ensures Act(LoadAnyway(worlds[i], t), Exchange(t, false)) == Resurrected <==> worlds[i].ones == 1
    ensures IsRun(ShortLife(), [Subtract(0), Decide(0)]) && ShortLife()[2].ones == 1
  {
    RunsSound(worlds, actions, i);
    ShortRun();
  }

  lemma ShortRun()
    ensures IsRun(ShortLife(), [Subtract(0), Decide(0)]) && ShortLife()[2].ones == 1
  {
    var worlds, actions := ShortLife(), [Subtract(0), Decide(0)];
    var first := worlds[0].threads;
    assert first[..1] == [first[0]] && first[..1][..0] == [];
    assert Total(first) == Total(first[..1]) + 0;
    assert Total(first[..1]) == Total([]) + 1;
    PinsNone(first, 0);
    assert first[0 := worlds[1].threads[0]] == worlds[1].threads;
    assert worlds[1].threads[0 := worlds[2].threads[0]] == worlds[2].threads;
    assert Follows(worlds[0], actions[0], worlds[1]);
    assert Follows(worlds[1], actions[1], worlds[2]);
    forall i | 0 <= i < |actions| ensures Follows(worlds[i], actions[i], worlds[i + 1]) {
      assert i == 0 || i == 1;
    }
  }
}
