/** Counted owners in a flat memory: what the counts, the dead queue and the log of allocations mean,
    and which owners survive a sweep.
 */
module OwnerHeap {
  import opened Words

  type Address = nat

  /** Local owners are counted; immortal ones are static and never freed. */
  datatype Kind = Local | Immortal

  /** The header of one object, and how many holdings follow it. */
  datatype Owner = Owner(count: nat, next: Option<Address>, kind: Kind, extent: nat)

  /** Where a holding may be: in an activation's frame, or in the body of an owner. */
  datatype Place = InFrame(frame: nat, index: nat) | InOwner(owner: Address, index: nat)

  type Memory = map<Address, Owner>

  type Slots = map<Place, Option<Address>>

  /** The header of one activation that has holdings. */
  datatype Activation = Activation(previous: Option<nat>, extent: nat)

  type Frames = map<nat, Activation>

  const COUNT_LIMIT: nat := 0xffff_ffff_ffff_ffff

  function Holders(slots: Slots, a: Address): set<Place> {
    set p | p in slots && slots[p] == Some(a)
  }

  predicate Mortal(memory: Memory, a: Address) {
    a in memory && memory[a].kind == Local
  }

  function Bag(v: Option<Address>): multiset<Address> {
    if v.Some? then multiset{v.value} else multiset{}
  }

  /** A holding lies in an entered frame or in an owner that is still allocated. */
  predicate PlaceIn(memory: Memory, frames: Frames, p: Place) {
    match p
    case InFrame(f, k) => f in frames && k < frames[f].extent
    case InOwner(o, k) => o in memory && k < memory[o].extent
  }

  ghost predicate Placed(memory: Memory, frames: Frames, slots: Slots) {
    forall p :: p in slots <==> PlaceIn(memory, frames, p)
  }

  ghost predicate Pointing(memory: Memory, slots: Slots) {
    forall p | p in slots && slots[p].Some? :: slots[p].value in memory
  }

  predicate CountIs(memory: Memory, slots: Slots, owed: multiset<Address>, a: Address)
    requires a in memory
  {
    memory[a].count == |Holders(slots, a)| + owed[a] && memory[a].count <= COUNT_LIMIT
  }

  /** No holding dangles, and every count is the number of holdings, plus the references in flight. */
  ghost predicate Counted(memory: Memory, slots: Slots, owed: multiset<Address>) {
    && Pointing(memory, slots)
    && (forall a | a in owed :: a in memory)
    && forall a | Mortal(memory, a) :: CountIs(memory, slots, owed, a)
  }

  function NextIn(queue: seq<Address>, i: nat): Option<Address>
    requires i < |queue|
  {
    if i + 1 < |queue| then Some(queue[i + 1]) else None
  }

  predicate LinkAt(memory: Memory, queue: seq<Address>, i: nat)
    requires i < |queue|
  {
    queue[i] in memory && memory[queue[i]].next == NextIn(queue, i)
  }

  /** The intrusive list from `head` to `tail` is `queue`. */
  ghost predicate Linked(memory: Memory, head: Option<Address>, tail: Option<Address>, queue: seq<Address>) {
    && head == (if queue == [] then None else Some(queue[0]))
    && tail == (if queue == [] then None else Some(queue[|queue| - 1]))
    && forall i | 0 <= i < |queue| :: LinkAt(memory, queue, i)
  }

  predicate NoRepeats(queue: seq<Address>) {
    forall i, j | 0 <= i < j < |queue| :: queue[i] != queue[j]
  }

  predicate Dead(memory: Memory, a: Address) {
    Mortal(memory, a) && memory[a].count == 0
  }

  /** The queue holds each dead owner once, except the one being dropped. */
  ghost predicate Awaiting(memory: Memory, queue: seq<Address>, doomed: Option<Address>) {
    && NoRepeats(queue)
    && (doomed.Some? ==> Dead(memory, doomed.value) && doomed.value !in queue)
    && forall a: Address :: a in queue <==> Dead(memory, a) && doomed != Some(a)
  }

  /** The frames in use are a chain from the newest. */
  ghost predicate Chained(frames: Frames, newest: Option<nat>, entered: seq<nat>) {
    && newest == (if entered == [] then None else Some(entered[|entered| - 1]))
    && (forall i, j | 0 <= i < j < |entered| :: entered[i] != entered[j])
    && forall i | 0 <= i < |entered| :: ChainAt(frames, entered, i)
  }

  predicate ChainAt(frames: Frames, entered: seq<nat>, i: nat)
    requires i < |entered|
  {
    entered[i] in frames && frames[entered[i]].previous == if i == 0 then None else Some(entered[i - 1])
  }

  lemma ChainPush(frames: Frames, newest: Option<nat>, entered: seq<nat>, f: nat, extent: nat)
    requires Chained(frames, newest, entered) && f !in frames
    ensures Chained(frames[f := Activation(newest, extent)], Some(f), entered + [f])
  {
    var more, longer := frames[f := Activation(newest, extent)], entered + [f];
    forall i | 0 <= i < |entered| ensures entered[i] != f {
      assert ChainAt(frames, entered, i);
    }
    forall i | 0 <= i < |longer| ensures ChainAt(more, longer, i) {
      assert i < |entered| ==> ChainAt(frames, entered, i);
    }
  }

  lemma ChainPop(frames: Frames, newest: Option<nat>, entered: seq<nat>)
    requires Chained(frames, newest, entered) && newest.Some?
    ensures entered != [] && newest.value == entered[|entered| - 1] && newest.value in frames
    ensures newest.value !in entered[..|entered| - 1]
    ensures Chained(frames, frames[newest.value].previous, entered[..|entered| - 1])
  {
    assert ChainAt(frames, entered, |entered| - 1);
    var rest := entered[..|entered| - 1];
    forall i | 0 <= i < |rest| ensures ChainAt(frames, rest, i) {
      assert ChainAt(frames, entered, i);
    }
  }

  /** Storage of an activation outside the chain does not matter to it. */
  lemma ChainLess(frames: Frames, newest: Option<nat>, entered: seq<nat>, f: nat)
    requires Chained(frames, newest, entered) && f !in entered
    ensures Chained(frames - {f}, newest, entered)
  {
    forall i | 0 <= i < |entered| ensures ChainAt(frames - {f}, entered, i) {
      assert ChainAt(frames, entered, i) && entered[i] in entered;
    }
  }

  // ----- the log -----

  datatype Event = Allocated(at: Address) | Freed(at: Address)

  function Live(log: seq<Event>): set<Address> {
    if log == [] then {}
    else
      match log[|log| - 1]
      case Allocated(a) => Live(log[..|log| - 1]) + {a}
      case Freed(a) => Live(log[..|log| - 1]) - {a}
  }

  /** Only unused addresses are allocated and only allocated ones are freed. */
  predicate Proper(log: seq<Event>) {
    log == [] ||
    (Proper(log[..|log| - 1]) &&
     match log[|log| - 1]
     case Allocated(a) => a !in Live(log[..|log| - 1])
     case Freed(a) => a in Live(log[..|log| - 1]))
  }

  ghost predicate Logged(memory: Memory, log: seq<Event>) {
    Proper(log) && forall a: Address :: a in Live(log) <==> Mortal(memory, a)
  }

  /** The allocation at `i` is freed at `j`, and nothing happens to the address between. */
  predicate FreedOnce(log: seq<Event>, i: nat, j: nat) {
    i < j < |log| && log[j] == Freed(log[i].at) && forall k | i < k < j :: log[k].at != log[i].at
  }

  lemma {:induction false} LastEvent(log: seq<Event>, i: nat)
    requires Proper(log) && i < |log| && log[i].Allocated?
    ensures log[i].at in Live(log) || exists j: nat :: FreedOnce(log, i, j)
  {
    var n := |log| - 1;
    var rest := log[..n];
    if i < n {
      LastEvent(rest, i);
      if j: nat :| FreedOnce(rest, i, j) {
        assert FreedOnce(log, i, j) by {
          forall k | i < k < j ensures log[k].at != log[i].at {
            assert rest[k] == log[k];
          }
        }
      } else if log[n].at == log[i].at {
        QuietSince(rest, i);
        forall k | i < k < n ensures log[k].at != log[i].at {
          assert rest[k] == log[k];
        }
        assert log[n] == Freed(log[i].at);
        assert FreedOnce(log, i, n);
      }
    }
  }

  /** An allocation that has not been freed is the last event at its address. */
  lemma {:induction false} QuietSince(log: seq<Event>, i: nat)
    requires Proper(log) && i < |log| && log[i].Allocated? && !exists j: nat :: FreedOnce(log, i, j)
    ensures forall k | i < k < |log| :: log[k].at != log[i].at
    ensures log[i].at in Live(log)
  {
    var n := |log| - 1;
    var rest := log[..n];
    if i < n {
      if j: nat :| FreedOnce(rest, i, j) {
        assert FreedOnce(log, i, j) by {
          forall k | i < k < j ensures log[k].at != log[i].at {
            assert rest[k] == log[k];
          }
        }
      }
      QuietSince(rest, i);
      if log[n].at == log[i].at {
        assert log[n] == Freed(log[i].at);
        forall k | i < k < n ensures log[k].at != log[i].at {
          assert rest[k] == log[k];
        }
        assert FreedOnce(log, i, n);
      }
      forall k | i < k < |log| ensures log[k].at != log[i].at {
        assert k < n ==> rest[k] == log[k];
      }
    }
  }

  // ----- one slot -----

  lemma OneLess(s: set<Place>, p: Place)
    ensures |s| == |s - {p}| + if p in s then 1 else 0
  {
    if p in s {
      assert s == (s - {p}) + {p};
    } else {
      assert s == s - {p};
    }
  }

  lemma HolderChange(slots: Slots, p: Place, v: Option<Address>, a: Address)
    requires p in slots
    ensures |Holders(slots[p := v], a)| + Bag(slots[p])[a] == |Holders(slots, a)| + Bag(v)[a]
  {
    hide Holders, Bag;
    OneLess(Holders(slots, a), p);
    OneLess(Holders(slots[p := v], a), p);
    HolderAt(slots, p, a);
    HolderAt(slots[p := v], p, a);
    OtherHolders(slots, p, v, a);
    BagCount(slots[p], a);
    BagCount(v, a);
  }

  lemma HolderAt(slots: Slots, p: Place, a: Address)
    requires p in slots
    ensures p in Holders(slots, a) <==> slots[p] == Some(a)
  {
  }

  lemma OtherHolders(slots: Slots, p: Place, v: Option<Address>, a: Address)
    requires p in slots
    ensures Holders(slots[p := v], a) - {p} == Holders(slots, a) - {p}
  {
  }

  lemma BagCount(v: Option<Address>, a: Address)
    ensures Bag(v)[a] == if v == Some(a) then 1 else 0
  {
  }

  /** Writing a slot puts one reference away and brings another into flight. */
  lemma SlotWritten(memory: Memory, slots: Slots, p: Place, v: Option<Address>, owed: multiset<Address>)
    requires Counted(memory, slots, owed + Bag(v)) && p in slots && (v.Some? ==> v.value in memory)
    ensures Counted(memory, slots[p := v], owed + Bag(slots[p]))
  {
    forall a | Mortal(memory, a) ensures CountIs(memory, slots[p := v], owed + Bag(slots[p]), a) {
      assert CountIs(memory, slots, owed + Bag(v), a);
      HolderChange(slots, p, v, a);
    }
  }

  lemma PlacedWrite(memory: Memory, frames: Frames, slots: Slots, p: Place, v: Option<Address>)
    requires Placed(memory, frames, slots) && p in slots
    ensures Placed(memory, frames, slots[p := v])
  {
  }

  // ----- one count -----

  predicate SameHeader(m: Owner, n: Owner) {
    m.kind == n.kind && m.extent == n.extent
  }

  /** The same owners, of the same kind and extent. */
  ghost predicate SameShape(before: Memory, after: Memory) {
    before.Keys == after.Keys && forall a | a in before :: SameHeader(before[a], after[a])
  }

  lemma PlacedShape(before: Memory, after: Memory, frames: Frames, slots: Slots)
    requires Placed(before, frames, slots) && SameShape(before, after)
    ensures Placed(after, frames, slots)
  {
    forall p ensures PlaceIn(before, frames, p) <==> PlaceIn(after, frames, p) {
      if p.InOwner? && p.owner in before {
        assert SameHeader(before[p.owner], after[p.owner]);
      }
    }
  }

  lemma ShapeTrans(a: Memory, b: Memory, c: Memory)
    requires SameShape(a, b) && SameShape(b, c)
    ensures SameShape(a, c)
  {
    forall o | o in a ensures SameHeader(a[o], c[o]) {
      assert SameHeader(a[o], b[o]) && SameHeader(b[o], c[o]);
    }
  }

  lemma LoggedShape(before: Memory, after: Memory, log: seq<Event>)
    requires Logged(before, log) && SameShape(before, after)
    ensures Logged(after, log)
  {
    forall a: Address ensures Mortal(before, a) <==> Mortal(after, a) {
      if a in before {
        assert SameHeader(before[a], after[a]);
      }
    }
  }

  /** One reference more, if the owner is counted. */
  lemma CountRaised(memory: Memory, slots: Slots, owed: multiset<Address>, a: Address)
    requires Counted(memory, slots, owed) && Mortal(memory, a) && memory[a].count < COUNT_LIMIT
    ensures Counted(memory[a := memory[a].(count := memory[a].count + 1)], slots, owed + multiset{a})
  {
    var after := memory[a := memory[a].(count := memory[a].count + 1)];
    forall b | Mortal(after, b) ensures CountIs(after, slots, owed + multiset{a}, b) {
      assert Mortal(memory, b) && CountIs(memory, slots, owed, b);
    }
  }

  lemma CountFree(memory: Memory, slots: Slots, owed: multiset<Address>, a: Address)
    requires a in memory && !Mortal(memory, a)
    ensures Counted(memory, slots, owed) <==> Counted(memory, slots, owed + multiset{a})
  {
    forall b | Mortal(memory, b)
      ensures CountIs(memory, slots, owed, b) <==> CountIs(memory, slots, owed + multiset{a}, b)
    {
    }
    assert (forall b | b in owed + multiset{a} :: b in memory) <==> (forall b | b in owed :: b in memory) by {
      if forall b | b in owed + multiset{a} :: b in memory {
        forall b | b in owed ensures b in memory {
          assert b in owed + multiset{a};
        }
      }
    }
  }

  /** One reference given up. */
  lemma CountLowered(memory: Memory, slots: Slots, owed: multiset<Address>, a: Address, next: Option<Address>)
    requires Counted(memory, slots, owed + multiset{a}) && Mortal(memory, a)
    ensures memory[a].count > 0
    ensures Counted(memory[a := memory[a].(count := memory[a].count - 1, next := next)], slots, owed)
  {
    assert CountIs(memory, slots, owed + multiset{a}, a);
    var after := memory[a := memory[a].(count := memory[a].count - 1, next := next)];
    forall b | Mortal(after, b) ensures CountIs(after, slots, owed, b) {
      assert Mortal(memory, b) && CountIs(memory, slots, owed + multiset{a}, b);
    }
    forall b | b in owed ensures b in after {
      assert b in owed + multiset{a};
    }
  }

  /** Links of other owners do not matter to the counts. */
  lemma NextChanged(memory: Memory, slots: Slots, owed: multiset<Address>, a: Address, next: Option<Address>)
    requires Counted(memory, slots, owed) && a in memory
    ensures Counted(memory[a := memory[a].(next := next)], slots, owed)
    ensures SameShape(memory, memory[a := memory[a].(next := next)])
  {
    var after := memory[a := memory[a].(next := next)];
    forall b | Mortal(after, b) ensures CountIs(after, slots, owed, b) {
      assert Mortal(memory, b) && CountIs(memory, slots, owed, b);
    }
  }

  // ----- the queue -----

  /** A live count above zero changes nothing for the queue. */
  lemma StillAwaiting(memory: Memory, head: Option<Address>, tail: Option<Address>, queue: seq<Address>,
    doomed: Option<Address>, a: Address, o: Owner)
    requires Linked(memory, head, tail, queue) && Awaiting(memory, queue, doomed) && Mortal(memory, a)
    requires memory[a].count > 0 && o.count > 0 && o.kind == Local
    ensures Linked(memory[a := o], head, tail, queue) && Awaiting(memory[a := o], queue, doomed)
  {
    var after := memory[a := o];
    assert a !in queue;
    forall i | 0 <= i < |queue| ensures LinkAt(after, queue, i) {
      assert LinkAt(memory, queue, i);
    }
    forall b: Address ensures Dead(memory, b) <==> Dead(after, b) {
    }
  }

  /** An owner whose count reaches zero joins at the tail. */
  lemma Joined(memory: Memory, head: Option<Address>, tail: Option<Address>, queue: seq<Address>,
    doomed: Option<Address>, a: Address)
    requires Linked(memory, head, tail, queue) && Awaiting(memory, queue, doomed) && Mortal(memory, a)
    requires memory[a].count > 0
    ensures tail.Some? ==> tail.value in memory && tail.value != a
    ensures var zero := memory[a := memory[a].(count := 0, next := None)];
      var after := if tail.Some? then zero[tail.value := zero[tail.value].(next := Some(a))] else zero;
      && Linked(after, if tail.Some? then head else Some(a), Some(a), queue + [a])
      && Awaiting(after, queue + [a], doomed) && SameShape(memory, after)
  {
    assert a !in queue;
    var zero := memory[a := memory[a].(count := 0, next := None)];
    if tail.Some? {
      assert tail.value == queue[|queue| - 1] && tail.value in queue;
      assert Dead(memory, tail.value);
    }
    var after := if tail.Some? then zero[tail.value := zero[tail.value].(next := Some(a))] else zero;
    var longer := queue + [a];
    forall i | 0 <= i < |longer| ensures LinkAt(after, longer, i) {
      if i < |queue| {
        assert LinkAt(memory, queue, i);
        assert longer[i] == queue[i];
        assert i < |queue| - 1 ==> queue[i] != queue[|queue| - 1];
      }
    }
    forall b: Address ensures b in longer <==> Dead(after, b) && doomed != Some(b) {
      assert b != a ==> (b in longer <==> b in queue);
    }
  }

  /** The first in the queue becomes the one being dropped. */
  lemma Popped(memory: Memory, head: Option<Address>, tail: Option<Address>, queue: seq<Address>)
    requires Linked(memory, head, tail, queue) && Awaiting(memory, queue, None) && queue != []
    ensures head == Some(queue[0]) && Dead(memory, queue[0])
    ensures var next := memory[queue[0]].next;
      && Linked(memory, next, if next.None? then None else tail, queue[1..])
      && Awaiting(memory, queue[1..], Some(queue[0]))
  {
    assert queue[0] in queue;
    assert LinkAt(memory, queue, 0);
    var rest := queue[1..];
    forall i | 0 <= i < |rest| ensures LinkAt(memory, rest, i) {
      assert LinkAt(memory, queue, i + 1);
    }
    forall a: Address ensures a in rest <==> Dead(memory, a) && a != queue[0] {
      assert queue == [queue[0]] + rest;
    }
  }

  // ----- freeing -----

  function Without(slots: Slots, d: Address): Slots {
    map p | p in slots && !(p.InOwner? && p.owner == d) :: slots[p]
  }

  /** Every holding in `d` has been dropped. */
  predicate Emptied(slots: Slots, d: Address) {
    forall p | p in slots && p.InOwner? && p.owner == d :: slots[p] == None
  }

  lemma NotHeld(memory: Memory, slots: Slots, owed: multiset<Address>, d: Address)
    requires Counted(memory, slots, owed) && Dead(memory, d)
    ensures owed[d] == 0 && forall p | p in slots :: slots[p] != Some(d)
  {
    assert CountIs(memory, slots, owed, d);
    forall p | p in slots ensures slots[p] != Some(d) {
      assert slots[p] == Some(d) ==> p in Holders(slots, d);
    }
  }

  /** Freeing a dead and emptied owner leaves nothing dangling and every count right. */
  lemma FreedCounted(memory: Memory, frames: Frames, slots: Slots, owed: multiset<Address>, d: Address)
    requires Counted(memory, slots, owed) && Placed(memory, frames, slots) && Dead(memory, d) && Emptied(slots, d)
    ensures Counted(memory - {d}, Without(slots, d), owed) && Placed(memory - {d}, frames, Without(slots, d))
  {
    NotHeld(memory, slots, owed, d);
    var after, left := memory - {d}, Without(slots, d);
    forall a | Mortal(after, a) ensures CountIs(after, left, owed, a) {
      assert Mortal(memory, a) && CountIs(memory, slots, owed, a);
      assert Holders(left, a) == Holders(slots, a);
    }
  }

  lemma FreedQueue(memory: Memory, head: Option<Address>, tail: Option<Address>, queue: seq<Address>, d: Address)
    requires Linked(memory, head, tail, queue) && Awaiting(memory, queue, Some(d))
    ensures Linked(memory - {d}, head, tail, queue) && Awaiting(memory - {d}, queue, None)
  {
    forall i | 0 <= i < |queue| ensures LinkAt(memory - {d}, queue, i) {
      assert LinkAt(memory, queue, i) && queue[i] in queue;
    }
  }

  lemma FreedLogged(memory: Memory, log: seq<Event>, d: Address)
    requires Logged(memory, log) && Mortal(memory, d)
    ensures Logged(memory - {d}, log + [Freed(d)])
  {
    assert (log + [Freed(d)])[..|log|] == log;
  }

  // ----- allocating and entering -----

  function FrameSpots(f: nat, extent: nat): set<Place> {
    set k: nat | k < extent :: InFrame(f, k)
  }

  function BodySpots(o: Address, extent: nat): set<Place> {
    set k: nat | k < extent :: InOwner(o, k)
  }

  /** New holdings, all null. */
  function Extended(slots: Slots, more: set<Place>): (r: Slots)
    ensures r.Keys == slots.Keys + more
  {
    map p | p in slots.Keys + more :: if p in slots then slots[p] else None
  }

  lemma ExtendedCounted(memory: Memory, slots: Slots, owed: multiset<Address>, more: set<Place>)
    requires Counted(memory, slots, owed)
    ensures Counted(memory, Extended(slots, more), owed)
  {
    var after := Extended(slots, more);
    forall a | Mortal(memory, a) ensures CountIs(memory, after, owed, a) {
      assert CountIs(memory, slots, owed, a);
      assert Holders(after, a) == Holders(slots, a);
    }
  }

  /** A new owner is in flight until its address is stored. */
  lemma OwnerAdded(memory: Memory, slots: Slots, at: Address, extent: nat)
    requires Counted(memory, slots, multiset{}) && at !in memory
    ensures Counted(memory[at := Owner(1, None, Local, extent)], slots, multiset{at})
  {
    var after := memory[at := Owner(1, None, Local, extent)];
    assert Holders(slots, at) == {};
    forall a | Mortal(after, a) ensures CountIs(after, slots, multiset{at}, a) {
      assert a != at ==> Mortal(memory, a) && CountIs(memory, slots, multiset{}, a);
    }
  }

  lemma OwnerPlaced(memory: Memory, frames: Frames, slots: Slots, at: Address, extent: nat)
    requires Placed(memory, frames, slots) && at !in memory
    ensures Placed(memory[at := Owner(1, None, Local, extent)], frames, Extended(slots, BodySpots(at, extent)))
  {
    var after := memory[at := Owner(1, None, Local, extent)];
    forall p ensures p in Extended(slots, BodySpots(at, extent)) <==> PlaceIn(after, frames, p) {
      assert p in slots <==> PlaceIn(memory, frames, p);
    }
  }

  lemma OwnerQueue(memory: Memory, head: Option<Address>, tail: Option<Address>, queue: seq<Address>, at: Address,
    o: Owner)
    requires Linked(memory, head, tail, queue) && Awaiting(memory, queue, None) && at !in memory && o.count > 0
    ensures Linked(memory[at := o], head, tail, queue) && Awaiting(memory[at := o], queue, None)
  {
    var after := memory[at := o];
    forall i | 0 <= i < |queue| ensures LinkAt(after, queue, i) {
      assert LinkAt(memory, queue, i);
    }
    forall a: Address ensures Dead(after, a) <==> Dead(memory, a) {
    }
  }

  lemma OwnerLogged(memory: Memory, log: seq<Event>, at: Address, extent: nat)
    requires Logged(memory, log) && at !in memory
    ensures Logged(memory[at := Owner(1, None, Local, extent)], log + [Allocated(at)])
  {
    var after, longer := memory[at := Owner(1, None, Local, extent)], log + [Allocated(at)];
    assert longer[..|log|] == log;
    assert !Mortal(memory, at) && at !in Live(log);
    forall a: Address ensures a in Live(longer) <==> Mortal(after, a) {
      assert a in Live(log) <==> Mortal(memory, a);
    }
  }

  lemma FramePlaced(memory: Memory, frames: Frames, slots: Slots, f: nat, previous: Option<nat>, extent: nat)
    requires Placed(memory, frames, slots) && f !in frames
    ensures Placed(memory, frames[f := Activation(previous, extent)], Extended(slots, FrameSpots(f, extent)))
  {
    var after := frames[f := Activation(previous, extent)];
    forall p ensures p in Extended(slots, FrameSpots(f, extent)) <==> PlaceIn(memory, after, p) {
      assert p in slots <==> PlaceIn(memory, frames, p);
    }
  }

  function Unframed(slots: Slots, f: nat): Slots {
    map p | p in slots && !(p.InFrame? && p.frame == f) :: slots[p]
  }

  /** A frame whose holdings are null can go. */
  lemma FrameGone(memory: Memory, frames: Frames, slots: Slots, owed: multiset<Address>, f: nat)
    requires Counted(memory, slots, owed) && Placed(memory, frames, slots)
    requires forall p | p in slots && p.InFrame? && p.frame == f :: slots[p] == None
    ensures Counted(memory, Unframed(slots, f), owed) && Placed(memory, frames - {f}, Unframed(slots, f))
  {
    var left := Unframed(slots, f);
    forall a | Mortal(memory, a) ensures CountIs(memory, left, owed, a) {
      assert CountIs(memory, slots, owed, a);
      assert Holders(left, a) == Holders(slots, a);
    }
  }

  // ----- a sweep -----

  function Remaining(slots: Slots, order: seq<Address>): Slots {
    map p | p in slots && !(p.InOwner? && p.owner in order) :: slots[p]
  }

  /** Whatever held the owner freed at `j` lay in an owner freed before. */
  ghost predicate HeldEarlier(slots: Slots, order: seq<Address>, j: nat)
    requires j < |order|
  {
    forall p | p in slots && slots[p] == Some(order[j]) :: p.InOwner? && p.owner in order[..j]
  }

  /** A sweep frees the owners of `order`, one after the other, and touches no other holding. */
  ghost predicate Swept(memory: Memory, slots: Slots, memory': Memory, slots': Slots, order: seq<Address>) {
    && NoRepeats(order) && (forall j | 0 <= j < |order| :: Mortal(memory, order[j]))
    && (forall a: Address :: a in memory' <==> a in memory && a !in order)
    && (forall a | a in memory' :: SameHeader(memory[a], memory'[a]))
    && slots' == Remaining(slots, order)
    && forall j | 0 <= j < |order| :: HeldEarlier(slots, order, j)
  }

  lemma NothingSwept(memory: Memory, slots: Slots)
    ensures Swept(memory, slots, memory, slots, [])
  {
    assert Remaining(slots, []) == slots;
  }

  lemma SweptShape(memory: Memory, slots: Slots, memory': Memory, slots': Slots, order: seq<Address>, memory'': Memory)
    requires Swept(memory, slots, memory', slots', order) && SameShape(memory', memory'')
    ensures Swept(memory, slots, memory'', slots', order)
  {
    forall a | a in memory'' ensures SameHeader(memory[a], memory''[a]) {
      assert SameHeader(memory[a], memory'[a]) && SameHeader(memory'[a], memory''[a]);
    }
  }

  lemma SweptFrom(before: Memory, memory: Memory, slots: Slots, memory': Memory, slots': Slots, order: seq<Address>)
    requires Swept(memory, slots, memory', slots', order) && SameShape(before, memory)
    ensures Swept(before, slots, memory', slots', order)
  {
    forall j | 0 <= j < |order| ensures Mortal(before, order[j]) {
      assert Mortal(memory, order[j]) && SameHeader(before[order[j]], memory[order[j]]);
    }
    forall a | a in memory' ensures SameHeader(before[a], memory'[a]) {
      assert SameHeader(before[a], memory[a]) && SameHeader(memory[a], memory'[a]);
    }
  }

  /** One more owner is freed: nothing that is left holds it. */
  lemma SweptOne(memory: Memory, slots: Slots, memory': Memory, slots': Slots, order: seq<Address>, d: Address)
    requires Swept(memory, slots, memory', slots', order) && Mortal(memory', d)
    requires forall p | p in slots' :: slots'[p] != Some(d)
    ensures Swept(memory, slots, memory' - {d}, Without(slots', d), order + [d])
  {
    assert SameHeader(memory[d], memory'[d]);
    var longer := order + [d];
    assert Without(slots', d) == Remaining(slots, longer);
    forall j | 0 <= j < |longer| ensures HeldEarlier(slots, longer, j) {
      assert longer[..j] == if j < |order| then order[..j] else order;
      if j < |order| {
        assert HeldEarlier(slots, order, j);
      } else {
        forall p | p in slots && slots[p] == Some(d) ensures p.InOwner? && p.owner in order {
          assert p !in slots';
        }
      }
    }
  }

  // ----- what survives -----

  ghost predicate Holds(slots: Slots, a: Address, b: Address) {
    exists k: nat :: InOwner(a, k) in slots && slots[InOwner(a, k)] == Some(b)
  }

  ghost predicate IsChain(slots: Slots, path: seq<Address>) {
    path != [] && forall i | 0 <= i < |path| - 1 :: Holds(slots, path[i], path[i + 1])
  }

  /** `b` is reached from `a` through holdings. */
  ghost predicate Leads(slots: Slots, a: Address, b: Address) {
    exists path :: IsChain(slots, path) && path[0] == a && path[|path| - 1] == b
  }

  predicate RootPlace(memory: Memory, p: Place) {
    p.InOwner? ==> !Mortal(memory, p.owner)
  }

  /** Reached from a frame or from an immortal owner. */
  ghost predicate Rooted(memory: Memory, slots: Slots, a: Address) {
    exists p, b :: p in slots && RootPlace(memory, p) && slots[p] == Some(b) && Leads(slots, b, a)
  }

  ghost predicate OnCycle(slots: Slots, c: Address) {
    exists b :: Holds(slots, c, b) && Leads(slots, b, c)
  }

  ghost predicate Kept(memory: Memory, slots: Slots, a: Address) {
    Rooted(memory, slots, a) || exists c :: OnCycle(slots, c) && Leads(slots, c, a)
  }

  lemma LeadsSelf(slots: Slots, a: Address)
    ensures Leads(slots, a, a)
  {
    assert IsChain(slots, [a]);
  }

  lemma LeadsOn(slots: Slots, a: Address, b: Address, c: Address)
    requires Leads(slots, a, b) && Holds(slots, b, c)
    ensures Leads(slots, a, c)
  {
    var path :| IsChain(slots, path) && path[0] == a && path[|path| - 1] == b;
    var longer := path + [c];
    forall i | 0 <= i < |longer| - 1 ensures Holds(slots, longer[i], longer[i + 1]) {
      if i < |path| - 1 {
        assert Holds(slots, path[i], path[i + 1]);
      }
    }
    assert IsChain(slots, longer);
  }

  lemma LeadsFrom(slots: Slots, a: Address, b: Address, c: Address)
    requires Holds(slots, a, b) && Leads(slots, b, c)
    ensures Leads(slots, a, c)
  {
    var path :| IsChain(slots, path) && path[0] == b && path[|path| - 1] == c;
    var longer := [a] + path;
    forall i | 0 <= i < |longer| - 1 ensures Holds(slots, longer[i], longer[i + 1]) {
      if i > 0 {
        assert Holds(slots, path[i - 1], path[i - 1 + 1]);
      }
    }
    assert IsChain(slots, longer);
  }

  lemma KeptOn(memory: Memory, slots: Slots, a: Address, b: Address)
    requires Kept(memory, slots, a) && Holds(slots, a, b)
    ensures Kept(memory, slots, b)
  {
    if Rooted(memory, slots, a) {
      var p, r :| p in slots && RootPlace(memory, p) && slots[p] == Some(r) && Leads(slots, r, a);
      LeadsOn(slots, r, a, b);
    } else {
      var c :| OnCycle(slots, c) && Leads(slots, c, a);
      LeadsOn(slots, c, a, b);
    }
  }

  /** With nothing dead, every counted owner has a holder; climbing from holder to holder ends at a root
      or goes round a cycle. */
  lemma {:induction false} Climb(memory: Memory, frames: Frames, slots: Slots, a: Address, below: set<Address>)
    requires Placed(memory, frames, slots) && Counted(memory, slots, multiset{}) && Awaiting(memory, [], None)
    requires Mortal(memory, a) && a !in below && below <= memory.Keys
    requires forall v | v in below :: Leads(slots, a, v)
    ensures Kept(memory, slots, a)
    decreases |memory.Keys - below|
  {
    hide Leads, OnCycle, Holds, Awaiting, Rooted;
    NoneDead(memory, a);
    assert CountIs(memory, slots, multiset{}, a);
    var p :| p in Holders(slots, a);
    LeadsSelf(slots, a);
    if RootPlace(memory, p) {
      RootedAt(memory, slots, p, a);
    } else {
      var o := p.owner;
      HoldsAt(slots, o, p.index, a);
      if o == a || o in below {
        CycleAt(slots, o, a);
        LeadsFrom(slots, o, a, a);
      } else {
        forall v | v in below + {a} ensures Leads(slots, o, v) {
          LeadsFrom(slots, o, a, v);
        }
        assert a in memory.Keys - below && a !in memory.Keys - (below + {a});
        Climb(memory, frames, slots, o, below + {a});
        KeptOn(memory, slots, o, a);
      }
    }
  }

  lemma NoneDead(memory: Memory, a: Address)
    requires Awaiting(memory, [], None)
    ensures !Dead(memory, a)
  {
    assert a !in [];
  }

  lemma RootedAt(memory: Memory, slots: Slots, p: Place, a: Address)
    requires p in slots && RootPlace(memory, p) && slots[p] == Some(a) && Leads(slots, a, a)
    ensures Rooted(memory, slots, a)
  {
  }

  lemma HoldsAt(slots: Slots, o: Address, k: nat, a: Address)
    requires InOwner(o, k) in slots && slots[InOwner(o, k)] == Some(a)
    ensures Holds(slots, o, a)
  {
  }

  lemma CycleAt(slots: Slots, o: Address, a: Address)
    requires Holds(slots, o, a) && Leads(slots, a, o)
    ensures OnCycle(slots, o)
  {
  }

  predicate IndexIn(order: seq<Address>, a: Address, i: nat) {
    i < |order| && order[i] == a
  }

  /** What leads to a freed owner was freed no later. */
  lemma {:induction false} FreedBefore(slots: Slots, order: seq<Address>, path: seq<Address>, j: nat) returns (i: nat)
    requires NoRepeats(order) && forall j | 0 <= j < |order| :: HeldEarlier(slots, order, j)
    requires IsChain(slots, path) && IndexIn(order, path[|path| - 1], j)
    ensures IndexIn(order, path[0], i) && i <= j
  {
    if |path| == 1 {
      i := j;
    } else {
      var n := |path| - 1;
      assert Holds(slots, path[n - 1], path[n - 1 + 1]);
      i := HolderBefore(slots, order, path[n - 1], path[n], j);
      var rest := path[..n];
      assert IsChain(slots, rest) by {
        forall k | 0 <= k < |rest| - 1 ensures Holds(slots, rest[k], rest[k + 1]) {
          assert Holds(slots, path[k], path[k + 1]);
        }
      }
      i := FreedBefore(slots, order, rest, i);
    }
  }

  lemma HolderBefore(slots: Slots, order: seq<Address>, a: Address, b: Address, j: nat) returns (i: nat)
    requires j < |order| && HeldEarlier(slots, order, j) && IndexIn(order, b, j) && Holds(slots, a, b)
    ensures IndexIn(order, a, i) && i < j
  {
    var k: nat :| InOwner(a, k) in slots && slots[InOwner(a, k)] == Some(b);
    assert a in order[..j];
    i :| 0 <= i < j && order[..j][i] == a;
  }

  lemma LeadsBefore(slots: Slots, order: seq<Address>, a: Address, b: Address, j: nat) returns (i: nat)
    requires NoRepeats(order) && forall j | 0 <= j < |order| :: HeldEarlier(slots, order, j)
    requires Leads(slots, a, b) && IndexIn(order, b, j)
    ensures IndexIn(order, a, i) && i <= j
  {
    var path :| IsChain(slots, path) && path[0] == a && path[|path| - 1] == b;
    i := FreedBefore(slots, order, path, j);
  }

  lemma RootHolds(memory: Memory, slots: Slots, order: seq<Address>, p: Place, i: nat)
    requires i < |order| && HeldEarlier(slots, order, i) && forall j | 0 <= j < |order| :: Mortal(memory, order[j])
    requires p in slots && RootPlace(memory, p)
    ensures slots[p] != Some(order[i])
  {
  }

  /** No freed owner is reached from a root or from a cycle. */
  lemma FreedNotKept(memory: Memory, slots: Slots, memory': Memory, slots': Slots, order: seq<Address>, j: nat)
    requires Swept(memory, slots, memory', slots', order) && j < |order|
    ensures !Kept(memory, slots, order[j])
  {
    hide Leads, Holds;
    if Rooted(memory, slots, order[j]) {
      var p, b :| p in slots && RootPlace(memory, p) && slots[p] == Some(b) && Leads(slots, b, order[j]);
      var i := LeadsBefore(slots, order, b, order[j], j);
      RootHolds(memory, slots, order, p, i);
    }
    if exists c :: OnCycle(slots, c) && Leads(slots, c, order[j]) {
      var c :| OnCycle(slots, c) && Leads(slots, c, order[j]);
      var i := LeadsBefore(slots, order, c, order[j], j);
      var b :| Holds(slots, c, b) && Leads(slots, b, c);
      var k := LeadsBefore(slots, order, b, c, i);
      var l := HolderBefore(slots, order, c, b, k);
    }
  }

  lemma ChainMore(slots: Slots, more: Slots, path: seq<Address>)
    requires IsChain(slots, path) && forall p | p in slots :: p in more && more[p] == slots[p]
    ensures IsChain(more, path)
  {
    forall i | 0 <= i < |path| - 1 ensures Holds(more, path[i], path[i + 1]) {
      assert Holds(slots, path[i], path[i + 1]);
    }
  }

  lemma LeadsMore(slots: Slots, more: Slots, a: Address, b: Address)
    requires Leads(slots, a, b) && forall p | p in slots :: p in more && more[p] == slots[p]
    ensures Leads(more, a, b)
  {
    var path :| IsChain(slots, path) && path[0] == a && path[|path| - 1] == b;
    ChainMore(slots, more, path);
  }

  lemma KeptMore(memory: Memory, slots: Slots, memory': Memory, slots': Slots, order: seq<Address>, a: Address)
    requires Swept(memory, slots, memory', slots', order) && Kept(memory', slots', a)
    ensures Kept(memory, slots, a)
  {
    hide Leads, IsChain;
    if Rooted(memory', slots', a) {
      var p, b :| p in slots' && RootPlace(memory', p) && slots'[p] == Some(b) && Leads(slots', b, a);
      LeadsMore(slots', slots, b, a);
      assert RootPlace(memory, p) by {
        if p.InOwner? && p.owner in memory {
          assert p.owner !in order;
          assert p.owner in memory';
          assert SameHeader(memory[p.owner], memory'[p.owner]);
        }
      }
    } else {
      var c :| OnCycle(slots', c) && Leads(slots', c, a);
      LeadsMore(slots', slots, c, a);
      var b :| Holds(slots', c, b) && Leads(slots', b, c);
      LeadsMore(slots', slots, b, c);
      assert Holds(slots, c, b);
    }
  }

  /** A counted owner survives a complete sweep exactly if a root reaches it or a cycle does. */
  lemma SurvivesIff(memory: Memory, slots: Slots, memory': Memory, frames: Frames, slots': Slots, order: seq<Address>,
    a: Address)
    requires Swept(memory, slots, memory', slots', order) && Mortal(memory, a)
    requires Placed(memory', frames, slots') && Counted(memory', slots', multiset{}) && Awaiting(memory', [], None)
    ensures a in memory' <==> Kept(memory, slots, a)
  {
    hide Kept, Awaiting, Placed, Counted;
    if a in memory' {
      assert SameHeader(memory[a], memory'[a]);
      Climb(memory', frames, slots', a, {});
      KeptMore(memory, slots, memory', slots', order, a);
    } else {
      assert a in order;
      var j :| 0 <= j < |order| && order[j] == a;
      FreedNotKept(memory, slots, memory', slots', order, j);
    }
  }

  ghost predicate Acyclic(slots: Slots) {
    forall c :: !OnCycle(slots, c)
  }

  /** Without cycles, exactly what the roots reach survives. */
  lemma AcyclicSurvives(memory: Memory, slots: Slots, memory': Memory, frames: Frames, slots': Slots,
    order: seq<Address>, a: Address)
    requires Swept(memory, slots, memory', slots', order) && Mortal(memory, a) && Acyclic(slots)
    requires Placed(memory', frames, slots') && Counted(memory', slots', multiset{}) && Awaiting(memory', [], None)
    ensures a in memory' <==> Rooted(memory, slots, a)
  {
    SurvivesIff(memory, slots, memory', frames, slots', order, a);
  }

  /** Two owners that hold each other and that nothing else holds are never freed. */
  lemma CycleLeaks(memory: Memory, slots: Slots, memory': Memory, frames: Frames, slots': Slots, order: seq<Address>,
    a: Address, b: Address)
    requires Swept(memory, slots, memory', slots', order) && Mortal(memory, a) && Mortal(memory, b)
    requires Placed(memory', frames, slots') && Counted(memory', slots', multiset{}) && Awaiting(memory', [], None)
    requires Holds(slots, a, b) && Holds(slots, b, a)
    ensures a in memory' && b in memory'
  {
    hide Holds;
    LeadsSelf(slots, a);
    LeadsOn(slots, a, a, b);
    LeadsSelf(slots, b);
    LeadsOn(slots, b, b, a);
    hide Leads;
    assert OnCycle(slots, a);
    assert OnCycle(slots, b);
    SurvivesIff(memory, slots, memory', frames, slots', order, a);
    SurvivesIff(memory, slots, memory', frames, slots', order, b);
  }

  // ----- the end of a call -----

  /** Only holdings inside owners are left. */
  function Bodies(slots: Slots): Slots {
    map p | p in slots && p.InOwner? :: slots[p]
  }

  lemma CycleMore(slots: Slots, more: Slots, c: Address)
    requires OnCycle(slots, c) && forall p | p in slots :: p in more && more[p] == slots[p]
    ensures OnCycle(more, c)
  {
    hide Leads;
    var b :| Holds(slots, c, b) && Leads(slots, b, c);
    LeadsMore(slots, more, b, c);
    assert Holds(more, c, b);
  }

  lemma LessCycle(slots: Slots, more: Slots)
    requires Acyclic(more) && forall p | p in slots :: p in more && more[p] == slots[p]
    ensures Acyclic(slots)
  {
    hide OnCycle;
    forall c | OnCycle(slots, c) ensures OnCycle(more, c) {
      CycleMore(slots, more, c);
    }
  }

  ghost predicate NoRoots(memory: Memory, slots: Slots) {
    forall p | p in slots && RootPlace(memory, p) :: slots[p] == None
  }

  /** With no root, no cycle and no dead owner, no counted owner is left. */
  lemma NoneLeft(memory: Memory, frames: Frames, slots: Slots, a: Address)
    requires Placed(memory, frames, slots) && Counted(memory, slots, multiset{}) && Awaiting(memory, [], None)
    requires Acyclic(slots) && NoRoots(memory, slots)
    ensures !Mortal(memory, a)
  {
    hide Awaiting, OnCycle, Leads;
    if Mortal(memory, a) {
      Climb(memory, frames, slots, a, {});
    }
  }

  /** Then every allocation has been freed, and freed once. */
  lemma AllFreedOnce(memory: Memory, frames: Frames, slots: Slots, log: seq<Event>, i: nat)
    requires Placed(memory, frames, slots) && Counted(memory, slots, multiset{}) && Awaiting(memory, [], None)
    requires Acyclic(slots) && NoRoots(memory, slots) && Logged(memory, log) && i < |log| && log[i].Allocated?
    ensures exists j: nat :: FreedOnce(log, i, j)
  {
    hide Awaiting, Acyclic, NoRoots, Placed, Counted;
    NoneLeft(memory, frames, slots, log[i].at);
    LastEvent(log, i);
  }
}
