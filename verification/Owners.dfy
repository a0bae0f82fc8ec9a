/** The counting runtime: retain, release, drain, the six source operations on holdings, and the
    unwinding that ends a call.
 */
module Owners {
  import opened Words
  import opened OwnerHeap

  datatype Status = Ok | Missing | Invalid | NoMemory

  /** What compiled code may ask of the runtime. A failed allocation is the allocator's answer. */
  datatype Request =
    | Alloc(slot: Place, at: Address, extent: nat, available: bool)
    | Hold(slot: Place, incoming: Option<Address>)
    | Drop(slot: Place)
    | Clear(slots: seq<Place>)
    | Enter(frame: nat, extent: nat)
    | Leave(frame: nat)

  predicate AllIn(slots: Slots, places: seq<Place>) {
    forall k | 0 <= k < |places| :: places[k] in slots
  }

  /** Holdings written one after the other with null. */
  function Cleared(slots: Slots, places: seq<Place>): (r: Slots)
    requires AllIn(slots, places)
    ensures r.Keys == slots.Keys
  {
    if places == [] then slots else Cleared(slots, places[..|places| - 1])[places[|places| - 1] := None]
  }

  function FramePlaces(frame: nat, extent: nat): (r: seq<Place>)
    ensures |r| == extent && forall k | 0 <= k < extent :: r[k] == InFrame(frame, k)
  {
    seq(extent, (k: nat) => InFrame(frame, k))
  }

  function BodyPlaces(o: Address, extent: nat): (r: seq<Place>)
    ensures |r| == extent && forall k | 0 <= k < extent :: r[k] == InOwner(o, k)
  {
    seq(extent, (k: nat) => InOwner(o, k))
  }

  lemma {:induction false} ClearedAt(slots: Slots, places: seq<Place>, p: Place)
    requires AllIn(slots, places) && p in slots
    ensures Cleared(slots, places)[p] == if p in places then None else slots[p]
  {
    if places != [] {
      ClearedAt(slots, places[..|places| - 1], p);
      assert places == places[..|places| - 1] + [places[|places| - 1]];
    }
  }

  /** The owners, the holdings and the activations at one moment, newest activation last. */
  datatype Snapshot = Snapshot(memory: Memory, slots: Slots, entered: seq<nat>)

  /** Retaining fails on a dead owner and on one whose count is at the limit. */
  function RetainVerdict(memory: Memory, o: Option<Address>): Status {
    if o.None? || o.value !in memory || memory[o.value].kind.Immortal? then Ok
    else if memory[o.value].count == 0 then Invalid
    else if memory[o.value].count == COUNT_LIMIT then NoMemory
    else Ok
  }

  function Verdict(r: Request, a: Snapshot): Status {
    match r
    case Alloc(_, _, _, available) => if available then Ok else NoMemory
    case Hold(_, o) => RetainVerdict(a.memory, o)
    case Leave(f) => if a.entered != [] && a.entered[|a.entered| - 1] == f then Ok else Invalid
    case _ => Ok
  }

  /** The addresses a request names must exist: compiled code names no others. */
  predicate AllowedIn(r: Request, s: Snapshot) {
    match r
    case Alloc(p, at, _, _) => p in s.slots && at !in s.memory
    case Hold(p, o) => p in s.slots && (o.Some? ==> o.value in s.memory)
    case Drop(p) => p in s.slots
    case Clear(ps) => AllIn(s.slots, ps)
    case Enter(f, _) => f !in s.entered
    case Leave(_) => true
  }

  /** What one request does: a failure changes nothing. */
  ghost predicate Performed(r: Request, a: Snapshot, b: Snapshot, status: Status, order: seq<Address>) {
    status == Verdict(r, a) &&
    if status != Ok then a == b
    else
      match r
      case Alloc(p, at, n, available) =>
        && available && b.entered == a.entered
        && Swept(WithOwner(a.memory, at, n), Extended(a.slots, BodySpots(at, n))[p := Some(at)], b.memory, b.slots,
          order)
      case Hold(p, o) => b.entered == a.entered && Swept(a.memory, a.slots[p := o], b.memory, b.slots, order)
      case Drop(p) => b.entered == a.entered && b.slots == a.slots[p := None] && SameShape(a.memory, b.memory)
      case Clear(ps) =>
        b.entered == a.entered && AllIn(a.slots, ps) && Swept(a.memory, Cleared(a.slots, ps), b.memory, b.slots, order)
      case Enter(f, n) => b == Snapshot(a.memory, Extended(a.slots, FrameSpots(f, n)), a.entered + [f])
      case Leave(f) =>
        a.entered == b.entered + [f] && Swept(a.memory, Unframed(a.slots, f), b.memory, b.slots, order)
  }

  ghost predicate Stepped(r: Request, a: Snapshot, b: Snapshot, status: Status) {
    exists order :: Performed(r, a, b, status, order)
  }

  /** The requests were performed in order, and only the last may have failed. */
  ghost predicate RunOf(requests: seq<Request>, history: seq<Snapshot>, status: Status) {
    && 0 < |history| <= |requests| + 1 && (|history| == 1 ==> status == Ok)
    && forall i | 0 <= i < |history| - 1 ::
      Stepped(requests[i], history[i], history[i + 1], if i == |history| - 2 then status else Ok)
  }

  lemma RunMore(requests: seq<Request>, history: seq<Snapshot>, b: Snapshot, status: Status)
    requires RunOf(requests, history, Ok) && |history| <= |requests|
    requires Stepped(requests[|history| - 1], history[|history| - 1], b, status)
    ensures RunOf(requests, history + [b], status)
  {
    hide Stepped;
    var longer := history + [b];
    forall i | 0 <= i < |longer| - 1
      ensures Stepped(requests[i], longer[i], longer[i + 1], if i == |longer| - 2 then status else Ok)
    {
      assert longer[i] == history[i];
      assert i < |history| - 1 ==> longer[i + 1] == history[i + 1];
    }
  }

  lemma RunNone(requests: seq<Request>, now: Snapshot)
    ensures RunOf(requests, [now], Ok)
  {
  }

  class Runtime {
    var memory: Memory
    var slots: Slots
    var frames: Frames
    var head: Option<Address>
    var tail: Option<Address>
    var draining: bool
    var cleanup: Option<nat>
    ghost var queue: seq<Address>
    ghost var entered: seq<nat>
    ghost var log: seq<Event>

    /** Counts, queue, frames and log are right, given the references in flight and the owner being
        dropped. */
    ghost predicate Valid(owed: multiset<Address>, doomed: Option<Address>)
      reads `memory, `slots, `frames, `head, `tail, `cleanup, `queue, `entered, `log
    {
      && Counted(memory, slots, owed) && Placed(memory, frames, slots)
      && Linked(memory, head, tail, queue) && Awaiting(memory, queue, doomed)
      && Chained(frames, cleanup, entered) && Logged(memory, log)
    }

    lemma Parts(owed: multiset<Address>, doomed: Option<Address>)
      requires Valid(owed, doomed)
      ensures Counted(memory, slots, owed) && Placed(memory, frames, slots)
      ensures Linked(memory, head, tail, queue) && Awaiting(memory, queue, doomed)
      ensures Chained(frames, cleanup, entered) && Logged(memory, log)
    {
    }

    lemma MakeValid(owed: multiset<Address>, doomed: Option<Address>)
      requires Counted(memory, slots, owed) && Placed(memory, frames, slots)
      requires Linked(memory, head, tail, queue) && Awaiting(memory, queue, doomed)
      requires Chained(frames, cleanup, entered) && Logged(memory, log)
      ensures Valid(owed, doomed)
    {
    }

    constructor ()
      ensures Valid(multiset{}, None) && memory == map[] && slots == map[] && frames == map[]
      ensures head == None && !draining && cleanup == None && log == [] && queue == []
    {
      memory, slots, frames, head, tail, draining, cleanup := map[], map[], map[], None, None, false, None;
      queue, entered, log := [], [], [];
    }

    // ----- the counting core -----

    /** One more reference, unless the owner is dead or its count is at the limit. */
    method Retain(o: Option<Address>, ghost owed: multiset<Address>) returns (status: Status)
      requires Valid(owed, None) && (o.Some? ==> o.value in memory)
      modifies `memory
      ensures status == if o.None? then Missing else RetainVerdict(old(memory), o)
      ensures status != Ok ==> memory == old(memory)
      ensures SameShape(old(memory), memory)
      ensures Valid(if status == Ok then owed + Bag(o) else owed, None)
    {
      hide *;
      ShapeSelf(memory);
      if o.None? {
        return Missing;
      }
      Parts(owed, None);
      var a := o.value;
      VerdictSome(memory, a);
      MortalIs(memory, a);
      if memory[a].kind.Immortal? {
        CountFree(memory, slots, owed, a);
        BagOne(a);
        MakeValid(owed + Bag(o), None);
        return Ok;
      }
      if memory[a].count == 0 {
        return Invalid;
      }
      if memory[a].count == COUNT_LIMIT {
        return NoMemory;
      }
      var raised := memory[a].(count := memory[a].count + 1);
      CountBound(memory, slots, owed, a);
      CountRaised(memory, slots, owed, a);
      StillAwaiting(memory, head, tail, queue, None, a, raised);
      ShapeOne(memory, a, raised);
      PlacedShape(memory, memory[a := raised], frames, slots);
      LoggedShape(memory, memory[a := raised], log);
      BagOne(a);
      memory := memory[a := raised];
      MakeValid(owed + Bag(o), None);
      status := Ok;
    }

    /** Give up one reference in flight; the last one queues the owner. Never frees anything. */
    method Release(o: Option<Address>, ghost owed: multiset<Address>, ghost doomed: Option<Address>)
      requires Valid(owed + Bag(o), doomed) && (o.Some? ==> o.value in memory)
      modifies `memory, `head, `tail, `queue
      ensures Valid(owed, doomed) && SameShape(old(memory), memory)
    {
      hide *;
      ShapeSelf(memory);
      if o.None? {
        BagNone(owed);
        return;
      }
      var a := o.value;
      BagOne(a);
      MortalIs(memory, a);
      Parts(owed + Bag(o), doomed);
      if memory[a].kind.Immortal? {
        CountFree(memory, slots, owed, a);
        MakeValid(owed, doomed);
        return;
      }
      ghost var before := memory;
      var last := memory[a].count;
      CountLowered(memory, slots, owed, a, memory[a].next);
      CountLowered(memory, slots, owed, a, None);
      var lowered := memory[a].(count := memory[a].count - 1);
      if last != 1 {
        StillAwaiting(memory, head, tail, queue, doomed, a, lowered);
        ShapeOne(memory, a, lowered);
        PlacedShape(memory, memory[a := lowered], frames, slots);
        LoggedShape(memory, memory[a := lowered], log);
        memory := memory[a := lowered];
        MakeValid(owed, doomed);
        return;
      }
      Joined(memory, head, tail, queue, doomed, a);
      memory := memory[a := lowered.(next := None)];
      if tail.Some? {
        NextChanged(memory, slots, owed, tail.value, Some(a));
        memory := memory[tail.value := memory[tail.value].(next := Some(a))];
      } else {
        head := Some(a);
      }
      tail := Some(a);
      queue := queue + [a];
      PlacedShape(before, memory, frames, slots);
      LoggedShape(before, memory, log);
      MakeValid(owed, doomed);
    }

    /** Write a slot; what it held is in flight. */
    method Write(p: Place, v: Option<Address>, ghost owed: multiset<Address>, ghost doomed: Option<Address>)
      returns (held: Option<Address>)
      requires Valid(owed + Bag(v), doomed) && p in slots && (v.Some? ==> v.value in memory)
      modifies `slots
      ensures held == old(slots)[p] && slots == old(slots)[p := v] && (held.Some? ==> held.value in memory)
      ensures Valid(owed + Bag(held), doomed)
    {
      hide *;
      Parts(owed + Bag(v), doomed);
      held := slots[p];
      PointsIn(memory, slots, owed + Bag(v), p);
      SlotWritten(memory, slots, p, v, owed);
      PlacedWrite(memory, frames, slots, p, v);
      slots := slots[p := v];
      MakeValid(owed + Bag(held), doomed);
    }

    /** Null one holding and release what it held. */
    method DropSlot(p: Place, ghost doomed: Option<Address>)
      requires Valid(multiset{}, doomed) && p in slots
      modifies `slots, `memory, `head, `tail, `queue
      ensures Valid(multiset{}, doomed) && slots == old(slots)[p := None] && SameShape(old(memory), memory)
    {
      hide *;
      BagNone(multiset{});
      var held := Write(p, None, multiset{}, doomed);
      Release(held, multiset{}, doomed);
    }

    /** Null several holdings, in order. */
    method DropAll(places: seq<Place>, ghost doomed: Option<Address>)
      requires Valid(multiset{}, doomed) && AllIn(slots, places)
      modifies `slots, `memory, `head, `tail, `queue
      ensures AllIn(old(slots), places) && slots == Cleared(old(slots), places)
      ensures Valid(multiset{}, doomed) && SameShape(old(memory), memory)
    {
      hide Valid, SameShape;
      ShapeSelf(memory);
      ghost var before := memory;
      for k := 0 to |places|
        invariant Valid(multiset{}, doomed) && SameShape(before, memory)
        invariant slots == Cleared(old(slots), places[..k])
      {
        assert places[..k + 1][..k] == places[..k];
        ghost var now := memory;
        DropSlot(places[k], doomed);
        ShapeTrans(before, now, memory);
      }
      assert places[..|places|] == places;
    }

    /** Free dead owners, one after the other, until none is left. */
    method Drain() returns (ghost order: seq<Address>)
      requires Valid(multiset{}, None) && !draining
      modifies `memory, `slots, `head, `tail, `draining, `queue, `log
      ensures Valid(multiset{}, None) && queue == [] && head == None && !draining
      ensures Swept(old(memory), old(slots), memory, slots, order)
    {
      hide *;
      draining := true;
      order := [];
      NothingSwept(memory, slots);
      HeadIs(None);
      while head.Some?
        invariant Valid(multiset{}, None) && (head.None? <==> queue == [])
        invariant Swept(old(memory), old(slots), memory, slots, order)
        decreases |memory|
      {
        Parts(multiset{}, None);
        Popped(memory, head, tail, queue);
        order := Sweep(order, old(memory), old(slots));
        HeadIs(None);
      }
      HeadIs(None);
      draining := false;
    }

    lemma HeadIs(doomed: Option<Address>)
      requires Valid(multiset{}, doomed)
      ensures head.None? <==> queue == []
      ensures head.Some? ==> head.value in memory && Mortal(memory, head.value) && queue[0] == head.value
    {
      if queue != [] {
        assert queue[0] in queue;
      }
    }

    /** Unlink the first dead owner. */
    method PopDead() returns (d: Address)
      requires Valid(multiset{}, None) && head.Some? && queue != []
      modifies `head, `tail, `queue
      ensures Valid(multiset{}, Some(d)) && Some(d) == old(head) && Mortal(memory, d)
    {
      hide *;
      Parts(multiset{}, None);
      Popped(memory, head, tail, queue);
      d := head.value;
      DeadIn(memory, d);
      head := memory[d].next;
      if head.None? {
        tail := None;
      }
      queue := queue[1..];
      MakeValid(multiset{}, Some(d));
    }

    /** Free the owner being dropped, once all it held has been dropped. */
    method Free(d: Address)
      requires Valid(multiset{}, Some(d)) && Emptied(slots, d)
      modifies `memory, `slots, `log
      ensures Valid(multiset{}, None) && memory == old(memory) - {d} && slots == Without(old(slots), d)
      ensures log == old(log) + [Freed(d)]
    {
      hide *;
      Parts(multiset{}, Some(d));
      DoomedDead(memory, queue, d);
      FreedCounted(memory, frames, slots, multiset{}, d);
      FreedQueue(memory, head, tail, queue, d);
      FreedLogged(memory, log, d);
      memory := memory - {d};
      slots := Without(slots, d);
      log := log + [Freed(d)];
      MakeValid(multiset{}, None);
    }

    /** Pop one owner, drop what it holds and free it. */
    method Sweep(ghost order: seq<Address>, ghost memory0: Memory, ghost slots0: Slots)
      returns (ghost order': seq<Address>)
      requires Valid(multiset{}, None) && head.Some? && queue != []
      requires Swept(memory0, slots0, memory, slots, order)
      modifies `memory, `slots, `head, `tail, `queue, `log
      ensures Valid(multiset{}, None) && Swept(memory0, slots0, memory, slots, order')
      ensures |memory| < |old(memory)|
    {
      hide *;
      var d := PopDead();
      Parts(multiset{}, Some(d));
      DoomedDead(memory, queue, d);
      MortalIs(memory, d);
      NotHeld(memory, slots, multiset{}, d);
      ghost var memory1, slots1 := memory, slots;
      BodyIn(memory, frames, slots, d);
      DropAll(BodyPlaces(d, memory[d].extent), Some(d));
      SweptLater(memory0, slots0, memory1, slots1, order, memory, slots, d, memory1[d].extent);
      EmptiedNow(memory1, frames, slots1, d, slots);
      FewerOwners(memory1, memory, d);
      Free(d);
      order' := order + [d];
    }

    /** Hold another owner in a slot: retain it first, so that a failure changes nothing. */
    method Replace(p: Place, incoming: Option<Address>) returns (status: Status)
      requires Valid(multiset{}, None) && p in slots && (incoming.Some? ==> incoming.value in memory)
      modifies `memory, `slots, `head, `tail, `queue
      ensures Valid(multiset{}, None) && SameShape(old(memory), memory)
      ensures status == Ok ==> slots == old(slots)[p := incoming]
      ensures status != Ok ==>
        slots == old(slots) && memory == old(memory) && queue == old(queue) && head == old(head) && tail == old(tail)
      ensures status == RetainVerdict(old(memory), incoming)
    {
      hide *;
      ghost var before := memory;
      VerdictNone(memory);
      ShapeSelf(memory);
      BagNone(multiset{});
      status := Ok;
      if incoming.Some? {
        status := Retain(incoming, multiset{});
        if status != Ok {
          return;
        }
      }
      SameKeys(before, memory);
      var held := Write(p, incoming, multiset{}, None);
      ghost var now := memory;
      Release(held, multiset{}, None);
      ShapeTrans(before, now, memory);
    }

    // ----- the source operations -----

    /** Between requests: nothing in flight, and storage only for entered frames. */
    ghost predicate Idle()
      reads this
    {
      Valid(multiset{}, None) && !draining && forall f | f in frames :: f in entered
    }

    lemma IdleParts()
      requires Idle()
      ensures Valid(multiset{}, None) && !draining && forall f | f in frames :: f in entered
    {
    }

    lemma MakeIdle()
      requires Valid(multiset{}, None) && !draining && forall f | f in frames :: f in entered
      ensures Idle()
    {
    }

    /** Drain if something is queued. */
    method Settle() returns (ghost order: seq<Address>)
      requires Idle()
      modifies `memory, `slots, `head, `tail, `draining, `queue, `log
      ensures Idle() && queue == [] && Swept(old(memory), old(slots), memory, slots, order)
    {
      hide *;
      IdleParts();
      HeadIs(None);
      NothingSwept(memory, slots);
      order := [];
      if head.Some? {
        order := Drain();
      }
      MakeIdle();
    }

    /** Allocate an owner with null holdings and hold it in a slot; what the slot held is released. */
    method Allocate(p: Place, at: Address, extent: nat, available: bool)
      returns (status: Status, ghost order: seq<Address>)
      requires Idle() && p in slots && at !in memory
      modifies this
      ensures Idle() && frames == old(frames) && entered == old(entered)
      ensures status == if available then Ok else NoMemory
      ensures !available ==> memory == old(memory) && slots == old(slots) && queue == old(queue) && log == old(log)
      ensures available ==>
        && queue == []
        && Swept(WithOwner(old(memory), at, extent), Extended(old(slots), BodySpots(at, extent))[p := Some(at)],
          memory, slots, order)
    {
      hide *;
      order := [];
      if !available {
        return NoMemory, order;
      }
      IdleParts();
      Parts(multiset{}, None);
      ghost var first := WithOwner(memory, at, extent);
      OwnerAdded(memory, slots, at, extent);
      var o := Owner(1, None, Local, extent);
      ExtendedCounted(memory[at := o], slots, multiset{at}, BodySpots(at, extent));
      OwnerPlaced(memory, frames, slots, at, extent);
      OwnerQueue(memory, head, tail, queue, at, o);
      OwnerLogged(memory, log, at, extent);
      WithOwnerIs(memory, at, extent);
      memory := memory[at := o];
      slots := Extended(slots, BodySpots(at, extent));
      log := log + [Allocated(at)];
      BagOne(at);
      assert multiset{} + Bag(Some(at)) == multiset{at};
      MakeValid(multiset{} + Bag(Some(at)), None);
      var held := Write(p, Some(at), multiset{}, None);
      Release(held, multiset{}, None);
      MakeIdle();
      ghost var now := memory;
      order := Settle();
      SweptFrom(first, now, Extended(old(slots), BodySpots(at, extent))[p := Some(at)], memory, slots, order);
      status := Ok;
    }

    /** Hold another owner, or none, in a slot. */
    method HoldSlot(p: Place, incoming: Option<Address>) returns (status: Status, ghost order: seq<Address>)
      requires Idle() && p in slots && (incoming.Some? ==> incoming.value in memory)
      modifies this
      ensures status == RetainVerdict(old(memory), incoming)
      ensures Idle() && frames == old(frames) && entered == old(entered)
      ensures status != Ok ==> memory == old(memory) && slots == old(slots) && queue == old(queue) && log == old(log)
      ensures status == Ok ==> queue == [] && Swept(old(memory), old(slots)[p := incoming], memory, slots, order)
    {
      hide *;
      IdleParts();
      order := [];
      ghost var before := memory;
      status := Replace(p, incoming);
      MakeIdle();
      if status == Ok {
        ghost var now := memory;
        order := Settle();
        SweptFrom(before, now, old(slots)[p := incoming], memory, slots, order);
      }
    }

    /** Null a list of holdings together. */
    method ClearSlots(places: seq<Place>) returns (ghost order: seq<Address>)
      requires Idle() && AllIn(slots, places)
      modifies this
      ensures Idle() && frames == old(frames) && entered == old(entered) && queue == []
      ensures AllIn(old(slots), places) && Swept(old(memory), Cleared(old(slots), places), memory, slots, order)
    {
      hide *;
      IdleParts();
      ghost var before := memory;
      DropAll(places, None);
      MakeIdle();
      ghost var now := memory;
      order := Settle();
      SweptFrom(before, now, Cleared(old(slots), places), memory, slots, order);
    }

    /** Link a new activation before the others; its holdings start null. */
    method EnterFrame(f: nat, extent: nat)
      requires Idle() && f !in frames
      modifies this
      ensures Idle() && entered == old(entered) + [f] && frames == old(frames)[f := Activation(old(cleanup), extent)]
      ensures memory == old(memory) && slots == Extended(old(slots), FrameSpots(f, extent)) && log == old(log)
      ensures queue == old(queue)
    {
      hide *;
      IdleParts();
      Parts(multiset{}, None);
      ExtendedCounted(memory, slots, multiset{}, FrameSpots(f, extent));
      FramePlaced(memory, frames, slots, f, cleanup, extent);
      ChainPush(frames, cleanup, entered, f, extent);
      frames := frames[f := Activation(cleanup, extent)];
      slots := Extended(slots, FrameSpots(f, extent));
      cleanup := Some(f);
      entered := entered + [f];
      MakeValid(multiset{}, None);
      MakeIdle();
    }

    /** Unlink the newest activation, drop its holdings and let its storage go. */
    method PopFrame()
      requires Idle() && cleanup.Some?
      modifies this
      ensures Idle() && old(entered) != [] && entered == old(entered)[..|old(entered)| - 1]
      ensures old(cleanup).value == old(entered)[|old(entered)| - 1]
      ensures slots == Unframed(old(slots), old(cleanup).value) && SameShape(old(memory), memory) && log == old(log)
    {
      hide *;
      IdleParts();
      Parts(multiset{}, None);
      ChainPop(frames, cleanup, entered);
      var f := cleanup.value;
      var extent := frames[f].extent;
      cleanup := frames[f].previous;
      entered := entered[..|entered| - 1];
      MakeValid(multiset{}, None);
      FrameIn(memory, frames, slots, f);
      ghost var slots0, memory0 := slots, memory;
      DropAll(FramePlaces(f, extent), None);
      FrameEmptied(memory0, frames, slots0, f, slots);
      Parts(multiset{}, None);
      FrameGone(memory, frames, slots, multiset{}, f);
      ChainLess(frames, cleanup, entered, f);
      frames := frames - {f};
      slots := Unframed(slots, f);
      MakeValid(multiset{}, None);
      MakeIdle();
    }

    /** Leave the newest activation; leaving any other is an error that changes nothing. */
    method LeaveFrame(f: nat) returns (status: Status, ghost order: seq<Address>)
      requires Idle()
      modifies this
      ensures Idle()
      ensures status == if old(cleanup) == Some(f) then Ok else Invalid
      ensures status != Ok ==>
        && memory == old(memory) && slots == old(slots) && queue == old(queue)
        && entered == old(entered) && log == old(log)
      ensures status == Ok ==>
        && old(entered) != [] && entered == old(entered)[..|old(entered)| - 1] && queue == []
        && Swept(old(memory), Unframed(old(slots), f), memory, slots, order)
    {
      hide *;
      order := [];
      if cleanup != Some(f) {
        return Invalid, order;
      }
      ghost var before := memory;
      PopFrame();
      ghost var now := memory;
      order := Settle();
      SweptFrom(before, now, Unframed(old(slots), f), memory, slots, order);
      status := Ok;
    }

    /** Drop every activation's holdings, newest first, then drain. */
    method Unwind() returns (ghost order: seq<Address>)
      requires Idle()
      modifies this
      ensures Idle() && cleanup == None && entered == [] && frames == map[] && queue == []
      ensures Swept(old(memory), Bodies(old(slots)), memory, slots, order)
    {
      hide *;
      ghost var before := memory;
      ShapeSelf(memory);
      CleanupIs();
      while cleanup.Some?
        invariant Idle() && (cleanup.None? <==> entered == []) && SameShape(before, memory)
        invariant Bodies(slots) == Bodies(old(slots))
        decreases |entered|
      {
        ghost var now := memory;
        BodiesStay(slots, cleanup.value);
        PopFrame();
        CleanupIs();
        ShapeTrans(before, now, memory);
      }
      IdleParts();
      CleanupIs();
      NoFrames(frames, entered);
      Parts(multiset{}, None);
      OnlyBodies(memory, frames, slots);
      ghost var now := memory;
      order := Drain();
      MakeIdle();
      SweptFrom(before, now, Bodies(old(slots)), memory, slots, order);
    }

    lemma CleanupIs()
      requires Idle()
      ensures cleanup.None? <==> entered == []
      ensures cleanup.Some? ==> cleanup.value == entered[|entered| - 1]
    {
      hide Counted, Placed, Linked, Awaiting, Logged;
    }

    // ----- a whole call -----

    lemma AllowedNow(r: Request)
      requires Idle()
      ensures Allowed(r) <==> AllowedIn(r, Now())
    {
      hide Counted, Placed, Linked, Awaiting, Logged;
      if r.Enter? && r.frame in entered {
        var i :| 0 <= i < |entered| && entered[i] == r.frame;
        assert ChainAt(frames, entered, i);
      }
    }

    predicate Allowed(r: Request)
      reads `slots, `memory, `frames
    {
      match r
      case Alloc(p, at, _, _) => p in slots && at !in memory
      case Hold(p, o) => p in slots && (o.Some? ==> o.value in memory)
      case Drop(p) => p in slots
      case Clear(ps) => AllIn(slots, ps)
      case Enter(f, _) => f !in frames
      case Leave(_) => true
    }

    ghost function Now(): Snapshot
      reads `memory, `slots, `entered
    {
      Snapshot(memory, slots, entered)
    }

    method Perform(r: Request) returns (status: Status)
      requires Idle() && Allowed(r)
      modifies this
      ensures Idle() && Stepped(r, old(Now()), Now(), status)
    {
      hide Idle, Valid, Swept, Extended, Cleared, Bodies, Unframed, AllIn;
      status := Ok;
      ghost var before := Now();
      ghost var order: seq<Address> := [];
      match r {
        case Alloc(p, at, extent, available) => status, order := Allocate(p, at, extent, available);
        case Hold(p, o) => status, order := HoldSlot(p, o);
        case Drop(p) =>
          IdleParts();
          DropSlot(p, None);
          MakeIdle();
        case Clear(ps) => order := ClearSlots(ps);
        case Enter(f, extent) => EnterFrame(f, extent);
        case Leave(f) =>
          CleanupIs();
          status, order := LeaveFrame(f);
      }
      assert Performed(r, before, Now(), status, order);
    }

    lemma NowIs()
      ensures Now() == Snapshot(memory, slots, entered)
    {
    }

    /** Perform requests in order until one fails or names what does not exist. */
    method PerformAll(requests: seq<Request>) returns (outcome: Status, ghost history: seq<Snapshot>)
      requires Idle()
      modifies this
      ensures Idle() && RunOf(requests, history, outcome)
      ensures history[0] == old(Now()) && history[|history| - 1] == Now()
      ensures outcome == Ok && |history| <= |requests| ==> !AllowedIn(requests[|history| - 1], Now())
    {
      hide *;
      outcome := Ok;
      var i := 0;
      history := [Now()];
      RunNone(requests, Now());
      while i < |requests| && outcome == Ok && Allowed(requests[i])
        invariant Idle() && i <= |requests|
        invariant RunOf(requests, history, outcome) && |history| == i + 1
        invariant history[i] == Now() && history[0] == old(Now())
      {
        outcome := Perform(requests[i]);
        RunMore(requests, history, Now(), outcome);
        history := history + [Now()];
        i := i + 1;
      }
      if outcome == Ok && i < |requests| {
        AllowedNow(requests[i]);
      }
    }

    /** The end of a call: unwind what is left. */
    method EndCall()
      requires Idle()
      modifies this
      ensures Idle() && cleanup == None && frames == map[] && head == None && queue == []
      ensures forall a | Mortal(old(memory), a) :: a in memory <==> Kept(old(memory), Bodies(old(slots)), a)
      ensures Acyclic(old(slots)) && NoRoots(memory, slots) ==>
        forall i | 0 <= i < |log| && log[i].Allocated? :: exists j: nat :: FreedOnce(log, i, j)
    {
      hide *;
      ghost var memory1, slots1 := memory, slots;
      ghost var order: seq<Address> := [];
      IdleParts();
      CleanupIs();
      HeadIs(None);
      if cleanup.Some? || head.Some? {
        order := Unwind();
      } else {
        NoFrames(frames, entered);
        Parts(multiset{}, None);
        OnlyBodies(memory, frames, slots);
        NothingSwept(memory, slots);
      }
      IdleParts();
      HeadIs(None);
      Parts(multiset{}, None);
      forall a | Mortal(memory1, a) ensures a in memory <==> Kept(memory1, Bodies(slots1), a) {
        SurvivesIff(memory1, Bodies(slots1), memory, frames, slots, order, a);
      }
      if Acyclic(slots1) && NoRoots(memory, slots) {
        SweptLess(memory1, slots1, memory, slots, order);
        LessCycle(slots, slots1);
        forall i | 0 <= i < |log| && log[i].Allocated? ensures exists j: nat :: FreedOnce(log, i, j) {
          AllFreedOnce(memory, frames, slots, log, i);
        }
      }
    }

    /** Run requests until one fails, or names what does not exist, then unwind. Whatever was asked and
        whatever failed, no activation and no queued owner is left, and what is left of the owners is
        what immortal ones or cycles still reach. Without those every owner ever allocated has been freed
        exactly once. */
    method Call(requests: seq<Request>) returns (status: Status, ghost history: seq<Snapshot>, ghost outcome: Status)
      requires Idle()
      modifies this
      ensures RunOf(requests, history, outcome) && history[0] == old(Now())
      ensures outcome == Ok && |history| <= |requests| ==>
        !AllowedIn(requests[|history| - 1], history[|history| - 1])
      ensures status == if outcome == Ok && history[|history| - 1].entered != [] then Invalid else outcome
      ensures Idle() && cleanup == None && frames == map[] && head == None && queue == []
      ensures var last := history[|history| - 1];
        forall a | Mortal(last.memory, a) :: a in memory <==> Kept(last.memory, Bodies(last.slots), a)
      ensures Acyclic(history[|history| - 1].slots) && NoRoots(memory, slots) ==>
        forall i | 0 <= i < |log| && log[i].Allocated? :: exists j: nat :: FreedOnce(log, i, j)
    {
      hide *;
      status, history := PerformAll(requests);
      outcome := status;
      NowIs();
      CleanupIs();
      if status == Ok && cleanup.Some? {
        status := Invalid;
      }
      EndCall();
    }
  }

  // ----- facts about the pieces -----

  lemma VerdictNone(memory: Memory)
    ensures RetainVerdict(memory, None) == Ok
  {
  }

  lemma VerdictSome(memory: Memory, a: Address)
    requires a in memory
    ensures RetainVerdict(memory, Some(a)) ==
      if memory[a].kind.Immortal? then Ok
      else if memory[a].count == 0 then Invalid
      else if memory[a].count == COUNT_LIMIT then NoMemory
      else Ok
  {
  }

  lemma ShapeSelf(memory: Memory)
    ensures SameShape(memory, memory)
  {
  }

  lemma ShapeOne(memory: Memory, a: Address, o: Owner)
    requires a in memory && SameHeader(memory[a], o)
    ensures SameShape(memory, memory[a := o])
  {
  }

  lemma SameKeys(before: Memory, after: Memory)
    requires SameShape(before, after)
    ensures before.Keys == after.Keys
  {
  }

  lemma MortalIs(memory: Memory, a: Address)
    ensures Mortal(memory, a) <==> a in memory && memory[a].kind.Local?
  {
  }

  lemma BagOne(a: Address)
    ensures Bag(Some(a)) == multiset{a}
  {
  }

  lemma BagNone(owed: multiset<Address>)
    ensures owed + Bag(None) == owed
  {
  }

  lemma CountBound(memory: Memory, slots: Slots, owed: multiset<Address>, a: Address)
    requires Counted(memory, slots, owed) && Mortal(memory, a)
    ensures memory[a].count <= COUNT_LIMIT
  {
    assert CountIs(memory, slots, owed, a);
  }

  lemma PointsIn(memory: Memory, slots: Slots, owed: multiset<Address>, p: Place)
    requires Counted(memory, slots, owed) && p in slots
    ensures slots[p].Some? ==> slots[p].value in memory
  {
  }

  lemma DeadIn(memory: Memory, d: Address)
    requires Dead(memory, d)
    ensures d in memory && Mortal(memory, d)
  {
  }

  lemma DoomedDead(memory: Memory, queue: seq<Address>, d: Address)
    requires Awaiting(memory, queue, Some(d))
    ensures Dead(memory, d) && Mortal(memory, d)
  {
  }

  lemma BodyIn(memory: Memory, frames: Frames, slots: Slots, d: Address)
    requires Placed(memory, frames, slots) && d in memory
    ensures AllIn(slots, BodyPlaces(d, memory[d].extent))
  {
    var places := BodyPlaces(d, memory[d].extent);
    forall k | 0 <= k < |places| ensures places[k] in slots {
      assert PlaceIn(memory, frames, InOwner(d, k));
    }
  }

  lemma EmptiedNow(memory: Memory, frames: Frames, slots: Slots, d: Address, slots': Slots)
    requires Placed(memory, frames, slots) && d in memory
    requires AllIn(slots, BodyPlaces(d, memory[d].extent)) && slots' == Cleared(slots, BodyPlaces(d, memory[d].extent))
    ensures Emptied(slots', d)
  {
    var places := BodyPlaces(d, memory[d].extent);
    forall p | p in slots' && p.InOwner? && p.owner == d ensures slots'[p] == None {
      assert PlaceIn(memory, frames, p);
      assert p == places[p.index];
      ClearedAt(slots, places, p);
    }
  }

  /** Dropping an owner's own holdings changes nothing that a sweep keeps. */
  lemma SweptLater(memory0: Memory, slots0: Slots, memory1: Memory, slots1: Slots, order: seq<Address>,
    memory2: Memory, slots2: Slots, d: Address, extent: nat)
    requires Swept(memory0, slots0, memory1, slots1, order) && SameShape(memory1, memory2) && Mortal(memory1, d)
    requires AllIn(slots1, BodyPlaces(d, extent)) && slots2 == Cleared(slots1, BodyPlaces(d, extent))
    requires forall p | p in slots1 :: slots1[p] != Some(d)
    ensures Swept(memory0, slots0, memory2 - {d}, Without(slots2, d), order + [d])
  {
    hide Swept, Mortal;
    var places := BodyPlaces(d, extent);
    forall p | p in Without(slots1, d) ensures Without(slots2, d)[p] == slots1[p] {
      ClearedAt(slots1, places, p);
      assert p !in places;
    }
    assert Without(slots2, d) == Without(slots1, d);
    SweptOne(memory0, slots0, memory1, slots1, order, d);
    assert SameShape(memory1 - {d}, memory2 - {d}) by {
      forall a | a in memory1 - {d} ensures SameHeader((memory1 - {d})[a], (memory2 - {d})[a]) {
        assert SameHeader(memory1[a], memory2[a]);
      }
    }
    SweptShape(memory0, slots0, memory1 - {d}, Without(slots1, d), order + [d], memory2 - {d});
  }

  lemma FewerOwners(before: Memory, after: Memory, d: Address)
    requires SameShape(before, after) && d in before
    ensures |after - {d}| < |before|
  {
    assert (after - {d}).Keys == before.Keys - {d};
  }

  function WithOwner(memory: Memory, at: Address, extent: nat): Memory {
    memory[at := Owner(1, None, Local, extent)]
  }

  lemma WithOwnerIs(memory: Memory, at: Address, extent: nat)
    ensures WithOwner(memory, at, extent) == memory[at := Owner(1, None, Local, extent)]
  {
  }

  lemma FrameIn(memory: Memory, frames: Frames, slots: Slots, f: nat)
    requires Placed(memory, frames, slots) && f in frames
    ensures AllIn(slots, FramePlaces(f, frames[f].extent))
  {
    var places := FramePlaces(f, frames[f].extent);
    forall k | 0 <= k < |places| ensures places[k] in slots {
      assert PlaceIn(memory, frames, InFrame(f, k));
    }
  }

  lemma FrameEmptied(memory: Memory, frames: Frames, slots: Slots, f: nat, slots': Slots)
    requires Placed(memory, frames, slots) && f in frames
    requires AllIn(slots, FramePlaces(f, frames[f].extent))
    requires slots' == Cleared(slots, FramePlaces(f, frames[f].extent))
    ensures forall p | p in slots' && p.InFrame? && p.frame == f :: slots'[p] == None
    ensures Unframed(slots', f) == Unframed(slots, f)
  {
    var places := FramePlaces(f, frames[f].extent);
    forall p | p in slots' ensures slots'[p] == if p.InFrame? && p.frame == f then None else slots[p] {
      assert PlaceIn(memory, frames, p);
      if p.InFrame? && p.frame == f {
        assert p == places[p.index];
      }
      ClearedAt(slots, places, p);
    }
  }

  lemma BodiesStay(slots: Slots, f: nat)
    ensures Bodies(Unframed(slots, f)) == Bodies(slots)
  {
  }

  lemma NoFrames(frames: Frames, entered: seq<nat>)
    requires entered == [] && forall f | f in frames :: f in entered
    ensures frames == map[]
  {
  }

  lemma OnlyBodies(memory: Memory, frames: Frames, slots: Slots)
    requires Placed(memory, frames, slots) && frames == map[]
    ensures Bodies(slots) == slots
  {
  }

  lemma SweptLess(memory: Memory, slots: Slots, memory': Memory, slots': Slots, order: seq<Address>)
    requires Swept(memory, Bodies(slots), memory', slots', order)
    ensures forall p | p in slots' :: p in slots && slots[p] == slots'[p]
  {
  }
}
