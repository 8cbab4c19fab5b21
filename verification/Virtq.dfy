/** The split virtqueue (src/virtq.rs) between the driver and a device that may
    do anything Virtio 1.2 section 2.7 allows: take published entries in order, and
    return each one it holds once, in any order. Indices are 16-bit and wrap. */
module Virtq {
  import opened Ram

  datatype Used = Used(id: int, len: int)

  /** The shared rings and each side's private cursor. */
  datatype Queue = Queue(
    availIdx: int, availRing: seq<int>,
    usedIdx: int, usedRing: seq<Used>,
    lastAvail: int,   // device: next avail entry to take
    seen: int)        // driver: next used entry to take

  function Next16(x: int): int { (x + 1) % 0x1_0000 }

  datatype Action =
    | Publish(id: int)              // driver: ring slot, then avail.idx
    | Pop                           // device: take the next avail entry
    | Complete(id: int, len: int)   // device: used ring slot, then used.idx
    | Take                          // driver: read the next used entry

  predicate Shaped(q: Queue) {
    && |q.availRing| == 16 && |q.usedRing| == 16
    && 0 <= q.availIdx < 0x1_0000 && 0 <= q.usedIdx < 0x1_0000 && 0 <= q.lastAvail < 0x1_0000 && 0 <= q.seen < 0x1_0000
  }

  /** What each action does to the shared memory. */
  function Apply(q: Queue, a: Action): Queue
    requires Shaped(q)
  {
    match a
    case Publish(id) => q.(availRing := q.availRing[q.availIdx % 16 := id], availIdx := Next16(q.availIdx))
    case Pop => q.(lastAvail := Next16(q.lastAvail))
    case Complete(id, len) => q.(usedRing := q.usedRing[q.usedIdx % 16 := Used(id, len)], usedIdx := Next16(q.usedIdx))
    case Take => q.(seen := Next16(q.seen))
  }

  // --- ownership ---------------------------------------------------------------------

  /** The one place a descriptor is: waiting in avail entry `k`, held by the
      device, waiting in used entry `k`, or in the driver's hands. */
  datatype Place = InAvail(k: int) | AtDevice | InUsed(k: int) | AtDriver

  /** The unwrapped counts behind the four indices, and every descriptor's place. */
  datatype Ledger = Ledger(posted: nat, popped: nat, completed: nat, taken: nat, at: map<int, Place>)

  ghost function Held(l: Ledger): set<int> { set id | id in l.at && l.at[id] == AtDevice }

  ghost function Mine(l: Ledger): set<int> { set id | id in l.at && l.at[id] == AtDriver }

  ghost predicate PlaceOk(q: Queue, l: Ledger, id: int)
    requires Shaped(q) && id in l.at
  {
    match l.at[id]
    case InAvail(k) => l.popped <= k < l.posted && q.availRing[k % 16] == id
    case InUsed(k) => l.taken <= k < l.completed && q.usedRing[k % 16].id == id
    case AtDevice => true
    case AtDriver => true
  }

  ghost predicate AvailOk(q: Queue, l: Ledger, k: int)
    requires Shaped(q)
  {
    q.availRing[k % 16] in l.at && l.at[q.availRing[k % 16]] == InAvail(k)
  }

  ghost predicate UsedOk(q: Queue, l: Ledger, k: int)
    requires Shaped(q)
  {
    q.usedRing[k % 16].id in l.at && l.at[q.usedRing[k % 16].id] == InUsed(k)
  }

  predicate Counts(q: Queue, l: Ledger) {
    && l.taken <= l.completed <= l.popped <= l.posted <= l.taken + 16
    && q.availIdx == l.posted % 0x1_0000 && q.lastAvail == l.popped % 0x1_0000
    && q.usedIdx == l.completed % 0x1_0000 && q.seen == l.taken % 0x1_0000
  }

  /** Every descriptor is in exactly one place, every live ring entry is the
      place of its descriptor, and the places add up. */
  ghost predicate Inv(q: Queue, l: Ledger) {
    && Shaped(q) && Counts(q, l)
    && |l.at| <= 16
    && l.posted - l.taken + |Mine(l)| == |l.at|
    && l.popped - l.completed == |Held(l)|
    && (forall id | id in l.at :: PlaceOk(q, l, id))
    && (forall k | l.popped <= k < l.posted :: AvailOk(q, l, k))
    && (forall k | l.taken <= k < l.completed :: UsedOk(q, l, k))
  }

  /** What each side may do: the driver publishes only a descriptor in its hands
      and takes only past `seen`; the device pops only published entries and
      completes only what it holds. */
  ghost predicate Enabled(q: Queue, l: Ledger, a: Action) {
    match a
    case Publish(id) => id in l.at && l.at[id] == AtDriver
    case Pop => q.availIdx != q.lastAvail
    case Complete(id, len) => id in l.at && l.at[id] == AtDevice
    case Take => q.usedIdx != q.seen
  }

  ghost function Tick(q: Queue, l: Ledger, a: Action): Ledger
    requires Shaped(q)
  {
    match a
    case Publish(id) => l.(posted := l.posted + 1, at := l.at[id := InAvail(l.posted)])
    case Pop => l.(popped := l.popped + 1, at := l.at[q.availRing[q.lastAvail % 16] := AtDevice])
    case Complete(id, len) => l.(completed := l.completed + 1, at := l.at[id := InUsed(l.completed)])
    case Take => l.(taken := l.taken + 1, at := l.at[q.usedRing[q.seen % 16].id := AtDriver])
  }

  // --- 16-bit arithmetic -------------------------------------------------------------

  /** The wrapped comparison is exact while the true distance is small. */
  lemma WrapExact(a: nat, b: nat)
    requires b <= a <= b + 16
    ensures a % 0x1_0000 == b % 0x1_0000 <==> a == b
  {
  }

  lemma WrapSlot(a: nat)
    ensures a % 0x1_0000 % 16 == a % 16
    ensures Next16(a % 0x1_0000) == (a + 1) % 0x1_0000
  {
    SlotOf(a / 0x1_0000, a % 0x1_0000);
    NextOf(a);
  }

  lemma SlotOf(q: nat, r: nat)
    ensures r % 16 == (0x1_0000 * q + r) % 16
  {
    Sixteens(0x1000 * q, r);
  }

  lemma Sixteens(k: int, r: nat)
    ensures (16 * k + r) % 16 == r % 16
  {
  }

  lemma NextOf(a: nat)
    ensures Next16(a % 0x1_0000) == (a + 1) % 0x1_0000
  {
    AddWraps(a / 0x1_0000, a % 0x1_0000 + 1);
  }

  lemma AddWraps(k: int, r: int)
    ensures (0x1_0000 * k + r) % 0x1_0000 == r % 0x1_0000
  {
  }

  /** Two live entries never share a ring slot. */
  lemma SlotsApart(j: nat, k: nat)
    requires j < k < j + 16
    ensures j % 16 != k % 16
  {
  }

  /** The driver's test `used == seen`, and the device's, are exact across wraparound. */
  lemma TestsExact(q: Queue, l: Ledger)
    requires Inv(q, l)
    ensures q.usedIdx == q.seen <==> l.completed == l.taken
    ensures q.availIdx == q.lastAvail <==> l.posted == l.popped
  {
    hide Held, Mine, PlaceOk, AvailOk, UsedOk;
    WrapExact(l.completed, l.taken);
    WrapExact(l.posted, l.popped);
  }

  /** The slot an action writes is not live: no waiting entry is overwritten. */
  lemma NoOverwrite(q: Queue, l: Ledger, a: Action, k: nat)
    requires Inv(q, l) && Enabled(q, l, a)
    ensures a.Publish? && l.popped <= k < l.posted ==> k % 16 != q.availIdx % 16
    ensures a.Complete? && l.taken <= k < l.completed ==> k % 16 != q.usedIdx % 16
    ensures a.Publish? ==> l.posted < l.taken + 16
    ensures a.Complete? ==> l.completed < l.popped
  {
    hide PlaceOk, AvailOk, UsedOk;
    match a
    case Publish(id) =>
      assert id in Mine(l);
      WrapSlot(l.posted);
      if l.popped <= k < l.posted {
        SlotsApart(k, l.posted);
      }
    case Complete(id, len) =>
      assert id in Held(l);
      WrapSlot(l.completed);
      if l.taken <= k < l.completed {
        SlotsApart(k, l.completed);
      }
    case Pop =>
    case Take =>
  }

  // --- the invariant is inductive ------------------------------------------------------

  /** Moving one descriptor changes the two place counts accordingly. */
  lemma MoveCounts(l: Ledger, id: int, p: Place)
    requires id in l.at
    ensures var l' := l.(at := l.at[id := p]);
            && |l'.at| == |l.at|
            && |Mine(l')| == |Mine(l)| - (if l.at[id] == AtDriver then 1 else 0) + (if p == AtDriver then 1 else 0)
            && |Held(l')| == |Held(l)| - (if l.at[id] == AtDevice then 1 else 0) + (if p == AtDevice then 1 else 0)
  {
    var l' := l.(at := l.at[id := p]);
    assert l'.at.Keys == l.at.Keys;
    assert Mine(l) - {id} == Mine(l') - {id};
    assert Held(l) - {id} == Held(l') - {id};
    assert id in Mine(l) <==> l.at[id] == AtDriver;
    assert id in Mine(l') <==> p == AtDriver;
    assert id in Held(l) <==> l.at[id] == AtDevice;
    assert id in Held(l') <==> p == AtDevice;
    WithoutOne(Mine(l), id);
    WithoutOne(Mine(l'), id);
    WithoutOne(Held(l), id);
    WithoutOne(Held(l'), id);
  }

  lemma WithoutOne(s: set<int>, x: int)
    ensures |s - {x}| == |s| - (if x in s then 1 else 0)
  {
    if x !in s {
      assert s - {x} == s;
    }
  }

  lemma MineOfLedger(l: Ledger, l': Ledger)
    requires l.at == l'.at
    ensures Mine(l) == Mine(l') && Held(l) == Held(l')
  {
  }

  lemma PublishInv(q: Queue, l: Ledger, id: int)
    requires Inv(q, l) && Enabled(q, l, Publish(id))
    ensures Inv(Apply(q, Publish(id)), Tick(q, l, Publish(id)))
  {
    hide Held, Mine, Next16;
    var q', l' := Apply(q, Publish(id)), Tick(q, l, Publish(id));
    NoOverwrite(q, l, Publish(id), 0);
    WrapSlot(l.posted);
    MoveCounts(l, id, InAvail(l.posted));
    MineOfLedger(l.(at := l'.at), l');
    assert PlaceOk(q, l, id);
    forall k | l.popped <= k < l.posted
      ensures AvailOk(q', l', k)
    {
      assert AvailOk(q, l, k);
      NoOverwrite(q, l, Publish(id), k);
    }
    forall k | l.taken <= k < l.completed
      ensures UsedOk(q', l', k)
    {
      assert UsedOk(q, l, k);
    }
    forall x | x in l'.at
      ensures PlaceOk(q', l', x)
    {
      assert PlaceOk(q, l, x);
      if x != id && l.at[x].InAvail? {
        NoOverwrite(q, l, Publish(id), l.at[x].k);
      }
    }
  }

  lemma PopInv(q: Queue, l: Ledger)
    requires Inv(q, l) && Enabled(q, l, Pop)
    ensures Inv(Apply(q, Pop), Tick(q, l, Pop))
  {
    hide Held, Mine, Next16;
    var q', l' := Apply(q, Pop), Tick(q, l, Pop);
    TestsExact(q, l);
    WrapSlot(l.popped);
    var id := q.availRing[l.popped % 16];
    assert AvailOk(q, l, l.popped);
    MoveCounts(l, id, AtDevice);
    MineOfLedger(l.(at := l'.at), l');
    forall k | l'.popped <= k < l'.posted
      ensures AvailOk(q', l', k)
    {
      assert AvailOk(q, l, k);
    }
    forall k | l.taken <= k < l.completed
      ensures UsedOk(q', l', k)
    {
      assert UsedOk(q, l, k);
    }
    forall x | x in l'.at
      ensures PlaceOk(q', l', x)
    {
      assert PlaceOk(q, l, x);
    }
  }

  lemma CompleteInv(q: Queue, l: Ledger, id: int, len: int)
    requires Inv(q, l) && Enabled(q, l, Complete(id, len))
    ensures Inv(Apply(q, Complete(id, len)), Tick(q, l, Complete(id, len)))
  {
    hide Held, Mine, Next16;
    var a := Complete(id, len);
    var q', l' := Apply(q, a), Tick(q, l, a);
    NoOverwrite(q, l, a, 0);
    WrapSlot(l.completed);
    MoveCounts(l, id, InUsed(l.completed));
    MineOfLedger(l.(at := l'.at), l');
    forall k | l.popped <= k < l.posted
      ensures AvailOk(q', l', k)
    {
      assert AvailOk(q, l, k);
    }
    forall k | l.taken <= k < l'.completed
      ensures UsedOk(q', l', k)
    {
      if k < l.completed {
        assert UsedOk(q, l, k);
        NoOverwrite(q, l, a, k);
      }
    }
    forall x | x in l'.at
      ensures PlaceOk(q', l', x)
    {
      assert PlaceOk(q, l, x);
      if x != id && l.at[x].InUsed? {
        NoOverwrite(q, l, a, l.at[x].k);
      }
    }
  }

  lemma TakeInv(q: Queue, l: Ledger)
    requires Inv(q, l) && Enabled(q, l, Take)
    ensures Inv(Apply(q, Take), Tick(q, l, Take))
  {
    hide Held, Mine, Next16;
    var q', l' := Apply(q, Take), Tick(q, l, Take);
    TestsExact(q, l);
    WrapSlot(l.taken);
    var id := q.usedRing[l.taken % 16].id;
    assert UsedOk(q, l, l.taken);
    MoveCounts(l, id, AtDriver);
    MineOfLedger(l.(at := l'.at), l');
    TakeRoom(q, l, l');
    forall k | l'.popped <= k < l'.posted
      ensures AvailOk(q', l', k)
    {
      assert AvailOk(q, l, k);
    }
    forall k | l'.taken <= k < l'.completed
      ensures UsedOk(q', l', k)
    {
      assert UsedOk(q, l, k);
    }
    forall x | x in l'.at
      ensures PlaceOk(q', l', x)
    {
      assert PlaceOk(q, l, x);
    }
  }

  lemma TakeRoom(q: Queue, l: Ledger, l': Ledger)
    requires Inv(q, l) && l'.posted == l.posted && l'.taken == l.taken + 1 && l.taken < l.completed
    ensures l'.taken <= l.completed <= l.popped <= l'.posted <= l'.taken + 16
  {
  }

  /** Every action of either side keeps the invariant. */
  lemma StepInv(q: Queue, l: Ledger, a: Action)
    requires Inv(q, l) && Enabled(q, l, a)
    ensures Inv(Apply(q, a), Tick(q, l, a))
  {
    hide Inv, Apply, Tick, Enabled;
    match a
    case Publish(id) => PublishInv(q, l, id);
    case Pop => PopInv(q, l);
    case Complete(id, len) => CompleteInv(q, l, id, len);
    case Take => TakeInv(q, l);
  }

  /** A run of driver and device actions, each enabled when it happens. */
  ghost predicate Runs(q: Queue, l: Ledger, run: seq<Action>, q': Queue, l': Ledger)
    requires Shaped(q)
    decreases run
  {
    if run == [] then q' == q && l' == l
    else Enabled(q, l, run[0]) && Shaped(Apply(q, run[0])) && Runs(Apply(q, run[0]), Tick(q, l, run[0]), run[1..], q', l')
  }

  /** In every state any interleaving reaches, each descriptor is in exactly one
      place and the rings say so. */
  lemma {:induction false} RunInv(q: Queue, l: Ledger, run: seq<Action>, q': Queue, l': Ledger)
    requires Inv(q, l) && Runs(q, l, run, q', l')
    ensures Inv(q', l') && l'.at.Keys == l.at.Keys
    decreases run
  {
    hide Apply, Enabled;
    if run != [] {
      StepInv(q, l, run[0]);
      KeysKept(q, l, run[0]);
      RunInv(Apply(q, run[0]), Tick(q, l, run[0]), run[1..], q', l');
    }
  }

  lemma KeysKept(q: Queue, l: Ledger, a: Action)
    requires Inv(q, l) && Enabled(q, l, a)
    ensures Tick(q, l, a).at.Keys == l.at.Keys
  {
    hide Held, Mine;
    TestsExact(q, l);
    WrapSlot(l.popped);
    WrapSlot(l.taken);
    match a
    case Publish(id) =>
    case Pop => assert AvailOk(q, l, l.popped);
    case Complete(id, len) =>
    case Take => assert UsedOk(q, l, l.taken);
  }
}
