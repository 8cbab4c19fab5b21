/** The RX and TX loops over the virtqueues (src/net.rs, src/virtq.rs). The
    device acts between any two driver steps; `env` is what it chooses to do,
    and a choice it is not entitled to is ignored. */
module Net {
  import opened Ram
  import opened Frame
  import opened Virtq

  const RX_BUFS: int := 16

  /** `posted.wrapping_sub(completed)`. */
  function Sub32(a: int, b: int): int { Mod32(a - b) }

  datatype Entry = NoEntry | Entry(next: int, id: int, len: int)

  /** One queue in shared memory, with both parties' private cursors. */
  class QueueMemory {
    var q: Queue
    /** Descriptors the device has taken and not returned. */
    var held: set<int>
    ghost var ledger: Ledger

    ghost predicate Valid()
      reads this
    {
      Inv(q, ledger) && held == Held(ledger)
    }

    constructor (ids: set<int>)
      requires |ids| <= 16
      ensures Valid() && fresh(this) && ledger == Ledger(0, 0, 0, 0, AllMine(ids))
      ensures q == EmptyQueue() && held == {}
    {
      q, held := EmptyQueue(), {};
      ledger := Ledger(0, 0, 0, 0, AllMine(ids));
      new;
      EmptyInv(ids);
    }

    /** `post_rx`: every ring slot first, then one store of `avail.idx`. */
    method PostRx() returns (idx: int)
      requires Valid() && q == EmptyQueue() && held == {}
      requires ledger == Ledger(0, 0, 0, 0, AllMine(Range(0, RX_BUFS)))
      modifies this
      ensures Valid() && idx == RX_BUFS && q.seen == 0
      ensures ledger == Ledger(16, 0, 0, 0, map id | id in Range(0, RX_BUFS) :: InAvail(id)) && AllOut(ledger)
    {
      hide Inv, Held, Mine, AllOut, Range;
      for i := 0 to RX_BUFS
        invariant q == EmptyQueue().(availRing := q.availRing) && |q.availRing| == 16 && held == {}
        invariant forall j | 0 <= j < i :: q.availRing[j] == j
      {
        q := q.(availRing := q.availRing[i := i]);
      }
      idx := RX_BUFS;
      q := q.(availIdx := idx);
      ledger := Ledger(16, 0, 0, 0, map id | id in Range(0, RX_BUFS) :: InAvail(id));
      AllPosted(q, ledger);
    }

    /** `take_rx_used` / `take_tx_used`: an entry exactly when one is waiting,
        and then the one the device returned first. */
    method TakeUsed(seen: int) returns (e: Entry)
      requires Valid() && seen == q.seen
      ensures e.NoEntry? <==> ledger.completed == ledger.taken
      ensures e.Entry? ==>
                && Enabled(q, ledger, Take) && e.next == Next16(seen) && e.id == q.usedRing[seen % 16].id
                && e.id in ledger.at && ledger.at[e.id] == InUsed(ledger.taken)
    {
      WaitingEntry(q, ledger);
      if q.usedIdx == seen {
        return NoEntry;
      }
      var u := q.usedRing[seen % 16];
      e := Entry(Next16(seen), u.id, u.len);
    }

    /** The driver moves its cursor past the entry it has read. */
    method SetSeen(next: int)
      requires Valid() && Enabled(q, ledger, Take) && next == Next16(q.seen)
      modifies this
      ensures Valid() && q == Apply(old(q), Take) && ledger == Tick(old(q), old(ledger), Take)
    {
      hide Inv, Tick, Enabled;
      ShapedOf(q, ledger);
      StepInv(q, ledger, Take);
      HeldAfter(q, ledger, Take);
      ledger := Tick(q, ledger, Take);
      q := q.(seen := next);
    }

    /** `repost_rx` / `post_tx`: ring slot, then `avail.idx`. */
    method PublishOne(id: int)
      requires Valid() && Enabled(q, ledger, Publish(id))
      modifies this
      ensures Valid() && q == Apply(old(q), Publish(id)) && ledger == Tick(old(q), old(ledger), Publish(id))
    {
      hide Inv, Tick, Enabled;
      ShapedOf(q, ledger);
      StepInv(q, ledger, Publish(id));
      HeldAfter(q, ledger, Publish(id));
      ledger := Tick(q, ledger, Publish(id));
      q := q.(availRing := q.availRing[q.availIdx % 16 := id]);
      q := q.(availIdx := Next16(q.availIdx));
    }

    /** The device takes its turn. */
    method DeviceTurn(acts: seq<Action>)
      requires Valid()
      modifies this
      ensures Valid() && DeviceOnly(old(q), old(ledger), q, ledger)
      ensures acts == [] ==> ledger == old(ledger)
    {
      hide Inv, Tick, Apply, Held;
      for k := 0 to |acts|
        invariant Valid() && DeviceOnly(old(q), old(ledger), q, ledger)
        invariant k == 0 ==> ledger == old(ledger)
      {
        match acts[k] {
          case Pop =>
            if q.availIdx != q.lastAvail {
              DeviceStep(Pop);
            }
          case Complete(id, len) =>
            if id in held {
              HeldMeans(q, ledger, id, len);
              DeviceStep(acts[k]);
            }
          case _ =>
        }
      }
    }

    method DeviceStep(a: Action)
      requires Valid() && Enabled(q, ledger, a) && (a.Pop? || a.Complete?)
      modifies this
      ensures Valid() && DeviceOnly(old(q), old(ledger), q, ledger)
      ensures ledger.completed == old(ledger).completed + (if a.Pop? then 0 else 1)
    {
      hide Inv, Enabled, Held;
      ShapedOf(q, ledger);
      StepInv(q, ledger, a);
      HeldAfter(q, ledger, a);
      DeviceMoves(q, ledger, a);
      ledger := Tick(q, ledger, a);
      held := if a.Pop? then held + {q.availRing[q.lastAvail % 16]} else held - {a.id};
      q := Apply(q, a);
    }
  }

  ghost function AllMine(ids: set<int>): map<int, Place> {
    map id | id in ids :: AtDriver
  }

  function EmptyQueue(): Queue {
    Queue(0, seq(16, _ => 0), 0, seq(16, _ => Used(0, 0)), 0, 0)
  }

  lemma EmptyInv(ids: set<int>)
    requires |ids| <= 16
    ensures var l := Ledger(0, 0, 0, 0, AllMine(ids));
            Inv(EmptyQueue(), l) && Held(l) == {}
  {
    var l := Ledger(0, 0, 0, 0, AllMine(ids));
    assert l.at.Keys == ids && Mine(l) == ids;
  }

  lemma ShapedOf(q: Queue, l: Ledger)
    requires Inv(q, l)
    ensures Shaped(q)
  {
  }

  lemma AllPosted(q: Queue, l: Ledger)
    requires q == EmptyQueue().(availRing := q.availRing, availIdx := 16) && |q.availRing| == 16
    requires forall j | 0 <= j < 16 :: q.availRing[j] == j
    requires l == Ledger(16, 0, 0, 0, map id | id in Range(0, 16) :: InAvail(id))
    ensures Inv(q, l) && Held(l) == {} && AllOut(l)
  {
    hide Range, Held, Mine, PlaceOk, AvailOk, UsedOk;
    PostedIds(l);
    forall k | 0 <= k < 16
      ensures AvailOk(q, l, k)
    {
      PostedSlot(q, l, k);
    }
    forall id | id in l.at
      ensures PlaceOk(q, l, id)
    {
      PostedSlot(q, l, id);
    }
  }

  lemma PostedIds(l: Ledger)
    requires l == Ledger(16, 0, 0, 0, map id | id in Range(0, 16) :: InAvail(id))
    ensures |l.at| == 16 && Held(l) == {} && Mine(l) == {}
    ensures forall id :: id in l.at <==> 0 <= id < 16
    ensures l.at.Keys == Range(0, 16)
  {
    assert l.at.Keys == Range(0, 16);
  }

  lemma PostedSlot(q: Queue, l: Ledger, k: int)
    requires Shaped(q) && 0 <= k < 16 && q.availRing[k] == k
    requires l.popped == 0 && l.posted == 16 && k in l.at && l.at[k] == InAvail(k)
    ensures AvailOk(q, l, k) && PlaceOk(q, l, k)
  {
  }

  /** The driver's test finds the oldest returned entry, in its place. */
  lemma WaitingEntry(q: Queue, l: Ledger)
    requires Inv(q, l)
    ensures q.usedIdx == q.seen <==> l.completed == l.taken
    ensures q.usedIdx != q.seen ==>
              var id := q.usedRing[q.seen % 16].id; id in l.at && l.at[id] == InUsed(l.taken)
  {
    hide Held, Mine;
    TestsExact(q, l);
    WrapSlot(l.taken);
    if l.completed != l.taken {
      assert UsedOk(q, l, l.taken);
    }
  }

  lemma HeldAfter(q: Queue, l: Ledger, a: Action)
    requires Inv(q, l) && Enabled(q, l, a)
    ensures Held(Tick(q, l, a)) ==
            match a {
              case Pop => Held(l) + {q.availRing[q.lastAvail % 16]}
              case Complete(id, len) => Held(l) - {id}
              case _ => Held(l)
            }
  {
    hide Inv;
    WaitingEntry(q, l);
    ShapedOf(q, l);
    match a
    case Publish(id) => Moved(l, id, InAvail(l.posted));
    case Pop => Moved(l, q.availRing[q.lastAvail % 16], AtDevice);
    case Complete(id, len) => Moved(l, id, InUsed(l.completed));
    case Take => Moved(l, q.usedRing[q.seen % 16].id, AtDriver);
  }

  lemma Moved(l: Ledger, id: int, p: Place)
    ensures forall l': Ledger | l'.at == l.at[id := p] ::
              Held(l') == if p == AtDevice then Held(l) + {id} else Held(l) - {id}
  {
  }

  /** Only the device moved: what the driver owns and publishes is untouched, and
      returned entries stay returned. */
  ghost predicate DeviceOnly(q: Queue, l: Ledger, q': Queue, l': Ledger) {
    && q'.availIdx == q.availIdx && q'.availRing == q.availRing && q'.seen == q.seen
    && l'.posted == l.posted && l'.taken == l.taken && l'.completed >= l.completed
    && l'.at.Keys == l.at.Keys
    && (forall id | id in l.at :: l.at[id] == AtDriver <==> l'.at[id] == AtDriver)
    && (forall id | id in l.at && l.at[id].InUsed? :: l'.at[id] == l.at[id])
  }

  lemma DeviceMoves(q: Queue, l: Ledger, a: Action)
    requires Inv(q, l) && Enabled(q, l, a) && (a.Pop? || a.Complete?)
    ensures DeviceOnly(q, l, Apply(q, a), Tick(q, l, a))
  {
    hide Held, Mine;
    TestsExact(q, l);
    WrapSlot(l.popped);
    if a.Pop? {
      assert AvailOk(q, l, l.popped);
    }
  }

  lemma HeldMeans(q: Queue, l: Ledger, id: int, len: int)
    requires id in Held(l)
    ensures Enabled(q, l, Complete(id, len))
  {
  }

  // --- receive -----------------------------------------------------------------------

  /** All sixteen receive buffers are with the device or on the rings. */
  ghost predicate AllOut(l: Ledger) {
    l.at.Keys == Range(0, 16) && forall id | id in l.at :: l.at[id] != AtDriver
  }

  lemma AllOutCount(q: Queue, l: Ledger)
    requires Inv(q, l) && AllOut(l)
    ensures l.posted - l.taken == 16
  {
    hide Range, Held, PlaceOk, AvailOk, UsedOk;
    assert Mine(l) == {};
    assert |l.at| == |l.at.Keys|;
  }

  lemma InflightSixteen(posted: nat, taken: nat)
    requires posted == taken + 16
    ensures Sub32(Mod32(posted), Mod32(taken)) == 16
  {
  }

  lemma WrapNext(x: nat)
    ensures Mod32(Mod32(x) + 1) == Mod32(x + 1)
  {
  }

  /** The buffer just taken is the only one not out, whatever the device did since. */
  lemma StillOut(q: Queue, l: Ledger, q1: Queue, q2: Queue, l2: Ledger)
    requires Shaped(q) && AllOut(l) && q.usedRing[q.seen % 16].id in l.at && Shaped(q2)
    requires DeviceOnly(q1, Tick(q, l, Take), q2, l2)
    ensures var id := q.usedRing[q.seen % 16].id;
            var l3 := Tick(q2, l2, Publish(id));
            && Enabled(q2, l2, Publish(id)) && AllOut(l3)
            && l3.posted == l.posted + 1 && l3.taken == l.taken + 1 && l3.completed == l2.completed
            && Tick(q, l, Take).completed == l.completed
  {
    hide Range;
    var id := q.usedRing[q.seen % 16].id;
    assert l2.at.Keys == l.at.Keys;
    assert Tick(q2, l2, Publish(id)).at.Keys == l.at.Keys;
  }

  class RxLoop {
    const mem: QueueMemory
    var rxPosted: int
    var rxCompleted: int

    ghost predicate Valid()
      reads this, mem
    {
      && mem.Valid() && AllOut(mem.ledger)
      && rxPosted == Mod32(mem.ledger.posted) && rxCompleted == Mod32(mem.ledger.taken)
    }

    constructor (m: QueueMemory)
      requires m.Valid() && m.q == EmptyQueue() && m.held == {}
      requires m.ledger == Ledger(0, 0, 0, 0, AllMine(Range(0, RX_BUFS)))
      modifies m
      ensures Valid() && mem == m
    {
      hide Inv, Held, AllOut, Range;
      mem := m;
      rxCompleted := 0;
      var idx := m.PostRx();
      rxPosted := idx;
    }

    /** `poll_rx`: drain the used ring, handing every buffer straight back. The
        id and inflight panics are unreachable, whatever the device does. */
    method PollRx(env: seq<seq<Action>>) returns (r: Outcome<int>)
      requires Valid()
      modifies this, mem
      ensures Valid() && r.Done?
      ensures mem.ledger.taken == old(mem.ledger.taken) + r.value
    {
      hide Inv, Range;
      var took, turn := 0, 0;
      while true
        invariant 0 <= turn <= |env| && 0 <= took && Valid()
        invariant mem.ledger.taken == old(mem.ledger.taken) + took
        decreases |env| - turn, mem.ledger.completed - mem.ledger.taken
      {
        if turn < |env| {
          mem.DeviceTurn(env[turn]);
          turn := turn + 1;
        }
        CompletedAbove(mem.q, mem.ledger);
        var e := mem.TakeUsed(mem.q.seen);
        if e.NoEntry? {
          break;
        }
        if e.id >= RX_BUFS {
          return Panic;
        }
        var acts := [];
        if turn < |env| {
          acts := env[turn];
          turn := turn + 1;
        }
        HandBack(e, acts);
        took := took + 1;
      }
      if took != 0 {
        AllOutCount(mem.q, mem.ledger);
        InflightSixteen(mem.ledger.posted, mem.ledger.taken);
        var inflight := Sub32(rxPosted, rxCompleted);
        if inflight != RX_BUFS {
          return Panic;
        }
      }
      r := Done(took);
    }

    /** Take one completed buffer and repost it; the device may act meanwhile. */
    method HandBack(e: Entry, acts: seq<Action>)
      requires Valid() && e.Entry? && Enabled(mem.q, mem.ledger, Take)
      requires e.next == Next16(mem.q.seen) && e.id == mem.q.usedRing[mem.q.seen % 16].id
      requires e.id in mem.ledger.at
      modifies this, mem
      ensures Valid()
      ensures mem.ledger.taken == old(mem.ledger.taken) + 1
      ensures acts == [] ==> mem.ledger.completed == old(mem.ledger.completed)
    {
      hide Inv, Range, AllOut, DeviceOnly, Held, Tick, Apply, Enabled, Mod32;
      ShapedOf(mem.q, mem.ledger);
      WrapNext(mem.ledger.posted);
      WrapNext(mem.ledger.taken);
      mem.SetSeen(e.next);
      rxCompleted := Mod32(rxCompleted + 1);
      ghost var q1, l1 := mem.q, mem.ledger;
      mem.DeviceTurn(acts);
      ShapedOf(mem.q, mem.ledger);
      StillOut(old(mem.q), old(mem.ledger), q1, mem.q, mem.ledger);
      mem.PublishOne(e.id);
      rxPosted := Mod32(rxPosted + 1);
    }
  }

  lemma CompletedAbove(q: Queue, l: Ledger)
    requires Inv(q, l)
    ensures l.taken <= l.completed
  {
  }

  // --- transmit ----------------------------------------------------------------------

  const BUF: int := 2048

  /** About 100 ms of the 10 MHz clock. */
  const STALL_TICKS: int := 1_000_000

  /** What the device does before a poll, and the clock after it. */
  datatype Poll = Poll(acts: seq<Action>, now: int)

  /** The clock passes the deadline at some poll, here the last. */
  predicate TimePasses(t0: int, polls: seq<Poll>) {
    polls != [] && Mod64(polls[|polls| - 1].now - t0) >= STALL_TICKS
  }

  lemma TxCounts(q: Queue, l: Ledger)
    requires Inv(q, l) && l.at.Keys == {0}
    ensures l.at[0] == AtDriver ==> l.posted == l.taken
    ensures l.at[0] != AtDriver ==> l.posted == l.taken + 1
    ensures l.taken <= l.completed <= l.posted
  {
    assert |l.at.Keys| == 1;
    assert Mine(l) == if l.at[0] == AtDriver then {0} else {};
  }

  /** The one-buffer transmit path. `wire` is every frame the device has read out
      of buffer 0, at the moment it gives the descriptor back. */
  class TxPort {
    const mem: QueueMemory
    var buf: seq<int>
    var len: int
    var txPosted: int
    var txCompleted: int
    ghost var wire: seq<seq<int>>

    ghost predicate Valid()
      reads this, mem
    {
      && mem.Valid() && mem.ledger.at.Keys == {0}
      && |buf| == BUF && 0 <= len <= BUF && |wire| == mem.ledger.completed
      && txPosted == Mod32(mem.ledger.posted) && txCompleted == Mod32(mem.ledger.taken)
    }

    constructor (m: QueueMemory)
      requires m.Valid() && m.ledger == Ledger(0, 0, 0, 0, AllMine({0}))
      ensures Idle() && mem == m && wire == []
    {
      mem := m;
      buf, len := seq(BUF, _ => 0), 0;
      txPosted, txCompleted, wire := 0, 0, [];
    }

    /** The driver owns buffer 0. */
    ghost predicate Idle()
      reads this, mem
    {
      Valid() && mem.ledger.at[0] == AtDriver
    }

    /** The device takes its turn; every frame it finishes is what the buffer holds. */
    method DeviceTurn(acts: seq<Action>)
      requires Valid()
      modifies `wire, mem
      ensures Valid() && DeviceOnly(old(mem.q), old(mem.ledger), mem.q, mem.ledger)
      ensures old(wire) <= wire && forall k | |old(wire)| <= k < |wire| :: wire[k] == buf[..len]
    {
      hide Inv, Tick, Apply, Held;
      for k := 0 to |acts|
        invariant Valid() && DeviceOnly(old(mem.q), old(mem.ledger), mem.q, mem.ledger)
        invariant old(wire) <= wire && forall k | |old(wire)| <= k < |wire| :: wire[k] == buf[..len]
      {
        match acts[k] {
          case Pop =>
            if mem.q.availIdx != mem.q.lastAvail {
              mem.DeviceStep(Pop);
            }
          case Complete(id, n) =>
            if id in mem.held {
              HeldMeans(mem.q, mem.ledger, id, n);
              mem.DeviceStep(acts[k]);
              wire := wire + [buf[..len]];
            }
          case _ =>
        }
      }
    }

    /** Fill buffer 0, post it, wait for it to come back. The buffer is written
        only while the driver owns it; on return the device has read exactly this
        frame, once, and the port is idle again. If the device never returns it
        before the deadline the driver stops without taking the buffer back. */
    method Transmit(frame: seq<int>, t0: int, polls: seq<Poll>) returns (r: Outcome<()>)
      requires Idle() && |frame| <= BUF && TimePasses(t0, polls)
      modifies this, mem
      ensures r.Done? ==> Idle() && wire == old(wire) + [frame]
      ensures r.Panic? ==> Valid() && (frame == [] || (!Idle() && wire == old(wire)))
    {
      hide Inv, Held;
      TxCounts(mem.q, mem.ledger);
      buf := frame + buf[|frame|..];
      if |frame| == 0 {
        return Panic;
      }
      len := |frame|;
      assert buf[..len] == frame;
      mem.PublishOne(0);
      txPosted := Mod32(txPosted + 1);
      r := Wait(frame, t0, polls);
    }

    /** `wait_tx`: poll the used ring until the descriptor is back or the clock is
        past the deadline. */
    method Wait(ghost frame: seq<int>, t0: int, polls: seq<Poll>) returns (r: Outcome<()>)
      requires TimePasses(t0, polls)
      requires Valid() && mem.ledger.at[0] != AtDriver && mem.ledger.completed == mem.ledger.taken
      requires buf[..len] == frame
      modifies this, mem
      ensures r.Done? ==> Idle() && wire == old(wire) + [frame]
      ensures r.Panic? ==> Valid() && !Idle() && wire == old(wire)
    {
      hide Inv, Held, Tick, Apply;
      var k := 0;
      while true
        invariant 0 <= k < |polls|
        invariant Valid() && mem.ledger.at[0] != AtDriver && mem.ledger.completed == mem.ledger.taken
        invariant buf[..len] == frame && wire == old(wire)
        decreases |polls| - k
      {
        DeviceTurn(polls[k].acts);
        TxCounts(mem.q, mem.ledger);
        var e := mem.TakeUsed(mem.q.seen);
        if e.Entry? {
          assert wire == old(wire) + [frame];
          Finish(e);
          return Done(());
        }
        if Mod64(polls[k].now - t0) >= STALL_TICKS {
          return Panic;
        }
        k := k + 1;
      }
    }

    method Finish(e: Entry)
      requires Valid() && e.Entry? && Enabled(mem.q, mem.ledger, Take) && mem.ledger.at[0].InUsed?
      requires e.next == Next16(mem.q.seen) && mem.q.usedRing[mem.q.seen % 16].id == 0
      modifies `txCompleted, mem
      ensures Idle()
    {
      hide Inv, Held;
      mem.SetSeen(e.next);
      txCompleted := Mod32(txCompleted + 1);
    }
  }
}
