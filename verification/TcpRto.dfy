/** Retransmission: how often, how far apart, and until when a segment is sent. */
module TcpRto {
  import opened Ram
  import opened Checksum
  import opened Wire
  import opened TcpWire
  import opened Tcp
  import opened TcpSafety

  /** One segment of ours and the times it went out. */
  datatype Sent = Sent(seqno: int, flags: int, payload: seq<Byte>, times: seq<nat>)

  /** `now` is true time; the cycle counter shows it modulo 2^64. */
  datatype World = World(t: Tcb, now: nat, hist: seq<Sent>)

  /** What is outstanding did not change. */
  predicate SameOut(t: Tcb, t': Tcb) {
    && t'.inflight == t.inflight && t'.sndUna == t.sndUna && t'.sndNxt == t.sndNxt
    && t'.unacked == t.unacked && t'.unackedFin == t.unackedFin
    && t'.tries == t.tries && t'.deadline == t.deadline
  }

  /** Nothing, a SYN/ACK, or a bare ACK. */
  predicate Plain(out: Out) { out.Seg? ==> out.flags == ACK && out.payload == [] }

  /** The output is exactly the outstanding segment. */
  predicate Shows(t: Tcb, out: Out) {
    out.Seg? && out.seqno == t.sndUna && out.flags == UnackedFlags(t) && out.payload == t.unacked
  }

  predicate FirstSend(r: Reply, now: int) {
    r.t.inflight && r.t.tries == 1 && r.t.deadline == Mod64(now + RTO_TICKS) && Shows(r.t, r.out)
  }

  /** The peer acknowledged exactly what is outstanding, or reset the connection. */
  predicate PeerEnds(t: Tcb, e: Event) {
    && e.Arrive?
    && var v := Decode(e.p, e.src, e.dst);
       && v.Deliver? && SameTuple(t, e.src, v.value.sport)
       && (HasRst(v.value) || (HasAck(v.value) && v.value.ack == t.sndNxt))
  }

  // --- what one event does to the outstanding segment -------------------------------------

  lemma FinOut(t: Tcb, now: int)
    requires Inv(t) && t.state != Listen && t.state != SynRcvd
    ensures var r := OnFin(t, now);
            || (SameOut(t, r.t) && Plain(r.out))
            || (!t.inflight && !r.t.inflight && Plain(r.out))
            || (!t.inflight && !t.appSent && t.state == Established && FirstSend(r, now))
  {
    hide Mod32, Mod64, SndOk, Ranges;
  }

  lemma BodyOut(t: Tcb, s: Segment, now: int)
    requires Inv(t) && Framed(s) && t.state != Listen && t.state != SynRcvd
    ensures var r := Body(t, s, now);
            || (SameOut(t, r.t) && Plain(r.out))
            || (!t.inflight && !r.t.inflight && Plain(r.out))
            || (!t.inflight && !t.appSent && t.state == Established && FirstSend(r, now))
  {
    hide Mod32, Mod64, OnFin, HasFin;
    var data := Data(s);
    var t1 := if data != [] && s.seqno == t.rcvNxt && TakesData(t, data)
              then QueueRx(t, data).(rcvNxt := Mod32(t.rcvNxt + |data|)) else t;
    FinOut(t1, now);
  }

  lemma AckOut(t: Tcb, ack: int)
    requires Inv(t)
    ensures var t' := OnTheirAck(t, ack);
            || t' == t
            || (t.inflight && ack == t.sndNxt && !t'.inflight && (t'.appSent || t'.state == Listen || t'.state == FinWait2))
  {
  }

  lemma SegmentOut(t: Tcb, s: Segment, now: int)
    requires Inv(t) && Framed(s) && t.state != Listen
    ensures var r := OnSegment(t, s, now);
            && (t.inflight ==>
                  || (SameOut(t, r.t) && Plain(r.out))
                  || (!r.t.inflight && Plain(r.out) && HasAck(s) && s.ack == t.sndNxt))
            && (!t.inflight ==> (!r.t.inflight && Plain(r.out)) || FirstSend(r, now))
  {
    hide Body, OnTheirAck, Inv, Mod32, Mod64, HasAck, HasSyn;
    AckInv(t, s.ack);
    AckOut(t, s.ack);
    var t1 := if HasAck(s) then OnTheirAck(t, s.ack) else t;
    if t1.state == SynRcvd {
      Opened(t1);
      BodyOut(t1.(state := Established), s, now);
    } else if t1.state != Listen {
      BodyOut(t1, s, now);
    } else {
      Closed(t1);
    }
  }

  lemma Opened(t: Tcb)
    requires Inv(t) && t.state == SynRcvd
    ensures Inv(t.(state := Established)) && !t.inflight
  {
  }

  lemma Closed(t: Tcb)
    requires Inv(t) && t.state == Listen
    ensures !t.inflight
  {
  }

  lemma SynOut(t: Tcb, s: Segment, src: Ip, now: int)
    requires Framed(s)
    ensures var r := OnSyn(t, s, src, now);
            Plain(r.out) && r.t.inflight == t.inflight && (t.state != Listen ==> r.t == t)
  {
    hide ParseMss, Mod32;
  }

  lemma HandleOut(t: Tcb, e: Event, now: int)
    requires Inv(t) && e.Arrive?
    ensures var r := Handle(t, e.p, e.src, e.dst, now);
            && (t.inflight ==>
                  || (SameOut(t, r.t) && Plain(r.out))
                  || (!r.t.inflight && Plain(r.out) && PeerEnds(t, e)))
            && (!t.inflight ==> (!r.t.inflight && Plain(r.out)) || FirstSend(r, now))
  {
    hide Decode, OnSegment, OnSyn, Inv, HasRst, HasAck, HasSyn, Mod64;
    var v := Decode(e.p, e.src, e.dst);
    if v.Deliver? {
      SynOut(t, v.value, e.src, now);
      if t.state != Listen {
        SegmentOut(t, v.value, now);
      } else {
        Closed(t);
      }
    }
  }

  lemma AppSendOut(t: Tcb, data: seq<Byte>, fin: bool, now: int)
    ensures var r := AppSend(t, data, fin, now);
            (r.t == t && r.out == NoOut) || (!t.inflight && FirstSend(r, now))
  {
    hide Mod32, Mod64;
  }

  // --- the history --------------------------------------------------------------------------

  function LastTime(s: Sent): nat
    requires s.times != []
  {
    s.times[|s.times| - 1]
  }

  predicate Spaced(times: seq<nat>) {
    forall i, j | 0 <= i < j < |times| :: times[i] + RTO_TICKS <= times[j]
  }

  predicate SentOk(s: Sent) { 1 <= |s.times| <= RTO_MAX && Spaced(s.times) }

  predicate Live(t: Tcb, s: Sent, now: nat)
    requires s.times != []
  {
    && s.seqno == t.sndUna && s.flags == UnackedFlags(t) && s.payload == t.unacked
    && |s.times| == t.tries && t.deadline == Mod64(LastTime(s) + RTO_TICKS) && LastTime(s) <= now
  }

  predicate HistOk(hist: seq<Sent>) { forall i | 0 <= i < |hist| :: SentOk(hist[i]) }

  /** Every segment has gone out at most `RTO_MAX` times, at least `RTO_TICKS`
      apart, and the last one is what is outstanding. */
  predicate RtoOk(w: World) {
    && HistOk(w.hist)
    && (w.t.inflight ==> w.hist != [] && Live(w.t, w.hist[|w.hist| - 1], w.now))
  }

  /** A first transmission opens an entry; a retransmission adds its time. */
  function Recorded(w: World, e: Event, r: Reply): seq<Sent> {
    if !w.t.inflight && r.t.inflight && r.out.Seg? then
      w.hist + [Sent(r.out.seqno, r.out.flags, r.out.payload, [w.now])]
    else if e.Poll? && r.t.inflight && r.out.Seg? && w.hist != [] then
      var last := w.hist[|w.hist| - 1];
      w.hist[..|w.hist| - 1] + [last.(times := last.times + [w.now])]
    else w.hist
  }

  function Next(w: World, e: Event): World {
    var r := Step(w.t, e, Mod64(w.now));
    World(r.t, w.now + (if e.Wait? then e.ticks else 0), Recorded(w, e, r))
  }

  /** A poll comes within 2^63 ticks of the last transmission. */
  predicate Timely(w: World, e: Event) {
    e.Poll? && w.t.inflight && w.hist != [] && w.hist[|w.hist| - 1].times != [] ==>
      w.now - LastTime(w.hist[|w.hist| - 1]) < 0x8000_0000_0000_0000
  }

  /** The wrapped comparison in `check_rto` is exact. */
  lemma DueExact(sent: nat, now: nat)
    requires sent <= now < sent + 0x8000_0000_0000_0000
    ensures Mod64(Mod64(now) - Mod64(sent + RTO_TICKS)) > 0x7fff_ffff_ffff_ffff <==> now < sent + RTO_TICKS
  {
    DiffMod(now, sent + RTO_TICKS);
  }

  lemma DiffMod(x: nat, y: nat)
    ensures Mod64(Mod64(x) - Mod64(y)) == Mod64(x - y)
  {
    var a, b := x / 0x1_0000_0000_0000_0000, y / 0x1_0000_0000_0000_0000;
    assert x == 0x1_0000_0000_0000_0000 * a + Mod64(x);
    assert y == 0x1_0000_0000_0000_0000 * b + Mod64(y);
    assert x - y == 0x1_0000_0000_0000_0000 * (a - b) + (Mod64(x) - Mod64(y));
  }

  lemma DeadlineMod(now: nat)
    ensures Mod64(Mod64(now) + RTO_TICKS) == Mod64(now + RTO_TICKS)
  {
  }

  /** What a poll does to the outstanding segment, by true elapsed time: nothing
      before the timeout, then the identical segment again, then one RST. */
  lemma PollExact(w: World)
    requires RtoOk(w) && w.t.inflight && Timely(w, Poll)
    ensures var last := w.hist[|w.hist| - 1];
            var r := Step(w.t, Poll, Mod64(w.now));
            && (w.now < LastTime(last) + RTO_TICKS ==> r.t == w.t && r.out == NoOut)
            && (w.now >= LastTime(last) + RTO_TICKS && |last.times| < RTO_MAX ==>
                  && r.t.inflight && r.out.Seg?
                  && r.out.seqno == last.seqno && r.out.flags == last.flags && r.out.payload == last.payload
                  && Live(r.t, last.(times := last.times + [w.now]), w.now))
            && (w.now >= LastTime(last) + RTO_TICKS && |last.times| == RTO_MAX ==>
                  && r.t.state == Listen && !r.t.inflight
                  && r.out.Seg? && r.out.flags == RST + ACK && r.out.payload == [])
  {
    hide Mod64, Mod32, Spaced;
    var last := w.hist[|w.hist| - 1];
    assert SentOk(last);
    DueExact(LastTime(last), w.now);
    DeadlineMod(w.now);
  }

  lemma OnceMore(s: Sent, now: nat)
    requires SentOk(s) && |s.times| < RTO_MAX && LastTime(s) + RTO_TICKS <= now
    ensures SentOk(s.(times := s.times + [now]))
  {
  }

  lemma HistReplace(hist: seq<Sent>, s: Sent)
    requires HistOk(hist) && hist != [] && SentOk(s)
    ensures HistOk(hist[..|hist| - 1] + [s]) && HistOk(hist + [s])
  {
    hide SentOk;
  }

  lemma HistAppend(hist: seq<Sent>, s: Sent)
    requires HistOk(hist) && SentOk(s)
    ensures HistOk(hist + [s])
  {
    hide SentOk;
  }

  /** The segment still outstanding is the last in the history. */
  lemma StillLive(w: World, t': Tcb, now': nat)
    requires RtoOk(w) && SameOut(w.t, t') && w.now <= now'
    ensures RtoOk(World(t', now', w.hist))
  {
    hide Mod64, HistOk;
  }

  lemma PollStep(w: World)
    requires Inv(w.t) && RtoOk(w) && Timely(w, Poll)
    ensures RtoOk(Next(w, Poll))
  {
    hide Live, Mod64, HistOk, SentOk, LastTime, Inv, CheckRto;
    if w.t.inflight {
      PollExact(w);
      var last := w.hist[|w.hist| - 1];
      LastOk(w.hist);
      if w.now >= LastTime(last) + RTO_TICKS && |last.times| < RTO_MAX {
        OnceMore(last, w.now);
        HistReplace(w.hist, last.(times := last.times + [w.now]));
      }
    } else {
      PollIdle(w.t, Mod64(w.now));
    }
  }

  lemma PollIdle(t: Tcb, now: int)
    requires !t.inflight
    ensures CheckRto(t, now) == Reply(t, NoOut)
  {
  }

  lemma LastOk(hist: seq<Sent>)
    requires HistOk(hist) && hist != []
    ensures SentOk(hist[|hist| - 1]) && 1 <= |hist[|hist| - 1].times| <= RTO_MAX
  {
  }

  lemma FirstStep(w: World, e: Event, r: Reply)
    requires RtoOk(w) && !w.t.inflight && FirstSend(r, Mod64(w.now)) && !e.Wait?
    ensures RtoOk(World(r.t, w.now, Recorded(w, e, r)))
  {
    hide Mod64, HistOk;
    DeadlineMod(w.now);
    HistAppend(w.hist, Sent(r.out.seqno, r.out.flags, r.out.payload, [w.now]));
  }

  /** Why the outstanding segment stops being outstanding. */
  predicate Ended(w: World, e: Event) {
    || PeerEnds(w.t, e)
    || (e.Poll? && w.hist != [] && |w.hist[|w.hist| - 1].times| == RTO_MAX)
  }

  /** Every event keeps the discipline; a segment stops being outstanding only by
      its exact acknowledgement, a reset, or exhaustion; and nothing that carries
      data or FIN goes out unrecorded. */
  lemma StepRto(w: World, e: Event)
    requires Inv(w.t) && RtoOk(w) && Timely(w, e)
    ensures RtoOk(Next(w, e))
    ensures w.t.inflight && !Next(w, e).t.inflight ==> Ended(w, e)
  {
    hide Inv, RtoOk, Handle, AppSend, CheckRto, PeerEnds, Recorded, SameOut, Plain, FirstSend, Mod64;
    match e
    case Arrive(p, src, dst) => ArriveStep(w, e);
    case Send(data, fin) => SendStep(w, e);
    case Read => QuietStep(w, e, Consume(w.t));
    case AskEof => QuietStep(w, e, TakeEof(w.t));
    case Poll =>
      PollStep(w);
      PollEnds(w);
    case Wait(ticks) => QuietStep(w, e, w.t);
  }

  lemma QuietStep(w: World, e: Event, t': Tcb)
    requires RtoOk(w) && (e.Read? || e.AskEof? || e.Wait?) && Step(w.t, e, Mod64(w.now)) == Reply(t', NoOut)
    requires t' == Consume(w.t) || t' == TakeEof(w.t) || t' == w.t
    ensures RtoOk(Next(w, e)) && t'.inflight == w.t.inflight
  {
    hide RtoOk, Mod64, Step;
    StillLive(w, t', w.now + (if e.Wait? then e.ticks else 0));
  }

  lemma ArriveStep(w: World, e: Event)
    requires Inv(w.t) && RtoOk(w) && e.Arrive?
    ensures RtoOk(Next(w, e))
    ensures w.t.inflight && !Next(w, e).t.inflight ==> PeerEnds(w.t, e)
  {
    hide Inv, RtoOk, Handle, PeerEnds, SameOut, Plain, FirstSend, Mod64;
    var r := Handle(w.t, e.p, e.src, e.dst, Mod64(w.now));
    HandleOut(w.t, e, Mod64(w.now));
    if SameOut(w.t, r.t) {
      StillLive(w, r.t, w.now);
      SameMeans(w.t, r.t);
    } else if !r.t.inflight {
      NothingLive(w, r.t);
    } else {
      FirstStep(w, e, r);
    }
  }

  lemma SameMeans(t: Tcb, t': Tcb)
    requires SameOut(t, t')
    ensures t'.inflight == t.inflight
  {
  }

  lemma NothingLive(w: World, t': Tcb)
    requires RtoOk(w) && !t'.inflight
    ensures RtoOk(World(t', w.now, w.hist))
  {
  }

  lemma SendStep(w: World, e: Event)
    requires RtoOk(w) && e.Send?
    ensures RtoOk(Next(w, e)) && (w.t.inflight ==> Next(w, e).t.inflight)
  {
    hide RtoOk, AppSend, FirstSend, Mod64;
    var r := AppSend(w.t, e.data, e.fin, Mod64(w.now));
    AppSendOut(w.t, e.data, e.fin, Mod64(w.now));
    if r.t != w.t {
      FirstStep(w, e, r);
    }
  }

  lemma PollEnds(w: World)
    requires RtoOk(w) && Timely(w, Poll)
    ensures w.t.inflight && !Next(w, Poll).t.inflight ==> Ended(w, Poll)
  {
    hide Live, Mod64, HistOk, SentOk, CheckRto;
    if w.t.inflight {
      PollExact(w);
      LastOk(w.hist);
    }
  }

  /** Nothing that carries data or FIN goes out but the segment on record. */
  lemma NothingElse(w: World, e: Event)
    requires Inv(w.t) && RtoOk(w) && Timely(w, e)
    ensures var r := Step(w.t, e, Mod64(w.now));
            r.out.Seg? && (r.out.payload != [] || r.out.flags % 2 == 1) ==>
              && Recorded(w, e, r) != []
              && var s := Recorded(w, e, r)[|Recorded(w, e, r)| - 1];
                 r.out.seqno == s.seqno && r.out.flags == s.flags && r.out.payload == s.payload
                 && s.times != [] && LastTime(s) == w.now
  {
    hide Inv, Handle, AppSend, CheckRto, PeerEnds, SameOut, Mod64, HistOk, SentOk, Live;
    match e
    case Arrive(p, src, dst) => HandleOut(w.t, e, Mod64(w.now));
    case Send(data, fin) => AppSendOut(w.t, data, fin, Mod64(w.now));
    case Poll =>
      if w.t.inflight {
        PollExact(w);
        LastOk(w.hist);
      } else {
        PollIdle(w.t, Mod64(w.now));
      }
    case Read =>
    case AskEof =>
    case Wait(ticks) =>
  }

  // --- runs ------------------------------------------------------------------------------

  ghost predicate AllTimely(w: World, run: seq<Event>)
    decreases run
  {
    run == [] || (Timely(w, run[0]) && AllTimely(Next(w, run[0]), run[1..]))
  }

  function Final(w: World, run: seq<Event>): World
    decreases run
  {
    if run == [] then w else Final(Next(w, run[0]), run[1..])
  }

  /** Over every run, each segment we ever sent went out at most eight times, at
      least one timeout apart. */
  lemma {:induction false} RunRto(w: World, run: seq<Event>)
    requires Inv(w.t) && RtoOk(w) && AllTimely(w, run)
    ensures RtoOk(Final(w, run))
    decreases run
  {
    hide Inv, RtoOk, Timely;
    if run != [] {
      StepRto(w, run[0]);
      StepInv(w.t, run[0], Mod64(w.now));
      NextTcb(w, run[0]);
      RunRto(Next(w, run[0]), run[1..]);
    }
  }

  lemma NextTcb(w: World, e: Event)
    ensures Next(w, e).t == Step(w.t, e, Mod64(w.now)).t
  {
  }
}
