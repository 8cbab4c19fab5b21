/** The static control block, updated field by field as the kernel does (src/tcp.rs),
    with what its callers rely on. */
module TcpConnection {
  import opened Ram
  import opened Checksum
  import opened Wire
  import opened TcpWire
  import opened Tcp
  import opened TcpSafety
  import opened TcpRto

  /** The states an exact acknowledgement leads to. */
  function AfterAck(t: Tcb): State {
    match t.state
    case FinWait1 => if t.peerFin then Listen else FinWait2
    case LastAck => Listen
    case s => s
  }

  lemma AckMeans(t: Tcb, ack: int)
    requires Inv(t)
    ensures var t' := OnTheirAck(t, ack);
            && Inv(t')
            && (t' != t ==> t.inflight && ack == t.sndNxt)
            && (t.inflight && ack == t.sndNxt ==>
                  t'.state == AfterAck(t) && Outstanding(t') == 0 && t'.sndUna == t'.sndNxt == t.sndNxt)
  {
    hide Mod32;
    AckInv(t, ack);
  }

  lemma FinMeans(t: Tcb, now: int)
    requires Inv(t) && t.state != Listen && t.state != SynRcvd
    ensures var r := OnFin(t, now);
            && Inv(r.t) && r.out.Seg? && r.out.ack == Mod32(t.rcvNxt + 1)
            && (r.t.state == Listen <==> t.state == FinWait2)
            && (r.t.state != Listen ==> r.t.peerFin && r.t.rcvNxt == Mod32(t.rcvNxt + 1) && r.t.rx == t.rx)
  {
    hide Mod32, Mod64, Ranges, SndOk;
    OnFinInv(t, now);
  }

  /** Data waiting for the application is never overwritten, and new data is taken
      only in order. */
  ghost predicate KeepsUnread(t: Tcb, t': Tcb, s: Segment)
    requires Framed(s)
  {
    && (t.rxPending && t'.state != Listen ==> t'.rx == t.rx)
    && (t'.rx != [] && t'.rx != t.rx ==> t'.rx == Data(s) && s.seqno == t.rcvNxt)
  }

  lemma BodyMeans(t: Tcb, s: Segment, now: int)
    requires Inv(t) && Framed(s) && t.state != Listen && t.state != SynRcvd
    ensures var r := Body(t, s, now); Inv(r.t) && KeepsUnread(t, r.t, s)
  {
    hide Mod32, Mod64, Ranges, SndOk, OnFin, HasFin;
    BodyInv(t, s, now);
    var data := Data(s);
    var t1 := if data != [] && s.seqno == t.rcvNxt && TakesData(t, data)
              then QueueRx(t, data).(rcvNxt := Mod32(t.rcvNxt + |data|)) else t;
    FinKeepsRx(t1, now);
  }

  lemma FinKeepsRx(t: Tcb, now: int)
    ensures var r := OnFin(t, now); r.t.rx == t.rx || (r.t.state == Listen && r.t.rx == [])
  {
    hide Mod32, Mod64;
  }

  lemma SegmentMeans(t: Tcb, s: Segment, now: int)
    requires Inv(t) && Framed(s) && t.state != Listen
    ensures var r := OnSegment(t, s, now); Inv(r.t) && KeepsUnread(t, r.t, s)
  {
    hide Mod32, Mod64, Body, HasAck, HasSyn, Ranges, SndOk;
    SegmentInv(t, s, now);
    AckInv(t, s.ack);
    var t1 := if HasAck(s) then OnTheirAck(t, s.ack) else t;
    AckKeepsRx(t, s.ack);
    if t1.state == SynRcvd {
      Opened(t1);
      BodyMeans(t1.(state := Established), s, now);
    } else if t1.state != Listen {
      BodyMeans(t1, s, now);
    }
  }

  lemma AckKeepsRx(t: Tcb, ack: int)
    ensures var t' := OnTheirAck(t, ack);
            t'.state == Listen || (t'.rx == t.rx && t'.rxPending == t.rxPending && t'.rcvNxt == t.rcvNxt)
    ensures t.state != Listen && OnTheirAck(t, ack).state == Listen ==> OnTheirAck(t, ack).rx == []
  {
  }

  /** What arriving bytes can do, whoever sent them. */
  ghost predicate ArriveMeans(t: Tcb, r: Reply, e: Event) {
    && (t.inflight && !r.t.inflight ==> PeerEnds(t, e))
    && (t.inflight && r.t.inflight ==> SameOut(t, r.t) && Plain(r.out))
    && (t.rxPending && r.t.state != Listen ==> r.t.rx == t.rx)
  }

  lemma HandleMeans(t: Tcb, e: Event, now: int)
    requires Inv(t) && e.Arrive?
    ensures var r := Handle(t, e.p, e.src, e.dst, now); Inv(r.t) && ArriveMeans(t, r, e)
  {
    hide Inv, Decode, OnSegment, OnSyn, HasRst, HasAck, HasSyn, Plain, FirstSend, PeerEnds;
    HandleInv(t, e.p, e.src, e.dst, now);
    HandleOut(t, e, now);
    var v := Decode(e.p, e.src, e.dst);
    if v.Deliver? {
      SynKeepsRx(t, v.value, e.src, now);
      if t.state != Listen {
        SegmentMeans(t, v.value, now);
      }
    }
  }

  lemma SynKeepsRx(t: Tcb, s: Segment, src: Ip, now: int)
    requires Framed(s)
    ensures OnSyn(t, s, src, now).t.rx == t.rx
  {
    hide ParseMss, Mod32;
  }

  lemma SendMeans(t: Tcb, data: seq<Byte>, fin: bool, now: int)
    requires Inv(t)
    ensures var r := AppSend(t, data, fin, now);
            && Inv(r.t)
            && (r.out == NoOut ==> r.t == t)
            && (r.out != NoOut ==>
                  && FirstSend(r, now) && r.t.unacked == data && r.t.unackedFin == fin && r.t.sndUna == t.sndNxt
                  && (fin <==> r.t.state == FinWait1 || r.t.state == LastAck))
  {
    hide Mod32, Mod64, Ranges, SndOk;
    AppSendInv(t, data, fin, now);
  }

  lemma PollMeans(t: Tcb, now: int)
    requires Inv(t)
    ensures var r := CheckRto(t, now);
            && Inv(r.t)
            && (r.out == NoOut ==> r.t == t)
            && (r.out != NoOut && r.t.state != Listen ==>
                  Shows(t, r.out) && Shows(r.t, r.out) && r.t.tries == t.tries + 1 <= RTO_MAX)
            && (r.out != NoOut && r.t.state == Listen ==>
                  t.tries >= RTO_MAX && r.out.Seg? && r.out.flags == RST + ACK && r.out.payload == [])
  {
    hide Mod32, Mod64, Ranges, SndOk;
    PollInv(t, now);
  }

  // --- the static control block -------------------------------------------------------

  /** The one control block, updated field by field as the kernel does. */
  class Connection {
    var t: Tcb

    ghost predicate Valid()
      reads this
    {
      Inv(t)
    }

    constructor ()
      ensures Valid() && t.state == Listen
    {
      t := Fresh();
      new;
      InitInv();
    }

    /** `listen_reset`: nothing of the connection is left but a pending end of file. */
    method Reset()
      requires Ranges(t)
      modifies this
      ensures t == ListenReset(old(t))
      ensures Valid() && t.state == Listen && Outstanding(t) == 0 && t.eof == old(t).eof
    {
      ResetInv(t);
      var eof := t.eof;
      t := t.(state := Listen, remoteIp := [0, 0, 0, 0], remotePort := 0);
      t := t.(rx := [], rxPending := false);
      t := t.(unacked := [], unackedFin := false, inflight := false, deadline := 0, tries := 0);
      t := t.(sawData := false, appSent := false);
      t := t.(eof := eof, peerFin := false);
    }

    /** `on_their_ack`: only the exact acknowledgement does anything, and then it
        empties the window. */
    method AckArrived(ack: int)
      requires Valid()
      modifies this
      ensures t == OnTheirAck(old(t), ack)
      ensures Valid()
      ensures t != old(t) ==> old(t).inflight && ack == old(t).sndNxt
      ensures old(t).inflight && ack == old(t).sndNxt ==>
                t.state == AfterAck(old(t)) && Outstanding(t) == 0 && t.sndUna == t.sndNxt == ack
    {
      hide Inv, AfterAck, Outstanding, Mod32, Advanced;
      AckMeans(t, ack);
      RangesOf(t);
      if !t.inflight {
        return;
      }
      if ack != t.sndNxt {
        return;
      }
      t := t.(sndUna := ack);
      t := t.(inflight := false);
      t := t.(deadline := 0);
      t := t.(unacked := []);
      t := t.(unackedFin := false);
      Advance();
    }

    /** The end of `on_their_ack`: what an acknowledged FIN closes. */
    method Advance()
      requires Ranges(t)
      modifies this
      ensures t == Advanced(old(t)) && t.state == AfterAck(old(t))
    {
      hide Inv, ListenReset, Outstanding;
      match t.state {
        case FinWait1 =>
          t := t.(state := FinWait2);
          if t.peerFin {
            Reset();
          }
        case LastAck =>
          Reset();
        case _ =>
      }
    }

    /** `queue_rx`: data is taken whole or not at all, and never over unread data. */
    method Queue(data: seq<Byte>) returns (ok: bool)
      modifies this
      ensures t == QueueRx(old(t), data) && ok == TakesData(old(t), data)
      ensures ok && data != [] ==> t.rx == data && t.rxPending
      ensures old(t).rxPending || !ok ==> t == old(t)
    {
      if data == [] {
        return true;
      }
      if t.rxPending {
        return false;
      }
      if |data| > PAYLOAD_MAX {
        return false;
      }
      t := t.(rx := data);
      t := t.(rxPending := true);
      t := t.(sawData := true);
      ok := true;
    }

    /** PSH with data, FIN with our FIN. */
    method Flags() returns (flags: int)
      ensures flags == UnackedFlags(t)
      ensures flags % 2 == 1 <==> t.unackedFin
    {
      flags := ACK;
      if |t.unacked| != 0 {
        flags := flags + PSH;
      }
      if t.unackedFin {
        flags := flags + FIN;
      }
    }

    /** `send_unacked`: the outstanding segment goes out, and the window is exactly it. */
    method Transmit(now: int) returns (out: Out)
      requires Ranges(t) && !t.inflight && t.sndUna == t.sndNxt
      modifies this
      ensures Reply(t, out) == SendUnacked(old(t), now)
      ensures Ranges(t) && SndOk(t) && FirstSend(Reply(t, out), now) && t.sndUna == old(t).sndNxt
    {
      hide Ranges, SndOk, FirstSend, Mod32, Mod64, UnackedFlags;
      SendInv(t, now);
      SendShows(t, now);
      var seqno := t.sndUna;
      var flags := Flags();
      if t.unackedFin {
        var finSeq := Mod32(seqno + |t.unacked|);
        FinAfter(seqno + |t.unacked|);
        t := t.(sndNxt := Mod32(finSeq + 1));
      } else {
        t := t.(sndNxt := Mod32(seqno + |t.unacked|));
      }
      t := t.(inflight := true);
      t := t.(tries := 1);
      t := t.(deadline := Mod64(now + RTO_TICKS));
      out := SegOf(t, seqno, flags, t.unacked);
    }

    /** `app_send`: refused, changing nothing, or the first transmission of exactly
        `data` and `fin` from where the window ended. */
    method Send(data: seq<Byte>, fin: bool, now: int) returns (out: Out)
      requires Valid()
      modifies this
      ensures Reply(t, out) == AppSend(old(t), data, fin, now)
      ensures Valid()
      ensures out == NoOut ==> t == old(t)
      ensures out != NoOut ==>
                && FirstSend(Reply(t, out), now) && t.unacked == data && t.unackedFin == fin && t.sndUna == old(t).sndNxt
                && (fin <==> t.state == FinWait1 || t.state == LastAck)
    {
      hide SendUnacked, FirstSend, SndOk, Mod32, Mod64;
      SendMeans(t, data, fin, now);
      RangesOf(t);
      SendReady(t, data, fin);
      if t.state != Established && t.state != CloseWait {
        return NoOut;
      }
      if t.appSent || t.inflight {
        return NoOut;
      }
      if |data| > PAYLOAD_MAX {
        return NoOut;
      }
      t := t.(unacked := data);
      t := t.(unackedFin := fin);
      t := t.(appSent := true);
      t := t.(sndUna := t.sndNxt);
      if t.state == CloseWait && fin {
        t := t.(state := LastAck);
      } else if fin {
        t := t.(state := FinWait1);
      }
      out := Transmit(now);
    }

    /** `take_eof`: end of file is reported once, with nothing unread and nothing in
        flight. */
    method Eof() returns (due: bool)
      requires Valid()
      modifies this
      ensures t == TakeEof(old(t))
      ensures Valid() && !EofDue(t)
      ensures due <==> EofDue(old(t))
      ensures due ==> old(t).eof && !t.eof && old(t).rx == [] && !t.inflight && Outstanding(t) == 0
      ensures !due ==> t == old(t)
    {
      ReadInv(t);
      if t.eof && !t.rxPending && !t.inflight {
        t := t.(eof := false);
        due := true;
      } else {
        due := false;
      }
    }

    /** `pending` and `consume`: what was waiting is handed out, once. */
    method Read() returns (data: seq<Byte>)
      requires Valid()
      modifies this
      ensures t == Consume(old(t))
      ensures Valid() && data == old(t).rx && t.rx == []
    {
      ReadInv(t);
      data := t.rx;
      t := t.(rxPending := false);
      t := t.(rx := []);
    }

    /** `check_rto`: silence, the identical segment again, or after the last try one
        RST and LISTEN. */
    method Poll(now: int) returns (out: Out)
      requires Valid()
      modifies this
      ensures Reply(t, out) == CheckRto(old(t), now)
      ensures Valid()
      ensures out == NoOut ==> t == old(t)
      ensures out != NoOut && t.state != Listen ==>
                Shows(old(t), out) && Shows(t, out) && t.tries == old(t).tries + 1 <= RTO_MAX
      ensures out != NoOut && t.state == Listen ==>
                old(t).tries >= RTO_MAX && out.Seg? && out.flags == RST + ACK && out.payload == []
    {
      hide Inv, Mod32, Mod64;
      PollMeans(t, now);
      RangesOf(t);
      if !t.inflight {
        return NoOut;
      }
      if Mod64(now - t.deadline) > 0x7fff_ffff_ffff_ffff {
        return NoOut;
      }
      if t.tries >= RTO_MAX {
        out := SegOf(t, t.sndNxt, RST + ACK, []);
        Reset();
        return;
      }
      t := t.(tries := t.tries + 1);
      t := t.(rexmit := Mod32(t.rexmit + 1));
      t := t.(deadline := Mod64(now + RTO_TICKS));
      out := SegOf(t, t.sndUna, UnackedFlags(t), t.unacked);
    }

    /** A bare SYN: only an idle control block opens, with an empty window and the
        receive position after the peer's first number. */
    method Syn(s: Segment, src: Ip, now: int) returns (out: Out)
      requires Framed(s) && Valid()
      modifies this
      ensures Reply(t, out) == OnSyn(old(t), s, src, now)
      ensures Valid() && t.rx == old(t).rx
      ensures t != old(t) ==>
                && old(t).state == Listen && t.state == SynRcvd && SameTuple(t, src, s.sport)
                && Outstanding(t) == 0 && t.rcvNxt == Mod32(s.seqno + 1)
    {
      hide ParseMss, Mod32, SndOk, Ranges;
      SynInv(t, s, src, now);
      var mss := ReadMss(s.raw, s.hlen);
      if mss.None? {
        return NoOut;
      }
      if t.state == Listen {
        var isn := Mod32(now);
        t := t.(remoteIp := src, remotePort := s.sport);
        t := t.(theirIsn := s.seqno, rcvNxt := Mod32(s.seqno + 1));
        t := t.(sndIsn := isn, sndUna := Mod32(isn + 1), sndNxt := Mod32(isn + 1));
        t := t.(mss := mss.value, state := SynRcvd);
        return SynAckOf(t);
      }
      if t.state == SynRcvd && SameTuple(t, src, s.sport) && s.seqno == t.theirIsn {
        return SynAckOf(t);
      }
      out := NoOut;
    }

    /** The peer's FIN in order: it is acknowledged, counts one, and closes our side
        exactly in FIN-WAIT-2. */
    method FinArrived(now: int) returns (out: Out)
      requires Valid() && t.state != Listen && t.state != SynRcvd
      modifies this
      ensures Reply(t, out) == OnFin(old(t), now)
      ensures Valid() && out.Seg? && out.ack == Mod32(old(t).rcvNxt + 1)
      ensures t.state == Listen <==> old(t).state == FinWait2
      ensures t.state != Listen ==> t.peerFin && t.rcvNxt == Mod32(old(t).rcvNxt + 1) && t.rx == old(t).rx
    {
      hide SendUnacked, FirstSend, SndOk, Mod32, Mod64;
      FinMeans(t, now);
      FinReady(t);
      t := t.(rcvNxt := Mod32(t.rcvNxt + 1));
      if t.sawData || t.appSent {
        t := t.(eof := true);
      }
      t := t.(peerFin := true);
      match t.state {
        case Established =>
          t := t.(state := CloseWait);
          if !t.sawData && !t.appSent {
            t := t.(unacked := [], unackedFin := true, sndUna := t.sndNxt, state := LastAck);
            out := Transmit(now);
            return;
          }
        case FinWait2 =>
          var saved := AckOnly(t);
          Reset();
          return saved;
        case _ =>
      }
      out := AckOnly(t);
    }

    /** A segment of the open connection. */
    method Segments(s: Segment, now: int) returns (out: Out)
      requires Framed(s) && Valid() && t.state != Listen
      modifies this
      ensures Reply(t, out) == OnSegment(old(t), s, now)
      ensures Valid() && KeepsUnread(old(t), t, s)
    {
      hide OnTheirAck, Body, Inv, KeepsUnread, HasAck, HasSyn;
      SegmentMeans(t, s, now);
      if HasAck(s) {
        AckArrived(s.ack);
      }
      if t.state == Listen {
        return NoOut;
      }
      if t.state == SynRcvd {
        if HasAck(s) && !HasSyn(s) && s.ack == t.sndNxt && s.seqno == t.rcvNxt {
          Opened(t);
          t := t.(state := Established);
        } else {
          return NoOut;
        }
      }
      out := Payload(s, now);
    }

    /** Data, then FIN: in order, and never over unread data. */
    method Payload(s: Segment, now: int) returns (out: Out)
      requires Framed(s) && Valid() && t.state != Listen && t.state != SynRcvd
      modifies this
      ensures Reply(t, out) == Body(old(t), s, now)
      ensures Valid() && KeepsUnread(old(t), t, s)
    {
      hide OnFin, Mod32, HasFin, KeepsUnread;
      BodyMeans(t, s, now);
      var data := Data(s);
      var needAck := false;
      if data != [] {
        if s.seqno != t.rcvNxt {
          return AckOnly(t);
        }
        var ok := Queue(data);
        if ok {
          t := t.(rcvNxt := Mod32(t.rcvNxt + |data|));
          needAck := true;
        }
      }
      if HasFin(s) {
        if Mod32(s.seqno + |data|) != t.rcvNxt {
          return AckOnly(t);
        }
        out := FinArrived(now);
        return;
      }
      out := if needAck then AckOnly(t) else NoOut;
    }

    /** `handle`, on arbitrary bytes: what is in flight ends only by its exact
        acknowledgement or a reset, unread data is never overwritten, and the step
        is the one all runs are made of. */
    method Arrive(p: seq<Byte>, src: Ip, dst: Ip, now: int) returns (out: Out)
      requires Valid()
      modifies this
      ensures Reply(t, out) == Handle(old(t), p, src, dst, now)
      ensures Valid() && ArriveMeans(old(t), Reply(t, out), Event.Arrive(p, src, dst))
    {
      hide Decode, OnSyn, OnSegment, HasRst, HasSyn, HasAck, Inv, ArriveMeans;
      HandleMeans(t, Event.Arrive(p, src, dst), now);
      RangesOf(t);
      var v := Decode(p, src, dst);
      if v.Drop? {
        return NoOut;
      }
      var s := v.value;
      if HasRst(s) {
        if t.state != Listen && SameTuple(t, src, s.sport) {
          Reset();
        }
        return NoOut;
      }
      if HasSyn(s) && !HasAck(s) {
        out := Syn(s, src, now);
        return;
      }
      if t.state == Listen {
        return NoOut;
      }
      if !SameTuple(t, src, s.sport) {
        return NoOut;
      }
      out := Segments(s, now);
    }
  }

  lemma SendShows(t: Tcb, now: int)
    ensures var r := SendUnacked(t, now); FirstSend(r, now) && r.t.sndUna == t.sndUna
  {
    hide Mod32, Mod64;
  }

  /** A send starts from an empty window. */
  lemma SendReady(t: Tcb, data: seq<Byte>, fin: bool)
    requires Inv(t)
    ensures t.state != Listen && !t.inflight ==> t.sndUna == t.sndNxt
  {
    if t.state != Listen && !t.inflight {
      SameSeq(t);
    }
  }

  lemma FinReady(t: Tcb)
    requires Inv(t)
    ensures t.state == Established && !t.appSent ==> !t.inflight && t.sndUna == t.sndNxt
  {
    if t.state == Established && !t.appSent {
      SameSeq(t);
    }
  }

  lemma FinAfter(x: int)
    ensures Mod32(Mod32(x) + 1) == Mod32(x + 1)
  {
  }
}
