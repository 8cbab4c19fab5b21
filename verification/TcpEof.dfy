/** What a reported end of file tells the application about the peer's stream
    (src/tcp.rs): `rx_fin`, `listen_reset` and `take_eof` over whole connections. */
module TcpEof {
  import opened Ram
  import opened Checksum
  import opened Wire
  import opened TcpWire
  import opened Tcp
  import opened TcpSafety
  import opened TcpStream

  /** On an open connection a pending end of file is that connection's own: its FIN
      has been taken. */
  predicate OwnEof(t: Tcb) { t.state != Listen && t.eof ==> t.peerFin }

  /** A FIN once taken stays taken while the connection is open. */
  predicate FinStays(t: Tcb, t': Tcb) { t.peerFin && t'.state != Listen ==> t'.peerFin }

  lemma FinEof(t: Tcb, s: Segment, need: bool, now: int)
    requires Framed(s) && OwnEof(t) && t.state != Listen
    ensures OwnEof(FinPart(t, s, need, now).t) && FinStays(t, FinPart(t, s, need, now).t)
    ensures FinPart(t, s, need, now).t.eof && !t.eof ==> HasFin(s) && Mod32(s.seqno + |Data(s)|) == t.rcvNxt
  {
    hide HasFin, Mod32, Mod64;
  }

  lemma BodyEof(t: Tcb, s: Segment, now: int)
    requires Framed(s) && OwnEof(t) && t.state != Listen
    ensures OwnEof(Body(t, s, now).t) && FinStays(t, Body(t, s, now).t)
  {
    hide HasFin, Mod32, FinPart;
    FinEof(t, s, false, now);
    FinEof(QueueRx(t, Data(s)).(rcvNxt := Mod32(t.rcvNxt + |Data(s)|)), s, true, now);
  }

  lemma AckEof(t: Tcb, ack: int)
    requires OwnEof(t)
    ensures OwnEof(OnTheirAck(t, ack)) && OnTheirAck(t, ack).eof == t.eof && FinStays(t, OnTheirAck(t, ack))
  {
  }

  lemma SegmentEof(t: Tcb, s: Segment, now: int)
    requires Framed(s) && OwnEof(t) && t.state != Listen
    ensures OwnEof(OnSegment(t, s, now).t) && FinStays(t, OnSegment(t, s, now).t)
  {
    hide HasAck, HasSyn, OnTheirAck, Body, OwnEof;
    AckEof(t, s.ack);
    var t1 := if HasAck(s) then OnTheirAck(t, s.ack) else t;
    if t1.state == SynRcvd {
      SynEof(t1);
      BodyEof(t1.(state := Established), s, now);
    } else if t1.state != Listen {
      BodyEof(t1, s, now);
    }
  }

  lemma SynEof(t: Tcb)
    requires OwnEof(t) && t.state != Listen
    ensures OwnEof(t.(state := Established))
  {
  }

  /** Every event keeps it. */
  lemma StepEof(t: Tcb, e: Event, now: int)
    requires OwnEof(t) && t.state != Listen
    ensures OwnEof(Step(t, e, now).t)
  {
    hide Decode, OnSegment, ParseMss, Mod32, Mod64, HasRst, HasAck, HasSyn;
    if e.Arrive? && Decode(e.p, e.src, e.dst).Deliver? {
      SegmentEof(t, Decode(e.p, e.src, e.dst).value, now);
    }
  }

  // --- what is left unread when a connection closes --------------------------------------

  /** What the application has not read when event `e` closes the connection: the
      payload that waits, and what the closing segment brought along with FIN. */
  function LeftBy(t: Tcb, e: Event): seq<Byte> {
    if !t.peerFin && e.Arrive? && Decode(e.p, e.src, e.dst).Deliver? && HasFin(Decode(e.p, e.src, e.dst).value)
    then t.rx + Data(Decode(e.p, e.src, e.dst).value)
    else t.rx
  }

  /** FIN in order leaves no room for data that was not taken. */
  lemma NoGap(seqno: int, n: nat)
    requires 0 <= seqno < 0x1_0000_0000 && 0 < n < 0x1_0000_0000
    ensures Mod32(seqno + n) != seqno
  {
  }

  lemma RcvRange(t: Tcb)
    requires Inv(t)
    ensures 0 <= t.rcvNxt < 0x1_0000_0000 && (!t.rxPending ==> t.rx == [])
  {
  }

  lemma FinWhole(t: Tcb, s: Segment, peer: Peer, read: seq<Byte>, off: nat)
    requires Framed(s) && Tracks(t, peer, read) && Bounded(peer) && OffersAt(s, peer, off) && HasFin(s)
    requires Mod32(s.seqno + |Data(s)|) == t.rcvNxt
    ensures read + t.rx == peer.stream && !t.peerFin
  {
    hide Mod32, HasFin, OffersAt;
    FinTracks(t, s, peer, read, off);
    assert Accepted(t, read) <= peer.stream;
  }

  lemma OfferedData(s: Segment, peer: Peer, off: nat)
    requires Framed(s) && OffersAt(s, peer, off) && Bounded(peer)
    ensures |Data(s)| < 0x1_0000_0000
  {
  }

  /** The segment that makes end of file pending completes the stream. */
  lemma BodyCompletes(t: Tcb, s: Segment, peer: Peer, read: seq<Byte>, now: int)
    requires Framed(s) && Tracks(t, peer, read) && Bounded(peer) && Conforms(s, peer) && Inv(t)
    requires t.state != Listen && OwnEof(t) && !t.eof && Body(t, s, now).t.eof
    ensures HasFin(s) && read + t.rx + Data(s) == peer.stream && !t.peerFin
  {
    hide Tracks, OffersAt, FinPart, Mod32, HasFin, SndOk, Inv, StateOk, Ranges;
    var data := Data(s);
    RcvRange(t);
    if data == [] {
      FinEof(t, s, false, now);
      var off: nat :| OffersAt(s, peer, off);
      FinWhole(t, s, peer, read, off);
    } else if TakesData(t, data) {
      var off: nat :| OffersAt(s, peer, off);
      DataTracks(t, s, peer, read, off);
      var t1 := QueueRx(t, data).(rcvNxt := Mod32(t.rcvNxt + |data|));
      FinEof(t1, s, true, now);
      FinWhole(t1, s, peer, read, off);
    } else {
      var off: nat :| OffersAt(s, peer, off);
      OfferedData(s, peer, off);
      FinEof(t, s, false, now);
      NoGap(t.rcvNxt, |data|);
    }
  }

  lemma AckKeepsRx(t: Tcb, ack: int)
    ensures var t1 := OnTheirAck(t, ack); t1.state == Listen || (t1.rx == t.rx && t1.eof == t.eof && t1.peerFin == t.peerFin)
  {
  }

  lemma SegmentCompletes(t: Tcb, s: Segment, peer: Peer, read: seq<Byte>, now: int)
    requires Framed(s) && Tracks(t, peer, read) && Bounded(peer) && Conforms(s, peer) && Inv(t)
    requires t.state != Listen && OwnEof(t) && !t.eof && OnSegment(t, s, now).t.eof
    ensures HasFin(s) && read + t.rx + Data(s) == peer.stream && !t.peerFin
  {
    hide Tracks, Body, OnTheirAck, Conforms, Mod32, HasAck, HasSyn, HasFin, Inv, OwnEof;
    AckInv(t, s.ack);
    AckStream(t, s.ack, peer, read);
    AckEof(t, s.ack);
    AckKeepsRx(t, s.ack);
    var t1 := if HasAck(s) then OnTheirAck(t, s.ack) else t;
    if t1.state == SynRcvd {
      SynRcvdInv(t1);
      SynEof(t1);
      SameTracks(t1, t1.(state := Established), peer, read);
      BodyCompletes(t1.(state := Established), s, peer, read, now);
    } else if t1.state != Listen {
      BodyCompletes(t1, s, peer, read, now);
    }
  }

  lemma WholeByFin(t: Tcb, peer: Peer, read: seq<Byte>)
    requires Tracks(t, peer, read) && t.peerFin
    ensures read + t.rx == peer.stream
  {
    hide Mod32;
    assert Accepted(t, read) <= peer.stream;
  }

  /** End of file is never pending short of the whole stream: when an event leaves it
      pending, what was read and what was left unread make up the stream. */
  lemma StepCompletes(t: Tcb, e: Event, now: int, peer: Peer, read: seq<Byte>)
    requires Inv(t) && t.state != Listen && Tracks(t, peer, read) && Bounded(peer) && Honest(e, peer) && OwnEof(t)
    requires Step(t, e, now).t.eof && Step(t, e, now).t.state == Listen
    ensures read + LeftBy(t, e) == peer.stream
  {
    hide Inv, Tracks, Conforms, AppSend, CheckRto, Decode, OnSegment, HasFin, HasRst, HasAck, HasSyn, ParseMss, Mod32;
    if t.peerFin {
      WholeByFin(t, peer, read);
    } else {
      NotByTimer(t, e, now);
      OwnTuple(t, peer, read);
      var s := Decode(e.p, e.src, e.dst).value;
      SegmentCompletes(t, s, peer, read, now);
      assert read + (t.rx + Data(s)) == read + t.rx + Data(s);
    }
  }

  lemma OwnTuple(t: Tcb, peer: Peer, read: seq<Byte>)
    requires Tracks(t, peer, read)
    ensures SameTuple(t, peer.ip, peer.port)
  {
  }

  /** Only a segment of the connection makes end of file pending. */
  lemma NotByTimer(t: Tcb, e: Event, now: int)
    requires t.state != Listen && !t.eof && Step(t, e, now).t.eof
    ensures e.Arrive? && Decode(e.p, e.src, e.dst).Deliver?
    ensures var s := Decode(e.p, e.src, e.dst).value;
            SameTuple(t, e.src, s.sport) && Step(t, e, now) == OnSegment(t, s, now)
  {
    hide Decode, OnSegment, ParseMss, Mod32, Mod64, HasRst, HasAck, HasSyn;
  }

  // --- runs ----------------------------------------------------------------------------------

  /** The session after one event. */
  function After(s: Session, e: Event, now: nat): Session {
    Session(Step(s.t, e, Mod64(now)).t, ReadAfter(s.t, e, s.read))
  }

  /** What a run leaves unread: what waits at its end, or what was left when the
      connection closed. */
  function Left(s: Session, run: seq<Event>, now: nat): seq<Byte>
    decreases run
  {
    if run == [] || s.t.state == Listen then s.t.rx
    else
      var s' := After(s, run[0], now);
      if s'.t.state == Listen then LeftBy(s.t, run[0])
      else Left(s', run[1..], now + (if run[0].Wait? then run[0].ticks else 0))
  }

  /** Over every run of a connection with a conforming peer: when end of file is
      pending, what was read followed by what was left unread is the whole stream. */
  lemma {:induction false} EofMeansAll(s: Session, run: seq<Event>, now: nat, peer: Peer)
    requires Inv(s.t) && s.t.state != Listen && Tracks(s.t, peer, s.read) && OwnEof(s.t) && Bounded(peer)
    requires forall i | 0 <= i < |run| :: Honest(run[i], peer)
    ensures var f := Drive(s, run, now); f.t.eof ==> f.read + Left(s, run, now) == peer.stream
    decreases run
  {
    hide Inv, Tracks, OwnEof, Honest, Step, LeftBy;
    if run == [] {
      if s.t.eof {
        PendingOpen(s.t);
        WholeByFin(s.t, peer, s.read);
      }
    } else {
      var e, s' := run[0], After(s, run[0], now);
      assert Honest(e, peer);
      StepInv(s.t, e, Mod64(now));
      ReadPrefix(s.t, peer, s.read);
      StepStream(s.t, e, Mod64(now), peer, s.read);
      StepEof(s.t, e, Mod64(now));
      if s'.t.state == Listen {
        DriveStops(s', run[1..], now + (if e.Wait? then e.ticks else 0));
        if s'.t.eof {
          StepCompletes(s.t, e, Mod64(now), peer, s.read);
          ReadKeepsOpen(s.t, e, Mod64(now));
        }
      } else {
        forall i | 0 <= i < |run| - 1
          ensures Honest(run[1..][i], peer)
        {
          assert Honest(run[i + 1], peer);
        }
        EofMeansAll(s', run[1..], now + (if e.Wait? then e.ticks else 0), peer);
      }
    }
  }

  /** After FIN was taken and end of file was reported, no event makes it pending again. */
  lemma StepQuiet(t: Tcb, e: Event, now: int, peer: Peer, read: seq<Byte>)
    requires Inv(t) && t.state != Listen && Tracks(t, peer, read) && Bounded(peer) && Honest(e, peer)
    requires t.peerFin && !t.eof
    ensures var t' := Step(t, e, now).t; !t'.eof && (t'.state != Listen ==> t'.peerFin)
  {
    hide Inv, Tracks, Conforms, Decode, OnSegment, HasRst, HasAck, HasSyn, ParseMss, Mod32, Mod64;
    if e.Arrive? && Decode(e.p, e.src, e.dst).Deliver? {
      SegmentEof(t, Decode(e.p, e.src, e.dst).value, now);
    }
    if Step(t, e, now).t.eof {
      NotByTimer(t, e, now);
      OwnTuple(t, peer, read);
      SegmentCompletes(t, Decode(e.p, e.src, e.dst).value, peer, read, now);
    }
  }

  /** So a connection reports end of file at most once. */
  lemma {:induction false} EofOnce(s: Session, run: seq<Event>, now: nat, peer: Peer)
    requires Inv(s.t) && s.t.state != Listen && Tracks(s.t, peer, s.read) && Bounded(peer) && s.t.peerFin && !s.t.eof
    requires forall i | 0 <= i < |run| :: Honest(run[i], peer)
    ensures !Drive(s, run, now).t.eof
    decreases run
  {
    hide Inv, Tracks, Honest, Step;
    if run != [] {
      var e, s' := run[0], After(s, run[0], now);
      assert Honest(e, peer);
      StepInv(s.t, e, Mod64(now));
      ReadPrefix(s.t, peer, s.read);
      StepStream(s.t, e, Mod64(now), peer, s.read);
      StepQuiet(s.t, e, Mod64(now), peer, s.read);
      if s'.t.state == Listen {
        DriveStops(s', run[1..], now + (if e.Wait? then e.ticks else 0));
      } else {
        forall i | 0 <= i < |run| - 1
          ensures Honest(run[1..][i], peer)
        {
          assert Honest(run[i + 1], peer);
        }
        EofOnce(s', run[1..], now + (if e.Wait? then e.ticks else 0), peer);
      }
    }
  }

  lemma PendingOpen(t: Tcb)
    requires OwnEof(t) && t.state != Listen && t.eof
    ensures t.peerFin
  {
  }

  lemma DriveStops(s: Session, run: seq<Event>, now: nat)
    requires s.t.state == Listen
    ensures Drive(s, run, now) == s
  {
  }

  lemma ReadKeepsOpen(t: Tcb, e: Event, now: int)
    requires t.state != Listen && Step(t, e, now).t.state == Listen
    ensures !e.Read?
  {
  }

  // --- from the opening SYN ------------------------------------------------------------------

  /** One connection, opened by the bytes `p` in LISTEN, with any run in which the peer
      conforms: a pending end of file accounts for the whole stream. */
  ghost predicate WholeAtEof(t: Tcb, p: seq<Byte>, src: Ip, dst: Ip, now: int, run: seq<Event>, later: nat, stream: seq<Byte>) {
    var v := Decode(p, src, dst);
    var t1 := Handle(t, p, src, dst, now).t;
    v.Deliver? && t1.state == SynRcvd ==>
      var peer := Peer(src, v.value.sport, v.value.seqno, stream);
      (forall i | 0 <= i < |run| :: Honest(run[i], peer)) ==>
        var f := Drive(Session(t1, []), run, later);
        f.t.eof ==> f.read + Left(Session(t1, []), run, later) == stream
  }

  ghost predicate AlwaysWhole(t: Tcb, stream: seq<Byte>) {
    forall p: seq<Byte>, src: Ip, dst: Ip, now: int, run: seq<Event>, later: nat ::
      WholeAtEof(t, p, src, dst, now, run, later, stream)
  }

  lemma OpensWith(t: Tcb, p: seq<Byte>, src: Ip, dst: Ip, now: int)
    requires t.state == Listen && Handle(t, p, src, dst, now).t.state == SynRcvd
    ensures Handle(t, p, src, dst, now).t.eof == t.eof
  {
    hide Decode, OnSegment, ParseMss, HasRst, HasAck, HasSyn;
  }

  lemma TracksOpen(t: Tcb, peer: Peer, read: seq<Byte>)
    requires StreamOk(t, peer, read) && t.state != Listen
    ensures Tracks(t, peer, read)
  {
  }

  lemma WholeSession(t: Tcb, p: seq<Byte>, src: Ip, dst: Ip, now: int, run: seq<Event>, later: nat, stream: seq<Byte>)
    requires Inv(t) && t.state == Listen && !t.eof && |stream| <= 0xffff_fffe
    ensures WholeAtEof(t, p, src, dst, now, run, later, stream)
  {
    hide Handle, Drive, Left, StreamOk, Tracks, Honest, Inv, Decode;
    var v := Decode(p, src, dst);
    var t1 := Handle(t, p, src, dst, now).t;
    if v.Deliver? && t1.state == SynRcvd {
      var peer := Peer(src, v.value.sport, v.value.seqno, stream);
      HandleOpens(t, p, src, dst, now, stream);
      HandleInv(t, p, src, dst, now);
      OpensWith(t, p, src, dst, now);
      TracksOpen(t1, peer, []);
      if forall i | 0 <= i < |run| :: Honest(run[i], peer) {
        EofMeansAll(Session(t1, []), run, later, peer);
      }
    }
  }

  /** End of file is sticky across connections, so a connection's end of file can be
      trusted exactly when none was pending as it opened. */
  lemma StaleExact(t: Tcb, stream: seq<Byte>)
    requires Inv(t) && t.state == Listen && 0 < |stream| <= 0xffff_fffe
    ensures AlwaysWhole(t, stream) <==> !t.eof
  {
    hide WholeAtEof, Inv, Decode;
    if !t.eof {
      forall p: seq<Byte>, src: Ip, dst: Ip, now: int, run: seq<Event>, later: nat
        ensures WholeAtEof(t, p, src, dst, now, run, later, stream)
      {
        WholeSession(t, p, src, dst, now, run, later, stream);
      }
    } else {
      var ip: Ip := [10, 0, 2, 2];
      var p := SomeSyn(ip, ip);
      StaleRun(t, p, ip, stream);
      assert !WholeAtEof(t, p, ip, ip, 0, [], 0, stream);
    }
  }

  lemma StaleRun(t: Tcb, p: seq<Byte>, ip: Ip, stream: seq<Byte>)
    requires Inv(t) && t.state == Listen && t.eof && stream != []
    requires |p| == 20 && Decode(p, ip, ip) == Deliver(Segment(1, 0, 0, 2, 20, p))
    ensures !WholeAtEof(t, p, ip, ip, 0, [], 0, stream)
  {
    hide Handle, Inv, Decode, Honest;
    Opening(t, p, ip, ip);
    OpensWith(t, p, ip, ip, 0);
  }

  // --- an orderly close that loses data ---------------------------------------------------------

  /** The peer acknowledges our FIN and sends its one byte with its own. */
  predicate LastWord(e: Event, src: Ip, b: Byte) {
    && e.Arrive? && e.src == src && |e.p| == 21 && e.p[20..] == [b]
    && Decode(e.p, e.src, e.dst) == Deliver(Segment(1, 1, 2, 17, 20, e.p))
  }

  lemma SomeLastWord(src: Ip, dst: Ip, b: Byte) returns (e: Event)
    ensures LastWord(e, src, b)
  {
    hide Decode, SegBytes;
    e := Arrive(SegBytes(1, LISTEN_PORT, 1, 2, 17, [b], src, dst), src, dst);
    SegDecodes(1, 1, 2, 17, [b], src, dst);
  }

  lemma LastWordHonest(e: Event, src: Ip, b: Byte)
    requires LastWord(e, src, b)
    ensures Honest(e, SmallPeer(src, [b]))
  {
    hide Decode;
    assert OffersAt(Decode(e.p, e.src, e.dst).value, SmallPeer(src, [b]), 0);
  }

  /** The handshake's last segment. */
  lemma Established1(e: Event, src: Ip, t: Tcb, now: int)
    requires Taken(t, src, 0) && t.state == SynRcvd && FromPeer(e, src, 0, 16, [])
    ensures Step(t, e, now).t == t.(state := Established)
  {
    hide Decode, OnSegment, Step;
    var s := Decode(e.p, e.src, e.dst).value;
    ArriveIs(t, e, s, now);
    AckOpens(t, s, now);
  }

  lemma AckOpens(t: Tcb, s: Segment, now: int)
    requires Framed(s) && Data(s) == [] && s.flags == 16 && s.seqno == t.rcvNxt && s.ack == t.sndNxt
    requires t.state == SynRcvd && !t.inflight
    ensures OnSegment(t, s, now).t == t.(state := Established)
  {
    hide Mod32;
  }

  /** Our FIN goes out first. */
  lemma WeClose(t: Tcb, now: int)
    requires t.state == Established && !t.appSent && !t.inflight && t.sndNxt == 1
    ensures var t1 := Step(t, Send([], true), now).t;
            t1.state == FinWait1 && t1.inflight && t1.sndNxt == 2 && t1.appSent
            && t1 == t.(state := FinWait1, inflight := true, sndNxt := 2, appSent := true, unacked := [], unackedFin := true,
                        sndUna := 1, tries := 1, deadline := t1.deadline)
  {
    hide Mod64;
  }

  /** The byte and the peer's FIN close the connection; the byte is gone. */
  lemma TheyClose(t: Tcb, e: Event, src: Ip, b: Byte, now: int)
    requires LastWord(e, src, b) && SameTuple(t, src, 1) && t.rcvNxt == 1
    requires t.state == FinWait1 && t.inflight && t.sndNxt == 2 && !t.rxPending && !t.peerFin
    ensures var t1 := Step(t, e, now).t; t1.state == Listen && t1.eof && EofDue(t1) && t1.rx == []
  {
    hide Decode, OnSegment, Step;
    var s := Decode(e.p, e.src, e.dst).value;
    ArriveIs(t, e, s, now);
    LastBody(t, s, b, now);
  }

  lemma LastBody(t: Tcb, s: Segment, b: Byte, now: int)
    requires Framed(s) && Data(s) == [b] && s.flags == 17 && s.seqno == 1 && s.ack == 2
    requires t.rcvNxt == 1 && t.state == FinWait1 && t.inflight && t.sndNxt == 2 && !t.rxPending && !t.peerFin
    ensures var t1 := OnSegment(t, s, now).t; t1.state == Listen && t1.eof && EofDue(t1) && t1.rx == []
  {
    hide Body, Mod32;
    FlagBits(s);
    var t1 := OnTheirAck(t, 2);
    assert t1.state == FinWait2;
    LastData(t1, s, b, now);
  }

  lemma FlagBits(s: Segment)
    requires s.flags == 17
    ensures HasAck(s) && HasFin(s) && !HasSyn(s) && !HasRst(s)
  {
  }

  lemma LastData(t: Tcb, s: Segment, b: Byte, now: int)
    requires Framed(s) && Data(s) == [b] && HasFin(s) && s.seqno == t.rcvNxt == 1
    requires t.state == FinWait2 && !t.inflight && !t.rxPending
    ensures var t1 := Body(t, s, now).t; t1.state == Listen && t1.eof && EofDue(t1) && t1.rx == []
  {
    hide HasFin, Mod64;
  }

  /** An honest run in which end of file is due and the application got nothing, though
      the peer sent a byte and both sides closed in order: it was left unread. */
  lemma EofLosesData(b: Byte) returns (t: Tcb, p: seq<Byte>, ip: Ip, run: seq<Event>)
    ensures Inv(t) && t.state == Listen && !t.eof
    ensures var v := Decode(p, ip, ip); v.Deliver? && Peer(ip, v.value.sport, v.value.seqno, [b]) == SmallPeer(ip, [b])
    ensures forall i | 0 <= i < |run| :: Honest(run[i], SmallPeer(ip, [b]))
    ensures var t1 := Handle(t, p, ip, ip, 0).t;
            var f := Drive(Session(t1, []), run, 0);
            t1.state == SynRcvd && EofDue(f.t) && f.read == []
  {
    hide Decode, Handle, Drive, Step, Honest, FromPeer, LastWord, Inv;
    t, ip := Fresh(), [10, 0, 2, 2];
    FreshListens();
    p := SomeSyn(ip, ip);
    Opening(t, p, ip, ip);
    var t1 := Handle(t, p, ip, ip, 0).t;
    var a := SomeSegment(ip, ip, 0, 16, []);
    var z := SomeLastWord(ip, ip, b);
    run := [a] + ([Send([], true)] + ([z] + []));
    PeerHonest(a, ip, 0, 16, [], [b]);
    LastWordHonest(z, ip, b);
    SendHonest(SmallPeer(ip, [b]));
    Established1(a, ip, t1, Mod64(0));
    var t2 := Step(t1, a, Mod64(0)).t;
    WeClose(t2, Mod64(0));
    var t3 := Step(t2, Send([], true), Mod64(0)).t;
    TheyClose(t3, z, ip, b, Mod64(0));
    IsArrival(a, ip, 0, 16, []);
    DriveOne(Session(t1, []), a, [Send([], true)] + ([z] + []), 0);
    DriveOne(Session(t2, []), Send([], true), [z] + [], 0);
    LastArrival(z, ip, b);
    DriveOne(Session(t3, []), z, [], 0);
    DriveNone(Session(Step(t3, z, Mod64(0)).t, []), 0);
  }

  lemma LastArrival(e: Event, src: Ip, b: Byte)
    requires LastWord(e, src, b)
    ensures e.Arrive?
  {
  }

  lemma SendHonest(peer: Peer)
    ensures Honest(Send([], true), peer)
  {
  }
}
