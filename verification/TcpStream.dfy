/** What a conforming peer's byte stream turns into. The peer sends some stream
    from initial sequence number `isn`: any part of it, any number of times, in
    any order, and FIN only at its end. */
module TcpStream {
  import opened Ram
  import opened Checksum
  import opened Wire
  import opened TcpWire
  import opened Tcp
  import opened TcpSafety

  datatype Peer = Peer(ip: Ip, port: int, isn: int, stream: seq<Byte>)

  /** The segment carries the stream's bytes at offset `off`, and FIN only if
      they reach its end. */
  ghost predicate OffersAt(s: Segment, peer: Peer, off: nat)
    requires Framed(s)
  {
    && off + |Data(s)| <= |peer.stream|
    && s.seqno == Mod32(peer.isn + 1 + off)
    && Data(s) == peer.stream[off..off + |Data(s)|]
    && (HasFin(s) ==> off + |Data(s)| == |peer.stream|)
  }

  /** A segment with neither data nor FIN may carry any sequence number. */
  ghost predicate Conforms(s: Segment, peer: Peer)
    requires Framed(s)
  {
    (Data(s) == [] && !HasFin(s)) || exists off: nat :: OffersAt(s, peer, off)
  }

  /** Everything accepted so far: what the application has read, then what waits. */
  function Accepted(t: Tcb, read: seq<Byte>): seq<Byte> { read + t.rx }

  function Fins(t: Tcb): int { if t.peerFin then 1 else 0 }

  /** Accepted bytes are a prefix of the stream, FIN came only after all of it,
      and `rcv_nxt` counts both. */
  ghost predicate Tracks(t: Tcb, peer: Peer, read: seq<Byte>) {
    var a := Accepted(t, read);
    && SameTuple(t, peer.ip, peer.port)
    && a <= peer.stream
    && (t.peerFin ==> |a| == |peer.stream|)
    && t.rcvNxt == Mod32(peer.isn + 1 + |a| + Fins(t))
  }

  /** The connection is over, or it tracks the stream; either way what the
      application has read is a prefix of it. */
  ghost predicate StreamOk(t: Tcb, peer: Peer, read: seq<Byte>) {
    read <= peer.stream && (t.state != Listen ==> Tracks(t, peer, read))
  }

  lemma SameOffset(isn: int, x: nat, y: nat)
    requires Mod32(isn + 1 + x) == Mod32(isn + 1 + y) && x < 0x1_0000_0000 && y < 0x1_0000_0000
    ensures x == y
  {
  }

  lemma AddOffset(isn: int, x: int, n: int)
    ensures Mod32(Mod32(isn + 1 + x) + n) == Mod32(isn + 1 + (x + n))
  {
  }

  predicate Bounded(peer: Peer) { |peer.stream| <= 0xffff_fffe }

  /** Data taken in order extends the accepted prefix. */
  lemma DataTracks(t: Tcb, s: Segment, peer: Peer, read: seq<Byte>, off: nat)
    requires Framed(s) && Tracks(t, peer, read) && Bounded(peer) && OffersAt(s, peer, off)
    requires Data(s) != [] && s.seqno == t.rcvNxt && !t.rxPending && t.rx == []
    ensures Tracks(QueueRx(t, Data(s)).(rcvNxt := Mod32(t.rcvNxt + |Data(s)|)), peer, read) || |Data(s)| > PAYLOAD_MAX
    ensures !t.peerFin && off == |read|
  {
    hide Mod32, HasFin;
    SameOffset(peer.isn, off, |read| + Fins(t));
    AddOffset(peer.isn, off, |Data(s)|);
    assert Accepted(t, read) == read;
    assert read + Data(s) == peer.stream[..off + |Data(s)|];
  }

  /** A FIN taken in order comes after the whole stream, and only once. */
  lemma FinTracks(t: Tcb, s: Segment, peer: Peer, read: seq<Byte>, off: nat)
    requires Framed(s) && Tracks(t, peer, read) && Bounded(peer) && OffersAt(s, peer, off) && HasFin(s)
    requires Mod32(s.seqno + |Data(s)|) == t.rcvNxt
    ensures !t.peerFin && |Accepted(t, read)| == |peer.stream|
    ensures Tracks(RxFin(t).(peerFin := true), peer, read)
  {
    hide Mod32;
    AddOffset(peer.isn, off, |Data(s)|);
    SameOffset(peer.isn, |peer.stream|, |Accepted(t, read)| + Fins(t));
    AddOffset(peer.isn, |Accepted(t, read)|, 1);
  }

  /** Fields the stream does not depend on. */
  lemma SameTracks(t: Tcb, t': Tcb, peer: Peer, read: seq<Byte>)
    requires Tracks(t, peer, read)
    requires t'.remoteIp == t.remoteIp && t'.remotePort == t.remotePort
    requires t'.rcvNxt == t.rcvNxt && t'.rx == t.rx && t'.peerFin == t.peerFin
    ensures Tracks(t', peer, read)
  {
  }

  lemma ReadPrefix(t: Tcb, peer: Peer, read: seq<Byte>)
    requires Tracks(t, peer, read)
    ensures read <= peer.stream
  {
    assert read == Accepted(t, read)[..|read|];
  }

  lemma OnFinStream(t: Tcb, s: Segment, peer: Peer, read: seq<Byte>, off: nat, now: int)
    requires Framed(s) && Tracks(t, peer, read) && Bounded(peer) && OffersAt(s, peer, off) && HasFin(s)
    requires Mod32(s.seqno + |Data(s)|) == t.rcvNxt
    ensures StreamOk(OnFin(t, now).t, peer, read)
  {
    hide Tracks, OffersAt, Mod32, Mod64, HasFin;
    FinTracks(t, s, peer, read, off);
    ReadPrefix(t, peer, read);
    var t1 := RxFin(t).(peerFin := true);
    if OnFin(t, now).t.state != Listen {
      SameTracks(t1, OnFin(t, now).t, peer, read);
    }
  }

  lemma FinPartStream(t: Tcb, s: Segment, peer: Peer, read: seq<Byte>, need: bool, now: int)
    requires Framed(s) && Tracks(t, peer, read) && Bounded(peer) && Conforms(s, peer)
    ensures StreamOk(FinPart(t, s, need, now).t, peer, read)
  {
    hide Tracks, OffersAt, OnFin, Mod32, HasFin;
    ReadPrefix(t, peer, read);
    if HasFin(s) && Mod32(s.seqno + |Data(s)|) == t.rcvNxt {
      var off: nat :| OffersAt(s, peer, off);
      OnFinStream(t, s, peer, read, off, now);
    }
  }

  lemma BodyStream(t: Tcb, s: Segment, peer: Peer, read: seq<Byte>, now: int)
    requires Framed(s) && Tracks(t, peer, read) && Bounded(peer) && Conforms(s, peer) && Inv(t)
    ensures StreamOk(Body(t, s, now).t, peer, read)
  {
    hide Tracks, OffersAt, FinPart, Mod32, HasFin, SndOk, Ranges;
    var data := Data(s);
    ReadPrefix(t, peer, read);
    FinPartStream(t, s, peer, read, false, now);
    if data != [] && s.seqno == t.rcvNxt && TakesData(t, data) {
      var off: nat :| OffersAt(s, peer, off);
      DataTracks(t, s, peer, read, off);
      FinPartStream(QueueRx(t, data).(rcvNxt := Mod32(t.rcvNxt + |data|)), s, peer, read, true, now);
    }
  }

  lemma AckStream(t: Tcb, ack: int, peer: Peer, read: seq<Byte>)
    requires Tracks(t, peer, read)
    ensures StreamOk(OnTheirAck(t, ack), peer, read)
    ensures OnTheirAck(t, ack).state == SynRcvd ==> t.state == SynRcvd
  {
    hide Tracks;
    ReadPrefix(t, peer, read);
    var t' := OnTheirAck(t, ack);
    if t'.state != Listen {
      SameTracks(t, t', peer, read);
    }
  }

  lemma SegmentStream(t: Tcb, s: Segment, peer: Peer, read: seq<Byte>, now: int)
    requires Framed(s) && Tracks(t, peer, read) && Bounded(peer) && Conforms(s, peer) && Inv(t)
    ensures StreamOk(OnSegment(t, s, now).t, peer, read)
  {
    hide Tracks, Body, OnTheirAck, Conforms, Mod32, HasAck, HasSyn, Inv;
    AckInv(t, s.ack);
    AckStream(t, s.ack, peer, read);
    ReadPrefix(t, peer, read);
    var t1 := if HasAck(s) then OnTheirAck(t, s.ack) else t;
    if t1.state == SynRcvd {
      SynRcvdInv(t1);
      SameTracks(t1, t1.(state := Established), peer, read);
      BodyStream(t1.(state := Established), s, peer, read, now);
    } else if t1.state != Listen {
      BodyStream(t1, s, peer, read, now);
    }
  }

  lemma SynRcvdInv(t: Tcb)
    requires Inv(t) && t.state == SynRcvd
    ensures Inv(t.(state := Established))
  {
  }

  /** Any segment at all: from the peer it conforms, from elsewhere it is arbitrary. */
  lemma ReceiveStream(t: Tcb, s: Segment, src: Ip, peer: Peer, read: seq<Byte>, now: int)
    requires Framed(s) && Inv(t) && Tracks(t, peer, read) && t.state != Listen && Bounded(peer)
    requires SameTuple(t, src, s.sport) ==> Conforms(s, peer)
    ensures StreamOk(Receive(t, s, src, now).t, peer, read)
  {
    hide Tracks, Conforms, OnSegment, ParseMss, Inv, HasRst, HasAck, HasSyn;
    ReadPrefix(t, peer, read);
    if SameTuple(t, src, s.sport) {
      SegmentStream(t, s, peer, read, now);
    }
  }

  // --- runs of one connection -----------------------------------------------------------

  /** Bytes from the peer's address and port, if they decode, conform. */
  ghost predicate Honest(e: Event, peer: Peer) {
    e.Arrive? ==>
      var v := Decode(e.p, e.src, e.dst);
      v.Deliver? && e.src == peer.ip && v.value.sport == peer.port ==> Conforms(v.value, peer)
  }

  /** What the application has read after one more event. */
  function ReadAfter(t: Tcb, e: Event, read: seq<Byte>): seq<Byte> {
    if e.Read? then read + t.rx else read
  }

  lemma StepStream(t: Tcb, e: Event, now: int, peer: Peer, read: seq<Byte>)
    requires Inv(t) && t.state != Listen && StreamOk(t, peer, read) && Bounded(peer) && Honest(e, peer)
    ensures StreamOk(Step(t, e, now).t, peer, ReadAfter(t, e, read))
  {
    hide Inv, Tracks, Conforms, Handle, AppSend, CheckRto, Decode;
    ReadPrefix(t, peer, read);
    match e
    case Arrive(p, src, dst) => ArriveStream(t, e, now, peer, read);
    case Send(data, fin) => SendStream(t, data, fin, now, peer, read);
    case Read => ReadStream(t, peer, read);
    case AskEof => SameTracks(t, TakeEof(t), peer, read);
    case Poll => PollStream(t, now, peer, read);
    case Wait(ticks) =>
  }

  lemma ArriveStream(t: Tcb, e: Event, now: int, peer: Peer, read: seq<Byte>)
    requires Inv(t) && t.state != Listen && Tracks(t, peer, read) && Bounded(peer) && Honest(e, peer) && e.Arrive?
    ensures StreamOk(Handle(t, e.p, e.src, e.dst, now).t, peer, read)
  {
    hide Inv, Conforms, Receive, Decode, Accepted;
    var v := Decode(e.p, e.src, e.dst);
    ReadPrefix(t, peer, read);
    if v.Deliver? {
      ReceiveStream(t, v.value, e.src, peer, read, now);
    }
  }

  lemma SendStream(t: Tcb, data: seq<Byte>, fin: bool, now: int, peer: Peer, read: seq<Byte>)
    requires t.state != Listen && Tracks(t, peer, read)
    ensures StreamOk(AppSend(t, data, fin, now).t, peer, read)
  {
    hide Tracks, Mod32, Mod64;
    ReadPrefix(t, peer, read);
    SameTracks(t, AppSend(t, data, fin, now).t, peer, read);
  }

  lemma PollStream(t: Tcb, now: int, peer: Peer, read: seq<Byte>)
    requires t.state != Listen && Tracks(t, peer, read)
    ensures StreamOk(CheckRto(t, now).t, peer, read)
  {
    hide Tracks, Mod32, Mod64;
    ReadPrefix(t, peer, read);
    if CheckRto(t, now).t.state != Listen {
      SameTracks(t, CheckRto(t, now).t, peer, read);
    }
  }

  lemma ReadStream(t: Tcb, peer: Peer, read: seq<Byte>)
    requires Tracks(t, peer, read)
    ensures StreamOk(Consume(t), peer, read + t.rx)
  {
    hide Mod32;
    assert Accepted(Consume(t), read + t.rx) == Accepted(t, read);
  }

  /** A run of one connection: it stops where the connection does. */
  datatype Session = Session(t: Tcb, read: seq<Byte>)

  function Drive(s: Session, run: seq<Event>, now: nat): Session
    decreases run
  {
    if run == [] || s.t.state == Listen then s
    else
      var now' := now + (if run[0].Wait? then run[0].ticks else 0);
      Drive(Session(Step(s.t, run[0], Mod64(now)).t, ReadAfter(s.t, run[0], s.read)), run[1..], now')
  }

  /** Over every run of a connection with a conforming peer, what the application
      reads is a gap-free, in-order, duplicate-free prefix of the peer's stream. */
  lemma {:induction false} SessionStream(s: Session, run: seq<Event>, now: nat, peer: Peer)
    requires Inv(s.t) && StreamOk(s.t, peer, s.read) && Bounded(peer)
    requires forall i | 0 <= i < |run| :: Honest(run[i], peer)
    ensures StreamOk(Drive(s, run, now).t, peer, Drive(s, run, now).read)
    decreases run
  {
    hide Inv, StreamOk, Honest, Step;
    if run != [] && s.t.state != Listen {
      var s' := Session(Step(s.t, run[0], Mod64(now)).t, ReadAfter(s.t, run[0], s.read));
      assert Honest(run[0], peer);
      StepInv(s.t, run[0], Mod64(now));
      StepStream(s.t, run[0], Mod64(now), peer, s.read);
      forall i | 0 <= i < |run| - 1
        ensures Honest(run[1..][i], peer)
      {
        assert Honest(run[i + 1], peer);
      }
      SessionStream(s', run[1..], now + (if run[0].Wait? then run[0].ticks else 0), peer);
    }
  }

  /** The SYN that opens a connection starts it with nothing accepted. */
  lemma OpenStream(t: Tcb, s: Segment, src: Ip, now: int, stream: seq<Byte>)
    requires Inv(t) && t.state == Listen && Framed(s)
    ensures var t' := OnSyn(t, s, src, now).t;
            t'.state == SynRcvd ==> StreamOk(t', Peer(src, s.sport, s.seqno, stream), [])
  {
    hide ParseMss, Mod32;
  }

  // --- the bound is exact -----------------------------------------------------------------

  /** One connection: opened by the bytes `p` in LISTEN, then any run in which the
      peer conforms to `stream`. */
  ghost predicate SessionSafe(t: Tcb, p: seq<Byte>, src: Ip, dst: Ip, now: int, run: seq<Event>, later: nat, stream: seq<Byte>) {
    var v := Decode(p, src, dst);
    var t1 := Handle(t, p, src, dst, now).t;
    v.Deliver? && Inv(t) && t.state == Listen && t1.state == SynRcvd ==>
      var peer := Peer(src, v.value.sport, v.value.seqno, stream);
      (forall i | 0 <= i < |run| :: Honest(run[i], peer)) ==>
        var s := Drive(Session(t1, []), run, later);
        StreamOk(s.t, peer, s.read)
  }

  /** Every such connection delivers a prefix of the stream, whatever happens. */
  ghost predicate AlwaysSafe(stream: seq<Byte>) {
    forall t: Tcb, p: seq<Byte>, src: Ip, dst: Ip, now: int, run: seq<Event>, later: nat ::
      SessionSafe(t, p, src, dst, now, run, later, stream)
  }

  /** A connection opens only by a SYN, with nothing accepted. */
  lemma HandleOpens(t: Tcb, p: seq<Byte>, src: Ip, dst: Ip, now: int, stream: seq<Byte>)
    requires Inv(t) && t.state == Listen && Decode(p, src, dst).Deliver? && Handle(t, p, src, dst, now).t.state == SynRcvd
    ensures var s := Decode(p, src, dst).value;
            StreamOk(Handle(t, p, src, dst, now).t, Peer(src, s.sport, s.seqno, stream), [])
  {
    hide Decode, OnSegment, OnSyn, Inv, HasRst, HasAck, HasSyn, StreamOk;
    OpenStream(t, Decode(p, src, dst).value, src, now, stream);
  }

  /** For streams short of 2^32 bytes: every run of every connection is safe exactly
      when stream and FIN together fit the sequence space. With 2^32 - 1 bytes there
      is a run, of one-byte segments, that takes the first byte again after FIN. */
  lemma ExactBound(stream: seq<Byte>)
    requires |stream| < 0x1_0000_0000
    ensures AlwaysSafe(stream) <==> |stream| <= 0xffff_fffe
  {
    hide SessionSafe, Inv, Decode, Fresh;
    if |stream| <= 0xffff_fffe {
      forall t: Tcb, p: seq<Byte>, src: Ip, dst: Ip, now: int, run: seq<Event>, later: nat
        ensures SessionSafe(t, p, src, dst, now, run, later, stream)
      {
        SafeSession(t, p, src, dst, now, run, later, stream);
      }
    } else {
      var ip: Ip := [10, 0, 2, 2];
      FreshListens();
      var p := SomeSyn(ip, ip);
      var run := UnsafeRun(Fresh(), p, ip, ip, stream);
      assert !SessionSafe(Fresh(), p, ip, ip, 0, run, 0, stream);
    }
  }

  lemma SafeSession(t: Tcb, p: seq<Byte>, src: Ip, dst: Ip, now: int, run: seq<Event>, later: nat, stream: seq<Byte>)
    requires |stream| <= 0xffff_fffe
    ensures SessionSafe(t, p, src, dst, now, run, later, stream)
  {
    hide Handle, Drive, StreamOk, Honest, Inv, Decode;
    var v := Decode(p, src, dst);
    var t1 := Handle(t, p, src, dst, now).t;
    if v.Deliver? && Inv(t) && t.state == Listen && t1.state == SynRcvd {
      var peer := Peer(src, v.value.sport, v.value.seqno, stream);
      HandleOpens(t, p, src, dst, now, stream);
      HandleInv(t, p, src, dst, now);
      if forall i | 0 <= i < |run| :: Honest(run[i], peer) {
        SessionStream(Session(t1, []), run, later, peer);
      }
    }
  }

  // --- the unsafe run ---------------------------------------------------------------------------

  function SmallPeer(src: Ip, stream: seq<Byte>): Peer { Peer(src, 1, 0, stream) }

  /** `e` is a segment of the peer: everything of ours acknowledged, `data` at offset
      `off`. */
  predicate FromPeer(e: Event, src: Ip, off: nat, flags: Byte, data: seq<Byte>) {
    && e.Arrive? && e.src == src && |e.p| == 20 + |data| && e.p[20..] == data
    && Decode(e.p, e.src, e.dst) == Deliver(Segment(1, Mod32(1 + off), 1, flags, 20, e.p))
  }

  /** The connection with `i` bytes accepted and read. */
  predicate Taken(t: Tcb, src: Ip, i: nat) {
    && (t.state == Established || (t.state == SynRcvd && i == 0))
    && SameTuple(t, src, 1) && t.rcvNxt == Mod32(1 + i) && t.sndNxt == 1 && !t.inflight
    && t.rx == [] && !t.rxPending && !t.appSent && !t.peerFin && (i > 0 ==> t.sawData)
  }

  /** A SYN opens any idle control block. */
  lemma Opening(t: Tcb, p: seq<Byte>, src: Ip, dst: Ip)
    requires Inv(t) && t.state == Listen
    requires |p| == 20 && Decode(p, src, dst) == Deliver(Segment(1, 0, 0, 2, 20, p))
    ensures var t1 := Handle(t, p, src, dst, 0).t; t1.state == SynRcvd && Taken(t1, src, 0)
  {
    hide Decode, OnSegment, ParseMss;
    NoOptions(p);
  }

  lemma NoOptions(p: seq<Byte>)
    requires |p| == 20
    ensures ParseMss(p, 20, 20, None) == Some(DEFAULT_MSS)
  {
  }

  lemma SomeSyn(src: Ip, dst: Ip) returns (p: seq<Byte>)
    ensures |p| == 20 && Decode(p, src, dst) == Deliver(Segment(1, 0, 0, 2, 20, p))
  {
    hide Decode, SegBytes;
    p := SegBytes(1, LISTEN_PORT, 0, 0, 2, [], src, dst);
    SegDecodes(1, 0, 0, 2, [], src, dst);
  }

  /** The peer can send any such segment. */
  lemma SomeSegment(src: Ip, dst: Ip, off: nat, flags: Byte, data: seq<Byte>) returns (e: Event)
    requires |data| <= 1
    ensures FromPeer(e, src, off, flags, data)
  {
    hide Decode, SegBytes, Mod32;
    e := Arrive(SegBytes(1, LISTEN_PORT, Mod32(1 + off), 1, flags, data, src, dst), src, dst);
    SegDecodes(1, Mod32(1 + off), 1, flags, data, src, dst);
  }

  lemma PeerHonest(e: Event, src: Ip, off: nat, flags: Byte, data: seq<Byte>, stream: seq<Byte>)
    requires FromPeer(e, src, off, flags, data)
    requires off + |data| <= |stream| && data == stream[off..off + |data|]
    requires flags % 2 == 1 ==> off + |data| == |stream|
    ensures Honest(e, SmallPeer(src, stream))
  {
    hide Decode, Mod32;
    assert OffersAt(Decode(e.p, e.src, e.dst).value, SmallPeer(src, stream), off);
  }

  /** A data segment in order is accepted, opening the connection if need be. */
  lemma Takes(t: Tcb, s: Segment, b: Byte, now: int)
    requires Framed(s) && Data(s) == [b] && s.flags == 16 && s.seqno == t.rcvNxt && s.ack == t.sndNxt
    requires !t.inflight && !t.rxPending && (t.state == Established || t.state == SynRcvd || t.state == CloseWait)
    ensures var t' := OnSegment(t, s, now).t;
            t' == t.(state := if t.state == SynRcvd then Established else t.state, rx := [b], rxPending := true,
                     sawData := true, rcvNxt := Mod32(t.rcvNxt + 1))
  {
    hide Mod32, OnFin;
  }

  /** The step for bytes that decode to a segment of the connection. */
  lemma ArriveIs(t: Tcb, e: Event, s: Segment, now: int)
    requires e.Arrive? && Decode(e.p, e.src, e.dst) == Deliver(s) && t.state != Listen && SameTuple(t, e.src, s.sport)
    requires s.flags == 16 || s.flags == 17
    ensures Framed(s) && Step(t, e, now) == OnSegment(t, s, now)
  {
    hide Decode, OnSegment, OnSyn;
  }

  lemma NextMod(x: int)
    ensures Mod32(Mod32(x) + 1) == Mod32(x + 1)
  {
  }

  /** One byte delivered and read. */
  lemma ByteTaken(e: Event, src: Ip, t: Tcb, i: nat, b: Byte, now: int)
    requires Taken(t, src, i) && FromPeer(e, src, i, 16, [b])
    ensures var t1 := Step(t, e, now).t;
            t1.state == Established && t1.rx == [b] && Taken(Consume(t1), src, i + 1)
  {
    hide Decode, Mod32, OnSegment, Step;
    var s := Decode(e.p, e.src, e.dst).value;
    ArriveIs(t, e, s, now);
    Takes(t, s, b, now);
    NextMod(1 + i);
  }

  /** FIN after the whole stream. */
  lemma FinTaken(e: Event, src: Ip, t: Tcb, i: nat, now: int)
    requires Taken(t, src, i) && i > 0 && FromPeer(e, src, i, 17, [])
    ensures Step(t, e, now).t == t.(state := CloseWait, peerFin := true, rcvNxt := Mod32(1 + i + 1), eof := true)
  {
    hide Decode, Mod32, OnSegment, Step;
    var s := Decode(e.p, e.src, e.dst).value;
    ArriveIs(t, e, s, now);
    FinIs(t, s, now);
    NextMod(1 + i);
  }

  lemma FinIs(t: Tcb, s: Segment, now: int)
    requires Framed(s) && Data(s) == [] && s.flags == 17 && s.seqno == t.rcvNxt && 0 <= s.seqno < 0x1_0000_0000
    requires !t.inflight && t.state == Established && t.sawData
    ensures OnSegment(t, s, now).t == t.(state := CloseWait, peerFin := true, rcvNxt := Mod32(t.rcvNxt + 1), eof := true)
  {
    assert Mod32(s.seqno) == s.seqno;
  }

  lemma DriveOne(s: Session, e: Event, rest: seq<Event>, now: nat)
    requires s.t.state != Listen && !e.Wait?
    ensures Drive(s, [e] + rest, now) == Drive(Session(Step(s.t, e, Mod64(now)).t, ReadAfter(s.t, e, s.read)), rest, now)
  {
    assert ([e] + rest)[1..] == rest;
  }

  /** From any point of the delivery, the rest of it, FIN, and the first byte again. */
  lemma {:induction false} DeliverFrom(src: Ip, dst: Ip, t: Tcb, i: nat, stream: seq<Byte>) returns (run: seq<Event>)
    requires Taken(t, src, i) && i <= |stream| == 0xffff_ffff
    ensures forall j | 0 <= j < |run| :: Honest(run[j], SmallPeer(src, stream))
    ensures var s := Drive(Session(t, stream[..i]), run, 0); !StreamOk(s.t, SmallPeer(src, stream), s.read)
    decreases |stream| - i
  {
    hide FromPeer, Drive, Step, Honest, StreamOk;
    if i < |stream| {
      var e := SomeSegment(src, dst, i, 16, [stream[i]]);
      IsArrival(e, src, i, 16, [stream[i]]);
      ByteTaken(e, src, t, i, stream[i], Mod64(0));
      PeerHonest(e, src, i, 16, [stream[i]], stream);
      var t1 := Step(t, e, Mod64(0)).t;
      var rest := DeliverFrom(src, dst, Consume(t1), i + 1, stream);
      run := [e] + ([Read] + rest);
      DriveOne(Session(t, stream[..i]), e, [Read] + rest, 0);
      DriveOne(Session(t1, stream[..i]), Read, rest, 0);
      ReadStep(t1, Mod64(0));
      assert stream[..i] + [stream[i]] == stream[..i + 1];
      ReadHonest(SmallPeer(src, stream));
    } else {
      run := LastRun(src, dst, t, stream);
      assert stream[..i] == stream;
    }
  }

  lemma IsArrival(e: Event, src: Ip, off: nat, flags: Byte, data: seq<Byte>)
    requires FromPeer(e, src, off, flags, data)
    ensures e.Arrive?
  {
  }

  lemma ReadStep(t: Tcb, now: int)
    ensures Step(t, Read, now).t == Consume(t)
  {
  }

  lemma ReadHonest(peer: Peer)
    ensures Honest(Read, peer)
  {
  }

  lemma LastRun(src: Ip, dst: Ip, t: Tcb, stream: seq<Byte>) returns (run: seq<Event>)
    requires Taken(t, src, |stream|) && |stream| == 0xffff_ffff
    ensures forall j | 0 <= j < |run| :: Honest(run[j], SmallPeer(src, stream))
    ensures var s := Drive(Session(t, stream), run, 0); !StreamOk(s.t, SmallPeer(src, stream), s.read)
  {
    hide FromPeer, Drive, Step, Honest, StreamOk;
    var f := SomeSegment(src, dst, |stream|, 17, []);
    var e := SomeSegment(src, dst, 0, 16, [stream[0]]);
    run := [f] + ([e] + []);
    IsArrival(f, src, |stream|, 17, []);
    IsArrival(e, src, 0, 16, [stream[0]]);
    PeerHonest(f, src, |stream|, 17, [], stream);
    PeerHonest(e, src, 0, 16, [stream[0]], stream);
    FinTaken(f, src, t, |stream|, Mod64(0));
    var t1 := Step(t, f, Mod64(0)).t;
    DriveOne(Session(t, stream), f, [e] + [], 0);
    DriveOne(Session(t1, stream), e, [], 0);
    TakenAgain(e, src, t1, stream[0], Mod64(0));
    var t2 := Step(t1, e, Mod64(0)).t;
    DriveNone(Session(t2, stream), 0);
    TooMuch(t2, SmallPeer(src, stream), stream);
  }

  lemma DriveNone(s: Session, now: nat)
    ensures Drive(s, [], now) == s
  {
  }

  /** After 2^32 - 1 bytes and FIN the receive position is back where it began. */
  lemma TakenAgain(e: Event, src: Ip, t: Tcb, b: Byte, now: int)
    requires t.state == CloseWait && SameTuple(t, src, 1) && t.rcvNxt == Mod32(1 + 0xffff_ffff + 1)
    requires t.sndNxt == 1 && !t.inflight && !t.rxPending && FromPeer(e, src, 0, 16, [b])
    ensures var t1 := Step(t, e, now).t; t1.state == CloseWait && t1.rx == [b]
  {
    hide Decode, OnSegment, Step;
    var s := Decode(e.p, e.src, e.dst).value;
    ArriveIs(t, e, s, now);
    Takes(t, s, b, now);
  }

  lemma TooMuch(t: Tcb, peer: Peer, read: seq<Byte>)
    requires t.state != Listen && read == peer.stream && t.rx != []
    ensures !StreamOk(t, peer, read)
  {
    assert |Accepted(t, read)| > |peer.stream|;
  }

  lemma UnsafeRun(t: Tcb, p: seq<Byte>, src: Ip, dst: Ip, stream: seq<Byte>) returns (run: seq<Event>)
    requires |stream| == 0xffff_ffff && Inv(t) && t.state == Listen
    requires |p| == 20 && Decode(p, src, dst) == Deliver(Segment(1, 0, 0, 2, 20, p))
    ensures !SessionSafe(t, p, src, dst, 0, run, 0, stream)
  {
    hide Handle, Drive, StreamOk, Honest, Inv, Decode;
    Opening(t, p, src, dst);
    run := DeliverFrom(src, dst, Handle(t, p, src, dst, 0).t, 0, stream);
    assert stream[..0] == [];
  }

  lemma FreshListens()
    ensures Inv(Fresh()) && Fresh().state == Listen
  {
    InitInv();
  }
}
