/** The TCP control block (src/tcp.rs, RFC 793 section 3.9): passive open, one
    outstanding segment, retransmission, close. `now` is the cycle counter. */
module Tcp {
  import opened Ram
  import opened Checksum
  import opened Wire
  import opened TcpWire

  const PAYLOAD_MAX: int := 512
  const RTO_TICKS: int := 2_000_000
  const RTO_MAX: int := 8

  datatype State = Listen | SynRcvd | Established | FinWait1 | FinWait2 | CloseWait | LastAck

  /** `rx` and `unacked` are the occupied parts of the two buffers. */
  datatype Tcb = Tcb(
    state: State, remoteIp: Ip, remotePort: int,
    theirIsn: int, rcvNxt: int, sndIsn: int, sndUna: int, sndNxt: int, mss: int,
    rx: seq<Byte>, rxPending: bool,
    unacked: seq<Byte>, unackedFin: bool, inflight: bool,
    deadline: int, tries: int,
    sawData: bool, appSent: bool, eof: bool, peerFin: bool, rexmit: int)

  datatype Out =
    | NoOut
    | SynAck(ip: Ip, port: int, seqno: int, ack: int)
    | Seg(ip: Ip, port: int, seqno: int, ack: int, flags: int, payload: seq<Byte>)

  /** A new control block and what goes on the wire. */
  datatype Reply = Reply(t: Tcb, out: Out)

  function Fresh(): Tcb {
    Tcb(Listen, [0, 0, 0, 0], 0, 0, 0, 0, 0, 0, DEFAULT_MSS, [], false, [], false, false, 0, 0,
        false, false, false, false, 0)
  }

  predicate SameTuple(t: Tcb, src: Ip, sport: int) { t.remoteIp == src && t.remotePort == sport }

  function SynAckOf(t: Tcb): Out { SynAck(t.remoteIp, t.remotePort, t.sndIsn, t.rcvNxt) }

  function SegOf(t: Tcb, seqno: int, flags: int, payload: seq<Byte>): Out {
    Seg(t.remoteIp, t.remotePort, seqno, t.rcvNxt, flags, payload)
  }

  function AckOnly(t: Tcb): Out { SegOf(t, t.sndNxt, ACK, []) }

  /** The flags of the outstanding segment. */
  function UnackedFlags(t: Tcb): int {
    ACK + (if t.unacked != [] then PSH else 0) + (if t.unackedFin then FIN else 0)
  }

  // --- one function per source function --------------------------------------------

  /** `listen_reset`: end of file survives, an unread payload does not. */
  function ListenReset(t: Tcb): Tcb {
    t.(state := Listen, remoteIp := [0, 0, 0, 0], remotePort := 0, rx := [], rxPending := false,
       unacked := [], unackedFin := false, inflight := false, deadline := 0, tries := 0,
       sawData := false, appSent := false, peerFin := false)
  }

  /** The close transitions an acknowledged FIN makes. */
  function Advanced(t: Tcb): Tcb {
    match t.state
    case FinWait1 => if t.peerFin then ListenReset(t.(state := FinWait2)) else t.(state := FinWait2)
    case LastAck => ListenReset(t)
    case _ => t
  }

  /** `on_their_ack`. */
  function OnTheirAck(t: Tcb, ack: int): Tcb {
    if !t.inflight || ack != t.sndNxt then t
    else Advanced(t.(sndUna := ack, inflight := false, deadline := 0, unacked := [], unackedFin := false))
  }

  /** `queue_rx`: one payload at a time, at most `PAYLOAD_MAX` bytes. */
  predicate TakesData(t: Tcb, data: seq<Byte>) { data == [] || (!t.rxPending && |data| <= PAYLOAD_MAX) }

  function QueueRx(t: Tcb, data: seq<Byte>): Tcb {
    if data == [] || !TakesData(t, data) then t else t.(rx := data, rxPending := true, sawData := true)
  }

  /** `rx_fin`. */
  function RxFin(t: Tcb): Tcb {
    t.(rcvNxt := Mod32(t.rcvNxt + 1), eof := t.eof || t.sawData || t.appSent)
  }

  /** `send_unacked`. */
  function SendUnacked(t: Tcb, now: int): Reply {
    var next := Mod32(t.sndUna + |t.unacked| + (if t.unackedFin then 1 else 0));
    var t1 := t.(sndNxt := next, inflight := true, tries := 1, deadline := Mod64(now + RTO_TICKS));
    Reply(t1, SegOf(t1, t.sndUna, UnackedFlags(t), t.unacked))
  }

  /** `app_send`. */
  function AppSend(t: Tcb, data: seq<Byte>, fin: bool, now: int): Reply {
    if (t.state != Established && t.state != CloseWait) || t.appSent || t.inflight || |data| > PAYLOAD_MAX
    then Reply(t, NoOut)
    else
      var t1 := t.(unacked := data, unackedFin := fin, appSent := true, sndUna := t.sndNxt,
                   state := if !fin then t.state else if t.state == CloseWait then LastAck else FinWait1);
      SendUnacked(t1, now)
  }

  function Consume(t: Tcb): Tcb { t.(rxPending := false, rx := []) }

  /** `take_eof` answers whether end of file is due, and clears it. */
  predicate EofDue(t: Tcb) { t.eof && !t.rxPending && !t.inflight }

  function TakeEof(t: Tcb): Tcb { if EofDue(t) then t.(eof := false) else t }

  /** `check_rto`. */
  function CheckRto(t: Tcb, now: int): Reply {
    if !t.inflight || Mod64(now - t.deadline) > 0x7fff_ffff_ffff_ffff then Reply(t, NoOut)
    else if t.tries >= RTO_MAX then Reply(ListenReset(t), SegOf(t, t.sndNxt, RST + ACK, []))
    else
      Reply(t.(tries := t.tries + 1, rexmit := Mod32(t.rexmit + 1), deadline := Mod64(now + RTO_TICKS)),
            SegOf(t, t.sndUna, UnackedFlags(t), t.unacked))
  }

  predicate Framed(s: Segment) { 20 <= s.hlen <= |s.raw| }

  /** A bare SYN. */
  function OnSyn(t: Tcb, s: Segment, src: Ip, now: int): Reply
    requires Framed(s)
  {
    var mss := ParseMss(s.raw, s.hlen, 20, None);
    if mss.None? then Reply(t, NoOut)
    else if t.state == Listen then
      var isn := Mod32(now);
      var t1 := t.(remoteIp := src, remotePort := s.sport, theirIsn := s.seqno, rcvNxt := Mod32(s.seqno + 1),
                   sndIsn := isn, sndUna := Mod32(isn + 1), sndNxt := Mod32(isn + 1), mss := mss.value,
                   state := SynRcvd);
      Reply(t1, SynAckOf(t1))
    else if t.state == SynRcvd && SameTuple(t, src, s.sport) && s.seqno == t.theirIsn then Reply(t, SynAckOf(t))
    else Reply(t, NoOut)
  }

  /** The peer's FIN, in order. */
  function OnFin(t: Tcb, now: int): Reply {
    var t1 := RxFin(t).(peerFin := true);
    match t1.state
    case Established =>
      if !t1.sawData && !t1.appSent then
        SendUnacked(t1.(unacked := [], unackedFin := true, sndUna := t1.sndNxt, state := LastAck), now)
      else Reply(t1.(state := CloseWait), AckOnly(t1))
    case FinWait2 => Reply(ListenReset(t1), AckOnly(t1))
    case _ => Reply(t1, AckOnly(t1))
  }

  function FinPart(t: Tcb, s: Segment, needAck: bool, now: int): Reply
    requires Framed(s)
  {
    if HasFin(s) then
      if Mod32(s.seqno + |Data(s)|) != t.rcvNxt then Reply(t, AckOnly(t)) else OnFin(t, now)
    else Reply(t, if needAck then AckOnly(t) else NoOut)
  }

  /** Data, then FIN, of a segment on an open connection. */
  function Body(t: Tcb, s: Segment, now: int): Reply
    requires Framed(s)
  {
    var data := Data(s);
    if data == [] then FinPart(t, s, false, now)
    else if s.seqno != t.rcvNxt then Reply(t, AckOnly(t))
    else if TakesData(t, data) then
      FinPart(QueueRx(t, data).(rcvNxt := Mod32(t.rcvNxt + |data|)), s, true, now)
    else FinPart(t, s, false, now)
  }

  /** A segment of the open connection. */
  function OnSegment(t: Tcb, s: Segment, now: int): Reply
    requires Framed(s)
  {
    var t1 := if HasAck(s) then OnTheirAck(t, s.ack) else t;
    if t1.state == Listen then Reply(t1, NoOut)
    else if t1.state == SynRcvd then
      if HasAck(s) && !HasSyn(s) && s.ack == t1.sndNxt && s.seqno == t1.rcvNxt then
        Body(t1.(state := Established), s, now)
      else Reply(t1, NoOut)
    else Body(t1, s, now)
  }

  /** `handle`, past the checks of `Decode`. */
  function Receive(t: Tcb, s: Segment, src: Ip, now: int): Reply
    requires Framed(s)
  {
    if HasRst(s) then Reply(if t.state != Listen && SameTuple(t, src, s.sport) then ListenReset(t) else t, NoOut)
    else if HasSyn(s) && !HasAck(s) then OnSyn(t, s, src, now)
    else if t.state == Listen || !SameTuple(t, src, s.sport) then Reply(t, NoOut)
    else OnSegment(t, s, now)
  }

  /** `handle`, on arbitrary bytes. */
  function Handle(t: Tcb, p: seq<Byte>, src: Ip, dst: Ip, now: int): Reply {
    var v := Decode(p, src, dst);
    if v.Drop? then Reply(t, NoOut) else Receive(t, v.value, src, now)
  }
}
