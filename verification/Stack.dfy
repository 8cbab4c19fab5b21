/** Writers and parsers together, through Ethernet padding (src/net.rs): what goes
    out on the wire is what a receiver's parsers recover. */
module Stack {
  import opened Ram
  import opened Checksum
  import opened Wire
  import Ipv4
  import Udp
  import Icmp
  import TcpWire

  /** Header, message and padding behind an Ethernet header. */
  function Framed(ether: seq<Byte>, header: seq<Byte>, msg: seq<Byte>, padding: seq<Byte>): seq<Byte> {
    ether + header + msg + padding
  }

  /** The IPv4 parser hands on exactly the message, whatever padding follows. */
  lemma Delivers(ether: seq<Byte>, header: seq<Byte>, msg: seq<Byte>, padding: seq<Byte>, proto: Byte, src: Ip, dst: Ip)
    requires |ether| == 14 && |header| == 20 && 20 + |msg| < 0x1_0000
    requires Ipv4.Fields(header, 20 + |msg|, proto, src, dst) && Valid(header)
    requires proto == PROTO_ICMP || proto == PROTO_UDP || proto == PROTO_TCP
    ensures Ipv4.Parse(Framed(ether, header, msg, padding), dst) == Deliver(Ipv4.Datagram(src, proto, msg))
  {
    hide Valid, Ipv4.Fields, Ipv4.Parse;
    var eth := Framed(ether, header, msg, padding);
    Cuts(ether, header, msg, padding);
    FieldsAhead(header, eth[14..], 20 + |msg|, proto, src, dst);
    Ipv4.RoundTrip(eth, proto, src, dst, |msg|);
  }

  lemma Cuts(ether: seq<Byte>, header: seq<Byte>, msg: seq<Byte>, padding: seq<Byte>)
    requires |ether| == 14 && |header| == 20
    ensures var eth := Framed(ether, header, msg, padding);
            && |eth| >= 34 + |msg| && eth[14..34] == header && eth[34..34 + |msg|] == msg
            && forall i | 0 <= i < 20 :: eth[14..][i] == header[i]
  {
  }

  lemma FieldsAhead(h: seq<Byte>, ip: seq<Byte>, total: int, proto: Byte, src: Ip, dst: Ip)
    requires Ipv4.Fields(h, total, proto, src, dst) && |ip| >= 20 && forall i | 0 <= i < 20 :: ip[i] == h[i]
    ensures Ipv4.Fields(ip, total, proto, src, dst)
  {
    hide Word16;
  }

  /** A fresh 20-byte header. */
  method Header(n: nat, proto: Byte, src: Ip, dst: Ip) returns (h: seq<Byte>)
    requires 20 + n < 0x1_0000
    ensures |h| == 20 && Ipv4.Fields(h, 20 + n, proto, src, dst) && Valid(h)
  {
    hide Valid, Ipv4.Fields;
    var ip := new Byte[20];
    var r := Ipv4.WriteHeader(ip, 20 + n, proto, src, dst);
    assert ip[..20] == ip[..];
    h := ip[..];
  }

  /** A datagram to the echo port: sent, padded, received, it comes back with its
      source port and payload. */
  method SendUdp(ether: seq<Byte>, srcPort: int, payload: seq<Byte>, src: Ip, dst: Ip, padding: seq<Byte>)
    returns (frame: seq<Byte>)
    requires |ether| == 14 && 0 <= srcPort < 0x1_0000 && 28 + |payload| < 0x1_0000
    ensures var d := Ipv4.Parse(frame, dst);
            && d.Deliver? && d.value.src == src && d.value.proto == PROTO_UDP
            && var e := Udp.Parse(d.value.payload, src, dst);
               e.Deliver? && e.value.srcPort == srcPort && |e.value.raw| >= 8 && e.value.raw[8..] == payload
  {
    hide Valid, Ipv4.Fields, Ipv4.Parse, Udp.Fields, Udp.Parse, PseudoValid, At;
    var udp := new Byte[8 + |payload|];
    var n := Udp.WriteDgram(udp, srcPort, Udp.ECHO_PORT, payload, src, dst);
    var msg := udp[..];
    assert udp[..n.value] == msg;
    var h := Header(|msg|, PROTO_UDP, src, dst);
    frame := Framed(ether, h, msg, padding);
    Delivers(ether, h, msg, padding, PROTO_UDP, src, dst);
    Udp.RoundTrip(msg, srcPort, Udp.ECHO_PORT, payload, src, dst);
  }

  /** An echo request: the receiver sees its identifier, number and data, and its
      reply, sent back the same way, answers it. */
  method SendEcho(ether: seq<Byte>, id: int, seqno: int, data: seq<Byte>, src: Ip, dst: Ip, padding: seq<Byte>)
    returns (frame: seq<Byte>, back: seq<Byte>)
    requires |ether| == 14 && 0 <= id < 0x1_0000 && 0 <= seqno < 0x1_0000 && 28 + |data| < 0x1_0000
    ensures var d := Ipv4.Parse(frame, dst);
            && d.Deliver? && d.value.src == src && d.value.proto == PROTO_ICMP
            && Icmp.Parse(d.value.payload) == Deliver(Icmp.EchoReq(id, seqno, d.value.payload))
    ensures var d := Ipv4.Parse(back, src);
            && d.Deliver? && d.value.src == dst && d.value.proto == PROTO_ICMP
            && Icmp.Parse(d.value.payload) == Deliver(Icmp.EchoReply(id, seqno))
            && |d.value.payload| >= 8 && d.value.payload[8..] == data
  {
    hide Valid, Ipv4.Fields, Ipv4.Parse, Icmp.Fields, Icmp.Parse, Icmp.ReplyOf;
    var icmp := new Byte[8 + |data|];
    var n := Icmp.WriteEchoReq(icmp, id, seqno, data);
    var msg := icmp[..];
    assert icmp[..n.value] == msg;
    var h := Header(|msg|, PROTO_ICMP, src, dst);
    frame := Framed(ether, h, msg, padding);
    Delivers(ether, h, msg, padding, PROTO_ICMP, src, dst);
    Icmp.RoundTrip(msg, id, seqno, data);
    var rep := new Byte[|msg|];
    n := Icmp.WriteEchoReply(rep, msg);
    var reply := rep[..];
    assert rep[..n.value] == reply;
    Icmp.ReplyAnswers(msg);
    h := Header(|reply|, PROTO_ICMP, dst, src);
    back := Framed(ether, h, reply, padding);
    Delivers(ether, h, reply, padding, PROTO_ICMP, dst, src);
  }

  /** A TCP segment to the listening port: the receiver decodes its own fields and
      payload. */
  method SendTcp(ether: seq<Byte>, srcPort: int, seqno: int, ack: int, flags: Byte, payload: seq<Byte>,
                 src: Ip, dst: Ip, padding: seq<Byte>)
    returns (frame: seq<Byte>)
    requires |ether| == 14 && 0 <= srcPort < 0x1_0000 && 40 + |payload| < 0x1_0000
    requires 0 <= seqno < 0x1_0000_0000 && 0 <= ack < 0x1_0000_0000
    ensures var d := Ipv4.Parse(frame, dst);
            && d.Deliver? && d.value.src == src && d.value.proto == PROTO_TCP
            && TcpWire.Decode(d.value.payload, src, dst) == Deliver(TcpWire.Segment(srcPort, seqno, ack, flags, 20, d.value.payload))
            && |d.value.payload| >= 20 && d.value.payload[20..] == payload
  {
    hide Valid, Ipv4.Fields, Ipv4.Parse, TcpWire.Fields, TcpWire.Decode, PseudoValid;
    var tcp := new Byte[20 + |payload|];
    var n := TcpWire.WriteSeg(tcp, srcPort, TcpWire.LISTEN_PORT, seqno, ack, flags, payload, src, dst);
    var msg := tcp[..];
    assert tcp[..n.value] == msg && msg[20..] == payload;
    var h := Header(|msg|, PROTO_TCP, src, dst);
    frame := Framed(ether, h, msg, padding);
    Delivers(ether, h, msg, padding, PROTO_TCP, src, dst);
    TcpWire.RoundTrip(msg, srcPort, seqno, ack, flags, payload, src, dst);
  }
}
