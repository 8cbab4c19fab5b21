/** UDP parse, build and echo (src/udp.rs, RFC 768). */
module Udp {
  import opened Ram
  import opened Checksum
  import opened Wire

  const ECHO_PORT: int := 7

  datatype Echo = Echo(srcPort: int, raw: seq<Byte>)

  /** `parse`: a received checksum of zero is refused. */
  function Parse(u: seq<Byte>, src: Ip, dst: Ip): Verdict<Echo> {
    if |u| < 8 then Drop(Short)
    else if At(u, 4) != |u| then Drop(Length)
    else if At(u, 6) == 0 then Drop(BadSum)
    else if !PseudoValid(src, dst, PROTO_UDP, u) then Drop(BadSum)
    else if At(u, 2) != ECHO_PORT then Drop(Port)
    else Deliver(Echo(At(u, 0), u))
  }

  ghost predicate Fields(u: seq<Byte>, srcPort: int, dstPort: int, payload: seq<Byte>) {
    && |u| == 8 + |payload|
    && At(u, 0) == srcPort && At(u, 2) == dstPort && At(u, 4) == |u| % 0x1_0000
    && forall i | 0 <= i < |payload| :: u[8 + i] == payload[i]
  }

  /** `store_checksum`: zero means "no checksum" on the wire, so it is sent as its
      other representation. */
  function StoreChecksum(c: nat): nat { if c == 0 then 0xffff else c }

  /** `write_dgram`, in place: a well-formed datagram that the receiver's check
      accepts, never with checksum zero. */
  method WriteDgram(buf: array<Byte>, srcPort: int, dstPort: int, payload: seq<Byte>, src: Ip, dst: Ip)
    returns (r: Outcome<nat>)
    requires 0 <= srcPort < 0x1_0000 && 0 <= dstPort < 0x1_0000
    modifies buf
    ensures r.Done? <==> 8 + |payload| <= buf.Length
    ensures r.Done? ==>
              && r.value == 8 + |payload| && Fields(buf[..r.value], srcPort, dstPort, payload)
              && At(buf[..r.value], 6) != 0
              && (r.value <= 131062 ==> PseudoValid(src, dst, PROTO_UDP, buf[..r.value]))
              && (forall i | r.value <= i < buf.Length :: buf[i] == old(buf[i]))
  {
    hide PseudoSum, PseudoValid, Put, Fields, At;
    var n := 8 + |payload|;
    if buf.Length < n {
      return Panic;
    }
    WriteFields(buf, srcPort, dstPort, payload);
    ghost var was := buf[..];
    var c := Close(buf, n, src, dst);
    PutSlice(was, n, 6, c);
    FieldsPut(was[..n], c, srcPort, dstPort, payload);
    r := Done(n);
  }

  method WriteFields(buf: array<Byte>, srcPort: int, dstPort: int, payload: seq<Byte>)
    requires 0 <= srcPort < 0x1_0000 && 0 <= dstPort < 0x1_0000 && 8 + |payload| <= buf.Length
    modifies buf
    ensures Fields(buf[..8 + |payload|], srcPort, dstPort, payload) && At(buf[..], 6) == 0
    ensures forall i | 8 + |payload| <= i < buf.Length :: buf[i] == old(buf[i])
  {
    hide Word16;
    WriteLead(buf, srcPort, dstPort, 8 + |payload|);
    Copy(buf, 8, payload);
  }

  method WriteLead(buf: array<Byte>, srcPort: int, dstPort: int, n: nat)
    requires 0 <= srcPort < 0x1_0000 && 0 <= dstPort < 0x1_0000 && 8 <= buf.Length
    modifies buf
    ensures Word16(buf[0], buf[1]) == srcPort && Word16(buf[2], buf[3]) == dstPort
    ensures Word16(buf[4], buf[5]) == n % 0x1_0000 && Word16(buf[6], buf[7]) == 0
    ensures forall i | 8 <= i < buf.Length :: buf[i] == old(buf[i])
  {
    hide Word16, Put;
    CopyWord(buf, 0, srcPort);
    CopyWord(buf, 2, dstPort);
    CopyWord(buf, 4, n % 0x1_0000);
    CopyWord(buf, 6, 0);
  }

  /** Sum the first `n` bytes under the pseudo-header and store the checksum. */
  method Close(buf: array<Byte>, n: nat, src: Ip, dst: Ip) returns (c: nat)
    requires 8 <= n <= buf.Length && At(buf[..], 6) == 0
    modifies buf
    ensures 0 < c <= 0xffff && c == StoreChecksum(0xffff - PseudoSum(src, dst, PROTO_UDP, old(buf[..n])))
    ensures buf[..] == Put(old(buf[..]), 6, c)
    ensures n <= 131062 ==> PseudoValid(src, dst, PROTO_UDP, buf[..n])
  {
    hide PseudoSum, PseudoValid, Put, At;
    var s := ComputePseudoSum(src, dst, PROTO_UDP, buf[..n]);
    c := StoreChecksum(0xffff - s);
    PutSlice(buf[..], n, 6, c);
    if n <= 131062 {
      ClosedIsValid(src, dst, PROTO_UDP, buf[..n], 6, c);
    }
    CopyWord(buf, 6, c);
  }

  lemma FieldsPut(u: seq<Byte>, c: int, srcPort: int, dstPort: int, payload: seq<Byte>)
    requires Fields(u, srcPort, dstPort, payload) && 0 <= c < 0x1_0000
    ensures Fields(Put(u, 6, c), srcPort, dstPort, payload)
  {
  }

  /** The parser takes back exactly what the writer wrote. */
  lemma RoundTrip(u: seq<Byte>, srcPort: int, dstPort: int, payload: seq<Byte>, src: Ip, dst: Ip)
    requires Fields(u, srcPort, dstPort, payload) && |u| < 0x1_0000
    requires At(u, 6) != 0 && PseudoValid(src, dst, PROTO_UDP, u)
    ensures Parse(u, src, dst) == if dstPort == ECHO_PORT then Deliver(Echo(srcPort, u)) else Drop(Port)
    ensures u[8..] == payload
  {
    hide PseudoValid;
  }

  // --- echo --------------------------------------------------------------------------

  /** A datagram with its two ports exchanged. */
  function Swapped(u: seq<Byte>): (r: seq<Byte>)
    requires |u| >= 8
    ensures |r| == |u|
  {
    u[2..4] + u[0..2] + u[4..]
  }

  /** `write_echo`: copy, swap the ports, recompute the checksum. */
  method WriteEcho(buf: array<Byte>, req: seq<Byte>, src: Ip, dst: Ip) returns (r: Outcome<nat>)
    modifies buf
    ensures r.Done? <==> 8 <= |req| <= buf.Length
    ensures r.Done? ==>
              && r.value == |req| && buf[..r.value] == EchoOf(req, src, dst)
              && (forall i | r.value <= i < buf.Length :: buf[i] == old(buf[i]))
  {
    hide PseudoSum, PseudoValid, Put, At;
    if |req| < 8 || buf.Length < |req| {
      return Panic;
    }
    Copy(buf, 0, req);
    Copy(buf, 0, req[2..4]);
    Copy(buf, 2, req[0..2]);
    assert buf[..|req|] == Swapped(req);
    PutSlice(buf[..], |req|, 6, 0);
    CopyWord(buf, 6, 0);
    ghost var was := buf[..];
    var c := Close(buf, |req|, src, dst);
    PutSlice(was, |req|, 6, c);
    r := Done(|req|);
  }

  function EchoOf(req: seq<Byte>, src: Ip, dst: Ip): (r: seq<Byte>)
    requires |req| >= 8
  {
    var z := Put(Swapped(req), 6, 0);
    Put(z, 6, StoreChecksum(0xffff - PseudoSum(src, dst, PROTO_UDP, z)))
  }

  lemma ZeroedTotal(p: seq<Byte>, u: seq<Byte>)
    requires |p| == 12 && |u| >= 8
    ensures Total(p + Put(u, 6, 0)) == Total(p + u) - At(u, 6)
  {
    Prefixed(p, u, 6, 0);
    PutTotal(p + u, 18, 0);
  }

  /** Swapping ports, and addresses, leaves the sum alone. */
  lemma SwapTotal(u: seq<Byte>, src: Ip, dst: Ip)
    requires |u| >= 8
    ensures Total(Pseudo(dst, src, PROTO_UDP, |u|) + Swapped(u)) == Total(Pseudo(src, dst, PROTO_UDP, |u|) + u)
  {
    hide Total, Pseudo, Swapped;
    PseudoTotal(src, dst, PROTO_UDP, |u|);
    PseudoTotal(dst, src, PROTO_UDP, |u|);
    PortsTotal(u);
    TotalConcat(Pseudo(dst, src, PROTO_UDP, |u|), Swapped(u));
    TotalConcat(Pseudo(src, dst, PROTO_UDP, |u|), u);
  }

  lemma PortsTotal(u: seq<Byte>)
    requires |u| >= 8
    ensures Total(Swapped(u)) == Total(u)
  {
    hide Word16;
    TwoWords(u);
    TwoWords(Swapped(u));
    assert Swapped(u)[4..] == u[4..];
  }

  lemma TwoWords(u: seq<Byte>)
    requires |u| >= 4
    ensures Total(u) == Word16(u[0], u[1]) + Word16(u[2], u[3]) + Total(u[4..])
  {
    hide Word16;
    assert u[2..][2..] == u[4..];
  }

  lemma PseudoTotal(src: Ip, dst: Ip, proto: Byte, n: nat)
    ensures Total(Pseudo(src, dst, proto, n)) == Total(src) + Total(dst) + Total([0, proto] + Be16(n % 0x1_0000))
  {
    hide Total, Be16;
    var rest := [0, proto] + Be16(n % 0x1_0000);
    assert Pseudo(src, dst, proto, n) == src + (dst + rest);
    TotalConcat(src, dst + rest);
    TotalConcat(dst, rest);
  }

  lemma SameChecksum(rest: nat, c: nat)
    requires 0 < c <= 0xffff && (rest + c) % 0xffff == 0
    ensures StoreChecksum(0xffff - Folded(rest)) == c
  {
    FoldedMeans(rest);
    var c' := 0xffff - Folded(rest);
    assert (rest + c') % 0xffff == 0;
    CloseBy(rest + c, rest + c');
  }

  lemma CloseBy(x: nat, y: nat)
    requires x % 0xffff == 0 && y % 0xffff == 0
    ensures x == y || x - y >= 0xffff || y - x >= 0xffff
  {
  }

  /** The echo of an accepted request differs from it only in the ports: the
      recomputed checksum is the one that came in. */
  lemma EchoIsSwap(req: seq<Byte>, peer: Ip, ours: Ip)
    requires Parse(req, peer, ours).Deliver?
    ensures EchoOf(req, ours, peer) == Swapped(req)
    ensures At(Swapped(req), 0) == At(req, 2) && At(Swapped(req), 2) == At(req, 0)
    ensures PseudoValid(ours, peer, PROTO_UDP, Swapped(req))
  {
    hide Total, Pseudo, Swapped, Put, Folded, Words, Sum;
    var p, p' := Pseudo(peer, ours, PROTO_UDP, |req|), Pseudo(ours, peer, PROTO_UDP, |req|);
    var z := Put(Swapped(req), 6, 0);
    SwapFields(req);
    SwapTotal(req, peer, ours);
    PseudoWords(p, req);
    PseudoWords(p', Swapped(req));
    PseudoWords(p', z);
    ValidMeans(p + req);
    ValidMeans(p' + Swapped(req));
    ValidMeans(p' + z);
    ZeroedTotal(p', Swapped(req));
    SmallSum(p' + z);
    SameChecksum(Total(p' + z), At(req, 6));
    PutBack(Swapped(req));
  }

  lemma SwapFields(u: seq<Byte>)
    requires |u| >= 8
    ensures var s := Swapped(u); At(s, 0) == At(u, 2) && At(s, 2) == At(u, 0) && At(s, 4) == At(u, 4) && At(s, 6) == At(u, 6)
  {
  }

  lemma PutBack(u: seq<Byte>)
    requires |u| >= 8
    ensures Put(Put(u, 6, 0), 6, At(u, 6)) == u
  {
    BytesOf(u[6], u[7]);
  }
}
