/** IPv4 header parse and build (src/ipv4.rs, RFC 791 section 3.1). */
module Ipv4 {
  import opened Ram
  import opened Checksum
  import opened Wire

  datatype Datagram = Datagram(src: Ip, proto: Byte, payload: seq<Byte>)

  /** `parse`, on an Ethernet frame. */
  function Parse(eth: seq<Byte>, ours: Ip): Verdict<Datagram> {
    if |eth| < 34 then Drop(Short)
    else
      var ip := eth[14..];
      var ihl := ip[0] % 16;
      var hlen: nat := ihl * 4;
      if ip[0] / 16 != 4 then Drop(Version)
      else if ihl < 5 then Drop(Ihl)
      else if |ip| < hlen then Drop(Short)
      else
        var tot := At(ip, 2);
        if tot < hlen || 14 + tot > |eth| then Drop(Short)
        else if !Valid(ip[..hlen]) then Drop(BadSum)
        else if At(ip, 6) / 0x2000 % 2 != 0 || At(ip, 6) % 0x2000 != 0 then Drop(Fragment)
        else if ip[16..20] != ours then Drop(Destination)
        else if ip[9] != PROTO_ICMP && ip[9] != PROTO_UDP && ip[9] != PROTO_TCP then Drop(Proto)
        else Deliver(Datagram(ip[12..16], ip[9], ip[hlen..tot]))
  }

  /** The header fields RFC 791 names, apart from the checksum: version 4, five
      words, the total length, identification 0, don't-fragment, time to live 64. */
  ghost predicate Fields(h: seq<Byte>, total: int, proto: Byte, src: Ip, dst: Ip) {
    && |h| >= 20
    && h[0] == 0x45 && h[1] == 0 && At(h, 2) == total && At(h, 4) == 0 && At(h, 6) == 0x4000
    && h[8] == 64 && h[9] == proto
    && (forall i | 0 <= i < 4 :: h[12 + i] == src[i])
    && (forall i | 0 <= i < 4 :: h[16 + i] == dst[i])
  }

  /** `write_header`, in place. */
  method WriteHeader(ip: array<Byte>, total: int, proto: Byte, src: Ip, dst: Ip) returns (r: Outcome<()>)
    requires 0 <= total < 0x1_0000
    modifies ip
    ensures r.Done? <==> ip.Length >= 20
    ensures r.Done? ==> Fields(ip[..], total, proto, src, dst) && Valid(ip[..20])
    ensures forall i | 20 <= i < ip.Length :: ip[i] == old(ip[i])
  {
    hide Sum, Valid, Put, Fields, At;
    if ip.Length < 20 {
      return Panic;
    }
    WriteFields(ip, total, proto, src, dst);
    var s := ComputeSum(ip[..20]);
    PutSlice(ip[..], 20, 10, 0xffff - s);
    StoredIsValid(ip[..20], 10, 0xffff - s);
    FieldsPut(ip[..], 0xffff - s, total, proto, src, dst);
    CopyWord(ip, 10, 0xffff - s);
    r := Done(());
  }

  method WriteFields(ip: array<Byte>, total: int, proto: Byte, src: Ip, dst: Ip)
    requires 0 <= total < 0x1_0000 && ip.Length >= 20
    modifies ip
    ensures Fields(ip[..], total, proto, src, dst) && At(ip[..], 10) == 0
    ensures forall i | 20 <= i < ip.Length :: ip[i] == old(ip[i])
  {
    hide Word16;
    WriteLead(ip, total, proto);
    Copy(ip, 12, src);
    Copy(ip, 16, dst);
  }

  method WriteLead(ip: array<Byte>, total: int, proto: Byte)
    requires 0 <= total < 0x1_0000 && ip.Length >= 20
    modifies ip
    ensures ip[0] == 0x45 && ip[1] == 0 && Word16(ip[2], ip[3]) == total
    ensures Word16(ip[4], ip[5]) == 0 && Word16(ip[6], ip[7]) == 0x4000
    ensures ip[8] == 64 && ip[9] == proto && Word16(ip[10], ip[11]) == 0
    ensures forall i | 12 <= i < ip.Length :: ip[i] == old(ip[i])
  {
    hide Word16, Put;
    ip[0], ip[1] := 0x45, 0;
    CopyWord(ip, 2, total);
    CopyWord(ip, 4, 0);
    CopyWord(ip, 6, 0x4000);
    ip[8], ip[9] := 64, proto;
    CopyWord(ip, 10, 0);
  }

  lemma FieldsPut(h: seq<Byte>, c: int, total: int, proto: Byte, src: Ip, dst: Ip)
    requires Fields(h, total, proto, src, dst) && 0 <= c < 0x1_0000
    ensures Fields(Put(h, 10, c), total, proto, src, dst)
  {
  }

  /** The parser's reads of a written header. */
  lemma HeaderReads(ip: seq<Byte>, total: int, proto: Byte, src: Ip, dst: Ip)
    requires Fields(ip, total, proto, src, dst)
    ensures ip[0] / 16 == 4 && ip[0] % 16 == 5 && At(ip, 2) == total && ip[9] == proto
    ensures At(ip, 6) / 0x2000 % 2 == 0 && At(ip, 6) % 0x2000 == 0
  {
    hide Word16;
  }

  /** Every header the writer builds is accepted, and the parser recovers the
      addresses, protocol and payload whatever padding follows. */
  lemma RoundTrip(eth: seq<Byte>, proto: Byte, src: Ip, dst: Ip, n: nat)
    requires 34 + n <= |eth| && 20 + n < 0x1_0000
    requires Fields(eth[14..], 20 + n, proto, src, dst) && Valid(eth[14..34])
    requires proto == PROTO_ICMP || proto == PROTO_UDP || proto == PROTO_TCP
    ensures Parse(eth, dst) == Deliver(Datagram(src, proto, eth[34..34 + n]))
  {
    hide Valid, Word16, At;
    HeaderReads(eth[14..], 20 + n, proto, src, dst);
    var ip := eth[14..];
    assert ip[..20] == eth[14..34];
    assert ip[12..16] == src && ip[16..20] == dst;
    assert ip[20..20 + n] == eth[34..34 + n];
  }
}
