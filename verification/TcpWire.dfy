/** TCP segments on the wire (src/tcp.rs, RFC 793 section 3.1). */
module TcpWire {
  import opened Ram
  import opened Checksum
  import opened Wire

  const LISTEN_PORT: int := 80
  const WINDOW: int := 8192
  const DEFAULT_MSS: int := 536
  const OUR_MSS: int := 1460

  const FIN: int := 1
  const RST: int := 4
  const PSH: int := 8
  const ACK: int := 16

  /** What `handle` reads out of a segment. */
  datatype Segment = Segment(sport: int, seqno: int, ack: int, flags: Byte, hlen: nat, raw: seq<Byte>)

  function Data(s: Segment): seq<Byte>
    requires s.hlen <= |s.raw|
  {
    s.raw[s.hlen..]
  }

  predicate HasFin(s: Segment) { s.flags % 2 == 1 }
  predicate HasSyn(s: Segment) { s.flags / 2 % 2 == 1 }
  predicate HasRst(s: Segment) { s.flags / 4 % 2 == 1 }
  predicate HasAck(s: Segment) { s.flags / 16 % 2 == 1 }

  /** The checks at the head of `handle`. */
  function Decode(p: seq<Byte>, src: Ip, dst: Ip): (v: Verdict<Segment>)
    ensures v.Deliver? ==> 20 <= v.value.hlen <= |p| && v.value.raw == p
    ensures v.Deliver? ==> 0 <= v.value.seqno < 0x1_0000_0000 && 0 <= v.value.ack < 0x1_0000_0000
  {
    if |p| < 20 then Drop(Short)
    else
      var hlen: nat := p[12] / 16 * 4;
      if hlen < 20 || |p| < hlen then Drop(DataOffset)
      else if !PseudoValid(src, dst, PROTO_TCP, p) then Drop(BadSum)
      else if At(p, 2) != LISTEN_PORT then Drop(Port)
      else Deliver(Segment(At(p, 0), At32(p, 4), At32(p, 8), p[13], hlen, p))
  }

  // --- writers -----------------------------------------------------------------------

  ghost predicate Fields(m: seq<Byte>, srcPort: int, dstPort: int, seqno: int, ack: int, offset: int, flags: Byte) {
    && |m| >= 20
    && At(m, 0) == srcPort && At(m, 2) == dstPort && At32(m, 4) == seqno && At32(m, 8) == ack
    && m[12] == offset && m[13] == flags && At(m, 14) == WINDOW && At(m, 18) == 0
  }

  /** The 20 fixed bytes, checksum zero. */
  method WriteLead(buf: array<Byte>, srcPort: int, dstPort: int, seqno: int, ack: int, offset: Byte, flags: Byte)
    requires 0 <= srcPort < 0x1_0000 && 0 <= dstPort < 0x1_0000 && buf.Length >= 20
    requires 0 <= seqno < 0x1_0000_0000 && 0 <= ack < 0x1_0000_0000
    modifies buf
    ensures Fields(buf[..], srcPort, dstPort, seqno, ack, offset, flags) && At(buf[..], 16) == 0
    ensures forall i | 20 <= i < buf.Length :: buf[i] == old(buf[i])
  {
    hide Word16, Put;
    CopyWord(buf, 0, srcPort);
    CopyWord(buf, 2, dstPort);
    CopyLong(buf, 4, seqno);
    CopyLong(buf, 8, ack);
    buf[12], buf[13] := offset, flags;
    CopyWord(buf, 14, WINDOW);
    CopyWord(buf, 16, 0);
    CopyWord(buf, 18, 0);
  }

  /** Store a big-endian 32-bit value. */
  method CopyLong(buf: array<Byte>, at: nat, x: int)
    requires at + 3 < buf.Length && 0 <= x < 0x1_0000_0000
    modifies buf
    ensures 0x1_0000 * Word16(buf[at], buf[at + 1]) + Word16(buf[at + 2], buf[at + 3]) == x
    ensures forall i | 0 <= i < buf.Length && !(at <= i < at + 4) :: buf[i] == old(buf[i])
  {
    hide Word16, Put;
    CopyWord(buf, at, x / 0x1_0000);
    CopyWord(buf, at + 2, x % 0x1_0000);
  }

  /** Store the checksum of the first `n` bytes. */
  method Close(buf: array<Byte>, n: nat, src: Ip, dst: Ip)
    requires 20 <= n <= buf.Length && At(buf[..], 16) == 0
    modifies buf
    ensures buf[..] == Put(old(buf[..]), 16, 0xffff - PseudoSum(src, dst, PROTO_TCP, old(buf[..n])))
    ensures n <= 131062 ==> PseudoValid(src, dst, PROTO_TCP, buf[..n])
  {
    hide PseudoSum, PseudoValid, Put, At;
    var s := ComputePseudoSum(src, dst, PROTO_TCP, buf[..n]);
    PutSlice(buf[..], n, 16, 0xffff - s);
    if n <= 131062 {
      ClosedIsValid(src, dst, PROTO_TCP, buf[..n], 16, 0xffff - s);
    }
    CopyWord(buf, 16, 0xffff - s);
  }

  /** `write_seg`: header and payload, in place. */
  method WriteSeg(buf: array<Byte>, srcPort: int, dstPort: int, seqno: int, ack: int, flags: Byte, payload: seq<Byte>,
                  src: Ip, dst: Ip)
    returns (r: Outcome<nat>)
    requires 0 <= srcPort < 0x1_0000 && 0 <= dstPort < 0x1_0000
    requires 0 <= seqno < 0x1_0000_0000 && 0 <= ack < 0x1_0000_0000
    modifies buf
    ensures r.Done? <==> 20 + |payload| <= buf.Length
    ensures r.Done? ==>
              && r.value == 20 + |payload| && Fields(buf[..r.value], srcPort, dstPort, seqno, ack, 0x50, flags)
              && buf[20..r.value] == payload
              && (r.value <= 131062 ==> PseudoValid(src, dst, PROTO_TCP, buf[..r.value]))
              && (forall i | r.value <= i < buf.Length :: buf[i] == old(buf[i]))
  {
    hide PseudoSum, PseudoValid, Put, Fields, At;
    var n := 20 + |payload|;
    if buf.Length < n {
      return Panic;
    }
    WriteLead(buf, srcPort, dstPort, seqno, ack, 0x50, flags);
    ghost var lead := buf[..];
    Copy(buf, 20, payload);
    SameChecksumField(lead, buf[..]);
    ghost var was := buf[..];
    Close(buf, n, src, dst);
    PutElsewhere(was, 16, 0xffff - PseudoSum(src, dst, PROTO_TCP, was[..n]));
    FieldsKept(lead, buf[..n], srcPort, dstPort, seqno, ack, 0x50, flags);
    r := Done(n);
  }

  /** The named fields are all but the checksum, so nothing else moves them. */
  lemma FieldsKept(m: seq<Byte>, m': seq<Byte>, srcPort: int, dstPort: int, seqno: int, ack: int, offset: int, flags: Byte)
    requires Fields(m, srcPort, dstPort, seqno, ack, offset, flags) && |m'| >= 20
    requires forall i | 0 <= i < 20 && i != 16 && i != 17 :: m'[i] == m[i]
    ensures Fields(m', srcPort, dstPort, seqno, ack, offset, flags)
  {
    hide Word16;
  }

  lemma SameChecksumField(m: seq<Byte>, m': seq<Byte>)
    requires |m| == |m'| >= 20 && forall i | 0 <= i < 20 :: m'[i] == m[i]
    ensures At(m', 16) == At(m, 16)
  {
    hide Word16;
  }

  /** `write_synack`: one option, our maximum segment size. */
  method WriteSynack(buf: array<Byte>, srcPort: int, dstPort: int, seqno: int, ack: int, src: Ip, dst: Ip)
    returns (r: Outcome<nat>)
    requires 0 <= srcPort < 0x1_0000 && 0 <= dstPort < 0x1_0000
    requires 0 <= seqno < 0x1_0000_0000 && 0 <= ack < 0x1_0000_0000
    modifies buf
    ensures r.Done? <==> 24 <= buf.Length
    ensures r.Done? ==>
              && r.value == 24 && Fields(buf[..24], srcPort, dstPort, seqno, ack, 0x60, 18)
              && ParseMss(buf[..24], 24, 20, None) == Some(OUR_MSS)
              && PseudoValid(src, dst, PROTO_TCP, buf[..24])
              && (forall i | 24 <= i < buf.Length :: buf[i] == old(buf[i]))
  {
    hide PseudoSum, PseudoValid, Put, Fields, At, ParseMss;
    if buf.Length < 24 {
      return Panic;
    }
    WriteLead(buf, srcPort, dstPort, seqno, ack, 0x60, 18);
    ghost var lead := buf[..];
    buf[20], buf[21] := 2, 4;
    CopyWord(buf, 22, OUR_MSS);
    SameChecksumField(lead, buf[..]);
    ghost var was := buf[..];
    Close(buf, 24, src, dst);
    PutElsewhere(was, 16, 0xffff - PseudoSum(src, dst, PROTO_TCP, was[..24]));
    FieldsKept(lead, buf[..24], srcPort, dstPort, seqno, ack, 0x60, 18);
    OneMss(buf[..24], OUR_MSS);
    r := Done(24);
  }

  lemma OneMss(m: seq<Byte>, v: int)
    requires |m| == 24 && m[20] == 2 && m[21] == 4 && Word16(m[22], m[23]) == v
    ensures ParseMss(m, 24, 20, None) == Some(v)
  {
    hide Word16;
    assert ParseMss(m, 24, 24, Some(v)) == Some(v);
  }

  /** A segment the writer built, sent to our port, decodes to its own fields. */
  lemma RoundTrip(m: seq<Byte>, srcPort: int, seqno: int, ack: int, flags: Byte, payload: seq<Byte>, src: Ip, dst: Ip)
    requires Fields(m, srcPort, LISTEN_PORT, seqno, ack, 0x50, flags) && |m| == 20 + |payload| && m[20..] == payload
    requires PseudoValid(src, dst, PROTO_TCP, m)
    ensures Decode(m, src, dst) == Deliver(Segment(srcPort, seqno, ack, flags, 20, m))
    ensures Data(Decode(m, src, dst).value) == payload
  {
    hide PseudoValid;
  }

  /** The bytes of a segment, before its checksum. */
  function Unsummed(srcPort: int, dstPort: int, seqno: int, ack: int, flags: Byte, payload: seq<Byte>): (m: seq<Byte>)
    requires 0 <= srcPort < 0x1_0000 && 0 <= dstPort < 0x1_0000
    requires 0 <= seqno < 0x1_0000_0000 && 0 <= ack < 0x1_0000_0000
    ensures |m| == 20 + |payload|
  {
    [Hi(srcPort), Lo(srcPort), Hi(dstPort), Lo(dstPort),
     Hi(seqno / 0x1_0000), Lo(seqno / 0x1_0000), Hi(seqno % 0x1_0000), Lo(seqno % 0x1_0000),
     Hi(ack / 0x1_0000), Lo(ack / 0x1_0000), Hi(ack % 0x1_0000), Lo(ack % 0x1_0000),
     0x50, flags, Hi(WINDOW), Lo(WINDOW), 0, 0, 0, 0] + payload
  }

  /** The bytes of a segment. */
  function SegBytes(srcPort: int, dstPort: int, seqno: int, ack: int, flags: Byte, payload: seq<Byte>, src: Ip, dst: Ip): (m: seq<Byte>)
    requires 0 <= srcPort < 0x1_0000 && 0 <= dstPort < 0x1_0000
    requires 0 <= seqno < 0x1_0000_0000 && 0 <= ack < 0x1_0000_0000
  {
    var m := Unsummed(srcPort, dstPort, seqno, ack, flags, payload);
    Put(m, 16, 0xffff - PseudoSum(src, dst, PROTO_TCP, m))
  }

  lemma LongIs(x: int)
    requires 0 <= x < 0x1_0000_0000
    ensures 0x1_0000 * Word16(Hi(x / 0x1_0000), Lo(x / 0x1_0000)) + Word16(Hi(x % 0x1_0000), Lo(x % 0x1_0000)) == x
  {
    hide Word16, Hi, Lo;
    HiLo(x / 0x1_0000);
    HiLo(x % 0x1_0000);
  }

  lemma UnsummedFields(srcPort: int, dstPort: int, seqno: int, ack: int, flags: Byte, payload: seq<Byte>)
    requires 0 <= srcPort < 0x1_0000 && 0 <= dstPort < 0x1_0000
    requires 0 <= seqno < 0x1_0000_0000 && 0 <= ack < 0x1_0000_0000
    ensures var m := Unsummed(srcPort, dstPort, seqno, ack, flags, payload);
            Fields(m, srcPort, dstPort, seqno, ack, 0x50, flags) && At(m, 16) == 0 && m[20..] == payload
  {
    hide Word16, Hi, Lo;
    HiLo(srcPort);
    HiLo(dstPort);
    HiLo(WINDOW);
    LongIs(seqno);
    LongIs(ack);
    ZeroWord();
  }

  lemma ZeroWord()
    ensures Word16(0, 0) == 0
  {
  }

  /** Every segment there is has bytes that the receiver decodes to it. */
  lemma SegDecodes(srcPort: int, seqno: int, ack: int, flags: Byte, payload: seq<Byte>, src: Ip, dst: Ip)
    requires 0 <= srcPort < 0x1_0000 && 0 <= seqno < 0x1_0000_0000 && 0 <= ack < 0x1_0000_0000 && |payload| <= 131042
    ensures var m := SegBytes(srcPort, LISTEN_PORT, seqno, ack, flags, payload, src, dst);
            && |m| == 20 + |payload| && m[20..] == payload
            && Decode(m, src, dst) == Deliver(Segment(srcPort, seqno, ack, flags, 20, m))
  {
    hide Word16, Hi, Lo, PseudoSum, PseudoValid, Fields, Unsummed, Decode, Put, At;
    var u := Unsummed(srcPort, LISTEN_PORT, seqno, ack, flags, payload);
    var c := 0xffff - PseudoSum(src, dst, PROTO_TCP, u);
    var m := Put(u, 16, c);
    UnsummedFields(srcPort, LISTEN_PORT, seqno, ack, flags, payload);
    ClosedIsValid(src, dst, PROTO_TCP, u, 16, c);
    PutElsewhere(u, 16, c);
    FieldsKept(u, m, srcPort, LISTEN_PORT, seqno, ack, 0x50, flags);
    assert m[20..] == u[20..];
    RoundTrip(m, srcPort, seqno, ack, flags, payload, src, dst);
  }

  // --- options -----------------------------------------------------------------------

  /** What `parse_mss` makes of the option bytes from `i` on. */
  function ParseMss(hdr: seq<Byte>, hlen: nat, i: nat, mss: Option<int>): Option<int>
    requires hlen <= |hdr|
    decreases hlen - i
  {
    if i >= hlen || hdr[i] == 0 then Some(if mss.Some? then mss.value else DEFAULT_MSS)
    else if hdr[i] == 1 then ParseMss(hdr, hlen, i + 1, mss)
    else if i + 1 >= hlen then None
    else
      var len: nat := hdr[i + 1];
      if len < 2 || i + len > hlen then None
      else if hdr[i] == 2 then
        if len != 4 then None else ParseMss(hdr, hlen, i + 4, Some(Word16(hdr[i + 2], hdr[i + 3])))
      else ParseMss(hdr, hlen, i + len, mss)
  }

  /** `parse_mss`. */
  method ReadMss(hdr: seq<Byte>, hlen: nat) returns (r: Option<int>)
    requires 20 <= hlen <= |hdr|
    ensures r == ParseMss(hdr, hlen, 20, None)
  {
    var i, mss := 20, None;
    while i < hlen
      invariant 20 <= i <= hlen
      invariant ParseMss(hdr, hlen, i, mss) == ParseMss(hdr, hlen, 20, None)
      decreases hlen - i
    {
      var kind := hdr[i];
      if kind == 0 {
        break;
      }
      if kind == 1 {
        i := i + 1;
        continue;
      }
      if i + 1 >= hlen {
        return None;
      }
      var len: nat := hdr[i + 1];
      if len < 2 || i + len > hlen {
        return None;
      }
      if kind == 2 {
        if len != 4 {
          return None;
        }
        mss := Some(Word16(hdr[i + 2], hdr[i + 3]));
      }
      i := i + len;
    }
    r := Some(if mss.Some? then mss.value else DEFAULT_MSS);
  }

  /** The option list of RFC 793 section 3.1. */
  datatype Opt = Nop | Mss(v: int) | Other(kind: Byte, body: seq<Byte>)

  predicate OptOk(o: Opt) {
    match o
    case Nop => true
    case Mss(v) => 0 <= v < 0x1_0000
    case Other(kind, body) => kind > 2 && |body| <= 253
  }

  predicate OptsOk(opts: seq<Opt>) { forall i | 0 <= i < |opts| :: OptOk(opts[i]) }

  function OptBytes(o: Opt): (b: seq<Byte>)
    requires OptOk(o)
    ensures |b| >= 1
  {
    match o
    case Nop => [1]
    case Mss(v) => [2, 4, Hi(v), Lo(v)]
    case Other(kind, body) => [kind, |body| + 2] + body
  }

  function Encode(opts: seq<Opt>): seq<Byte>
    requires OptsOk(opts)
  {
    if opts == [] then [] else OptBytes(opts[0]) + Encode(opts[1..])
  }

  /** The last maximum segment size the list announces. */
  function Announced(opts: seq<Opt>, mss: Option<int>): Option<int> {
    if opts == [] then mss
    else Announced(opts[1..], if opts[0].Mss? then Some(opts[0].v) else mss)
  }

  /** Every well-formed option list is read as announced, whether it ends the
      header or an end-of-list byte cuts it short. */
  lemma {:induction false} OptionsRead(hdr: seq<Byte>, hlen: nat, i: nat, mss: Option<int>, opts: seq<Opt>)
    requires OptsOk(opts) && i + |Encode(opts)| <= hlen <= |hdr| && hdr[i..i + |Encode(opts)|] == Encode(opts)
    requires i + |Encode(opts)| == hlen || hdr[i + |Encode(opts)|] == 0
    ensures var a := Announced(opts, mss);
            ParseMss(hdr, hlen, i, mss) == Some(if a.Some? then a.value else DEFAULT_MSS)
    decreases opts
  {
    hide ParseMss, OptBytes;
    if opts != [] {
      var b, rest := OptBytes(opts[0]), Encode(opts[1..]);
      HeadOf(hdr, i, b, rest);
      ReadOne(hdr, hlen, i, mss, opts[0]);
      OptionsRead(hdr, hlen, i + |b|, if opts[0].Mss? then Some(opts[0].v) else mss, opts[1..]);
    } else {
      ReadEnd(hdr, hlen, i, mss);
    }
  }

  lemma ReadEnd(hdr: seq<Byte>, hlen: nat, i: nat, mss: Option<int>)
    requires i <= hlen <= |hdr| && (i == hlen || hdr[i] == 0)
    ensures ParseMss(hdr, hlen, i, mss) == Some(if mss.Some? then mss.value else DEFAULT_MSS)
  {
  }

  lemma ReadOne(hdr: seq<Byte>, hlen: nat, i: nat, mss: Option<int>, o: Opt)
    requires OptOk(o) && i + |OptBytes(o)| <= hlen <= |hdr|
    requires forall k | 0 <= k < |OptBytes(o)| :: hdr[i + k] == OptBytes(o)[k]
    ensures ParseMss(hdr, hlen, i, mss)
            == ParseMss(hdr, hlen, i + |OptBytes(o)|, if o.Mss? then Some(o.v) else mss)
  {
    hide Word16, Hi, Lo;
    var b := OptBytes(o);
    assert hdr[i + 0] == b[0];
    match o
    case Nop =>
    case Mss(v) =>
      HiLo(v);
      assert hdr[i + 1] == b[1] && hdr[i + 2] == b[2] && hdr[i + 3] == b[3];
    case Other(kind, body) =>
      assert hdr[i + 1] == b[1];
  }

  lemma HeadOf(hdr: seq<Byte>, i: nat, b: seq<Byte>, rest: seq<Byte>)
    requires i + |b| + |rest| <= |hdr| && hdr[i..i + |b + rest|] == b + rest
    ensures forall k | 0 <= k < |b| :: hdr[i + k] == b[k]
    ensures hdr[i + |b|..i + |b| + |rest|] == rest
  {
    forall k | 0 <= k < |b|
      ensures hdr[i + k] == b[k]
    {
      assert hdr[i..i + |b + rest|][k] == (b + rest)[k];
    }
    forall k | 0 <= k < |rest|
      ensures hdr[i + |b| + k] == rest[k]
    {
      assert hdr[i..i + |b + rest|][|b| + k] == (b + rest)[|b| + k];
    }
  }
}
