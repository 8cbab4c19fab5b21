/** ICMP echo (src/icmp.rs, RFC 792). */
module Icmp {
  import opened Ram
  import opened Checksum
  import opened Wire

  datatype Msg = EchoReq(id: int, seqno: int, raw: seq<Byte>) | EchoReply(id: int, seqno: int)

  function Parse(m: seq<Byte>): Verdict<Msg> {
    if |m| < 8 then Drop(Short)
    else if !Valid(m) then Drop(BadSum)
    else if m[1] != 0 then Drop(Type)
    else if m[0] == 8 then Deliver(EchoReq(At(m, 4), At(m, 6), m))
    else if m[0] == 0 then Deliver(EchoReply(At(m, 4), At(m, 6)))
    else Drop(Type)
  }

  ghost predicate Fields(m: seq<Byte>, kind: Byte, id: int, seqno: int, data: seq<Byte>) {
    && |m| == 8 + |data| && m[0] == kind && m[1] == 0
    && At(m, 4) == id && At(m, 6) == seqno
    && forall i | 0 <= i < |data| :: m[8 + i] == data[i]
  }

  /** Sum the first `n` bytes and store the checksum. */
  method Close(buf: array<Byte>, n: nat)
    requires 8 <= n <= buf.Length && At(buf[..], 2) == 0
    modifies buf
    ensures buf[..] == Put(old(buf[..]), 2, Complement(old(buf[..n])))
    ensures n <= 131074 ==> Valid(buf[..n])
  {
    hide Sum, Valid, Put, At;
    var s := ComputeSum(buf[..n]);
    PutSlice(buf[..], n, 2, 0xffff - s);
    if n <= 131074 {
      StoredIsValid(buf[..n], 2, 0xffff - s);
    }
    CopyWord(buf, 2, 0xffff - s);
  }

  /** `write_echo_req`, in place. */
  method WriteEchoReq(buf: array<Byte>, id: int, seqno: int, data: seq<Byte>) returns (r: Outcome<nat>)
    requires 0 <= id < 0x1_0000 && 0 <= seqno < 0x1_0000
    modifies buf
    ensures r.Done? <==> 8 + |data| <= buf.Length
    ensures r.Done? ==>
              && r.value == 8 + |data| && Fields(buf[..r.value], 8, id, seqno, data)
              && (r.value <= 131074 ==> Valid(buf[..r.value]))
              && (forall i | r.value <= i < buf.Length :: buf[i] == old(buf[i]))
  {
    hide Complement, Valid, Put, At, Fields;
    var n := 8 + |data|;
    if buf.Length < n {
      return Panic;
    }
    WriteFields(buf, id, seqno, data);
    ghost var was := buf[..];
    Close(buf, n);
    PutSlice(was, n, 2, Complement(was[..n]));
    FieldsPut(was[..n], Complement(was[..n]), 8, id, seqno, data);
    r := Done(n);
  }

  method WriteFields(buf: array<Byte>, id: int, seqno: int, data: seq<Byte>)
    requires 0 <= id < 0x1_0000 && 0 <= seqno < 0x1_0000 && 8 + |data| <= buf.Length
    modifies buf
    ensures Fields(buf[..8 + |data|], 8, id, seqno, data) && At(buf[..], 2) == 0
    ensures forall i | 8 + |data| <= i < buf.Length :: buf[i] == old(buf[i])
  {
    hide Word16, Put;
    buf[0], buf[1] := 8, 0;
    CopyWord(buf, 2, 0);
    CopyWord(buf, 4, id);
    CopyWord(buf, 6, seqno);
    Copy(buf, 8, data);
  }

  lemma FieldsPut(m: seq<Byte>, c: int, kind: Byte, id: int, seqno: int, data: seq<Byte>)
    requires Fields(m, kind, id, seqno, data) && 0 <= c < 0x1_0000
    ensures Fields(Put(m, 2, c), kind, id, seqno, data)
  {
  }

  /** The parser takes back exactly what the writer wrote. */
  lemma RoundTrip(m: seq<Byte>, id: int, seqno: int, data: seq<Byte>)
    requires Fields(m, 8, id, seqno, data) && Valid(m)
    ensures Parse(m) == Deliver(EchoReq(id, seqno, m)) && m[8..] == data
  {
    hide Valid;
  }

  function ReplyOf(req: seq<Byte>): (r: seq<Byte>)
    requires |req| >= 8
    ensures |r| == |req|
  {
    var z := Put(req[0 := 0], 2, 0);
    Put(z, 2, Complement(z))
  }

  /** `write_echo_reply`, in place. */
  method WriteEchoReply(buf: array<Byte>, req: seq<Byte>) returns (r: Outcome<nat>)
    modifies buf
    ensures r.Done? <==> 8 <= |req| <= buf.Length
    ensures r.Done? ==>
              && r.value == |req| && buf[..r.value] == ReplyOf(req)
              && (forall i | r.value <= i < buf.Length :: buf[i] == old(buf[i]))
  {
    hide Complement, Valid, Put, At;
    if |req| < 8 || buf.Length < |req| {
      return Panic;
    }
    Copy(buf, 0, req);
    buf[0] := 0;
    assert buf[..|req|] == req[0 := 0];
    PutSlice(buf[..], |req|, 2, 0);
    CopyWord(buf, 2, 0);
    ghost var was := buf[..];
    Close(buf, |req|);
    PutSlice(was, |req|, 2, Complement(was[..|req|]));
    r := Done(|req|);
  }

  /** The reply to a request the parser accepted parses as the reply with the same
      identifier, sequence number and data. */
  lemma ReplyAnswers(req: seq<Byte>)
    requires |req| <= 131074 && Parse(req).Deliver? && Parse(req).value.EchoReq?
    ensures Parse(ReplyOf(req)) == Deliver(EchoReply(Parse(req).value.id, Parse(req).value.seqno))
    ensures ReplyOf(req)[8..] == req[8..]
  {
    hide Valid, Complement, ReplyOf, At;
    ReplyFields(req);
    ReplyValid(req);
  }

  lemma ReplyFields(req: seq<Byte>)
    requires |req| >= 8
    ensures var r := ReplyOf(req);
            && r[0] == 0 && r[1] == req[1] && At(r, 4) == At(req, 4) && At(r, 6) == At(req, 6)
            && r[8..] == req[8..]
  {
    hide Complement, Word16, Hi, Lo;
  }

  lemma ReplyValid(req: seq<Byte>)
    requires 8 <= |req| <= 131074
    ensures Valid(ReplyOf(req))
  {
    hide Valid, Complement, Put, At;
    var z := Put(req[0 := 0], 2, 0);
    PutSlice(req[0 := 0], |req|, 2, 0);
    StoredIsValid(z, 2, Complement(z));
  }
}
