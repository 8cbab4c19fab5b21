/** What the packet parsers and writers share. */
module Wire {
  import opened Ram
  import opened Checksum

  /** Why a received message was dropped: the counter that goes up. */
  datatype Reason =
    | Short | Version | Ihl | BadSum | Fragment | Destination | Proto
    | Length | Port | Type | DataOffset

  datatype Verdict<T> = Deliver(value: T) | Drop(why: Reason)

  type Ip = s: seq<Byte> | |s| == 4 witness [0, 0, 0, 0]

  const PROTO_ICMP: Byte := 1
  const PROTO_TCP: Byte := 6
  const PROTO_UDP: Byte := 17

  function Be16(w: int): (s: seq<Byte>)
    requires 0 <= w < 0x1_0000
    ensures |s| == 2 && Word16(s[0], s[1]) == w
  {
    HiLo(w);
    [Hi(w), Lo(w)]
  }

  function At32(s: seq<Byte>, k: nat): (x: int)
    requires k + 3 < |s|
    ensures 0 <= x < 0x1_0000_0000
  {
    0x1_0000 * Word16(s[k], s[k + 1]) + Word16(s[k + 2], s[k + 3])
  }

  /** The 12-byte pseudo-header of RFC 768 and RFC 793 section 3.1. */
  function Pseudo(src: Ip, dst: Ip, proto: Byte, n: nat): (s: seq<Byte>)
    ensures |s| == 12
  {
    src + dst + [0, proto] + Be16(n % 0x1_0000)
  }

  /** What `fold(accumulate(accumulate(0, pseudo), msg))` computes. */
  function PseudoSum(src: Ip, dst: Ip, proto: Byte, msg: seq<Byte>): (r: nat)
    ensures r <= 0xffff
  {
    Sum(Pseudo(src, dst, proto, |msg|) + msg)
  }

  lemma WrapTwice(a: nat, b: nat)
    ensures Mod32(Mod32(0 + a) + b) == Mod32(a + b)
  {
  }

  method ComputePseudoSum(src: Ip, dst: Ip, proto: Byte, msg: seq<Byte>) returns (r: nat)
    ensures r == PseudoSum(src, dst, proto, msg)
  {
    hide Mod32, Total, Folded, Be16;
    var pseudo := Pseudo(src, dst, proto, |msg|);
    var acc := Accumulate(0, pseudo);
    acc := Accumulate(acc, msg);
    TotalConcat(pseudo, msg);
    WrapTwice(Total(pseudo), Total(msg));
    r := Fold(acc);
  }

  predicate PseudoValid(src: Ip, dst: Ip, proto: Byte, msg: seq<Byte>) {
    PseudoSum(src, dst, proto, msg) == 0xffff
  }

  /** A message of at most 65531 words, closed with its own checksum, passes the
      receiver's test. */
  lemma ClosedIsValid(src: Ip, dst: Ip, proto: Byte, msg: seq<Byte>, k: nat, c: nat)
    requires k % 2 == 0 && k + 1 < |msg| && At(msg, k) == 0 && |msg| <= 131062
    requires c == 0xffff - PseudoSum(src, dst, proto, msg) || (c == 0xffff && PseudoSum(src, dst, proto, msg) == 0xffff)
    ensures c <= 0xffff && PseudoValid(src, dst, proto, Put(msg, k, c))
  {
    hide Sum, Put, At, Pseudo, Words;
    var p := Pseudo(src, dst, proto, |msg|);
    PseudoWords(p, msg);
    Prefixed(p, msg, k, c);
    StoredIsValid(p + msg, 12 + k, c);
  }

  lemma PseudoWords(p: seq<Byte>, msg: seq<Byte>)
    requires |p| == 12 && |msg| <= 131062
    ensures Words(p + msg) <= 65537
  {
  }

  lemma Prefixed(p: seq<Byte>, msg: seq<Byte>, k: nat, c: nat)
    requires |p| == 12 && k + 1 < |msg| && c <= 0xffff
    ensures Put(p + msg, 12 + k, c) == p + Put(msg, k, c) && At(p + msg, 12 + k) == At(msg, k)
  {
  }

  // --- filling a buffer in place -------------------------------------------------------

  method Copy(buf: array<Byte>, at: nat, b: seq<Byte>)
    requires at + |b| <= buf.Length
    modifies buf
    ensures forall i | 0 <= i < |b| :: buf[at + i] == b[i]
    ensures forall i | 0 <= i < buf.Length && !(at <= i < at + |b|) :: buf[i] == old(buf[i])
  {
    forall i | 0 <= i < |b| {
      buf[at + i] := b[i];
    }
  }

  /** Store a big-endian word. */
  method CopyWord(buf: array<Byte>, at: nat, w: int)
    requires at + 1 < buf.Length && 0 <= w < 0x1_0000
    modifies buf
    ensures buf[..] == Put(old(buf[..]), at, w) && Word16(buf[at], buf[at + 1]) == w
    ensures forall i | 0 <= i < buf.Length && i != at && i != at + 1 :: buf[i] == old(buf[i])
  {
    HiLo(w);
    buf[at], buf[at + 1] := Hi(w), Lo(w);
  }

  lemma PutElsewhere(s: seq<Byte>, k: nat, w: int)
    requires k + 1 < |s| && 0 <= w < 0x1_0000
    ensures forall i | 0 <= i < |s| && i != k && i != k + 1 :: Put(s, k, w)[i] == s[i]
  {
  }

  lemma PutSlice(s: seq<Byte>, n: nat, k: nat, w: int)
    requires k + 1 < n <= |s| && 0 <= w < 0x1_0000
    ensures Put(s, k, w)[..n] == Put(s[..n], k, w) && At(s[..n], k) == At(s, k)
    ensures Put(s, k, w)[n..] == s[n..]
    ensures At(Put(s, k, w), k) == w && At(Put(s[..n], k, w), k) == w
  {
    HiLo(w);
  }
}
