/** The Internet checksum (src/checksum.rs, RFC 1071) over big-endian 16-bit words. */
module Checksum {
  import opened Ram

  type Byte = x: int | 0 <= x < 256

  /**
   * `x << n`, without loss. The recursion keeps 256 as a multiplier out of statements about
   * whole messages; a proof that needs the value asks for it with `WordIs`.
   */
  function Shl(x: nat, n: nat): nat { if n == 0 then x else 2 * Shl(x, n - 1) }

  lemma ShlEight(x: nat)
    ensures Shl(x, 8) == 256 * x
  {
    assert Shl(x, 1) == 2 * x;
    assert Shl(x, 2) == 4 * x;
    assert Shl(x, 3) == 8 * x;
    assert Shl(x, 4) == 16 * x;
    assert Shl(x, 5) == 32 * x;
    assert Shl(x, 6) == 64 * x;
    assert Shl(x, 7) == 128 * x;
  }

  /** `from_be_bytes`. */
  function Word16(hi: Byte, lo: Byte): (w: int)
    ensures 0 <= w < 0x1_0000
  {
    ShlEight(hi);
    Shl(hi, 8) + lo
  }

  lemma WordIs(hi: Byte, lo: Byte)
    ensures Word16(hi, lo) == 256 * hi + lo
  {
    ShlEight(hi);
  }

  function Hi(w: int): Byte
    requires 0 <= w < 0x1_0000
  {
    w / 256
  }

  function Lo(w: int): Byte
    requires 0 <= w < 0x1_0000
  {
    w % 256
  }

  lemma HiLo(w: int)
    requires 0 <= w < 0x1_0000
    ensures Word16(Hi(w), Lo(w)) == w
  {
    WordIs(Hi(w), Lo(w));
  }

  lemma BytesOf(hi: Byte, lo: Byte)
    ensures Hi(Word16(hi, lo)) == hi && Lo(Word16(hi, lo)) == lo
  {
    WordIs(hi, lo);
  }

  /** The unbounded sum of the words; an odd last byte is the high half of its word. */
  function Total(s: seq<Byte>): nat {
    if s == [] then 0
    else if |s| == 1 then Word16(s[0], 0)
    else Word16(s[0], s[1]) + Total(s[2..])
  }

  /** One's-complement folding of an unbounded sum: zero stays zero, everything
      else becomes its representative in [1, 0xffff] modulo 0xffff. */
  function Folded(x: nat): (r: nat)
    ensures r <= 0xffff && (r == 0 <==> x == 0)
  {
    if x <= 0xffff then x else Folded(x - 0xffff)
  }

  lemma {:induction false} FoldedIs(x: nat)
    requires x > 0
    ensures Folded(x) == (x - 1) % 0xffff + 1
  {
    if x > 0xffff {
      FoldedIs(x - 0xffff);
      SameResidue(x - 1, x - 0xffff - 1, 1);
    }
  }

  lemma FoldStep(x: nat)
    requires x > 0xffff
    ensures 0 < x % 0x1_0000 + x / 0x1_0000 < x
    ensures Folded(x % 0x1_0000 + x / 0x1_0000) == Folded(x)
  {
    var q, r := x / 0x1_0000, x % 0x1_0000;
    SameResidue(x - 1, r + q - 1, q);
    FoldedIs(x);
    FoldedIs(r + q);
  }

  lemma SameResidue(a: nat, b: nat, q: nat)
    requires a == b + 0xffff * q
    ensures a % 0xffff == b % 0xffff
  {
    var d, m := b / 0xffff, b % 0xffff;
    assert a == 0xffff * (d + q) + m;
  }

  /** `fold`. */
  method Fold(sum: nat) returns (r: nat)
    ensures r == Folded(sum)
  {
    r := sum;
    while r > 0xffff
      invariant Folded(r) == Folded(sum)
    {
      FoldStep(r);
      r := r % 0x1_0000 + r / 0x1_0000;
    }
  }

  /** `accumulate`: exactly the word total, modulo 2^32. */
  method Accumulate(acc: nat, data: seq<Byte>) returns (r: nat)
    requires acc < 0x1_0000_0000
    ensures r == Mod32(acc + Total(data))
  {
    hide Mod32, Total, Word16;
    r := acc;
    var i := 0;
    assert data[0..] == data;
    while i + 1 < |data|
      invariant 0 <= i <= |data| && r < 0x1_0000_0000
      invariant Mod32(r + Total(data[i..])) == Mod32(acc + Total(data))
    {
      NextWord(data, i);
      WrapAdd(r, Word16(data[i], data[i + 1]), Total(data[i + 2..]));
      r := Mod32(r + Word16(data[i], data[i + 1]));
      i := i + 2;
    }
    LastWord(data, i);
    if i < |data| {
      r := Mod32(r + Word16(data[i], 0));
    } else {
      WrapSmall(r);
    }
  }

  lemma NextWord(data: seq<Byte>, i: nat)
    requires i + 1 < |data|
    ensures Total(data[i..]) == Word16(data[i], data[i + 1]) + Total(data[i + 2..])
  {
    assert data[i..][2..] == data[i + 2..];
  }

  lemma LastWord(data: seq<Byte>, i: nat)
    requires i <= |data| <= i + 1
    ensures Total(data[i..]) == if i < |data| then Word16(data[i], 0) else 0
  {
  }

  lemma WrapSmall(r: nat)
    requires r < 0x1_0000_0000
    ensures Mod32(r) == r
  {
  }

  lemma WrapAdd(r: nat, w: nat, rest: nat)
    ensures Mod32(Mod32(r + w) + rest) == Mod32(r + (w + rest))
  {
  }

  // --- no wrap -----------------------------------------------------------------------

  function Words(s: seq<Byte>): nat { (|s| + 1) / 2 }

  lemma {:induction false} TotalBound(s: seq<Byte>)
    ensures Total(s) <= 0xffff * Words(s)
  {
    if |s| > 1 {
      TotalBound(s[2..]);
      assert Words(s) == Words(s[2..]) + 1;
    }
  }

  lemma {:induction false} AllOnes(n: nat)
    ensures Total(seq(2 * n, _ => 255)) == 0xffff * n
  {
    var s: seq<Byte> := seq(2 * n, _ => 255);
    if n > 0 {
      assert s[2..] == seq(2 * (n - 1), _ => 255);
      AllOnes(n - 1);
    }
  }

  /** The 32-bit accumulator is exact for every message of `n` words exactly when
      `n` is at most 65537. */
  lemma NeverWraps(n: nat)
    ensures (forall s: seq<Byte> | Words(s) == n :: Total(s) < 0x1_0000_0000) <==> n <= 65537
  {
    if n <= 65537 {
      forall s: seq<Byte> | Words(s) == n
        ensures Total(s) < 0x1_0000_0000
      {
        TotalBound(s);
      }
    } else {
      var s: seq<Byte> := seq(2 * n, _ => 255);
      assert Words(s) == n;
      AllOnes(n);
    }
  }

  // --- validity ----------------------------------------------------------------------

  /** `sum`: what `fold(accumulate(0, data))` computes. */
  function Sum(s: seq<Byte>): (r: nat)
    ensures r <= 0xffff
  {
    Folded(Mod32(Total(s)))
  }

  predicate Valid(s: seq<Byte>) { Sum(s) == 0xffff }

  /** `checksum`: the complement. */
  function Complement(s: seq<Byte>): (c: nat)
    ensures c <= 0xffff
  {
    0xffff - Sum(s)
  }

  method ComputeSum(data: seq<Byte>) returns (r: nat)
    ensures r == Sum(data)
  {
    var acc := Accumulate(0, data);
    r := Fold(acc);
  }

  lemma FoldedMeans(x: nat)
    ensures Folded(x) == 0xffff <==> x > 0 && x % 0xffff == 0
    ensures (x + (0xffff - Folded(x))) % 0xffff == 0 && x + (0xffff - Folded(x)) > 0
  {
    if x > 0 {
      FoldedIs(x);
      var q, m := (x - 1) / 0xffff, (x - 1) % 0xffff;
      assert x == 0xffff * q + m + 1;
      assert x + (0xffff - Folded(x)) == 0xffff * (q + 1);
    }
  }

  /** A message of at most 65537 words is valid exactly when its word total is a
      positive multiple of 0xffff. */
  lemma ValidMeans(s: seq<Byte>)
    requires Words(s) <= 65537
    ensures Total(s) < 0x1_0000_0000
    ensures Valid(s) <==> Total(s) > 0 && Total(s) % 0xffff == 0
  {
    hide Total, Folded, Mod32;
    TotalBound(s);
    WrapSmall(Total(s));
    FoldedMeans(Total(s));
  }

  /** A big-endian word stored at an aligned offset. */
  function Put(s: seq<Byte>, k: nat, w: int): (r: seq<Byte>)
    requires k + 1 < |s| && 0 <= w < 0x1_0000
    ensures |r| == |s|
  {
    s[k := Hi(w)][k + 1 := Lo(w)]
  }

  function At(s: seq<Byte>, k: nat): (w: int)
    requires k + 1 < |s|
    ensures 0 <= w < 0x1_0000
  {
    Word16(s[k], s[k + 1])
  }

  lemma {:induction false} PutTotal(s: seq<Byte>, k: nat, w: int)
    requires k % 2 == 0 && k + 1 < |s| && 0 <= w < 0x1_0000
    ensures Total(Put(s, k, w)) == Total(s) - At(s, k) + w
    decreases k
  {
    HiLo(w);
    if k == 0 {
      assert Put(s, k, w)[2..] == s[2..];
    } else {
      assert Put(s, k, w)[2..] == Put(s[2..], k - 2, w);
      PutTotal(s[2..], k - 2, w);
    }
  }

  /** Storing the complement in a zeroed aligned field makes the message valid;
      so does storing 0xffff where the complement is zero. */
  lemma StoredIsValid(s: seq<Byte>, k: nat, c: nat)
    requires k % 2 == 0 && k + 1 < |s| && At(s, k) == 0 && Words(s) <= 65537
    requires c == Complement(s) || (c == 0xffff && Complement(s) == 0)
    ensures Valid(Put(s, k, c))
  {
    hide Total, Put, Folded, At, Valid, Sum;
    PutTotal(s, k, c);
    ValidMeans(s);
    ValidMeans(Put(s, k, c));
    FoldedMeans(Total(s));
    SmallSum(s);
    Raised(Total(s));
  }

  lemma Raised(x: nat)
    ensures (x + 0xffff) % 0xffff == x % 0xffff
  {
  }

  lemma SmallSum(s: seq<Byte>)
    requires Total(s) < 0x1_0000_0000
    ensures Complement(s) == 0xffff - Folded(Total(s))
  {
    hide Total, Folded, Mod32;
    WrapSmall(Total(s));
  }

  lemma CloseResidues(x: nat, y: nat)
    requires x % 0xffff == 0 && x <= y <= x + 0xffff
    ensures y % 0xffff == 0 <==> y == x || y == x + 0xffff
  {
  }

  /** Replacing one aligned word of a valid message by a different one goes
      unnoticed exactly when it swaps the two representations of zero, and the
      message does not become all zero. */
  lemma OneWordChange(s: seq<Byte>, k: nat, w: int)
    requires k % 2 == 0 && k + 1 < |s| && 0 <= w < 0x1_0000 && w != At(s, k)
    requires Words(s) <= 65537 && Valid(s)
    ensures Valid(Put(s, k, w)) <==>
              || (At(s, k) == 0 && w == 0xffff)
              || (At(s, k) == 0xffff && w == 0 && Total(s) > 0xffff)
  {
    var m := Put(s, k, w);
    PutTotal(s, k, w);
    ValidMeans(s);
    ValidMeans(m);
    if w > At(s, k) {
      CloseResidues(Total(s), Total(m));
    } else if Total(m) % 0xffff == 0 {
      CloseResidues(Total(m), Total(s));
    } else {
      NotMultiple(Total(m), Total(s));
    }
  }

  lemma NotMultiple(x: nat, y: nat)
    requires x % 0xffff != 0 && y % 0xffff == 0 && x <= y
    ensures y - x != 0xffff
  {
  }

  /** An odd last byte is always covered. */
  lemma LastByteChange(s: seq<Byte>, b: Byte)
    requires |s| % 2 == 1 && b != s[|s| - 1] && Words(s) <= 65537 && Valid(s)
    ensures !Valid(s[|s| - 1 := b])
  {
    var m := s[|s| - 1 := b];
    LastTotal(s, b);
    WordIs(s[|s| - 1], 0);
    WordIs(b, 0);
    ValidMeans(s);
    ValidMeans(m);
    if Total(m) % 0xffff == 0 && Total(m) > 0 {
      if Total(m) < Total(s) {
        CloseResidues(Total(m), Total(s));
      } else {
        CloseResidues(Total(s), Total(m));
      }
    }
  }

  lemma {:induction false} LastTotal(s: seq<Byte>, b: Byte)
    requires |s| % 2 == 1
    ensures Total(s[|s| - 1 := b]) == Total(s) - Word16(s[|s| - 1], 0) + Word16(b, 0)
  {
    if |s| > 1 {
      assert s[|s| - 1 := b][2..] == s[2..][|s| - 3 := b];
      LastTotal(s[2..], b);
    }
  }

  /** Even-length parts add up. */
  lemma {:induction false} TotalConcat(a: seq<Byte>, b: seq<Byte>)
    requires |a| % 2 == 0
    ensures Total(a + b) == Total(a) + Total(b)
  {
    if a == [] {
      assert a + b == b;
    } else {
      assert (a + b)[2..] == a[2..] + b;
      TotalConcat(a[2..], b);
    }
  }
}
