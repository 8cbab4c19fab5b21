/** The heap's free list (src/heap.rs) as a list of blocks threaded through the
    free memory itself: a header of two words, size and next pointer, at the
    start of each block. */
module FreeList {
  import opened Ram

  datatype Block = Block(start: int, size: int)

  function End(b: Block): int { b.start + b.size }

  // --- memory words ------------------------------------------------------------

  predicate IsWord(a: int) { 0 <= a && a % 8 == 0 && a + 8 <= RAM_END }

  function Rd(mem: Mem, a: int): Word
    requires IsWord(a)
  {
    mem[a / 8]
  }

  function Wr(mem: Mem, a: int, v: Word): Mem
    requires IsWord(a)
  {
    mem[a / 8 := v]
  }

  lemma RdOfWr(mem: Mem, a: int, v: Word, b: int)
    requires IsWord(a) && IsWord(b)
    ensures Rd(Wr(mem, a, v), b) == if b == a then v else Rd(mem, b)
  {
  }

  /** A header at `a` is the words `a` (size) and `a + 8` (next, or pad). */
  predicate IsHeader(a: int) { IsWord(a) && IsWord(a + 8) }

  function WriteHeader(mem: Mem, a: int, size: Word, extra: Word): Mem
    requires IsHeader(a)
  {
    Wr(Wr(mem, a, size), a + 8, extra)
  }

  // --- the list ----------------------------------------------------------------

  /** A free block lies in the heap, on the 8-byte grain, with room for a header. */
  predicate BlockOk(b: Block, hs: int, he: int) {
    0 < hs <= b.start && b.start % 8 == 0 && b.size % 8 == 0 && 16 <= b.size && End(b) <= he <= RAM_END
  }

  /** `a` ends strictly below `b`: neighbours never touch. */
  predicate Below(a: Block, b: Block) { End(a) < b.start }

  /** Strictly address-sorted, with a real gap between neighbours. */
  ghost predicate Coalesced(bs: seq<Block>, hs: int, he: int) {
    && (forall i | 0 <= i < |bs| :: BlockOk(bs[i], hs, he))
    && (forall i, j | 0 <= i < j < |bs| :: Below(bs[i], bs[j]))
  }

  /** Byte `x` is free. */
  ghost predicate Covers(bs: seq<Block>, x: int) {
    exists i :: 0 <= i < |bs| && bs[i].start <= x < End(bs[i])
  }

  function FirstStart(bs: seq<Block>): int {
    if bs == [] then 0 else bs[0].start
  }

  /** The in-memory header of the `i`th block: its size and its successor. */
  ghost predicate Node(mem: Mem, bs: seq<Block>, i: int)
    requires 0 <= i < |bs|
  {
    && IsHeader(bs[i].start)
    && Rd(mem, bs[i].start) == bs[i].size
    && Rd(mem, bs[i].start + 8) == FirstStart(bs[i + 1..])
  }

  ghost predicate Chain(mem: Mem, head: int, bs: seq<Block>) {
    head == FirstStart(bs) && forall i | 0 <= i < |bs| :: Node(mem, bs, i)
  }

  // --- canonicity --------------------------------------------------------------

  lemma CoalescedTail(bs: seq<Block>, hs: int, he: int)
    requires Coalesced(bs, hs, he) && bs != []
    ensures Coalesced(bs[1..], hs, he)
    ensures forall x | Covers(bs[1..], x) :: End(bs[0]) < x
    ensures forall x :: Covers(bs, x) <==> bs[0].start <= x < End(bs[0]) || Covers(bs[1..], x)
  {
    forall x | Covers(bs[1..], x)
      ensures End(bs[0]) < x && Covers(bs, x)
    {
      var i :| 0 <= i < |bs[1..]| && bs[1..][i].start <= x < End(bs[1..][i]);
      assert bs[1..][i] == bs[i + 1];
      assert Below(bs[0], bs[i + 1]);
    }
    forall x | Covers(bs, x) && !(bs[0].start <= x < End(bs[0]))
      ensures Covers(bs[1..], x)
    {
      var i :| 0 <= i < |bs| && bs[i].start <= x < End(bs[i]);
      assert bs[1..][i - 1] == bs[i];
    }
  }

  lemma FirstBlockFixed(a: seq<Block>, b: seq<Block>, hs: int, he: int)
    requires Coalesced(a, hs, he) && Coalesced(b, hs, he) && a != [] && b != []
    requires forall x :: Covers(a, x) <==> Covers(b, x)
    ensures a[0] == b[0]
  {
    CoalescedTail(a, hs, he);
    CoalescedTail(b, hs, he);
    HeadCovered(a, hs, he);
    HeadCovered(b, hs, he);
    assert !Covers(a, End(a[0])) && !Covers(b, End(b[0]));
  }

  lemma HeadCovered(bs: seq<Block>, hs: int, he: int)
    requires Coalesced(bs, hs, he)
    ensures bs != [] ==> Covers(bs, bs[0].start)
  {
    if bs != [] {
      assert BlockOk(bs[0], hs, he);
    }
  }

  /** The list is canonical: two coalesced lists of the same free bytes are the
      same list. */
  lemma {:induction false} Canonical(a: seq<Block>, b: seq<Block>, hs: int, he: int)
    requires Coalesced(a, hs, he) && Coalesced(b, hs, he)
    requires forall x :: Covers(a, x) <==> Covers(b, x)
    ensures a == b
    decreases |a|
  {
    HeadCovered(a, hs, he);
    HeadCovered(b, hs, he);
    assert a == [] <==> b == [];
    if a != [] {
      FirstBlockFixed(a, b, hs, he);
      CoalescedTail(a, hs, he);
      CoalescedTail(b, hs, he);
      Canonical(a[1..], b[1..], hs, he);
    }
  }

  // --- replacing a run of blocks -----------------------------------------------

  /** The list with blocks `lo` up to `hi` replaced by `mid`. */
  function Splice(bs: seq<Block>, lo: int, hi: int, mid: seq<Block>): seq<Block>
    requires 0 <= lo <= hi <= |bs|
  {
    bs[..lo] + mid + bs[hi..]
  }

  lemma SpliceCoalesced(bs: seq<Block>, lo: int, hi: int, mid: seq<Block>, hs: int, he: int)
    requires Coalesced(bs, hs, he) && Coalesced(mid, hs, he) && 0 <= lo <= hi <= |bs|
    requires mid != [] && lo > 0 ==> Below(bs[lo - 1], mid[0])
    requires mid != [] && hi < |bs| ==> Below(mid[|mid| - 1], bs[hi])
    ensures Coalesced(Splice(bs, lo, hi, mid), hs, he)
  {
    forall i, m | 0 <= i < lo && 0 <= m < |mid|
      ensures Below(bs[i], mid[m])
    {
      assert BlockOk(bs[lo - 1], hs, he) && BlockOk(mid[0], hs, he);
      assert i < lo - 1 ==> Below(bs[i], bs[lo - 1]);
      assert 0 < m ==> Below(mid[0], mid[m]);
    }
    forall j, m | hi <= j < |bs| && 0 <= m < |mid|
      ensures Below(mid[m], bs[j])
    {
      assert BlockOk(bs[hi], hs, he) && BlockOk(mid[|mid| - 1], hs, he);
      assert hi < j ==> Below(bs[hi], bs[j]);
      assert m < |mid| - 1 ==> Below(mid[m], mid[|mid| - 1]);
    }
  }

  ghost predicate CoversOutside(bs: seq<Block>, lo: int, hi: int, x: int) {
    exists i :: 0 <= i < |bs| && !(lo <= i < hi) && bs[i].start <= x < End(bs[i])
  }

  lemma SpliceCovers(bs: seq<Block>, lo: int, hi: int, mid: seq<Block>, x: int)
    requires 0 <= lo <= hi <= |bs|
    ensures Covers(Splice(bs, lo, hi, mid), x) <==> CoversOutside(bs, lo, hi, x) || Covers(mid, x)
  {
    var r := Splice(bs, lo, hi, mid);
    if i :| 0 <= i < |r| && r[i].start <= x < End(r[i]) {
      if i < lo {
        assert r[i] == bs[i];
      } else if i < lo + |mid| {
        assert r[i] == mid[i - lo];
      } else {
        assert r[i] == bs[hi + (i - lo - |mid|)];
      }
    }
    if i :| 0 <= i < |bs| && !(lo <= i < hi) && bs[i].start <= x < End(bs[i]) {
      assert bs[i] == r[if i < lo then i else i - hi + lo + |mid|];
    }
    if m :| 0 <= m < |mid| && mid[m].start <= x < End(mid[m]) {
      assert mid[m] == r[lo + m];
    }
  }

  /** Both header words of `b` survive. */
  predicate Kept(mem: Mem, mem': Mem, b: Block) {
    IsHeader(b.start) && Rd(mem', b.start) == Rd(mem, b.start) && Rd(mem', b.start + 8) == Rd(mem, b.start + 8)
  }

  /** The header of `b` says its size and points to `next`. */
  predicate HeaderIs(mem: Mem, b: Block, next: int) {
    IsHeader(b.start) && Rd(mem, b.start) == b.size && Rd(mem, b.start + 8) == next
  }

  lemma SpliceChain(mem: Mem, head: int, bs: seq<Block>, lo: int, hi: int, mid: seq<Block>, mem': Mem, head': int)
    requires Chain(mem, head, bs) && 0 <= lo <= hi <= |bs|
    requires forall i | 0 <= i < lo - 1 || hi <= i < |bs| :: Kept(mem, mem', bs[i])
    requires lo > 0 ==> HeaderIs(mem', bs[lo - 1], FirstStart(mid + bs[hi..]))
    requires forall m | 0 <= m < |mid| :: HeaderIs(mem', mid[m], FirstStart(mid[m + 1..] + bs[hi..]))
    requires head' == if lo > 0 then head else FirstStart(mid + bs[hi..])
    ensures Chain(mem', head', Splice(bs, lo, hi, mid))
  {
    hide Rd, IsHeader;
    var r := Splice(bs, lo, hi, mid);
    forall i | 0 <= i < |r|
      ensures Node(mem', r, i)
    {
      if i < lo - 1 {
        assert r[i] == bs[i] && r[i + 1] == bs[i + 1] && Node(mem, bs, i) && Kept(mem, mem', bs[i]);
      } else if i == lo - 1 {
        assert r[i] == bs[i] && r[i + 1..] == mid + bs[hi..];
      } else if i < lo + |mid| {
        assert r[i] == mid[i - lo] && r[i + 1..] == mid[i - lo + 1..] + bs[hi..];
      } else {
        var j := hi + (i - lo - |mid|);
        assert r[i] == bs[j] && r[i + 1..] == bs[j + 1..] && Node(mem, bs, j) && Kept(mem, mem', bs[j]);
      }
    }
  }
}
