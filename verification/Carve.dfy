/** Taking a block out of the free list (src/heap.rs, `try_alloc`): where the
    aligned block goes, and the stores that split the free block around it. */
module Carve {
  import opened Ram
  import opened Align
  import opened FreeList
  import opened Heap

  // --- where it goes -------------------------------------------------------------

  /** Block `b` has room for a header and `size` bytes at an `align`ed address. */
  ghost predicate CanHold(b: Block, align: int, size: int)
    requires align > 0
  {
    exists u :: AtSpot(b, align, size, u)
  }

  predicate AtSpot(b: Block, align: int, size: int, u: int)
    requires align > 0
  {
    u % align == 0 && b.start + 16 <= u && u + size <= End(b)
  }

  /** The user address the search computes for a block, if it does not overflow. */
  function UserAt(b: Block, align: Word): Option<int>
    requires 0 <= b.start && b.start + 16 < 0x1_0000_0000_0000_0000
  {
    AlignUp(b.start + 16, align)
  }

  /** The payload's end rounded up to the header grain. */
  function RoundUp8(x: int): (r: int)
    ensures r % 8 == 0 && x <= r < x + 8
  {
    x + 7 - (x + 7) % 8
  }

  lemma RoundUp8Is(x: Word)
    ensures AlignUp(x, 8) == if x + 7 >= 0x1_0000_0000_0000_0000 then None else Some(RoundUp8(x))
  {
    assert PowerOfTwo(8) by {
      assert PowerOfTwo(1) && PowerOfTwo(2) && PowerOfTwo(4);
    }
  }

  /** The one spot the search tries is the lowest, so it decides the block. */
  lemma SpotDecides(b: Block, align: Word, size: Word, hs: int, he: int)
    requires BlockOk(b, hs, he) && PowerOfTwo(align)
    ensures UserAt(b, align).None? ==> !CanHold(b, align, size)
    ensures UserAt(b, align).Some? ==>
              (CanHold(b, align, size) <==> RoundUp8(UserAt(b, align).value + size) <= End(b))
  {
    forall u | AtSpot(b, align, size, u)
      ensures UserAt(b, align).Some? && UserAt(b, align).value <= u
    {
      if UserAt(b, align).Some? {
        LeastMultiple(b.start + 16, align, u);
      } else {
        MultiplesApart(0, u, align);
      }
    }
    if UserAt(b, align).Some? {
      var v := UserAt(b, align).value;
      RoundFits(v + size, End(b));
      assert v + size <= End(b) ==> AtSpot(b, align, size, v);
    }
  }

  lemma RoundFits(x: int, end: int)
    requires end % 8 == 0
    ensures RoundUp8(x) <= end <==> x <= end
  {
  }

  /** Once the payload would pass the end of RAM, no block at or above this one
      can hold it: stopping early loses nothing, because the list is sorted. */
  lemma NoneAbove(b: Block, c: Block, align: Word, size: Word, hs: int, he: int)
    requires BlockOk(b, hs, he) && BlockOk(c, hs, he) && b.start <= c.start && PowerOfTwo(align)
    requires UserAt(b, align).Some? && UserAt(b, align).value + size > RAM_END
    ensures !CanHold(c, align, size)
  {
    forall u
      ensures !AtSpot(c, align, size, u)
    {
      if u % align == 0 && b.start + 16 <= u {
        LeastMultiple(b.start + 16, align, u);
      }
    }
  }

  // --- the stores ------------------------------------------------------------------

  /** Enough room below: the free block shrinks to its prefix, and what is left
      above becomes a free block of its own. */
  function SplitStores(mem: Mem, b: Block, hdr: int, te: int, next: Word): Mem
    requires IsHeader(b.start) && IsHeader(hdr) && 0 <= hdr - b.start && hdr <= te <= End(b) <= RAM_END
    requires te < End(b) ==> IsHeader(te)
  {
    var m := WriteHeader(Wr(mem, b.start, hdr - b.start), hdr, te - hdr, 0);
    if te < End(b) then Wr(WriteHeader(m, te, End(b) - te, next), b.start + 8, te) else m
  }

  lemma RdSplit(mem: Mem, b: Block, hdr: int, te: int, next: Word, a: int)
    requires IsHeader(b.start) && IsHeader(hdr) && b.start + 16 <= hdr && hdr + 16 <= te <= End(b) <= RAM_END
    requires te < End(b) ==> IsHeader(te)
    requires IsWord(a)
    ensures Rd(SplitStores(mem, b, hdr, te, next), a) ==
            if a == b.start then hdr - b.start
            else if a == hdr then te - hdr
            else if a == hdr + 8 then 0
            else if te < End(b) && a == te then End(b) - te
            else if te < End(b) && a == te + 8 then next
            else if te < End(b) && a == b.start + 8 then te
            else Rd(mem, a)
  {
    hide Rd, Wr, WriteHeader;
    var m0 := Wr(mem, b.start, hdr - b.start);
    RdOfWr(mem, b.start, hdr - b.start, a);
    RdOfHeader(m0, hdr, te - hdr, 0, a);
    if te < End(b) {
      var m1 := WriteHeader(m0, hdr, te - hdr, 0);
      RdOfHeader(m1, te, End(b) - te, next, a);
      RdOfWr(WriteHeader(m1, te, End(b) - te, next), b.start + 8, te, a);
    }
  }

  /** No room below: the whole block is unlinked, and a tail big enough to be a
      block takes its place in the list. */
  function WholeStores(mem: Mem, prev: int, b: Block, hdr: int, te: int, next: Word): Mem
    requires prev != 0 ==> IsHeader(prev)
    requires IsHeader(b.start) && IsHeader(hdr) && 0 <= hdr - b.start && b.start <= te <= End(b) <= RAM_END
    requires te < End(b) ==> IsHeader(te)
  {
    var m0 := if prev == 0 then mem else Wr(mem, prev + 8, next);
    var m := WriteHeader(m0, hdr, te - b.start, hdr - b.start);
    if te == End(b) then m
    else
      var m' := WriteHeader(m, te, End(b) - te, next);
      if prev == 0 then m' else Wr(m', prev + 8, te)
  }

  lemma RdWhole(mem: Mem, prev: int, b: Block, hdr: int, te: int, next: Word, a: int)
    requires prev != 0 ==> IsHeader(prev) && prev + 16 <= b.start
    requires IsHeader(b.start) && IsHeader(hdr) && b.start <= hdr && hdr + 16 <= te <= End(b) <= RAM_END
    requires te < End(b) ==> IsHeader(te)
    requires IsWord(a)
    ensures Rd(WholeStores(mem, prev, b, hdr, te, next), a) ==
            if a == hdr then te - b.start
            else if a == hdr + 8 then hdr - b.start
            else if te < End(b) && a == te then End(b) - te
            else if te < End(b) && a == te + 8 then next
            else if prev != 0 && a == prev + 8 then (if te < End(b) then te else next)
            else Rd(mem, a)
  {
    hide Rd, Wr, WriteHeader;
    var m0 := if prev == 0 then mem else Wr(mem, prev + 8, next);
    if prev != 0 {
      RdOfWr(mem, prev + 8, next, a);
    }
    RdOfHeader(m0, hdr, te - b.start, hdr - b.start, a);
    if te < End(b) {
      var m1 := WriteHeader(m0, hdr, te - b.start, hdr - b.start);
      RdOfHeader(m1, te, End(b) - te, next, a);
      if prev != 0 {
        RdOfWr(WriteHeader(m1, te, End(b) - te, next), prev + 8, te, a);
      }
    }
  }

  // --- the list afterwards -----------------------------------------------------------

  /** The free block left above a carved one. */
  function TailBlock(b: Block, te: int): seq<Block> {
    if te < End(b) then [Block(te, End(b) - te)] else []
  }

  /** `[hdr, te)` is a place to carve in `b`: on the grain, with room for the
      header, and leaving either nothing or a whole block above. */
  predicate Spot(b: Block, hdr: int, te: int) {
    && hdr % 8 == 0 && te % 8 == 0 && b.start <= hdr && hdr + 16 <= te <= End(b)
    && (te < End(b) ==> 16 <= End(b) - te)
  }

  predicate SpotHeaders(b: Block, hdr: int, te: int) {
    IsHeader(b.start) && IsHeader(hdr) && (te < End(b) ==> IsHeader(te))
  }

  lemma SpotIsHeader(b: Block, hdr: int, te: int, hs: int, he: int)
    requires BlockOk(b, hs, he) && Spot(b, hdr, te)
    ensures SpotHeaders(b, hdr, te)
  {
  }

  lemma KeptBySplit(mem: Mem, b: Block, hdr: int, te: int, next: Word, c: Block)
    requires SpotHeaders(b, hdr, te) && b.start + 16 <= hdr && hdr + 16 <= te <= End(b) <= RAM_END
    requires IsHeader(c.start) && (c.start + 16 <= b.start || End(b) <= c.start)
    requires te < End(b) ==> te + 16 <= End(b)
    ensures Kept(mem, SplitStores(mem, b, hdr, te, next), c)
  {
    hide Rd, SplitStores;
    RdSplit(mem, b, hdr, te, next, c.start);
    RdSplit(mem, b, hdr, te, next, c.start + 8);
  }

  lemma OthersClear(bs: seq<Block>, i: int, j: int, hs: int, he: int)
    requires Coalesced(bs, hs, he) && 0 <= i < |bs| && 0 <= j < |bs| && i != j
    ensures IsHeader(bs[j].start) && (bs[j].start + 16 <= bs[i].start || End(bs[i]) <= bs[j].start)
  {
    assert BlockOk(bs[j], hs, he) && BlockOk(bs[i], hs, he);
    assert j < i ==> Below(bs[j], bs[i]);
    assert i < j ==> Below(bs[i], bs[j]);
  }

  lemma SplitChain(mem: Mem, head: int, bs: seq<Block>, i: int, hdr: int, te: int, hs: int, he: int)
    requires Coalesced(bs, hs, he) && Chain(mem, head, bs) && 0 <= i < |bs|
    requires Spot(bs[i], hdr, te) && bs[i].start + 16 <= hdr && SpotHeaders(bs[i], hdr, te)
    requires 0 <= FirstStart(bs[i + 1..]) < RAM_END && End(bs[i]) <= RAM_END
    ensures Chain(SplitStores(mem, bs[i], hdr, te, FirstStart(bs[i + 1..])), head,
                  Splice(bs, i, i + 1, [Block(bs[i].start, hdr - bs[i].start)] + TailBlock(bs[i], te)))
  {
    hide Rd, SplitStores, IsWord;
    var b, next := bs[i], FirstStart(bs[i + 1..]);
    var m := SplitStores(mem, b, hdr, te, next);
    var tail := TailBlock(b, te);
    var mid := [Block(b.start, hdr - b.start)] + tail;
    forall j | 0 <= j < |bs| && j != i
      ensures Kept(mem, m, bs[j])
    {
      OthersClear(bs, i, j, hs, he);
      KeptBySplit(mem, b, hdr, te, next, bs[j]);
    }
    assert Node(mem, bs, i);
    RdSplit(mem, b, hdr, te, next, b.start);
    RdSplit(mem, b, hdr, te, next, b.start + 8);
    assert mid[1..] == tail;
    if te < End(b) {
      RdSplit(mem, b, hdr, te, next, te);
      RdSplit(mem, b, hdr, te, next, te + 8);
      assert tail + bs[i + 1..] != [] && mid[2..] + bs[i + 1..] == bs[i + 1..];
    } else {
      assert tail + bs[i + 1..] == bs[i + 1..];
    }
    if i > 0 {
      assert Node(mem, bs, i - 1) && bs[i - 1 + 1..] == bs[i..];
    }
    SpliceChain(mem, head, bs, i, i + 1, mid, m, head);
  }

  lemma KeptByWhole(mem: Mem, prev: int, b: Block, hdr: int, te: int, next: Word, c: Block)
    requires prev != 0 ==> IsHeader(prev) && prev + 16 <= b.start
    requires SpotHeaders(b, hdr, te) && b.start <= hdr && hdr + 16 <= te <= End(b) <= RAM_END
    requires te < End(b) ==> te + 16 <= End(b)
    requires IsHeader(c.start) && (c.start + 16 <= b.start || End(b) <= c.start)
    requires prev != 0 ==> c.start + 16 <= prev || prev + 16 <= c.start
    ensures Kept(mem, WholeStores(mem, prev, b, hdr, te, next), c)
  {
    hide Rd, WholeStores;
    RdWhole(mem, prev, b, hdr, te, next, c.start);
    RdWhole(mem, prev, b, hdr, te, next, c.start + 8);
  }

  function PrevStart(bs: seq<Block>, i: int): int
    requires 0 <= i <= |bs|
  {
    if i == 0 then 0 else bs[i - 1].start
  }

  lemma PrevClear(bs: seq<Block>, i: int, hs: int, he: int)
    requires Coalesced(bs, hs, he) && 0 <= i < |bs|
    ensures i > 0 ==> PrevStart(bs, i) != 0 && IsHeader(PrevStart(bs, i)) && PrevStart(bs, i) + 16 <= bs[i].start
  {
    if i > 0 {
      OthersClear(bs, i, i - 1, hs, he);
      assert BlockOk(bs[i - 1], hs, he) && Below(bs[i - 1], bs[i]);
    }
  }

  lemma WholeChain(mem: Mem, head: int, bs: seq<Block>, i: int, hdr: int, te: int, hs: int, he: int)
    requires Coalesced(bs, hs, he) && Chain(mem, head, bs) && 0 <= i < |bs|
    requires Spot(bs[i], hdr, te) && SpotHeaders(bs[i], hdr, te)
    requires PrevStart(bs, i) != 0 ==> IsHeader(PrevStart(bs, i))
    requires 0 <= FirstStart(bs[i + 1..]) < RAM_END && End(bs[i]) <= RAM_END
    ensures var tail := TailBlock(bs[i], te);
            Chain(WholeStores(mem, PrevStart(bs, i), bs[i], hdr, te, FirstStart(bs[i + 1..])),
                  if i > 0 then head else FirstStart(tail + bs[i + 1..]), Splice(bs, i, i + 1, tail))
  {
    hide Rd, WholeStores, IsWord;
    var b, next, prev := bs[i], FirstStart(bs[i + 1..]), PrevStart(bs, i);
    PrevClear(bs, i, hs, he);
    var m := WholeStores(mem, prev, b, hdr, te, next);
    var tail := TailBlock(b, te);
    forall j | 0 <= j < |bs| && j != i && j != i - 1
      ensures Kept(mem, m, bs[j])
    {
      OthersClear(bs, i, j, hs, he);
      if i > 0 {
        OthersClear(bs, i - 1, j, hs, he);
        assert BlockOk(bs[i - 1], hs, he);
      }
      KeptByWhole(mem, prev, b, hdr, te, next, bs[j]);
    }
    if te < End(b) {
      RdWhole(mem, prev, b, hdr, te, next, te);
      RdWhole(mem, prev, b, hdr, te, next, te + 8);
      assert tail[1..] + bs[i + 1..] == bs[i + 1..];
    } else {
      assert tail + bs[i + 1..] == bs[i + 1..];
    }
    if i > 0 {
      assert Node(mem, bs, i - 1);
      RdWhole(mem, prev, b, hdr, te, next, prev);
      RdWhole(mem, prev, b, hdr, te, next, prev + 8);
    }
    SpliceChain(mem, head, bs, i, i + 1, tail, m, if i > 0 then head else FirstStart(tail + bs[i + 1..]));
  }
}
