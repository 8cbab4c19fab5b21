/** The kernel heap (src/heap.rs): first fit over the free list, coalescing on
    free, with every header inside the memory being managed. */
module Heap {
  import opened Ram
  import opened FreeList

  // --- stores into the list ----------------------------------------------------

  lemma RdOfHeader(mem: Mem, a: int, size: Word, extra: Word, b: int)
    requires IsHeader(a) && IsWord(b)
    ensures Rd(WriteHeader(mem, a, size, extra), b) == if b == a then size else if b == a + 8 then extra else Rd(mem, b)
  {
    hide Rd, Wr, IsWord;
    RdOfWr(mem, a, size, b);
    RdOfWr(Wr(mem, a, size), a + 8, extra, b);
  }

  lemma BlockHeader(b: Block, hs: int, he: int)
    requires BlockOk(b, hs, he)
    ensures IsHeader(b.start)
  {
  }

  /** A header written clear of `b`'s leaves `b`'s alone. */
  lemma KeptByHeader(mem: Mem, a: int, size: Word, extra: Word, b: Block)
    requires IsHeader(a) && IsHeader(b.start) && (a + 16 <= b.start || b.start + 16 <= a)
    ensures Kept(mem, WriteHeader(mem, a, size, extra), b)
  {
    hide Rd, Wr, IsWord, WriteHeader;
    RdOfHeader(mem, a, size, extra, b.start);
    RdOfHeader(mem, a, size, extra, b.start + 8);
  }

  lemma WrittenHeader(mem: Mem, a: int, size: Word, extra: Word)
    requires IsHeader(a)
    ensures HeaderIs(WriteHeader(mem, a, size, extra), Block(a, size), extra)
  {
    hide Rd, Wr, IsWord, WriteHeader;
    RdOfHeader(mem, a, size, extra, a);
    RdOfHeader(mem, a, size, extra, a + 8);
  }

  /** Rewriting block `i` in place as `b`, swallowing the blocks up to `hi`. */
  lemma GrowChain(mem: Mem, head: int, bs: seq<Block>, i: int, hi: int, b: Block, hs: int, he: int)
    requires Coalesced(bs, hs, he) && Chain(mem, head, bs) && 0 <= i < hi <= |bs|
    requires b.start == bs[i].start && BlockOk(b, hs, he)
    requires 0 <= FirstStart(bs[hi..]) < RAM_END
    ensures IsHeader(b.start)
    ensures Chain(WriteHeader(mem, b.start, b.size, FirstStart(bs[hi..])), head, Splice(bs, i, hi, [b]))
  {
    hide Rd, Wr, IsHeader, WriteHeader;
    BlockHeader(b, hs, he);
    var mem' := WriteHeader(mem, b.start, b.size, FirstStart(bs[hi..]));
    WrittenHeader(mem, b.start, b.size, FirstStart(bs[hi..]));
    forall j | 0 <= j < |bs| && !(i <= j < hi)
      ensures Kept(mem, mem', bs[j])
    {
      BlockHeader(bs[j], hs, he);
      assert j < i ==> Below(bs[j], bs[i]);
      assert j > i ==> Below(bs[i], bs[j]);
      assert BlockOk(bs[i], hs, he);
      KeptByHeader(mem, b.start, b.size, FirstStart(bs[hi..]), bs[j]);
    }
    if i > 0 {
      assert Node(mem, bs, i - 1) && bs[i - 1 + 1..] == bs[i..];
    }
    assert [b][1..] + bs[hi..] == bs[hi..];
    SpliceChain(mem, head, bs, i, hi, [b], mem', head);
  }

  /** Linking a new block `b` in before block `hi`. */
  lemma LinkChain(mem: Mem, head: int, bs: seq<Block>, i: int, hi: int, b: Block, hs: int, he: int)
    requires Coalesced(bs, hs, he) && Chain(mem, head, bs) && 0 <= i <= hi <= |bs| && BlockOk(b, hs, he)
    requires i > 0 ==> End(bs[i - 1]) <= b.start
    requires hi < |bs| ==> b.start + 16 <= bs[hi].start
    requires 0 <= FirstStart(bs[hi..]) < RAM_END
    ensures IsHeader(b.start) && (i > 0 ==> IsHeader(bs[i - 1].start))
    ensures var m := WriteHeader(mem, b.start, b.size, FirstStart(bs[hi..]));
            Chain(if i > 0 then Wr(m, bs[i - 1].start + 8, b.start) else m,
                  if i > 0 then head else b.start, Splice(bs, i, hi, [b]))
  {
    hide Rd, Wr, IsWord, WriteHeader;
    BlockHeader(b, hs, he);
    var m := WriteHeader(mem, b.start, b.size, FirstStart(bs[hi..]));
    WrittenHeader(mem, b.start, b.size, FirstStart(bs[hi..]));
    forall j | 0 <= j < |bs| && !(i <= j < hi)
      ensures Kept(mem, m, bs[j])
    {
      BlockHeader(bs[j], hs, he);
      assert BlockOk(bs[j], hs, he);
      assert j < i - 1 ==> Below(bs[j], bs[i - 1]) && BlockOk(bs[i - 1], hs, he);
      assert hi < j ==> Below(bs[hi], bs[j]) && BlockOk(bs[hi], hs, he);
      KeptByHeader(mem, b.start, b.size, FirstStart(bs[hi..]), bs[j]);
    }
    assert [b][1..] + bs[hi..] == bs[hi..];
    if i == 0 {
      SpliceChain(mem, head, bs, i, hi, [b], m, b.start);
    } else {
      RelinkPrev(mem, m, head, bs, i, hi, b, hs, he);
    }
  }

  lemma RelinkPrev(mem: Mem, m: Mem, head: int, bs: seq<Block>, i: int, hi: int, b: Block, hs: int, he: int)
    requires Coalesced(bs, hs, he) && Chain(mem, head, bs) && 0 < i <= hi <= |bs| && BlockOk(b, hs, he)
    requires End(bs[i - 1]) <= b.start && HeaderIs(m, b, FirstStart(bs[hi..]))
    requires forall j | 0 <= j < |bs| && !(i <= j < hi) :: Kept(mem, m, bs[j])
    ensures IsHeader(bs[i - 1].start)
    ensures Chain(Wr(m, bs[i - 1].start + 8, b.start), head, Splice(bs, i, hi, [b]))
  {
    hide Rd, Wr, IsWord;
    var p := bs[i - 1];
    BlockHeader(p, hs, he);
    BlockHeader(b, hs, he);
    assert BlockOk(p, hs, he);
    var m' := Wr(m, p.start + 8, b.start);
    forall j | 0 <= j < |bs| && !(i <= j < hi) && j != i - 1
      ensures Kept(mem, m', bs[j])
    {
      BlockHeader(bs[j], hs, he);
      assert BlockOk(bs[j], hs, he) && Kept(mem, m, bs[j]);
      assert j < i - 1 ==> Below(bs[j], p);
      assert j > i - 1 ==> Below(p, bs[j]);
      RdOfWr(m, p.start + 8, b.start, bs[j].start);
      RdOfWr(m, p.start + 8, b.start, bs[j].start + 8);
    }
    RdOfWr(m, p.start + 8, b.start, b.start);
    RdOfWr(m, p.start + 8, b.start, b.start + 8);
    RdOfWr(m, p.start + 8, b.start, p.start);
    RdOfWr(m, p.start + 8, b.start, p.start + 8);
    assert Node(mem, bs, i - 1) && Kept(mem, m, p);
    assert [b][1..] + bs[hi..] == bs[hi..];
    SpliceChain(mem, head, bs, i, hi, [b], m', head);
  }

  // --- the heap as a whole -----------------------------------------------------

  /** An allocated block: `size` bytes from `start`, whose header sits `pad`
      bytes in, just below the user pointer. */
  datatype Live = Live(start: int, size: int, pad: int)

  predicate Holds(l: Live, x: int) { l.start <= x < l.start + l.size }

  /** The live block behind user pointer `u`, with its header in memory. */
  ghost predicate LiveOk(mem: Mem, u: int, l: Live, hs: int, he: int) {
    && BlockOk(Block(l.start, l.size), hs, he)
    && 0 <= l.pad < 16 && l.pad % 8 == 0 && l.start + l.pad + 16 == u <= l.start + l.size
    && IsHeader(u - 16) && Rd(mem, u - 16) == l.size && Rd(mem, u - 8) == l.pad
  }

  ghost predicate LiveAt(live: map<int, Live>, x: int) {
    exists u :: u in live && Holds(live[u], x)
  }

  /** Free and live blocks tile the heap: every byte is in exactly one. */
  ghost predicate Tiled(free: seq<Block>, live: map<int, Live>, hs: int, he: int) {
    && (forall x | hs <= x < he :: Covers(free, x) || LiveAt(live, x))
    && (forall u, x | u in live && Holds(live[u], x) :: !Covers(free, x))
    && (forall u, v, x | u in live && v in live && Holds(live[u], x) && Holds(live[v], x) :: u == v)
  }

  datatype State = State(mem: Mem, head: int, free: seq<Block>, live: map<int, Live>)

  ghost predicate HeapOk(s: State, hs: int, he: int) {
    && 0 < hs && hs % 8 == 0 && he % 8 == 0 && hs + 16 <= he <= RAM_END
    && Coalesced(s.free, hs, he) && Chain(s.mem, s.head, s.free)
    && (forall u | u in s.live :: LiveOk(s.mem, u, s.live[u], hs, he))
    && Tiled(s.free, s.live, hs, he)
  }

  /** Words clear of the free bytes `bs` are the same in both memories. */
  ghost predicate KeptOutside(mem: Mem, mem': Mem, bs: seq<Block>) {
    forall a | IsWord(a) && !Covers(bs, a) :: Rd(mem', a) == Rd(mem, a)
  }

  /** `free'` holds the bytes of `free` and those of `[lo, hi)`. */
  ghost predicate AddsBytes(free: seq<Block>, free': seq<Block>, lo: int, hi: int) {
    forall x :: Covers(free', x) <==> Covers(free, x) || lo <= x < hi
  }

  /** No byte of `[lo, hi)` is free. */
  ghost predicate ClearOf(free: seq<Block>, lo: int, hi: int) {
    forall x | lo <= x < hi :: !Covers(free, x)
  }

  lemma LiveKept(mem: Mem, mem': Mem, u: int, l: Live, bs: seq<Block>, hs: int, he: int)
    requires LiveOk(mem, u, l, hs, he) && KeptOutside(mem, mem', bs)
    requires forall x | Holds(l, x) :: !Covers(bs, x)
    ensures LiveOk(mem', u, l, hs, he)
  {
    hide Rd, Covers;
    assert Holds(l, u - 16) && Holds(l, u - 8);
    assert IsWord(u - 16) && IsWord(u - 8);
  }

  /** Giving a live block back keeps the heap well-formed. */
  lemma FreeKeepsHeap(s: State, s': State, u: int, hs: int, he: int)
    requires HeapOk(s, hs, he) && u in s.live && s'.live == s.live - {u}
    requires Coalesced(s'.free, hs, he) && Chain(s'.mem, s'.head, s'.free)
    requires AddsBytes(s.free, s'.free, s.live[u].start, s.live[u].start + s.live[u].size)
    requires KeptOutside(s.mem, s'.mem, s'.free)
    ensures HeapOk(s', hs, he)
  {
    hide Rd, Covers, Coalesced, Chain;
    var l := s.live[u];
    forall v | v in s'.live
      ensures LiveOk(s'.mem, v, s'.live[v], hs, he)
      ensures forall x | Holds(s'.live[v], x) :: !Covers(s'.free, x)
    {
      assert forall x | Holds(s.live[v], x) :: !Holds(l, x);
      LiveKept(s.mem, s'.mem, v, s.live[v], s'.free, hs, he);
    }
    forall x | hs <= x < he
      ensures Covers(s'.free, x) || LiveAt(s'.live, x)
    {
      if !Covers(s'.free, x) {
        var v :| v in s.live && Holds(s.live[v], x);
        assert v in s'.live;
      }
    }
  }

  /** Carving a live block out of free bytes keeps the heap well-formed. */
  lemma AllocKeepsHeap(s: State, s': State, u: int, l: Live, hs: int, he: int)
    requires HeapOk(s, hs, he) && u !in s.live && s'.live == s.live[u := l]
    requires Coalesced(s'.free, hs, he) && Chain(s'.mem, s'.head, s'.free)
    requires AddsBytes(s'.free, s.free, l.start, l.start + l.size)
    requires ClearOf(s'.free, l.start, l.start + l.size)
    requires KeptOutside(s.mem, s'.mem, s.free) && LiveOk(s'.mem, u, l, hs, he)
    ensures HeapOk(s', hs, he)
  {
    hide Rd, Covers, Coalesced, Chain;
    forall v | v in s.live
      ensures LiveOk(s'.mem, v, s.live[v], hs, he)
    {
      LiveKept(s.mem, s'.mem, v, s.live[v], s.free, hs, he);
    }
    forall x | hs <= x < he
      ensures Covers(s'.free, x) || LiveAt(s'.live, x)
    {
      if !Covers(s'.free, x) {
        if Holds(l, x) {
          assert Holds(s'.live[u], x);
        } else {
          var v :| v in s.live && Holds(s.live[v], x);
          assert Holds(s'.live[v], x);
        }
      }
    }
    forall v, w, x | v in s'.live && w in s'.live && Holds(s'.live[v], x) && Holds(s'.live[w], x)
      ensures v == w
    {
      assert Holds(l, x) ==> Covers(s.free, x);
    }
  }

  // --- canonicity at the level of the heap ---------------------------------------

  /** With nothing live, the free list is one block covering the whole region. */
  lemma AllFreeIsOneBlock(s: State, hs: int, he: int)
    requires HeapOk(s, hs, he) && s.live == map[]
    ensures s.free == [Block(hs, he - hs)]
  {
    var whole := [Block(hs, he - hs)];
    forall x
      ensures Covers(s.free, x) <==> Covers(whole, x)
    {
      assert Covers(whole, x) <==> whole[0].start <= x < End(whole[0]);
      if Covers(s.free, x) {
        var i :| 0 <= i < |s.free| && s.free[i].start <= x < End(s.free[i]);
        assert BlockOk(s.free[i], hs, he);
      }
    }
    FreeList.Canonical(s.free, whole, hs, he);
  }

  /** The live blocks alone determine the free list, whatever order of
      allocations and frees led there. */
  lemma LiveFixesFree(s: State, s': State, hs: int, he: int)
    requires HeapOk(s, hs, he) && HeapOk(s', hs, he) && s.live == s'.live
    ensures s.free == s'.free && s.head == s'.head
  {
    forall x
      ensures Covers(s.free, x) <==> Covers(s'.free, x)
    {
      FreeByte(s, hs, he, x);
      FreeByte(s', hs, he, x);
    }
    FreeList.Canonical(s.free, s'.free, hs, he);
  }

  lemma FreeByte(s: State, hs: int, he: int, x: int)
    requires HeapOk(s, hs, he)
    ensures Covers(s.free, x) <==> hs <= x < he && !LiveAt(s.live, x)
  {
    hide Chain;
    if Covers(s.free, x) {
      var i :| 0 <= i < |s.free| && s.free[i].start <= x < End(s.free[i]);
      assert BlockOk(s.free[i], hs, he);
    }
  }
}
