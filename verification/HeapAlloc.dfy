/** The allocator object (src/heap.rs): `init`, `insert_coalesced`, `try_alloc`
    and `dealloc`, over memory that also holds the live payloads. */
module HeapAlloc {
  import opened Ram
  import opened Align
  import opened FreeList
  import opened Heap
  import opened Carve

  // --- what an insertion leaves ---------------------------------------------------

  /** `[start, start + size)` falls between block `i - 1` and block `i`. */
  ghost predicate FitsAt(bs: seq<Block>, i: int, start: int, size: int) {
    && 0 <= i <= |bs|
    && (i > 0 ==> End(bs[i - 1]) <= start)
    && (i < |bs| ==> start + size <= bs[i].start)
  }

  function JoinLo(bs: seq<Block>, i: int, start: int): int
    requires 0 <= i <= |bs|
  {
    if i > 0 && End(bs[i - 1]) == start then i - 1 else i
  }

  function JoinHi(bs: seq<Block>, i: int, end: int): int
    requires 0 <= i <= |bs|
  {
    if i < |bs| && end == bs[i].start then i + 1 else i
  }

  /** The freed bytes merged with whichever neighbours share an edge. */
  function Joined(bs: seq<Block>, i: int, start: int, size: int): Block
    requires 0 <= i <= |bs|
  {
    var lo := if JoinLo(bs, i, start) < i then bs[i - 1].start else start;
    var hi := if JoinHi(bs, i, start + size) > i then End(bs[i]) else start + size;
    Block(lo, hi - lo)
  }

  function Inserted(bs: seq<Block>, i: int, start: int, size: int): seq<Block>
    requires 0 <= i <= |bs|
  {
    Splice(bs, JoinLo(bs, i, start), JoinHi(bs, i, start + size), [Joined(bs, i, start, size)])
  }

  lemma JoinedOk(bs: seq<Block>, i: int, start: int, size: int, hs: int, he: int)
    requires Coalesced(bs, hs, he) && BlockOk(Block(start, size), hs, he) && FitsAt(bs, i, start, size)
    ensures BlockOk(Joined(bs, i, start, size), hs, he)
    ensures var lo, hi := JoinLo(bs, i, start), JoinHi(bs, i, start + size);
            && (lo > 0 ==> Below(bs[lo - 1], Joined(bs, i, start, size)))
            && (hi < |bs| ==> Below(Joined(bs, i, start, size), bs[hi]))
  {
    if i > 0 {
      assert BlockOk(bs[i - 1], hs, he);
      if i > 1 {
        assert Below(bs[i - 2], bs[i - 1]);
      }
    }
    if i < |bs| {
      assert BlockOk(bs[i], hs, he);
      if i + 1 < |bs| {
        assert Below(bs[i], bs[i + 1]);
      }
    }
  }

  lemma InsertedCoalesced(bs: seq<Block>, i: int, start: int, size: int, hs: int, he: int)
    requires Coalesced(bs, hs, he) && BlockOk(Block(start, size), hs, he) && FitsAt(bs, i, start, size)
    ensures Coalesced(Inserted(bs, i, start, size), hs, he)
  {
    hide Joined;
    JoinedOk(bs, i, start, size, hs, he);
    SpliceCoalesced(bs, JoinLo(bs, i, start), JoinHi(bs, i, start + size), [Joined(bs, i, start, size)], hs, he);
  }

  lemma InsertedBytes(bs: seq<Block>, i: int, start: int, size: int, hs: int, he: int)
    requires Coalesced(bs, hs, he) && BlockOk(Block(start, size), hs, he) && FitsAt(bs, i, start, size)
    ensures AddsBytes(bs, Inserted(bs, i, start, size), start, start + size)
  {
    var lo, hi, b := JoinLo(bs, i, start), JoinHi(bs, i, start + size), Joined(bs, i, start, size);
    forall x
      ensures Covers(Inserted(bs, i, start, size), x) <==> Covers(bs, x) || start <= x < start + size
    {
      SpliceCovers(bs, lo, hi, [b], x);
      assert Covers([b], x) <==> [b][0].start <= x < End([b][0]);
      InsideJoin(bs, i, start, size, x);
    }
  }

  lemma InsideJoin(bs: seq<Block>, i: int, start: int, size: int, x: int)
    requires FitsAt(bs, i, start, size) && size > 0
    requires i > 0 ==> bs[i - 1].size > 0
    requires i < |bs| ==> bs[i].size > 0
    ensures var lo, hi, b := JoinLo(bs, i, start), JoinHi(bs, i, start + size), Joined(bs, i, start, size);
            CoversOutside(bs, lo, hi, x) || b.start <= x < End(b) <==> Covers(bs, x) || start <= x < start + size
  {
    var lo, hi, b := JoinLo(bs, i, start), JoinHi(bs, i, start + size), Joined(bs, i, start, size);
    if k :| 0 <= k < |bs| && bs[k].start <= x < End(bs[k]) {
      if lo <= k < hi {
        assert k == i - 1 || k == i;
      }
    }
  }

  /** No byte of the range is free exactly when it falls in a gap. */
  lemma GapOrOverlap(bs: seq<Block>, i: int, start: int, size: int, hs: int, he: int)
    requires Coalesced(bs, hs, he) && 0 <= i <= |bs| && size >= 16
    requires i > 0 ==> End(bs[i - 1]) <= start
    requires i < |bs| ==> start <= bs[i].start
    ensures FitsAt(bs, i, start, size) <==> ClearOf(bs, start, start + size)
  {
    if FitsAt(bs, i, start, size) {
      forall x | start <= x < start + size
        ensures !Covers(bs, x)
      {
        forall k | 0 <= k < |bs|
          ensures !(bs[k].start <= x < End(bs[k]))
        {
          if k < i - 1 {
            assert Below(bs[k], bs[i - 1]) && BlockOk(bs[i - 1], hs, he);
          } else if k > i {
            assert Below(bs[i], bs[k]) && BlockOk(bs[i], hs, he);
          }
        }
      }
    } else {
      assert BlockOk(bs[i], hs, he) && Covers(bs, bs[i].start);
    }
  }

  lemma OverlapBehind(bs: seq<Block>, k: int, start: int, size: int)
    requires 0 <= k < |bs| && bs[k].start < start < End(bs[k]) && size >= 16
    ensures !ClearOf(bs, start, start + size)
  {
    assert Covers(bs, start);
  }

  lemma NextBound(bs: seq<Block>, k: int, hs: int, he: int)
    requires Coalesced(bs, hs, he) && 0 <= k <= |bs|
    ensures 0 <= FirstStart(bs[k..]) < RAM_END
    ensures k < |bs| ==> FirstStart(bs[k..]) == bs[k].start && bs[k].start != 0
    ensures k == |bs| ==> FirstStart(bs[k..]) == 0
  {
    if k < |bs| {
      assert BlockOk(bs[k], hs, he);
    }
  }

  lemma HeaderCovered(bs: seq<Block>, k: int, hs: int, he: int)
    requires Coalesced(bs, hs, he) && 0 <= k < |bs|
    ensures IsHeader(bs[k].start) && Covers(bs, bs[k].start) && Covers(bs, bs[k].start + 8)
  {
    assert BlockOk(bs[k], hs, he);
  }

  lemma KeptByHeaderIn(mem: Mem, a: int, size: Word, extra: Word, bs: seq<Block>)
    requires IsHeader(a) && Covers(bs, a) && Covers(bs, a + 8)
    ensures KeptOutside(mem, WriteHeader(mem, a, size, extra), bs)
  {
    hide Rd, WriteHeader, Covers;
    forall w | IsWord(w) && !Covers(bs, w)
      ensures Rd(WriteHeader(mem, a, size, extra), w) == Rd(mem, w)
    {
      RdOfHeader(mem, a, size, extra, w);
    }
  }

  lemma KeptByWordIn(mem: Mem, m: Mem, a: int, v: Word, bs: seq<Block>)
    requires IsWord(a) && Covers(bs, a) && KeptOutside(mem, m, bs)
    ensures KeptOutside(mem, Wr(m, a, v), bs)
  {
    hide Rd, Wr, Covers;
    forall w | IsWord(w) && !Covers(bs, w)
      ensures Rd(Wr(m, a, v), w) == Rd(mem, w)
    {
      RdOfWr(m, a, v, w);
    }
  }

  /** The stores of `insert_coalesced`, given where the range falls. */
  function InsertStores(mem: Mem, bs: seq<Block>, i: int, start: int, size: int): Mem
    requires 0 <= i <= |bs|
    requires IsHeader(start) && (i > 0 ==> IsHeader(bs[i - 1].start))
    requires var b := Joined(bs, i, start, size); 0 <= b.start <= start && 0 <= b.size < RAM_END && start < RAM_END
    requires 0 <= FirstStart(bs[JoinHi(bs, i, start + size)..]) < RAM_END
  {
    var b, next := Joined(bs, i, start, size), FirstStart(bs[JoinHi(bs, i, start + size)..]);
    if JoinLo(bs, i, start) < i then WriteHeader(mem, bs[i - 1].start, b.size, next)
    else
      var m := WriteHeader(mem, start, b.size, next);
      if i > 0 then Wr(m, bs[i - 1].start + 8, start) else m
  }

  lemma InsertReady(bs: seq<Block>, i: int, start: int, size: int, hs: int, he: int)
    requires Coalesced(bs, hs, he) && BlockOk(Block(start, size), hs, he) && FitsAt(bs, i, start, size)
    ensures IsHeader(start) && (i > 0 ==> IsHeader(bs[i - 1].start))
    ensures var b := Joined(bs, i, start, size); 0 <= b.start <= start && 0 <= b.size < RAM_END && start < RAM_END
    ensures 0 <= FirstStart(bs[JoinHi(bs, i, start + size)..]) < RAM_END
  {
    NextBound(bs, JoinHi(bs, i, start + size), hs, he);
    JoinedOk(bs, i, start, size, hs, he);
    if i > 0 {
      HeaderCovered(bs, i - 1, hs, he);
    }
  }

  lemma InsertChain(mem: Mem, head: int, bs: seq<Block>, i: int, start: int, size: int, hs: int, he: int)
    requires Coalesced(bs, hs, he) && Chain(mem, head, bs)
    requires BlockOk(Block(start, size), hs, he) && FitsAt(bs, i, start, size)
    ensures InsertStores.requires(mem, bs, i, start, size)
    ensures Chain(InsertStores(mem, bs, i, start, size), if i > 0 then head else start, Inserted(bs, i, start, size))
  {
    hide Rd, Wr, WriteHeader, Chain, Coalesced, IsWord;
    InsertReady(bs, i, start, size, hs, he);
    JoinedOk(bs, i, start, size, hs, he);
    var lo, hi, b := JoinLo(bs, i, start), JoinHi(bs, i, start + size), Joined(bs, i, start, size);
    if lo < i {
      GrowChain(mem, head, bs, i - 1, hi, b, hs, he);
      HeadIsFirst(mem, head, bs);
    } else {
      LinkChain(mem, head, bs, i, hi, b, hs, he);
    }
  }

  lemma HeadIsFirst(mem: Mem, head: int, bs: seq<Block>)
    requires Chain(mem, head, bs)
    ensures head == FirstStart(bs)
  {
  }

  lemma InsertKeeps(mem: Mem, bs: seq<Block>, i: int, start: int, size: int, hs: int, he: int)
    requires Coalesced(bs, hs, he) && BlockOk(Block(start, size), hs, he) && FitsAt(bs, i, start, size)
    requires InsertStores.requires(mem, bs, i, start, size)
    ensures KeptOutside(mem, InsertStores(mem, bs, i, start, size), Inserted(bs, i, start, size))
  {
    hide Rd, Wr, WriteHeader, Coalesced, Covers, Inserted;
    InsertedBytes(bs, i, start, size, hs, he);
    var b, next := Joined(bs, i, start, size), FirstStart(bs[JoinHi(bs, i, start + size)..]);
    var free' := Inserted(bs, i, start, size);
    assert Covers(free', start) && Covers(free', start + 8);
    if i > 0 {
      HeaderCovered(bs, i - 1, hs, he);
      assert Covers(free', bs[i - 1].start) && Covers(free', bs[i - 1].start + 8);
    }
    if JoinLo(bs, i, start) < i {
      KeptByHeaderIn(mem, bs[i - 1].start, b.size, next, free');
    } else {
      KeptByHeaderIn(mem, start, b.size, next, free');
      if i > 0 {
        KeptByWordIn(mem, WriteHeader(mem, start, b.size, next), bs[i - 1].start + 8, start, free');
      }
    }
  }

  // --- what a carve leaves ---------------------------------------------------------

  /** The bytes of block `i` outside the carved `[lo, hi)` are what stays free. */
  lemma CarvedBytes(bs: seq<Block>, i: int, mid: seq<Block>, lo: int, hi: int, hs: int, he: int)
    requires Coalesced(bs, hs, he) && 0 <= i < |bs| && bs[i].start <= lo < hi <= End(bs[i])
    requires forall x :: Covers(mid, x) <==> bs[i].start <= x < End(bs[i]) && !(lo <= x < hi)
    ensures AddsBytes(Splice(bs, i, i + 1, mid), bs, lo, hi)
    ensures ClearOf(Splice(bs, i, i + 1, mid), lo, hi)
  {
    hide Splice;
    forall x
      ensures Covers(bs, x) <==> Covers(Splice(bs, i, i + 1, mid), x) || lo <= x < hi
      ensures lo <= x < hi ==> !Covers(Splice(bs, i, i + 1, mid), x)
    {
      SpliceCovers(bs, i, i + 1, mid, x);
      CoversSplit(bs, i, x, hs, he);
    }
  }

  lemma CoversSplit(bs: seq<Block>, i: int, x: int, hs: int, he: int)
    requires Coalesced(bs, hs, he) && 0 <= i < |bs|
    ensures Covers(bs, x) <==> CoversOutside(bs, i, i + 1, x) || bs[i].start <= x < End(bs[i])
    ensures bs[i].start <= x < End(bs[i]) ==> !CoversOutside(bs, i, i + 1, x)
  {
    forall k | 0 <= k < |bs| && k != i && bs[k].start <= x < End(bs[k])
      ensures !(bs[i].start <= x < End(bs[i]))
    {
      assert k < i ==> Below(bs[k], bs[i]);
      assert i < k ==> Below(bs[i], bs[k]);
    }
  }

  /** The free pieces of `b` around `[lo, te)`. */
  function Pieces(b: Block, lo: int, te: int): seq<Block> {
    (if b.start < lo then [Block(b.start, lo - b.start)] else []) + TailBlock(b, te)
  }

  lemma PiecesCover(b: Block, lo: int, te: int)
    requires b.start <= lo <= te <= End(b)
    ensures forall x :: Covers(Pieces(b, lo, te), x) <==> b.start <= x < End(b) && !(lo <= x < te)
  {
    var p := Pieces(b, lo, te);
    forall x
      ensures Covers(p, x) <==> b.start <= x < End(b) && !(lo <= x < te)
    {
      if b.start <= x < lo {
        assert p[0].start <= x < End(p[0]);
      } else if te <= x < End(b) {
        assert p[|p| - 1].start <= x < End(p[|p| - 1]);
      }
    }
  }

  lemma CarvedCoalesced(bs: seq<Block>, i: int, lo: int, te: int, hs: int, he: int)
    requires Coalesced(bs, hs, he) && 0 <= i < |bs|
    requires var b := bs[i];
             && lo % 8 == 0 && te % 8 == 0 && b.start <= lo < te <= End(b)
             && (b.start < lo ==> 16 <= lo - b.start) && (te < End(b) ==> 16 <= End(b) - te)
    ensures Coalesced(Splice(bs, i, i + 1, Pieces(bs[i], lo, te)), hs, he)
  {
    hide Splice, Pieces, Coalesced, BlockOk;
    BlockInList(bs, i, hs, he);
    PiecesCoalesced(bs[i], lo, te, hs, he);
    Neighbours(bs, i, hs, he);
    SpliceCoalesced(bs, i, i + 1, Pieces(bs[i], lo, te), hs, he);
  }

  lemma PiecesCoalesced(b: Block, lo: int, te: int, hs: int, he: int)
    requires BlockOk(b, hs, he) && lo % 8 == 0 && te % 8 == 0 && b.start <= lo < te <= End(b)
    requires (b.start < lo ==> 16 <= lo - b.start) && (te < End(b) ==> 16 <= End(b) - te)
    ensures var p := Pieces(b, lo, te);
            && Coalesced(p, hs, he)
            && (p != [] ==> b.start <= p[0].start && End(p[|p| - 1]) <= End(b))
  {
    hide BlockOk;
    if b.start < lo {
      PieceOk(b, Block(b.start, lo - b.start), hs, he);
    }
    if te < End(b) {
      PieceOk(b, Block(te, End(b) - te), hs, he);
    }
  }

  lemma PieceOk(b: Block, c: Block, hs: int, he: int)
    requires BlockOk(b, hs, he) && b.start <= c.start && End(c) <= End(b) && 16 <= c.size
    requires (c.start == b.start || c.start % 8 == 0) && (End(c) == End(b) || End(c) % 8 == 0)
    ensures BlockOk(c, hs, he)
  {
  }

  lemma Neighbours(bs: seq<Block>, i: int, hs: int, he: int)
    requires Coalesced(bs, hs, he) && 0 <= i < |bs|
    ensures (i > 0 ==> Below(bs[i - 1], bs[i])) && (i + 1 < |bs| ==> Below(bs[i], bs[i + 1]))
  {
  }

  lemma LiveHolds(mem: Mem, u: int, l: Live, hs: int, he: int)
    requires LiveOk(mem, u, l, hs, he)
    ensures Holds(l, u - 16) && Holds(l, u - 8)
  {
  }

  lemma NotYetLive(s: State, i: int, u: int, hs: int, he: int)
    requires HeapOk(s, hs, he) && 0 <= i < |s.free| && s.free[i].start + 16 <= u <= End(s.free[i])
    ensures u !in s.live
  {
    hide Chain;
    assert Covers(s.free, u - 16);
    if u in s.live {
      LiveHolds(s.mem, u, s.live[u], hs, he);
    }
  }

  /** The heap after the split stores: the carved block starts at its header. */
  lemma SplitKeepsHeap(s: State, i: int, hdr: int, te: int, hs: int, he: int)
    requires HeapOk(s, hs, he) && 0 <= i < |s.free|
    requires Spot(s.free[i], hdr, te) && s.free[i].start + 16 <= hdr
    ensures SplitStores.requires(s.mem, s.free[i], hdr, te, FirstStart(s.free[i + 1..]))
    ensures HeapOk(State(SplitStores(s.mem, s.free[i], hdr, te, FirstStart(s.free[i + 1..])), s.head,
                         Splice(s.free, i, i + 1, Pieces(s.free[i], hdr, te)),
                         s.live[hdr + 16 := Live(hdr, te - hdr, 0)]), hs, he)
  {
    hide Rd, SplitStores, Splice, Coalesced, Chain, Covers, Tiled;
    var b, next := s.free[i], FirstStart(s.free[i + 1..]);
    BlockInList(s.free, i, hs, he);
    NextBound(s.free, i + 1, hs, he);
    SpotIsHeader(b, hdr, te, hs, he);
    NotYetLive(s, i, hdr + 16, hs, he);
    SplitChain(s.mem, s.head, s.free, i, hdr, te, hs, he);
    CarvedCoalesced(s.free, i, hdr, te, hs, he);
    PiecesCover(b, hdr, te);
    CarvedBytes(s.free, i, Pieces(b, hdr, te), hdr, te, hs, he);
    var m := SplitStores(s.mem, b, hdr, te, next);
    RdSplit(s.mem, b, hdr, te, next, hdr);
    RdSplit(s.mem, b, hdr, te, next, hdr + 8);
    forall a | IsWord(a) && !Covers(s.free, a)
      ensures Rd(m, a) == Rd(s.mem, a)
    {
      BlockCovers(s.free, i, a);
      RdSplit(s.mem, b, hdr, te, next, a);
    }
    AllocKeepsHeap(s, State(m, s.head, Splice(s.free, i, i + 1, Pieces(b, hdr, te)),
                            s.live[hdr + 16 := Live(hdr, te - hdr, 0)]), hdr + 16, Live(hdr, te - hdr, 0), hs, he);
  }

  lemma BlockInList(bs: seq<Block>, i: int, hs: int, he: int)
    requires Coalesced(bs, hs, he) && 0 <= i < |bs|
    ensures BlockOk(bs[i], hs, he)
  {
  }

  lemma BlockCovers(bs: seq<Block>, i: int, x: int)
    requires 0 <= i < |bs| && !Covers(bs, x)
    ensures !(bs[i].start <= x < End(bs[i]))
  {
  }

  lemma WholeLive(mem: Mem, prev: int, b: Block, hdr: int, te: int, next: Word, hs: int, he: int)
    requires BlockOk(b, hs, he) && Spot(b, hdr, te) && hdr - b.start < 16
    requires prev != 0 ==> IsHeader(prev) && prev + 16 <= b.start
    requires SpotHeaders(b, hdr, te)
    ensures LiveOk(WholeStores(mem, prev, b, hdr, te, next), hdr + 16, Live(b.start, te - b.start, hdr - b.start), hs, he)
  {
    hide Rd, WholeStores;
    RdWhole(mem, prev, b, hdr, te, next, hdr);
    RdWhole(mem, prev, b, hdr, te, next, hdr + 8);
  }

  lemma WholeKeepsOutside(mem: Mem, bs: seq<Block>, i: int, hdr: int, te: int, next: Word, hs: int, he: int)
    requires Coalesced(bs, hs, he) && 0 <= i < |bs| && Spot(bs[i], hdr, te)
    requires WholeStores.requires(mem, PrevStart(bs, i), bs[i], hdr, te, next)
    ensures KeptOutside(mem, WholeStores(mem, PrevStart(bs, i), bs[i], hdr, te, next), bs)
  {
    hide Rd, WholeStores, Coalesced, Covers;
    var b, prev := bs[i], PrevStart(bs, i);
    PrevClear(bs, i, hs, he);
    forall a | IsWord(a) && !Covers(bs, a)
      ensures Rd(WholeStores(mem, prev, b, hdr, te, next), a) == Rd(mem, a)
    {
      BlockCovers(bs, i, a);
      if i > 0 {
        BlockInList(bs, i - 1, hs, he);
        BlockCovers(bs, i - 1, a);
      }
      RdWhole(mem, prev, b, hdr, te, next, a);
    }
  }

  /** The heap after the whole-block stores: a short prefix goes with the block. */
  lemma WholeKeepsHeap(s: State, i: int, hdr: int, te: int, hs: int, he: int)
    requires HeapOk(s, hs, he) && 0 <= i < |s.free|
    requires Spot(s.free[i], hdr, te) && hdr - s.free[i].start < 16
    ensures WholeStores.requires(s.mem, PrevStart(s.free, i), s.free[i], hdr, te, FirstStart(s.free[i + 1..]))
    ensures var b, tail := s.free[i], TailBlock(s.free[i], te);
            HeapOk(State(WholeStores(s.mem, PrevStart(s.free, i), b, hdr, te, FirstStart(s.free[i + 1..])),
                         if i > 0 then s.head else FirstStart(tail + s.free[i + 1..]),
                         Splice(s.free, i, i + 1, tail),
                         s.live[hdr + 16 := Live(b.start, te - b.start, hdr - b.start)]), hs, he)
  {
    hide Rd, WholeStores, Splice, Coalesced, Chain, Covers, Tiled, KeptOutside, AddsBytes, ClearOf, LiveOk;
    var b, next, prev := s.free[i], FirstStart(s.free[i + 1..]), PrevStart(s.free, i);
    BlockInList(s.free, i, hs, he);
    NextBound(s.free, i + 1, hs, he);
    SpotIsHeader(b, hdr, te, hs, he);
    PrevClear(s.free, i, hs, he);
    NotYetLive(s, i, hdr + 16, hs, he);
    WholeChain(s.mem, s.head, s.free, i, hdr, te, hs, he);
    assert Pieces(b, b.start, te) == TailBlock(b, te);
    CarvedCoalesced(s.free, i, b.start, te, hs, he);
    PiecesCover(b, b.start, te);
    CarvedBytes(s.free, i, TailBlock(b, te), b.start, te, hs, he);
    var m := WholeStores(s.mem, prev, b, hdr, te, next);
    WholeLive(s.mem, prev, b, hdr, te, next, hs, he);
    WholeKeepsOutside(s.mem, s.free, i, hdr, te, next, hs, he);
    var l := Live(b.start, te - b.start, hdr - b.start);
    AllocKeepsHeap(s, State(m, if i > 0 then s.head else FirstStart(TailBlock(b, te) + s.free[i + 1..]),
                            Splice(s.free, i, i + 1, TailBlock(b, te)), s.live[hdr + 16 := l]), hdr + 16, l, hs, he);
  }

  // --- the allocator -----------------------------------------------------------------

  class Allocator {
    var mem: Mem
    var head: int
    var heapStart: int
    var heapEnd: int
    /** The free blocks, in list order. */
    ghost var free: seq<Block>
    /** Every pointer handed out and not freed, with its block. */
    ghost var live: map<int, Live>

    ghost function Snapshot(): State
      reads this
    {
      State(mem, head, free, live)
    }

    ghost predicate Valid()
      reads this
    {
      HeapOk(Snapshot(), heapStart, heapEnd)
    }

    ghost predicate ListOk()
      reads this
    {
      Coalesced(free, heapStart, heapEnd) && Chain(mem, head, free) && 0 < heapStart && heapEnd <= RAM_END
    }

    /** `init`: one free block over the whole region. */
    constructor (start: int, end: int, m: Mem)
      requires 0 < start && start % 8 == 0 && end % 8 == 0 && start + 16 <= end <= RAM_END
      ensures Valid() && live == map[] && free == [Block(start, end - start)]
      ensures heapStart == start && heapEnd == end
    {
      heapStart, heapEnd := start, end;
      mem := WriteHeader(m, start, end - start, 0);
      head := start;
      free := [Block(start, end - start)];
      live := map[];
      new;
      WrittenHeader(m, start, end - start, 0);
      assert Node(mem, free, 0);
      assert forall x :: Covers(free, x) <==> free[0].start <= x < End(free[0]);
    }

    /** `in_heap`. */
    predicate InHeap(start: int, size: int)
      reads this
    {
      size >= 16 && start >= heapStart && start % 8 == 0 && start + size <= heapEnd
    }

    /** The list walk of `insert_coalesced`: the first block not below `start`. */
    method FindGap(start: int) returns (overlap: bool, prev: int, cur: int, ghost i: int)
      requires ListOk()
      ensures 0 <= i <= |free| && prev == PrevStart(free, i)
      ensures overlap ==> i < |free| && free[i].start < start < End(free[i])
      ensures !overlap ==>
                && cur == FirstStart(free[i..])
                && (i > 0 ==> End(free[i - 1]) <= start)
                && (i < |free| ==> start <= free[i].start)
    {
      prev, cur, i := 0, head, 0;
      assert free[0..] == free;
      while cur != 0 && cur < start
        invariant 0 <= i <= |free| && prev == PrevStart(free, i) && cur == FirstStart(free[i..])
        invariant i > 0 ==> End(free[i - 1]) <= start
        decreases |free| - i
      {
        NextBound(free, i, heapStart, heapEnd);
        assert Node(mem, free, i);
        var cend := cur + Rd(mem, cur);
        if start < cend {
          return true, prev, cur, i;
        }
        prev := cur;
        cur := Rd(mem, cur + 8);
        i := i + 1;
      }
      NextBound(free, i, heapStart, heapEnd);
      overlap := false;
    }

    /** `insert_coalesced`: it panics exactly on a range outside the heap or one
        that overlaps free bytes; otherwise the list becomes the coalesced list
        of the old free bytes and the new ones, and only free memory is written. */
    method InsertCoalesced(start: int, size: int) returns (r: Outcome<()>)
      requires ListOk() && size % 8 == 0
      modifies this`mem, this`head, this`free
      ensures r.Panic? <==> !InHeap(start, size) || !ClearOf(old(free), start, start + size)
      ensures r.Panic? ==> unchanged(this)
      ensures r.Done? ==>
                && Coalesced(free, heapStart, heapEnd) && Chain(mem, head, free)
                && AddsBytes(old(free), free, start, start + size)
                && KeptOutside(old(mem), mem, free)
    {
      if !InHeap(start, size) {
        return Panic;
      }
      var overlap, prev, cur;
      ghost var i;
      overlap, prev, cur, i := FindGap(start);
      if overlap {
        OverlapBehind(free, i, start, size);
        return Panic;
      }
      GapOrOverlap(free, i, start, size, heapStart, heapEnd);
      NextBound(free, i, heapStart, heapEnd);
      if cur != 0 && start + size > cur {
        return Panic;
      }
      LinkIn(start, size, prev, cur, i);
      r := Done(());
    }

    /** Merging with the neighbours and linking in. */
    method LinkIn(start: int, size: int, prev: int, cur: int, ghost i: int)
      requires ListOk() && BlockOk(Block(start, size), heapStart, heapEnd) && FitsAt(free, i, start, size)
      requires prev == PrevStart(free, i) && cur == FirstStart(free[i..])
      modifies this`mem, this`head, this`free
      ensures Coalesced(free, heapStart, heapEnd) && Chain(mem, head, free)
      ensures AddsBytes(old(free), free, start, start + size)
      ensures KeptOutside(old(mem), mem, free)
    {
      hide Coalesced, Chain, Covers, AddsBytes, KeptOutside, Inserted;
      InsertChain(mem, head, free, i, start, size, heapStart, heapEnd);
      InsertKeeps(mem, free, i, start, size, heapStart, heapEnd);
      InsertedBytes(free, i, start, size, heapStart, heapEnd);
      InsertedCoalesced(free, i, start, size, heapStart, heapEnd);
      ListReads(mem, head, free, i, heapStart, heapEnd);
      var total, next := size, cur;
      if cur != 0 && start + size == cur {
        total := total + Rd(mem, cur);
        next := Rd(mem, cur + 8);
      }
      if prev != 0 && prev + Rd(mem, prev) == start {
        mem := WriteHeader(mem, prev, Rd(mem, prev) + total, next);
      } else {
        mem := WriteHeader(mem, start, total, next);
        if prev == 0 {
          head := start;
        } else {
          mem := Wr(mem, prev + 8, start);
        }
      }
      free := Inserted(free, i, start, size);
    }

    /** `dealloc`: a live pointer is never refused, and its block goes back. */
    method Dealloc(user: int) returns (r: Outcome<()>)
      requires Valid() && (user == 0 || user in live)
      modifies this`mem, this`head, this`free, this`live
      ensures r.Panic? <==> user == 0
      ensures user == 0 ==> unchanged(this)
      ensures r.Done? ==> Valid() && live == old(live) - {user}
    {
      hide Chain, Coalesced, Covers, Rd;
      if user == 0 {
        NullNotLive(Snapshot(), heapStart, heapEnd);
        return Panic;
      }
      ghost var l := live[user];
      assert LiveOk(mem, user, l, heapStart, heapEnd);
      var hdr := user - 16;
      if hdr % 8 != 0 {
        return Panic;
      }
      var pad := Rd(mem, hdr + 8);
      var start := hdr - pad;
      var size := Rd(mem, hdr);
      LiveIsClear(Snapshot(), user, heapStart, heapEnd);
      r := InsertCoalesced(start, size);
      live := live - {user};
      FreeKeepsHeap(old(Snapshot()), Snapshot(), user, heapStart, heapEnd);
    }

    /** `try_alloc`: null exactly when no free block can hold the request; else
        the lowest block that can, at its lowest aligned address, with the whole
        payload inside the block taken. */
    method TryAlloc(size: Word, align: Word) returns (r: Outcome<int>, ghost i: int)
      requires Valid()
      modifies this`mem, this`head, this`free, this`live
      ensures r.Panic? <==> !PowerOfTwo(align)
      ensures r.Done? ==> Valid() && 0 <= i <= |old(free)| && NoneHolds(old(free), i, align, size)
      ensures r == Done(0) <==> PowerOfTwo(align) && i == |old(free)|
      ensures r.Panic? || r == Done(0) ==> unchanged(this)
      ensures r.Done? && r.value != 0 ==>
                && i < |old(free)| && Taken(old(free)[i], r.value, live, size, align)
                && r.value !in old(live) && live == old(live)[r.value := live[r.value]]
    {
      hide Chain, Coalesced, Covers, Rd, HeapOk, Probe, NoneHolds, Taken, PowerOfTwo;
      i := 0;
      if !PowerOfTwo(align) {
        return Panic, i;
      }
      var prev, cur := 0, head;
      WalkStart(Snapshot(), align, size, heapStart, heapEnd);
      while cur != 0
        invariant 0 <= i <= |free| && prev == PrevStart(free, i) && cur == FirstStart(free[i..])
        invariant NoneHolds(free, i, align, size) && unchanged(this)
        decreases |free| - i
      {
        WalkReads(Snapshot(), i, heapStart, heapEnd);
        var blockSize, next := Rd(mem, cur), Rd(mem, cur + 8);
        ProbeMeans(Snapshot(), i, align, size, heapStart, heapEnd);
        match Probe(cur, blockSize, align, size) {
          case Skip =>
            prev, cur, i := cur, next, i + 1;
          case Stop =>
            i := |free|;
            return Done(0), i;
          case Fit(user, takenEnd) =>
            Take(prev, cur, blockSize, next, user, takenEnd, align, size, i);
            return Done(user), i;
        }
      }
      WalkEnds(Snapshot(), i, heapStart, heapEnd);
      r := Done(0);
    }

    /** Carve the block found: split it, or take it whole with a short prefix. */
    method Take(prev: int, cur: int, blockSize: int, next: Word, user: int, takenEnd: int,
                ghost align: Word, ghost size: Word, ghost i: int)
      requires Valid() && 0 <= i < |free| && prev == PrevStart(free, i) && Block(cur, blockSize) == free[i]
      requires next == FirstStart(free[i + 1..]) && FitSpot(free[i], user, takenEnd, align, size)
      modifies this`mem, this`head, this`free, this`live
      ensures Valid() && user !in old(live) && user in live && live == old(live)[user := live[user]]
      ensures Taken(old(free)[i], user, live, size, align)
    {
      hide Chain, Coalesced, Covers, Rd, HeapOk, SplitStores, WholeStores, WriteHeader, Wr;
      var end, hdr := cur + blockSize, user - 16;
      var prefix := hdr - cur;
      var te := if end - takenEnd < 16 then end else takenEnd;
      SpotOfFit(Snapshot(), i, user, takenEnd, align, size, heapStart, heapEnd);
      if prefix >= 16 {
        SplitKeepsHeap(Snapshot(), i, hdr, te, heapStart, heapEnd);
        mem := SplitStores(mem, Block(cur, blockSize), hdr, te, next);
        free, live := Splice(free, i, i + 1, Pieces(free[i], hdr, te)), live[user := Live(hdr, te - hdr, 0)];
      } else {
        WholeKeepsHeap(Snapshot(), i, hdr, te, heapStart, heapEnd);
        FirstOfTail(free, i, te);
        PrevIsNull(Snapshot(), i, heapStart, heapEnd);
        mem := WholeStores(mem, prev, Block(cur, blockSize), hdr, te, next);
        if prev == 0 {
          head := if te < end then te else next;
        }
        free, live := Splice(free, i, i + 1, TailBlock(free[i], te)), live[user := Live(cur, te - cur, prefix)];
      }
    }

    /** A client stores into its own payload: nobody's header is disturbed. */
    method ClientStore(user: int, a: int, v: Word)
      requires Valid() && user in live && IsWord(a) && user <= a && a + 8 <= live[user].start + live[user].size
      modifies this`mem
      ensures Valid() && Rd(mem, a) == v
    {
      hide Chain, Coalesced, Covers, Rd, Wr;
      RdOfWr(mem, a, v, a);
      PayloadStore(Snapshot(), user, a, v, heapStart, heapEnd);
      mem := Wr(mem, a, v);
    }

    /** Freeing what was just allocated restores the identical free list. */
    method AllocThenFree(size: Word, align: Word) returns (r: Outcome<int>)
      requires Valid()
      modifies this`mem, this`head, this`free, this`live
      ensures r.Done? ==> Valid() && live == old(live) && free == old(free) && head == old(head)
    {
      hide HeapOk, Taken, NoneHolds, PowerOfTwo;
      ghost var i;
      r, i := TryAlloc(size, align);
      if r.Done? && r.value != 0 {
        var freed := Dealloc(r.value);
        LiveFixesFree(old(Snapshot()), Snapshot(), heapStart, heapEnd);
      }
    }

    /** Freeing every live block, in any order, leaves one block covering the
        whole region. */
    method FreeAll(ptrs: seq<int>)
      requires Valid() && (forall p :: p in ptrs <==> p in live) && (forall i, j | 0 <= i < j < |ptrs| :: ptrs[i] != ptrs[j])
      modifies this`mem, this`head, this`free, this`live
      ensures Valid() && live == map[] && free == [Block(heapStart, heapEnd - heapStart)]
    {
      hide HeapOk;
      NullNotLive(Snapshot(), heapStart, heapEnd);
      for k := 0 to |ptrs|
        invariant Valid() && 0 !in live
        invariant forall p :: p in live <==> p in ptrs[k..]
      {
        var freed := Dealloc(ptrs[k]);
      }
      assert forall p :: p !in live;
      assert live == map[];
      AllFreeIsOneBlock(Snapshot(), heapStart, heapEnd);
    }
  }

  // --- searching -----------------------------------------------------------------------

  /** What the search does at one block: go on, give up, or stop here. */
  datatype ProbeResult = Skip | Stop | Fit(user: int, takenEnd: int)

  function Probe(start: int, blockSize: int, align: Word, size: Word): ProbeResult
    requires 0 <= start && start + 16 < 0x1_0000_0000_0000_0000
  {
    var user := AlignUp(start + 16, align);
    if user.None? then Skip
    else if user.value - 16 < start then Skip
    else if user.value + size >= 0x1_0000_0000_0000_0000 then Stop
    else
      var takenEnd := AlignUp(user.value + size, 8);
      if takenEnd.None? then Stop
      else if takenEnd.value > start + blockSize then Skip
      else Fit(user.value, takenEnd.value)
  }

  /** None of the first `n` blocks can hold the request. */
  ghost predicate NoneHolds(bs: seq<Block>, n: int, align: int, size: int)
    requires 0 <= n <= |bs|
  {
    align > 0 && forall j | 0 <= j < n :: !CanHold(bs[j], align, size)
  }

  /** `user` and `takenEnd` are the lowest aligned spot in `b` and its rounded end. */
  ghost predicate FitSpot(b: Block, user: int, takenEnd: int, align: int, size: int) {
    && align > 0 && AtSpot(b, align, size, user) && (forall u | AtSpot(b, align, size, u) :: user <= u)
    && user % 8 == 0 && takenEnd == RoundUp8(user + size) <= End(b)
  }

  /** The block taken lies in `b` and holds the whole payload, at the lowest
      aligned address `b` offers. */
  ghost predicate Taken(b: Block, user: int, live: map<int, Live>, size: int, align: int) {
    && user in live && align > 0 && AtSpot(b, align, size, user) && (forall u | AtSpot(b, align, size, u) :: user <= u)
    && var l := live[user];
       b.start <= l.start && l.start + l.pad + 16 == user && user + size <= l.start + l.size <= End(b)
  }

  lemma ProbeMeans(s: State, i: int, align: Word, size: Word, hs: int, he: int)
    requires HeapOk(s, hs, he) && 0 <= i < |s.free| && PowerOfTwo(align) && NoneHolds(s.free, i, align, size)
    ensures var b := s.free[i];
            && 0 <= b.start && b.start + 16 < 0x1_0000_0000_0000_0000
            && match Probe(b.start, b.size, align, size) {
                 case Skip => NoneHolds(s.free, i + 1, align, size)
                 case Stop => NoneHolds(s.free, |s.free|, align, size)
                 case Fit(user, takenEnd) => FitSpot(b, user, takenEnd, align, size) && user != 0
               }
  {
    hide Chain, Tiled, CanHold, PowerOfTwo, AlignUp, RoundUp8, Coalesced, LiveOk;
    var b := s.free[i];
    BlockInList(s.free, i, hs, he);
    SpotDecides(b, align, size, hs, he);
    var user := UserAt(b, align);
    if user.Some? {
      UserBounds(b, align);
      if user.value + size < 0x1_0000_0000_0000_0000 {
        RoundUp8Is(user.value + size);
      }
      if user.value + size > RAM_END {
        StopHolds(s.free, i, align, size, hs, he);
      } else {
        LowestSpot(b, align, size);
      }
    }
  }

  lemma UserBounds(b: Block, align: Word)
    requires 0 <= b.start < RAM_END && UserAt(b, align).Some?
    ensures b.start + 16 <= UserAt(b, align).value < 0x1_0000_0000_0000_0000
  {
  }

  /** Past the end of memory in one block is past it in every later one. */
  lemma StopHolds(bs: seq<Block>, i: int, align: Word, size: Word, hs: int, he: int)
    requires Coalesced(bs, hs, he) && 0 <= i < |bs| && 0 < align && PowerOfTwo(align) && BlockOk(bs[i], hs, he)
    requires UserAt(bs[i], align).Some? && UserAt(bs[i], align).value + size > RAM_END
    ensures forall j | i <= j < |bs| :: !CanHold(bs[j], align, size)
  {
    hide CanHold, PowerOfTwo, UserAt;
    forall j | i <= j < |bs|
      ensures !CanHold(bs[j], align, size)
    {
      BlockInList(bs, j, hs, he);
      assert i < j ==> Below(bs[i], bs[j]);
      NoneAbove(bs[i], bs[j], align, size, hs, he);
    }
  }

  lemma LowestSpot(b: Block, align: Word, size: Word)
    requires 0 <= b.start < RAM_END && b.start % 8 == 0 && UserAt(b, align).Some?
    ensures var u := UserAt(b, align).value;
            u % 8 == 0 && u % align == 0 && b.start + 16 <= u && forall v | AtSpot(b, align, size, v) :: u <= v
  {
    EightAligned(b.start + 16, align);
    forall v | AtSpot(b, align, size, v)
      ensures UserAt(b, align).value <= v
    {
      LeastMultiple(b.start + 16, align, v);
    }
  }

  lemma SpotOfFit(s: State, i: int, user: int, takenEnd: int, align: Word, size: Word, hs: int, he: int)
    requires HeapOk(s, hs, he) && 0 <= i < |s.free| && FitSpot(s.free[i], user, takenEnd, align, size)
    ensures var b := s.free[i];
            var te := if End(b) - takenEnd < 16 then End(b) else takenEnd;
            Spot(b, user - 16, te) && takenEnd <= te && user !in s.live
  {
    hide HeapOk, Spot, FitSpot, AtSpot, RoundUp8;
    BlockGrain(s, i, hs, he);
    SpotNumbers(s.free[i], user, takenEnd, align, size);
    NotYetLive(s, i, user, hs, he);
  }

  lemma BlockGrain(s: State, i: int, hs: int, he: int)
    requires HeapOk(s, hs, he) && 0 <= i < |s.free|
    ensures End(s.free[i]) % 8 == 0
  {
    hide Chain, Tiled;
    BlockInList(s.free, i, hs, he);
  }

  lemma SpotNumbers(b: Block, user: int, takenEnd: int, align: Word, size: Word)
    requires FitSpot(b, user, takenEnd, align, size) && End(b) % 8 == 0
    ensures var te := if End(b) - takenEnd < 16 then End(b) else takenEnd;
            Spot(b, user - 16, te) && takenEnd <= te
    ensures b.start + 16 <= user <= End(b)
  {
  }

  lemma PrevIsNull(s: State, i: int, hs: int, he: int)
    requires HeapOk(s, hs, he) && 0 <= i < |s.free|
    ensures PrevStart(s.free, i) == 0 <==> i == 0
  {
    hide Chain, Tiled;
    PrevClear(s.free, i, hs, he);
  }

  lemma FirstOfTail(bs: seq<Block>, i: int, te: int)
    requires 0 <= i < |bs|
    ensures FirstStart(TailBlock(bs[i], te) + bs[i + 1..]) == if te < End(bs[i]) then te else FirstStart(bs[i + 1..])
  {
    if te >= End(bs[i]) {
      assert TailBlock(bs[i], te) + bs[i + 1..] == bs[i + 1..];
    }
  }

  lemma WalkStart(s: State, align: int, size: int, hs: int, he: int)
    requires HeapOk(s, hs, he) && PowerOfTwo(align)
    ensures s.head == FirstStart(s.free[0..]) && NoneHolds(s.free, 0, align, size)
  {
    assert s.free[0..] == s.free;
  }

  lemma WalkReads(s: State, i: int, hs: int, he: int)
    requires HeapOk(s, hs, he) && 0 <= i <= |s.free| && FirstStart(s.free[i..]) != 0
    ensures i < |s.free|
    ensures var b := s.free[i];
            && IsHeader(b.start) && b.start == FirstStart(s.free[i..]) && 0 <= b.start < RAM_END
            && Rd(s.mem, b.start) == b.size && Rd(s.mem, b.start + 8) == FirstStart(s.free[i + 1..])
  {
    hide Tiled, Rd;
    ListReads(s.mem, s.head, s.free, i, hs, he);
    NextBound(s.free, i, hs, he);
  }

  lemma WalkEnds(s: State, i: int, hs: int, he: int)
    requires HeapOk(s, hs, he) && 0 <= i <= |s.free| && FirstStart(s.free[i..]) == 0
    ensures i == |s.free|
  {
    hide Tiled, Chain;
    NextBound(s.free, i, hs, he);
  }

  lemma NullNotLive(s: State, hs: int, he: int)
    requires HeapOk(s, hs, he)
    ensures 0 !in s.live
  {
    hide Tiled, Chain, Coalesced, Rd;
    forall u | u in s.live
      ensures u != 0
    {
      assert LiveOk(s.mem, u, s.live[u], hs, he);
    }
  }

  lemma LiveIsClear(s: State, u: int, hs: int, he: int)
    requires HeapOk(s, hs, he) && u in s.live
    ensures ClearOf(s.free, s.live[u].start, s.live[u].start + s.live[u].size)
  {
    hide Chain, Coalesced, Rd;
    forall x | s.live[u].start <= x < s.live[u].start + s.live[u].size
      ensures !Covers(s.free, x)
    {
      assert Holds(s.live[u], x);
    }
  }

  /** A store inside one payload leaves the list and every header alone. */
  lemma PayloadStore(s: State, u: int, a: int, v: Word, hs: int, he: int)
    requires HeapOk(s, hs, he) && u in s.live && IsWord(a) && u <= a && a + 8 <= s.live[u].start + s.live[u].size
    ensures HeapOk(s.(mem := Wr(s.mem, a, v)), hs, he)
  {
    hide Rd, Wr, Coalesced, Tiled;
    var m := Wr(s.mem, a, v);
    assert LiveOk(s.mem, u, s.live[u], hs, he);
    PayloadClear(s, u, a, hs, he);
    forall i | 0 <= i < |s.free|
      ensures Node(m, s.free, i)
    {
      assert Node(s.mem, s.free, i);
      RdOfWr(s.mem, a, v, s.free[i].start);
      RdOfWr(s.mem, a, v, s.free[i].start + 8);
    }
    forall w | w in s.live
      ensures LiveOk(m, w, s.live[w], hs, he)
    {
      assert LiveOk(s.mem, w, s.live[w], hs, he);
      RdOfWr(s.mem, a, v, w - 16);
      RdOfWr(s.mem, a, v, w - 8);
    }
  }

  lemma PayloadClear(s: State, u: int, a: int, hs: int, he: int)
    requires HeapOk(s, hs, he) && u in s.live && u <= a && a + 8 <= s.live[u].start + s.live[u].size
    ensures forall i | 0 <= i < |s.free| :: a != s.free[i].start && a != s.free[i].start + 8
    ensures forall w | w in s.live :: a != w - 16 && a != w - 8
  {
    hide Chain, Rd;
    assert LiveOk(s.mem, u, s.live[u], hs, he) && Holds(s.live[u], a);
    assert !Covers(s.free, a);
    forall i | 0 <= i < |s.free|
      ensures a != s.free[i].start && a != s.free[i].start + 8
    {
      HeaderCovered(s.free, i, hs, he);
    }
    forall w | w in s.live
      ensures a != w - 16 && a != w - 8
    {
      LiveHolds(s.mem, w, s.live[w], hs, he);
    }
  }

  /** What the walk reads at its two pointers. */
  lemma ListReads(mem: Mem, head: int, bs: seq<Block>, i: int, hs: int, he: int)
    requires Coalesced(bs, hs, he) && Chain(mem, head, bs) && 0 <= i <= |bs|
    ensures i == 0 ==> PrevStart(bs, i) == 0
    ensures i > 0 ==> IsHeader(bs[i - 1].start) && bs[i - 1].start != 0 && Rd(mem, bs[i - 1].start) == bs[i - 1].size
    ensures i == |bs| ==> FirstStart(bs[i..]) == 0
    ensures i < |bs| ==>
              && IsHeader(bs[i].start) && bs[i].start != 0 && FirstStart(bs[i..]) == bs[i].start
              && Rd(mem, bs[i].start) == bs[i].size && Rd(mem, bs[i].start + 8) == FirstStart(bs[i + 1..])
  {
    hide Rd;
    NextBound(bs, i, hs, he);
    if i > 0 {
      HeaderCovered(bs, i - 1, hs, he);
      assert Node(mem, bs, i - 1) && BlockOk(bs[i - 1], hs, he);
    }
    if i < |bs| {
      HeaderCovered(bs, i, hs, he);
      assert Node(mem, bs, i) && BlockOk(bs[i], hs, he);
    }
  }
}
