/** The physical frame allocator (src/frame.rs): a bump pointer over virgin
    frames plus a recycled list threaded through the free frames themselves.
    Code holds byte addresses; the ghost side counts in frame numbers. */
module Frame {
  import opened Ram

  ghost function Range(lo: int, hi: int): (r: set<int>)
    ensures forall f :: f in r <==> lo <= f < hi
    ensures lo <= hi ==> |r| == hi - lo
    decreases hi - lo
  {
    if lo >= hi then {} else Range(lo, hi - 1) + {hi - 1}
  }

  ghost function Elements(s: seq<int>): set<int> {
    set f | f in s
  }

  ghost predicate Distinct(s: seq<int>) {
    if s == [] then true else s[0] !in s[1..] && Distinct(s[1..])
  }

  lemma {:induction false} DistinctSize(s: seq<int>)
    requires Distinct(s)
    ensures |Elements(s)| == |s|
  {
    if s == [] {
      assert Elements(s) == {};
    } else {
      DistinctSize(s[1..]);
      assert Elements(s) == {s[0]} + Elements(s[1..]);
    }
  }

  /** Walking the next-pointers in memory from `head` visits exactly the
      frames of `list`; a zero pointer ends the walk. */
  ghost predicate Threaded(mem: Mem, head: int, list: seq<int>)
    decreases list
  {
    if list == [] then
      head == 0
    else
      && 0 < list[0] < RAM_FRAMES
      && head == 4096 * list[0]
      && Threaded(mem, mem[512 * list[0]], list[1..])
  }

  lemma {:induction false} ThreadedFrame(m: Mem, m': Mem, head: int, list: seq<int>)
    requires Threaded(m, head, list)
    requires forall f | f in list && 0 <= f < RAM_FRAMES :: m'[512 * f] == m[512 * f]
    ensures Threaded(m', head, list)
    decreases list
  {
    if list != [] {
      assert list[0] in list;
      ThreadedFrame(m, m', m[512 * list[0]], list[1..]);
    }
  }

  /** The recycled frames and the outstanding ones partition every frame
      between `lo` and the bump `hi`, and the list in memory is acyclic. */
  ghost predicate PoolOk(mem: Mem, head: int, list: seq<int>, outstanding: set<int>, lo: int, hi: int) {
    && 0 < lo <= hi <= RAM_FRAMES
    && Distinct(list)
    && Threaded(mem, head, list)
    && Elements(list) !! outstanding
    && Elements(list) + outstanding == Range(lo, hi)
  }

  lemma PoolPop(mem: Mem, head: int, list: seq<int>, outstanding: set<int>, lo: int, hi: int)
    requires PoolOk(mem, head, list, outstanding, lo, hi) && head != 0
    ensures list != []
    ensures var f := list[0];
            && lo <= f < hi && f !in outstanding && head == 4096 * f && head / 8 == 512 * f
            && PoolOk(Zeroed(mem, head), mem[512 * f], list[1..], outstanding + {f}, lo, hi)
    ensures 0 <= mem[512 * list[0]] < RAM_END && (mem[512 * list[0]] == 0 <==> list[1..] == [])
  {
    hide Range;
    var f := list[0];
    assert Elements(list) == Elements(list[1..]) + {f};
    assert forall g | g in list[1..] :: g in Elements(list[1..]);
    ThreadedFrame(mem, Zeroed(mem, head), mem[512 * f], list[1..]);
  }

  lemma PoolBump(mem: Mem, head: int, list: seq<int>, outstanding: set<int>, lo: int, hi: int)
    requires PoolOk(mem, head, list, outstanding, lo, hi) && hi < RAM_FRAMES
    ensures lo <= hi && hi !in outstanding
    ensures PoolOk(Zeroed(mem, 4096 * hi), head, list, outstanding + {hi}, lo, hi + 1)
  {
    assert forall g | g in list :: g in Elements(list);
    ThreadedFrame(mem, Zeroed(mem, 4096 * hi), head, list);
  }

  lemma PoolPush(mem: Mem, head: int, list: seq<int>, outstanding: set<int>, lo: int, hi: int, f: int)
    requires PoolOk(mem, head, list, outstanding, lo, hi) && f in outstanding
    ensures lo <= f < hi && 4096 * f != head
    ensures PoolOk(mem[512 * f := head], 4096 * f, [f] + list, outstanding - {f}, lo, hi)
  {
    hide Range, Threaded, Distinct, Elements;
    assert f in Range(lo, hi);
    NotListed(list, f);
    HeadIsListed(mem, head, list);
    PushThread(mem, head, list, f);
  }

  lemma NotListed(list: seq<int>, f: int)
    requires f !in Elements(list) && Distinct(list)
    ensures f !in list && Distinct([f] + list) && Elements([f] + list) == Elements(list) + {f}
  {
    assert ([f] + list)[1..] == list;
  }

  lemma PushThread(mem: Mem, head: int, list: seq<int>, f: int)
    requires Threaded(mem, head, list) && f !in list && 0 < f < RAM_FRAMES && 0 <= head < 0x1_0000_0000_0000_0000
    ensures Threaded(mem[512 * f := head], 4096 * f, [f] + list)
  {
    hide Distinct, Elements, Range;
    assert forall g | g in list && 0 <= g < RAM_FRAMES :: mem[512 * f := head][512 * g] == mem[512 * g];
    ThreadedFrame(mem, mem[512 * f := head], head, list);
    assert ([f] + list)[1..] == list;
  }

  lemma HeadIsListed(mem: Mem, head: int, list: seq<int>)
    requires Threaded(mem, head, list)
    ensures 0 <= head < 0x1_0000_0000_0000_0000 && (head != 0 ==> list != [] && head == 4096 * list[0])
  {
  }

  lemma PoolStore(mem: Mem, head: int, list: seq<int>, outstanding: set<int>, lo: int, hi: int, f: int, i: int, v: Word)
    requires PoolOk(mem, head, list, outstanding, lo, hi) && f in outstanding && 0 <= i < 512
    ensures lo <= f < hi
    ensures PoolOk(mem[512 * f + i := v], head, list, outstanding, lo, hi)
  {
    assert f in Range(lo, hi);
    assert forall g | g in list :: g in Elements(list);
    ThreadedFrame(mem, mem[512 * f + i := v], head, list);
  }

  /** From `head`, next-pointers never leave the frames `nodes`. */
  ghost predicate Closed(mem: Mem, head: int, nodes: set<int>) {
    && Within(head, nodes)
    && forall f | f in nodes :: 0 < f < RAM_FRAMES && Within(mem[512 * f], nodes)
  }

  ghost predicate Within(p: int, nodes: set<int>) { p == 0 || (p % 4096 == 0 && p / 4096 in nodes) }

  lemma {:induction false} ThreadedClosed(mem: Mem, head: int, list: seq<int>)
    requires Threaded(mem, head, list)
    ensures Closed(mem, head, Elements(list))
    decreases list
  {
    if list != [] {
      ThreadedClosed(mem, mem[512 * list[0]], list[1..]);
      assert Elements(list) == {list[0]} + Elements(list[1..]);
    }
  }

  /** A walk ends in one way only. */
  lemma {:induction false} ThreadedUnique(mem: Mem, head: int, a: seq<int>, b: seq<int>)
    requires Threaded(mem, head, a) && Threaded(mem, head, b)
    ensures a == b
    decreases a
  {
    if a != [] && b != [] {
      ThreadedUnique(mem, mem[512 * a[0]], a[1..], b[1..]);
      assert a == [a[0]] + a[1..] && b == [b[0]] + b[1..];
    }
  }

  /** Following the list up to its node `f`, in a memory that differs at most there. */
  lemma {:induction false} WalkTo(mem: Mem, mem': Mem, head: int, list: seq<int>, f: int, s: seq<int>) returns (k: nat)
    requires Threaded(mem, head, list) && f in list && Threaded(mem', head, s)
    requires forall g | 0 <= g < RAM_FRAMES && g != f :: mem'[512 * g] == mem[512 * g]
    ensures k <= |s| && Threaded(mem', 4096 * f, s[k..])
    decreases list
  {
    if list[0] == f {
      k := 0;
      assert s[0..] == s;
    } else {
      var j := WalkTo(mem, mem', mem[512 * list[0]], list[1..], f, s[1..]);
      k := j + 1;
      assert s[1..][j..] == s[k..];
    }
  }

  ghost predicate Ends(mem: Mem, head: int) { exists s :: Threaded(mem, head, s) }

  /** A frame pushed while it is on the list makes the list a cycle: no walk ends. */
  lemma DoubleFreeLoops(mem: Mem, head: int, list: seq<int>, f: int)
    requires Threaded(mem, head, list) && f in list && 0 < f < RAM_FRAMES && 0 <= head < RAM_END
    ensures !Ends(mem[512 * f := head], 4096 * f)
  {
    var mem' := mem[512 * f := head];
    if s :| Threaded(mem', 4096 * f, s) {
      var k := WalkTo(mem, mem', head, list, f, s[1..]);
      assert s[1..][k..] == s[k + 1..];
      ThreadedUnique(mem', 4096 * f, s, s[k + 1..]);
      assert false;
    }
  }

  lemma PushClosed(mem: Mem, head: int, nodes: set<int>, f: int)
    requires Closed(mem, head, nodes) && f in nodes && 0 <= head < RAM_END
    ensures Closed(mem[512 * f := head], 4096 * f, nodes)
  {
  }

  /** Every word of the frame at `pa` is zero. */
  predicate AllZero(m: Mem, pa: int)
    requires 0 <= pa && pa + 4096 <= RAM_END
  {
    forall w | pa / 8 <= w < pa / 8 + 512 :: m[w] == 0
  }

  lemma ZeroedFrame(m: Mem, f: int)
    requires 0 <= f < RAM_FRAMES
    ensures AllZero(Zeroed(m, 4096 * f), 4096 * f)
    ensures forall g | 0 <= g < RAM_FRAMES && AllZero(m, 4096 * g) :: AllZero(Zeroed(m, 4096 * f), 4096 * g)
  {
  }

  /** Walking from `head` for `|visited|` steps leads to `pa`. */
  ghost predicate Reaches(mem: Mem, head: int, visited: seq<int>, pa: int) {
    && (forall s | Threaded(mem, pa, s) :: Threaded(mem, head, visited + s))
    && (forall s | Threaded(mem, head, s) :: |visited| <= |s| && Threaded(mem, pa, s[|visited|..]))
  }

  lemma ReachesStart(mem: Mem, head: int)
    ensures Reaches(mem, head, [], head)
  {
    assert forall s: seq<int> :: [] + s == s && s[0..] == s;
  }

  lemma ReachesNext(mem: Mem, head: int, visited: seq<int>, f: int)
    requires 0 < f < RAM_FRAMES && Reaches(mem, head, visited, 4096 * f)
    ensures Reaches(mem, head, visited + [f], mem[512 * f])
  {
    hide Threaded;
    forall s | Threaded(mem, mem[512 * f], s)
      ensures Threaded(mem, head, visited + [f] + s)
    {
      ConsThread(mem, f, s);
      assert visited + ([f] + s) == visited + [f] + s;
    }
    forall s | Threaded(mem, head, s)
      ensures |visited + [f]| <= |s| && Threaded(mem, mem[512 * f], s[|visited + [f]|..])
    {
      TailThread(mem, f, s[|visited|..]);
      assert s[|visited|..][1..] == s[|visited| + 1..];
    }
  }

  lemma ConsThread(mem: Mem, f: int, s: seq<int>)
    requires 0 < f < RAM_FRAMES && Threaded(mem, mem[512 * f], s)
    ensures Threaded(mem, 4096 * f, [f] + s)
  {
    assert ([f] + s)[1..] == s;
  }

  lemma TailThread(mem: Mem, f: int, s: seq<int>)
    requires 0 < f < RAM_FRAMES && Threaded(mem, 4096 * f, s)
    ensures s != [] && Threaded(mem, mem[512 * f], s[1..])
  {
  }

  lemma TooLong(mem: Mem, head: int, visited: seq<int>, pa: int, s: seq<int>)
    requires pa != 0 && Reaches(mem, head, visited, pa) && Threaded(mem, head, s)
    ensures |s| > |visited|
  {
  }

  lemma EndOfWalk(mem: Mem, head: int, visited: seq<int>)
    requires Reaches(mem, head, visited, 0)
    ensures Threaded(mem, head, visited)
  {
    assert Threaded(mem, 0, []);
    assert visited + [] == visited;
  }

  class FrameAllocator {
    var mem: Mem
    var head: int
    var bump: int
    var heapEnd: int
    var total: int
    var recycled: int
    var frozen: bool
    /** Frames handed out and not freed since. */
    ghost var outstanding: set<int>
    /** The recycled frames, most recently freed first. */
    ghost var list: seq<int>
    /** Frame numbers of `heapEnd` and `bump`. */
    ghost var lo: int
    ghost var hi: int

    ghost predicate Valid()
      reads this
    {
      && PoolOk(mem, head, list, outstanding, lo, hi)
      && heapEnd == 4096 * lo && bump == 4096 * hi && 0 < lo <= hi <= RAM_FRAMES
      && 0 <= head < RAM_END && (head == 0 <==> list == [])
      && total == RAM_FRAMES - lo
      && recycled == |list|
    }

    /** `init`: the heap symbols come from the linker; unusable ones panic. */
    constructor (heapStart: int, end: int, m: Mem)
      requires 0 <= heapStart && heapStart % 4096 == 0 && end % 4096 == 0
      requires heapStart < end <= RAM_END
      ensures Valid() && fresh(this)
      ensures mem == m && heapEnd == bump == end && outstanding == {} && list == [] && !frozen
      ensures FreeCount() == total
    {
      mem, head, bump, heapEnd := m, 0, end, end;
      lo, hi := end / 4096, end / 4096;
      total := (RAM_END - end) / 4096;
      recycled, frozen, outstanding, list := 0, false, {}, [];
    }

    function FreeCount(): int
      reads this
    {
      (RAM_END - bump) / 4096 + recycled
    }

    /** The frame the next allocation hands out: the last one freed, else the bump. */
    function NextFrame(): int
      reads this
    {
      if head != 0 then head else bump
    }

    /** Free frames and outstanding frames always add up to the total. */
    lemma Accounting()
      requires Valid()
      ensures FreeCount() + |outstanding| == total
      ensures 0 <= FreeCount() <= total
    {
      DistinctSize(list);
      assert |Elements(list) + outstanding| == |Elements(list)| + |outstanding|;
    }

    /** Frame `f` was nobody's and is now outstanding, zeroed; nothing else
        in memory or in the accounting moved. */
    twostate predicate Took(f: int)
      reads this
    {
      && old(lo) <= f < RAM_FRAMES && f !in old(outstanding)
      && outstanding == old(outstanding) + {f}
      && mem == Zeroed(old(mem), 4096 * f)
      && FreeCount() == old(FreeCount()) - 1
      && lo == old(lo) && frozen == old(frozen)
    }

    method PopRecycled() returns (pa: int, ghost f: int)
      requires Valid() && head != 0
      modifies this
      ensures Valid() && Took(f) && pa == 4096 * f
      ensures old(list) == [f] + list && pa == old(head) && bump == old(bump)
    {
      hide PoolOk;
      PoolPop(mem, head, list, outstanding, lo, hi);
      f := list[0];
      pa := head;
      head := mem[pa / 8];
      assert recycled != 0;  // so the source's underflow panic is unreachable
      recycled := recycled - 1;
      list := list[1..];
      mem := Zeroed(mem, pa);
      outstanding := outstanding + {f};
    }

    method TakeVirgin() returns (pa: int, ghost f: int)
      requires Valid() && head == 0 && bump < RAM_END
      modifies this
      ensures Valid() && Took(f) && pa == 4096 * f
      ensures list == [] && pa == old(bump) && bump == pa + 4096
    {
      hide PoolOk;
      PoolBump(mem, head, list, outstanding, lo, hi);
      f := hi;
      pa := bump;
      bump := bump + 4096;
      hi := hi + 1;
      mem := Zeroed(mem, pa);
      outstanding := outstanding + {f};
    }

    /** `alloc_frame`: recycled list first, then the bump. It panics exactly
        when frozen or out of frames. */
    method AllocFrame() returns (r: Outcome<int>, ghost f: int)
      requires Valid()
      modifies this
      ensures Valid()
      ensures r.Panic? <==> old(frozen) || old(FreeCount()) == 0
      ensures r.Panic? ==> unchanged(this)
      ensures r.Done? ==> Took(f) && r.value == 4096 * f == old(NextFrame())
      ensures r.Done? && old(list) != [] ==> old(list) == [f] + list && bump == old(bump)
      ensures r.Done? && old(list) == [] ==> list == [] && bump == old(bump) + 4096
    {
      hide PoolOk;
      f := 0;
      if frozen || (head == 0 && bump >= RAM_END) {
        r := Panic;
      } else if head != 0 {
        var pa;
        pa, f := PopRecycled();
        r := Done(pa);
      } else {
        var pa;
        pa, f := TakeVirgin();
        r := Done(pa);
      }
    }

    /** `free_frame`: push onto the recycled list. The guards catch a frame
        that was never handed out and a double free of the list head; a caller
        that frees only what it holds is never refused. */
    method FreeFrame(pa: int) returns (r: Outcome<()>)
      requires Valid()
      modifies this
      ensures r.Panic? <==>
                old(frozen) || pa % 4096 != 0 || !(heapEnd <= pa < old(bump)) || pa == old(head)
      ensures r.Panic? ==> unchanged(this)
      ensures r.Done? ==> 0 <= pa < RAM_END && head == pa && mem == old(mem)[pa / 8 := old(head)] && recycled == old(recycled) + 1
      ensures pa % 4096 == 0 && pa / 4096 in old(outstanding) && !old(frozen) ==>
                && r.Done? && Valid()
                && outstanding == old(outstanding) - {pa / 4096}
                && list == [pa / 4096] + old(list)
                && FreeCount() == old(FreeCount()) + 1
      ensures lo == old(lo) && frozen == old(frozen) && bump == old(bump) && heapEnd == old(heapEnd) && total == old(total)
    {
      hide PoolOk;
      ghost var f := pa / 4096;
      if pa % 4096 == 0 && f in outstanding {
        PoolPush(mem, head, list, outstanding, lo, hi, f);
      }
      if frozen {
        return Panic;
      }
      if pa % 4096 != 0 || pa < heapEnd || pa >= RAM_END {
        return Panic;
      }
      if pa >= bump {
        return Panic;
      }
      if pa == head {
        return Panic;
      }
      assert pa / 8 == 512 * f;
      mem := mem[pa / 8 := head];
      head := pa;
      recycled := recycled + 1;
      list := [f] + list;
      outstanding := outstanding - {f};
      r := Done(());
    }

    /** A frame freed and allocated again comes straight back. */
    method FreeThenAlloc(pa: int) returns (again: Outcome<int>)
      requires Valid() && !frozen && pa % 4096 == 0 && pa / 4096 in outstanding
      modifies this
      ensures Valid() && again == Done(pa)
      ensures outstanding == old(outstanding) && list == old(list) && FreeCount() == old(FreeCount())
      ensures bump == old(bump) && lo == old(lo) && !frozen
    {
      hide PoolOk;
      Accounting();
      var done := FreeFrame(pa);
      ghost var f;
      label freed:
      again, f := AllocFrame();
      assert old@freed(list)[0] == f && old@freed(list)[1..] == list;
    }

    /** `check_recycled`: it passes exactly when the list ends, after `recycled` nodes. */
    method CheckRecycled(ghost nodes: set<int>) returns (r: Outcome<()>)
      requires Closed(mem, head, nodes) && recycled >= 0
      ensures r.Done? <==> exists s :: Threaded(mem, head, s) && |s| == recycled
    {
      hide Threaded, Reaches;
      var n, pa := 0, head;
      ghost var visited: seq<int> := [];
      ReachesStart(mem, head);
      while pa != 0
        invariant n == |visited| <= recycled + 1 && Closed(mem, pa, nodes) && Reaches(mem, head, visited, pa)
        decreases recycled + 1 - n
      {
        n := n + 1;
        if n > recycled + 1 {
          if s :| Threaded(mem, head, s) && |s| == recycled {
            TooLong(mem, head, visited, pa, s);
          }
          return Panic;
        }
        ghost var f := pa / 4096;
        assert f in nodes && pa / 8 == 512 * f;
        ReachesNext(mem, head, visited, f);
        visited := visited + [f];
        pa := mem[pa / 8];
      }
      EndOfWalk(mem, head, visited);
      if n != recycled {
        if s :| Threaded(mem, head, s) && |s| == recycled {
          ThreadedUnique(mem, head, s, visited);
        }
        return Panic;
      }
      r := Done(());
    }

    /** On a valid pool neither of its panics is reachable. */
    method CheckValid() returns (r: Outcome<()>)
      requires Valid()
      ensures r.Done?
    {
      hide Threaded, Distinct, Elements, Range, Closed;
      ThreadedClosed(mem, head, list);
      r := CheckRecycled(Elements(list));
    }

    /** A double free that the head test misses: `free_frame` takes it, and
        `check_recycled` then panics. */
    method DoubleFree(pa: int) returns (freed: Outcome<()>, checked: Outcome<()>)
      requires Valid() && !frozen && pa % 4096 == 0 && pa / 4096 in list && pa != head
      modifies this
      ensures freed.Done? && checked.Panic?
    {
      hide Threaded, Distinct, Range, Closed;
      ghost var f, m, h := pa / 4096, mem, head;
      assert f in Elements(list) && f in Range(lo, hi);
      ThreadedClosed(m, h, list);
      PushClosed(m, h, Elements(list), f);
      DoubleFreeLoops(m, h, list, f);
      freed := FreeFrame(pa);
      checked := CheckRecycled(Elements(old(list)));
    }

    /** The first half of `self_test`: two frames, distinct, aligned and zero. */
    method TakeTwo() returns (r: Outcome<int>)
      requires Valid()
      modifies this
      ensures r.Done? <==> !old(frozen) && old(FreeCount()) >= 2
      ensures r.Done? ==>
                && Valid() && lo == old(lo) && !frozen && FreeCount() == old(FreeCount()) - 2
                && r.value % 4096 == 0 && r.value / 4096 in outstanding
                && (old(list) == [] ==> list == [] && bump == old(bump) + 0x2000)
    {
      hide PoolOk, Zeroed, AllZero;
      ghost var f, g;
      var a, b;
      a, f := AllocFrame();
      if a.Panic? {
        return Panic;
      }
      ZeroedFrame(old(mem), f);
      label one:
      b, g := AllocFrame();
      if b.Panic? {
        return Panic;
      }
      if a.value == b.value || a.value % 4096 != 0 || b.value % 4096 != 0 {
        return Panic;
      }
      ZeroedFrame(old@one(mem), g);
      assert AllZero(mem, 4096 * f) && AllZero(mem, 4096 * g);
      if !AllZero(mem, a.value) || !AllZero(mem, b.value) {
        return Panic;
      }
      r := a;
    }

    /** `self_test`: it passes exactly on an open pool with nothing handed out and two
        frames to give, and leaves two frames outstanding; on a pool with nothing
        recycled those are the first two above the bump. */
    method SelfTest() returns (r: Outcome<()>)
      requires Valid()
      modifies this
      ensures r.Done? <==> !old(frozen) && old(FreeCount()) >= 2 && old(FreeCount()) == old(total)
      ensures r.Done? ==> Valid() && lo == old(lo) && !frozen && FreeCount() == total - 2
      ensures r.Done? && old(list) == [] ==> list == [] && bump == old(bump) + 0x2000
    {
      hide PoolOk, Zeroed, AllZero;
      var a := TakeTwo();
      if a.Panic? {
        return Panic;
      }
      var c := FreeThenAlloc(a.value);
      if c != a {
        return Panic;
      }
      var walked := CheckValid();
      if walked.Panic? || FreeCount() != total - 2 {
        return Panic;
      }
      r := Done(());
    }

    method Freeze()
      requires Valid()
      modifies this`frozen
      ensures Valid() && frozen
    {
      frozen := true;
    }

    /** A store by the owner of the outstanding frame `f` at its word `i`. */
    method Store(ghost f: int, a: int, i: int, v: Word)
      requires Valid() && f in outstanding && a == 4096 * f && 0 <= i < 512
      modifies this`mem
      ensures Valid() && 0 < f < RAM_FRAMES
      ensures mem == old(mem)[512 * f + i := v]
    {
      hide PoolOk;
      PoolStore(mem, head, list, outstanding, lo, hi, f, i, v);
      assert a / 8 + i == 512 * f + i;
      mem := mem[a / 8 + i := v];
    }
  }
}
