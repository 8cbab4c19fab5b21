/** Checking a map with the walker (src/page.rs): `assert_range`, which jumps
    by the grain it finds, and what it finds on the built map. */
module PageVerify {
  import opened Ram
  import Frame
  import opened Pte
  import opened PageTree
  import opened PageWalk
  import opened Page
  import opened PageMap
  import opened PageBuild

  datatype Expect =
    | ExpectUnmapped
    | ExpectMapped(r: bool, w: bool, x: bool, u: bool, level: int)

  /** The walk of `va` came out as expected: identity, level and flags. */
  predicate Meets(w: WalkResult, va: Word, e: Expect) {
    match e
    case ExpectUnmapped => w.Unmapped?
    case ExpectMapped(er, ew, ex, eu, level) =>
      w.Mapped? && w.pa == va && w.level == level && FlagsMatch(w.raw, er, ew, ex, eu)
  }

  /** The end of the aligned block of `LeafBytes(level)` around `va`. */
  function BlockEnd(va: Word, level: int): int
    requires 0 <= level <= 2
  {
    va / LeafBytes(level) * LeafBytes(level) + LeafBytes(level)
  }

  lemma GigaIndex(x: Word, y: Word)
    ensures x / 0x4000_0000 == y / 0x4000_0000 ==> Vpn(x, 2) == Vpn(y, 2)
  {
  }

  lemma BlockOf(va: Word, x: Word, level: int)
    requires 0 <= level <= 2 && va <= x < BlockEnd(va, level)
    ensures x / LeafBytes(level) == va / LeafBytes(level)
  {
  }

  /** The block a walk ends in resolves as one: a hole stays a hole, and a leaf
      is the same leaf, across all of it. */
  lemma BlockHit(mem: Mem, t: Tree, va: Word, x: Word)
    requires Shape(t) && Canonical(va) && Canonical(x)
    requires var h := HitAt(mem, t, va); va <= x < BlockEnd(va, h.level)
    ensures HitAt(mem, t, x) == HitAt(mem, t, va)
  {
    hide Vpn, Entry, Shape, Canonical, BlockEnd, LeafBytes;
    var h := HitAt(mem, t, va);
    BlockOf(va, x, h.level);
    BlockIndices(va, x, h.level);
  }

  lemma BlockIndices(va: Word, x: Word, level: int)
    requires Canonical(va) && Canonical(x) && 0 <= level <= 2
    requires x / LeafBytes(level) == va / LeafBytes(level)
    ensures Vpn(x, 2) == Vpn(va, 2)
    ensures level <= 1 ==> Vpn(x, 1) == Vpn(va, 1)
    ensures level == 0 ==> Vpn(x, 0) == Vpn(va, 0)
  {
    hide Vpn;
    if level == 0 {
      SamePage(x, va);
    } else if level == 1 {
      SameMega(x, va);
    } else {
      GigaIndex(x, va);
    }
  }

  lemma OffsetInBlock(va: Word, x: Word, level: int)
    requires 0 <= level <= 1 && va % LeafBytes(level) == 0 && va <= x < va + LeafBytes(level)
    ensures x % LeafBytes(level) == x - va
  {
  }

  /** So the walker, asked anywhere in the block, gives the answer of its start. */
  lemma BlockMeets(mem: Mem, t: Tree, va: Word, x: Word, e: Expect)
    requires WellFormed(mem, t) && Canonical(va) && Canonical(x)
    requires Meets(Walk(mem, 4096 * t.root, va), va, e)
    requires var h := HitAt(mem, t, va);
             va <= x < BlockEnd(va, h.level) && (h.Leaf? ==> va % LeafBytes(h.level) == 0)
    ensures Meets(Walk(mem, 4096 * t.root, x), x, e)
  {
    hide Walk, Lookup, Slots, Shape, Canonical, FlagsMatch, LeafBytes, PtePpn, Vpn, BlockEnd;
    WalkIsLookup(mem, t, va);
    WalkIsLookup(mem, t, x);
    BlockHit(mem, t, va, x);
    var h := HitAt(mem, t, va);
    if h.Leaf? {
      BlockStart(va, h.level);
      OffsetInBlock(va, x, h.level);
      OffsetInBlock(va, va, h.level);
    }
  }

  lemma PageEnd(va: int)
    ensures (va / 4096 * 4096 + 4096) % 4096 == 0
  {
  }

  lemma MegaEnd(va: int)
    ensures (va / 0x20_0000 * 0x20_0000 + 0x20_0000) % 4096 == 0
  {
    PagesOf(512 * (va / 0x20_0000) + 512);
  }

  lemma PagesOf(k: int)
    ensures 4096 * k % 4096 == 0
  {
  }

  lemma GigaEnd(va: int)
    ensures (va / 0x4000_0000 * 0x4000_0000 + 0x4000_0000) % 4096 == 0
  {
    PagesOf(0x4_0000 * (va / 0x4000_0000) + 0x4_0000);
  }

  lemma BlockStart(va: Word, level: int)
    requires 0 <= level <= 2
    ensures va < BlockEnd(va, level)
    ensures va % LeafBytes(level) == 0 ==> BlockEnd(va, level) == va + LeafBytes(level)
  {
    if level == 0 {
      assert BlockEnd(va, level) == va / 4096 * 4096 + 4096;
    } else if level == 1 {
      assert BlockEnd(va, level) == va / 0x20_0000 * 0x20_0000 + 0x20_0000;
    } else {
      assert BlockEnd(va, level) == va / 0x4000_0000 * 0x4000_0000 + 0x4000_0000;
    }
  }

  lemma BlockEndAligned(va: Word, level: int)
    requires 0 <= level <= 2
    ensures BlockEnd(va, level) % 4096 == 0
  {
    if level == 0 {
      PageEnd(va);
    } else if level == 1 {
      MegaEnd(va);
    } else {
      GigaEnd(va);
    }
  }

  lemma OffGrain(va: Word, end: int, level: int)
    requires 0 <= level <= 1 && va % 4096 == 0 && end % 4096 == 0 && va < end
    requires va % LeafBytes(level) != 0 || va + LeafBytes(level) > end
    ensures level == 1 && (va % 0x20_0000 != 0 || end % 0x20_0000 != 0)
  {
    if level == 0 {
      PagesApart(va, end);
    } else if va % 0x20_0000 == 0 && end % 0x20_0000 == 0 {
      MegasApart(va, end);
    }
  }

  lemma PagesApart(a: int, b: int)
    requires a % 4096 == 0 && b % 4096 == 0 && a < b
    ensures a + 4096 <= b
  {
  }

  lemma MegasApart(a: int, b: int)
    requires a % 0x20_0000 == 0 && b % 0x20_0000 == 0 && a < b
    ensures a + 0x20_0000 <= b
  {
  }

  lemma OnGrain(va: Word, level: int)
    requires 0 <= level <= 1 && va % LeafBytes(level) == 0 && va % 4096 == 0
    ensures (va + LeafBytes(level)) % 4096 == 0
    ensures level == 1 ==> va % 0x20_0000 == 0 && (va + LeafBytes(level)) % 0x20_0000 == 0
  {
  }

  /** A 2 MiB expectation needs both ends on the 2 MiB grain. */
  predicate GrainOk(start: int, end: int, e: Expect) {
    e.ExpectMapped? && e.level == 1 ==> start % 0x20_0000 == 0 && end % 0x20_0000 == 0
  }

  lemma GrainJoin(a: int, b: int, c: int, e: Expect)
    requires (a < b ==> GrainOk(a, b, e)) && GrainOk(b, c, e) && a <= b
    ensures GrainOk(a, c, e)
  {
  }

  lemma GrainSplit(a: int, b: int, c: int, e: Expect)
    requires (a < b ==> GrainOk(a, b, e)) && a <= b
    ensures GrainOk(a, c, e) ==> GrainOk(b, c, e)
  {
  }

  ghost predicate AllMeet(mem: Mem, root: int, lo: int, hi: int, e: Expect) {
    forall x: Word | lo <= x < hi :: Meets(Walk(mem, root, x), x, e)
  }

  /** No block straddles the edge of the canonical addresses. */
  lemma BlockCanonical(va: Word, x: Word, level: int)
    requires Canonical(va) && 0 <= level <= 2 && va <= x < BlockEnd(va, level)
    ensures Canonical(x)
  {
    if level == 0 {
      assert BlockEnd(va, level) == va / 4096 * 4096 + 4096;
    } else if level == 1 {
      assert BlockEnd(va, level) == va / 0x20_0000 * 0x20_0000 + 0x20_0000;
    } else {
      assert BlockEnd(va, level) == va / 0x4000_0000 * 0x4000_0000 + 0x4000_0000;
    }
  }

  lemma HitLevel(mem: Mem, t: Tree, va: Word)
    requires Shape(t)
    ensures 0 <= HitAt(mem, t, va).level <= 2
  {
  }

  lemma BlockAllMeets(mem: Mem, t: Tree, va: Word, next: int, e: Expect)
    requires WellFormed(mem, t) && Canonical(va) && va < next
    requires Meets(Walk(mem, 4096 * t.root, va), va, e)
    requires var h := HitAt(mem, t, va);
             next <= BlockEnd(va, h.level) && (h.Leaf? ==> va % LeafBytes(h.level) == 0)
    ensures AllMeet(mem, 4096 * t.root, va, next, e)
  {
    hide Walk, Slots, Shape, LeafBytes, BlockEnd, Meets, HitAt, Canonical;
    forall x: Word | va <= x < next
      ensures Meets(Walk(mem, 4096 * t.root, x), x, e)
    {
      HitLevel(mem, t, va);
      BlockCanonical(va, x, HitAt(mem, t, va).level);
      BlockMeets(mem, t, va, x, e);
    }
  }

  const TOP: int := 0x1_0000_0000_0000_0000

  /** The empty subtree at the end of the range reaches the top of the address space,
      where the step past it overflows. */
  ghost predicate StepOverflows(mem: Mem, root: int, end: Word, e: Expect)
    requires end > 0
  {
    var w := Walk(mem, root, end - 1);
    e.ExpectUnmapped? && w.Unmapped? && 0 <= w.level <= 2 && BlockEnd(end - 1, w.level) == TOP
  }

  /** The end of the range falls in the block of `va`. */
  lemma EndInBlock(mem: Mem, t: Tree, va: Word, end: Word, level: int)
    requires WellFormed(mem, t) && Canonical(va) && va < end && HitAt(mem, t, va) == Miss(level) && end <= BlockEnd(va, level)
    ensures 0 <= level <= 2
    ensures StepOverflows(mem, 4096 * t.root, end, ExpectUnmapped) <==> BlockEnd(va, level) == TOP
  {
    hide Walk, Slots, Shape, LeafBytes, BlockEnd, Canonical;
    BlockCanonical(va, end - 1, level);
    BlockHit(mem, t, va, end - 1);
    WalkIsLookup(mem, t, end - 1);
    SameBlockEnd(va, end - 1, level);
  }

  lemma SameBlockEnd(va: Word, x: Word, level: int)
    requires 0 <= level <= 2 && va <= x < BlockEnd(va, level)
    ensures BlockEnd(x, level) == BlockEnd(va, level)
  {
    hide LeafBytes;
    BlockOf(va, x, level);
  }

  lemma BlockTop(va: Word, level: int)
    requires 0 <= level <= 2
    ensures BlockEnd(va, level) <= TOP
  {
    if level == 0 {
      assert BlockEnd(va, level) == va / 4096 * 4096 + 4096;
    } else if level == 1 {
      assert BlockEnd(va, level) == va / 0x20_0000 * 0x20_0000 + 0x20_0000;
    } else {
      assert BlockEnd(va, level) == va / 0x4000_0000 * 0x4000_0000 + 0x4000_0000;
    }
  }

  lemma WalksCanonical(mem: Mem, root: int, va: Word)
    requires !Walk(mem, root, va).Bad?
    ensures Canonical(va)
  {
  }

  lemma MappedEnds(mem: Mem, root: int, end: Word, e: Expect)
    requires end > 0 && e.ExpectMapped?
    ensures !StepOverflows(mem, root, end, e)
  {
  }

  /** `assert_range` passes exactly when every address of the range resolves as
      expected, although it looks only once per leaf or per empty subtree; but for a
      range expected unmapped whose last empty subtree is the topmost one. */
  method AssertRange(mem: Mem, ghost t: Tree, root: int, start: Word, end: Word, e: Expect) returns (r: Outcome<()>)
    requires WellFormed(mem, t) && root == 4096 * t.root
    ensures r.Done? <==>
              start == end ||
              (start % 4096 == 0 && end % 4096 == 0 && start < end && GrainOk(start, end, e) && AllMeet(mem, root, start, end, e)
               && !StepOverflows(mem, root, end, e))
  {
    hide Walk, Slots, Shape, LeafBytes, BlockEnd, Meets, HitAt, FlagsMatch, GrainOk, StepOverflows;
    if start == end {
      return Done(());
    }
    if start % 4096 != 0 || end % 4096 != 0 || start > end {
      return Panic;
    }
    var va := start;
    while va < end
      invariant start <= va <= end && va % 4096 == 0 && AllMeet(mem, root, start, va, e)
      invariant va > start ==> GrainOk(start, va, e)
      invariant va == end ==> !StepOverflows(mem, root, end, e)
    {
      var next := NextStop(mem, t, root, va, end, e);
      if next.Panic? {
        GrainSplit(start, va, end, e);
        return Panic;
      }
      GrainJoin(start, va, next.value, e);
      va := next.value;
    }
    r := Done(());
  }

  /** One turn of the loop: the whole block that was skipped is as expected. */
  method NextStop(mem: Mem, ghost t: Tree, root: int, va: Word, end: Word, e: Expect) returns (r: Outcome<int>)
    requires WellFormed(mem, t) && root == 4096 * t.root && va < end
    requires va % 4096 == 0 && end % 4096 == 0
    ensures r.Panic? ==> !Meets(Walk(mem, root, va), va, e) || !GrainOk(va, end, e) || StepOverflows(mem, root, end, e)
    ensures r.Done? ==> va < r.value <= end && r.value % 4096 == 0 && AllMeet(mem, root, va, r.value, e)
    ensures r.Done? ==> GrainOk(va, r.value, e) && (r.value == end ==> !StepOverflows(mem, root, end, e))
  {
    hide Walk, Slots, Shape, BlockEnd, FlagsMatch, AllMeet, Lookup, StepOverflows, Canonical;
    var w := Walk(mem, root, va);
    if !Meets(w, va, e) {
      return Panic;
    }
    WalksCanonical(mem, root, va);
    WalkIsLookup(mem, t, va);
    BlockStart(va, w.level);
    match w {
      case Mapped(pa, raw, level) =>
        var step := LeafBytes(level);
        if va % step != 0 || va + step >= TOP || va + step > end {
          OffGrain(va, end, level);
          return Panic;
        }
        OnGrain(va, level);
        BlockAllMeets(mem, t, va, va + step, e);
        MappedEnds(mem, root, end, e);
        r := Done(va + step);
      case Unmapped(level, raw) =>
        BlockEndAligned(va, level);
        var next := BlockEnd(va, level);
        BlockTop(va, level);
        if end <= next {
          EndInBlock(mem, t, va, end, level);
        }
        if next >= TOP {
          return Panic;
        }
        next := if next > end then end else next;
        BlockAllMeets(mem, t, va, next, e);
        r := Done(next);
    }
  }

  /** Such a range: any that ends in the topmost gigabyte while that has no table. */
  lemma TopPanics(mem: Mem, t: Tree, start: Word, end: Word)
    requires WellFormed(mem, t) && 511 !in t.l1 && TOP - 0x4000_0000 <= start < end
    ensures AllMeet(mem, 4096 * t.root, start, end, ExpectUnmapped) && StepOverflows(mem, 4096 * t.root, end, ExpectUnmapped)
  {
    hide Walk, Vpn, Slots, Shape;
    forall x: Word | start <= x < end
      ensures Walk(mem, 4096 * t.root, x) == Unmapped(2, 0)
    {
      TopGigabyte(x);
      WalkIsLookup(mem, t, x);
    }
    assert BlockEnd(end - 1, 2) == TOP by { TopGigabyte(end - 1); }
  }

  lemma TopGigabyte(x: Word)
    requires x >= TOP - 0x4000_0000
    ensures Canonical(x) && Vpn(x, 2) == 511 && BlockEnd(x, 2) == TOP
  {
    assert x / 0x4000_0000 == 0x3_FFFF_FFFF;
  }

  // --- the finished map ------------------------------------------------------

  ghost predicate Finished(s: Snap, l: Layout) {
    Ordered(l) && WellFormed(s.mem, s.tree) && BuiltTo(s, l, REGIONS)
  }

  function WalkIn(s: Snap, x: Word): WalkResult {
    Walk(s.mem, 4096 * s.tree.root, x)
  }

  /** Each region is the identity, with its own flags and level. */
  lemma FinishedRegion(s: Snap, l: Layout, k: int, x: Word)
    requires Finished(s, l) && 0 <= k < REGIONS && In(RegionAt(l, k), x)
    ensures var r := RegionAt(l, k);
            x < VA_LIMIT && r.flags < 1024 && 0 <= r.level <= 1
            && WalkIn(s, x) == Mapped(x, IdLeaf(x, r.flags, r.level), r.level)
  {
    hide RegionAt, Walk, Lookup, PtePpn, IdLeaf, Slots, Shape;
    RegionBounds(l, k);
    assert Canonical(x);
    WalkIsLookup(s.mem, s.tree, x);
    IdPpn(x, RegionAt(l, k).flags, RegionAt(l, k).level);
  }

  /** Everything outside the regions is a hole. */
  lemma FinishedHole(s: Snap, l: Layout, x: Word)
    requires Finished(s, l) && Canonical(x) && forall k | 0 <= k < REGIONS :: !In(RegionAt(l, k), x)
    ensures WalkIn(s, x).Unmapped?
  {
    hide RegionAt, Walk, Lookup, Slots, Shape, Canonical;
    WalkIsLookup(s.mem, s.tree, x);
  }

  lemma PpnOfId(x: Word, flags: Word, level: int) returns (p: int)
    requires x < VA_LIMIT && flags < 1024 && 0 <= level <= 1
    ensures 0 <= p < 0x1000_0000_0000 && IdLeaf(x, flags, level) == p * 1024 + flags
  {
    p := if level == 0 then x / 4096 else x / 0x20_0000 * 512;
  }

  /** A mapped address carries exactly its region's permission bits. */
  lemma FinishedBits(s: Snap, l: Layout, k: int, x: Word)
    requires Finished(s, l) && 0 <= k < REGIONS && In(RegionAt(l, k), x)
    ensures var w := WalkIn(s, x);
            var f := RegionAt(l, k).flags;
            && w.Mapped? && w.pa == x && w.level == RegionAt(l, k).level
            && PteR(w.raw) == PteR(f) && PteW(w.raw) == PteW(f) && PteX(w.raw) == PteX(f) && PteU(w.raw) == PteU(f)
            && FlagsMatch(w.raw, PteR(f), PteW(f), PteX(f), PteU(f))
  {
    hide RegionAt, Walk, IdLeaf, Finished, PteV, PteR, PteW, PteX, PteU, PteG, PteA, PteD, PtePpn;
    FinishedRegion(s, l, k, x);
    RegionAD(l, k);
    var r := RegionAt(l, k);
    var p := PpnOfId(x, r.flags, r.level);
    BitsOfEntry(p, r.flags);
  }

  lemma RegionAD(l: Layout, k: int)
    requires 0 <= k < REGIONS
    ensures var f := RegionAt(l, k).flags;
            PteV(f) && PteA(f) && PteD(f) && !PteG(f) && !(PteW(f) && PteX(f))
  {
  }

  /** No address is both writable and executable. */
  lemma WriteXorExecute(s: Snap, l: Layout, x: Word)
    requires Finished(s, l) && Canonical(x) && WalkIn(s, x).Mapped?
    ensures !(PteW(WalkIn(s, x).raw) && PteX(WalkIn(s, x).raw))
  {
    hide RegionAt, Finished, Walk, PteW, PteX, PteR, PteU, FlagsMatch;
    if k :| 0 <= k < REGIONS && In(RegionAt(l, k), x) {
      FinishedBits(s, l, k, x);
      RegionAD(l, k);
    } else {
      FinishedHole(s, l, x);
    }
  }

  /** The addresses user mode may touch. */
  predicate UserAddr(l: Layout, x: int) {
    || l.st <= x < l.utextEnd || l.urodStart <= x < l.urodEnd
    || l.udatStart <= x < l.udatEnd || l.ubssStart <= x < l.ubssEnd
    || (exists id | 0 <= id < MAX_TASKS :: SlotOf(l, id).ustackBottom <= x < SlotOf(l, id).brkWall)
  }

  predicate UserRegion(k: int) { 4 <= k < 8 || (8 <= k < 20 && (k - 8) % 3 != 2) }

  lemma UserRegions(l: Layout, k: int, x: int)
    requires Ordered(l) && 0 <= k < REGIONS && In(RegionAt(l, k), x)
    ensures PteU(RegionAt(l, k).flags) <==> UserRegion(k)
    ensures UserRegion(k) ==> UserAddr(l, x)
  {
    if 8 <= k < 20 && (k - 8) % 3 != 2 {
      var id := (k - 8) / 3;
      assert SlotOf(l, id).ustackBottom <= x < SlotOf(l, id).brkWall;
    }
  }

  lemma SlotRegions(l: Layout, id: int)
    requires 0 <= id < MAX_TASKS
    ensures var s := SlotOf(l, id);
            && RegionAt(l, 8 + 3 * id) == Region(s.ustackBottom, s.ustackTop, LEAF_URW, 0)
            && RegionAt(l, 9 + 3 * id) == Region(s.ustackTop, s.brkWall, LEAF_URW, 0)
            && UserRegion(8 + 3 * id) && UserRegion(9 + 3 * id)
  {
  }

  lemma UserSections(l: Layout, k: int)
    requires 4 <= k < 8
    ensures RegionAt(l, k) ==
            if k == 4 then Region(l.st, l.utextEnd, LEAF_URX, 0) else if k == 5 then Region(l.urodStart, l.urodEnd, LEAF_UR, 0)
            else if k == 6 then Region(l.udatStart, l.udatEnd, LEAF_URW, 0) else Region(l.ubssStart, l.ubssEnd, LEAF_URW, 0)
  {
  }

  lemma UserAddrRegion(l: Layout, x: int) returns (k: int)
    requires Ordered(l) && UserAddr(l, x)
    ensures 0 <= k < REGIONS && In(RegionAt(l, k), x) && UserRegion(k)
  {
    hide RegionAt, SlotOf;
    if l.st <= x < l.utextEnd {
      k := 4;
      UserSections(l, k);
    } else if l.urodStart <= x < l.urodEnd {
      k := 5;
      UserSections(l, k);
    } else if l.udatStart <= x < l.udatEnd {
      k := 6;
      UserSections(l, k);
    } else if l.ubssStart <= x < l.ubssEnd {
      k := 7;
      UserSections(l, k);
    } else {
      var id :| 0 <= id < MAX_TASKS && SlotOf(l, id).ustackBottom <= x < SlotOf(l, id).brkWall;
      SlotRegions(l, id);
      k := if x < SlotOf(l, id).ustackTop then 8 + 3 * id else 9 + 3 * id;
    }
  }

  /** The user bit is set on exactly the user addresses; in particular on no
      kernel text, data, stack, heap, free frame or device page. */
  lemma UserBitExact(s: Snap, l: Layout, x: Word)
    requires Finished(s, l) && Canonical(x)
    ensures UserAddr(l, x) <==> WalkIn(s, x).Mapped? && PteU(WalkIn(s, x).raw)
  {
    hide RegionAt, Walk, PteW, PteX, PteR, PteU, FlagsMatch, UserAddr, UserRegion, BuiltTo, WellFormed;
    if UserAddr(l, x) {
      var k := UserAddrRegion(l, x);
      UserRegions(l, k, x);
      FinishedBits(s, l, k, x);
    } else if k :| 0 <= k < REGIONS && In(RegionAt(l, k), x) {
      UserRegions(l, k, x);
      FinishedBits(s, l, k, x);
    } else {
      FinishedHole(s, l, x);
    }
  }

  /** The gap below region `j + 1` is unmapped. */
  lemma GapUnmapped(s: Snap, l: Layout, j: int, x: Word)
    requires Finished(s, l) && 0 <= j < 22 && RegionAt(l, j).hi <= x < RegionAt(l, j + 1).lo
    ensures WalkIn(s, x).Unmapped?
  {
    hide RegionAt, Walk, BuiltTo, WellFormed;
    RegionBounds(l, j);
    RegionBounds(l, j + 1);
    forall k | 0 <= k < REGIONS
      ensures !In(RegionAt(l, k), x)
    {
      RegionBounds(l, k);
      if k < j {
        RegionAscends(l, k, j);
      } else if j + 1 < k <= 22 {
        RegionAscends(l, j + 1, k);
      }
    }
    FinishedHole(s, l, x);
  }

  lemma GuardGap(l: Layout, id: int, x: int)
    requires Ordered(l) && 0 <= id < MAX_TASKS
    ensures l.be <= x < l.sb ==> RegionAt(l, 2).hi <= x < RegionAt(l, 3).lo
    ensures SlotOf(l, id).ustackGuard <= x < SlotOf(l, id).ustackBottom ==>
              RegionAt(l, 7 + 3 * id).hi <= x < RegionAt(l, 8 + 3 * id).lo
    ensures SlotOf(l, id).brkWall <= x < SlotOf(l, id).kstackBottom ==>
              RegionAt(l, 9 + 3 * id).hi <= x < RegionAt(l, 10 + 3 * id).lo
  {
  }

  /** Every guard page is a hole: below the boot stack, and below each task's
      user and kernel stacks. */
  lemma GuardsUnmapped(s: Snap, l: Layout, id: int, x: Word)
    requires Finished(s, l) && 0 <= id < MAX_TASKS
    requires l.be <= x < l.sb || SlotOf(l, id).ustackGuard <= x < SlotOf(l, id).ustackBottom
             || SlotOf(l, id).brkWall <= x < SlotOf(l, id).kstackBottom
    ensures WalkIn(s, x).Unmapped?
  {
    hide RegionAt, Walk, BuiltTo, WellFormed, SlotOf;
    GuardGap(l, id, x);
    if l.be <= x < l.sb {
      GapUnmapped(s, l, 2, x);
    } else if SlotOf(l, id).ustackGuard <= x < SlotOf(l, id).ustackBottom {
      GapUnmapped(s, l, 7 + 3 * id, x);
    } else {
      GapUnmapped(s, l, 9 + 3 * id, x);
    }
  }

  /** Every address of a region resolves in the finished map as its flags demand. */
  lemma RegionVerifies(s: Snap, l: Layout, k: int)
    requires Finished(s, l) && 0 <= k < REGIONS
    ensures var r := RegionAt(l, k);
            r.hi <= VA_LIMIT &&
            AllMeet(s.mem, 4096 * s.tree.root, r.lo, r.hi,
                    ExpectMapped(PteR(r.flags), PteW(r.flags), PteX(r.flags), PteU(r.flags), r.level))
  {
    hide RegionAt, Walk, BuiltTo, WellFormed, PteR, PteW, PteX, PteU, FlagsMatch;
    RegionBounds(l, k);
    var r := RegionAt(l, k);
    var e := ExpectMapped(PteR(r.flags), PteW(r.flags), PteX(r.flags), PteU(r.flags), r.level);
    forall x: Word | r.lo <= x < r.hi
      ensures Meets(Walk(s.mem, 4096 * s.tree.root, x), x, e)
    {
      FinishedBits(s, l, k, x);
    }
  }
}
