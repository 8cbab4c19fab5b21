/** `verify` (src/page.rs) on the finished map, and with it `init` and the memory part
    of boot: all checks pass but one, which depends on where the root table lies. */
module PageCheck {
  import opened Ram
  import Frame
  import opened Pte
  import opened PageTree
  import opened Page
  import opened PageMap
  import opened PageBuild
  import opened PageVerify

  datatype Check = Check(lo: int, hi: int, want: Expect)

  const CHECKS: int := 32

  const KERNEL_RX: Expect := ExpectMapped(true, false, true, false, 0)
  const KERNEL_R: Expect := ExpectMapped(true, false, false, false, 0)
  const KERNEL_RW: Expect := ExpectMapped(true, true, false, false, 0)
  const KERNEL_RW_L1: Expect := ExpectMapped(true, true, false, false, 1)
  const USER_RX: Expect := ExpectMapped(true, false, true, true, 0)
  const USER_R: Expect := ExpectMapped(true, false, false, true, 0)
  const USER_RW: Expect := ExpectMapped(true, true, false, true, 0)

  /** The five checks of task slot `id`. */
  function SlotCheck(l: Layout, id: int, k: int): Check
    requires 0 <= k < 5
  {
    var s := SlotOf(l, id);
    if k == 0 then Check(s.ustackGuard, s.ustackBottom, ExpectUnmapped)
    else if k == 1 then Check(s.ustackBottom, s.ustackTop, USER_RW)
    else if k == 2 then Check(s.ustackTop, s.brkWall, USER_RW)
    else if k == 3 then Check(s.brkWall, s.kstackBottom, ExpectUnmapped)
    else Check(s.kstackBottom, s.kstackTop, KERNEL_RW)
  }

  /** The `assert_range` calls of `verify`, in order. */
  function CheckAt(l: Layout, k: int): Check
    requires 0 <= k < CHECKS
  {
    if k == 0 then Check(l.ks, l.rs, KERNEL_RX)
    else if k == 1 then Check(l.rs, l.ds, KERNEL_R)
    else if k == 2 then Check(l.ds, l.be, KERNEL_RW)
    else if k == 3 then Check(l.be, l.sb, ExpectUnmapped)
    else if k == 4 then Check(l.sb, l.st, KERNEL_RW)
    else if k == 5 then Check(l.st, l.utextEnd, USER_RX)
    else if k == 6 then Check(l.urodStart, l.urodEnd, USER_R)
    else if k == 7 then Check(l.udatStart, l.udatEnd, USER_RW)
    else if k == 8 then Check(l.ubssStart, l.ubssEnd, USER_RW)
    else if k < 29 then SlotCheck(l, (k - 9) / 5, (k - 9) % 5)
    else if k == 29 then Check(l.hs, RAM_L1_START, KERNEL_RW)
    else if k == 30 then Check(RAM_L1_START, RAM_END, KERNEL_RW_L1)
    else Check(MMIO_BASE, MMIO_END, KERNEL_RW)
  }

  /** What `assert_range` needs of a range. */
  ghost predicate Passes(s: Snap, c: Check) {
    && 0 <= c.lo <= c.hi <= VA_LIMIT && c.lo % 4096 == 0 && c.hi % 4096 == 0
    && GrainOk(c.lo, c.hi, c.want) && AllMeet(s.mem, 4096 * s.tree.root, c.lo, c.hi, c.want)
  }

  function ExpectOf(r: Region): Expect {
    ExpectMapped(PteR(r.flags), PteW(r.flags), PteX(r.flags), PteU(r.flags), r.level)
  }

  /** A whole region passes with the permissions it was mapped with. */
  lemma RegionPasses(s: Snap, l: Layout, k: int)
    requires Finished(s, l) && Aligned(l) && 0 <= k < REGIONS
    ensures var r := RegionAt(l, k); Passes(s, Check(r.lo, r.hi, ExpectOf(r)))
  {
    hide RegionAt, Walk, BuiltTo, WellFormed, PteR, PteW, PteX, PteU, AllMeet, Ordered;
    RegionVerifies(s, l, k);
    OrderedOf(s, l);
    RegionBounds(l, k);
    assert RegionAligned(RegionAt(l, k));
    MegaIsPages(RegionAt(l, k).lo);
    MegaIsPages(RegionAt(l, k).hi);
  }

  lemma OrderedOf(s: Snap, l: Layout)
    requires Finished(s, l)
    ensures Ordered(l)
  {
  }

  lemma MegaIsPages(x: int)
    ensures x % 0x20_0000 == 0 ==> x % 4096 == 0
  {
    if x % 0x20_0000 == 0 {
      PagesOf(512 * (x / 0x20_0000));
    }
  }

  lemma LeafExpects()
    ensures ExpectOf(Region(0, 0, LEAF_RX, 0)) == KERNEL_RX && ExpectOf(Region(0, 0, LEAF_R, 0)) == KERNEL_R
    ensures ExpectOf(Region(0, 0, LEAF_RW, 0)) == KERNEL_RW && ExpectOf(Region(0, 0, LEAF_RW, 1)) == KERNEL_RW_L1
    ensures ExpectOf(Region(0, 0, LEAF_URX, 0)) == USER_RX && ExpectOf(Region(0, 0, LEAF_UR, 0)) == USER_R
    ensures ExpectOf(Region(0, 0, LEAF_URW, 0)) == USER_RW
  {
  }

  lemma SameExpect(r: Region)
    ensures ExpectOf(r) == ExpectOf(Region(0, 0, r.flags, r.level))
  {
  }

  /** An unmapped range between page boundaries passes as unmapped. */
  lemma HolePasses(s: Snap, l: Layout, id: int, lo: int, hi: int)
    requires Finished(s, l) && 0 <= id < MAX_TASKS && 0 <= lo <= hi <= VA_LIMIT && lo % 4096 == 0 && hi % 4096 == 0
    requires (lo == l.be && hi == l.sb) || (lo == SlotOf(l, id).ustackGuard && hi == SlotOf(l, id).ustackBottom)
             || (lo == SlotOf(l, id).brkWall && hi == SlotOf(l, id).kstackBottom)
    ensures Passes(s, Check(lo, hi, ExpectUnmapped))
  {
    hide Finished, SlotOf, Walk;
    forall x: Word | lo <= x < hi
      ensures Meets(Walk(s.mem, 4096 * s.tree.root, x), x, ExpectUnmapped)
    {
      GuardsUnmapped(s, l, id, x);
    }
  }

  lemma JoinPasses(s: Snap, a: int, b: int, c: int, e: Expect)
    requires Passes(s, Check(a, b, e)) && Passes(s, Check(b, c, e))
    ensures Passes(s, Check(a, c, e))
  {
    hide Walk, Meets;
  }

  lemma SlotPasses(s: Snap, l: Layout, id: int, k: int)
    requires Finished(s, l) && Aligned(l) && 0 <= id < MAX_TASKS && 0 <= k < 5
    ensures Passes(s, SlotCheck(l, id, k))
  {
    hide Finished, Aligned, RegionAt, SlotOf, Passes, ExpectOf;
    LeafExpects();
    SlotThree(l, id);
    SameExpect(RegionAt(l, 8 + 3 * id));
    SameExpect(RegionAt(l, 9 + 3 * id));
    SameExpect(RegionAt(l, 10 + 3 * id));
    RegionPasses(s, l, 8 + 3 * id);
    RegionPasses(s, l, 9 + 3 * id);
    RegionPasses(s, l, 10 + 3 * id);
    if k == 0 || k == 3 {
      SlotGuards(s, l, id);
      HolePasses(s, l, id, SlotCheck(l, id, k).lo, SlotCheck(l, id, k).hi);
    }
  }

  lemma SlotThree(l: Layout, id: int)
    requires 0 <= id < MAX_TASKS
    ensures var s := SlotOf(l, id);
            && RegionAt(l, 8 + 3 * id) == Region(s.ustackBottom, s.ustackTop, LEAF_URW, 0)
            && RegionAt(l, 9 + 3 * id) == Region(s.ustackTop, s.brkWall, LEAF_URW, 0)
            && RegionAt(l, 10 + 3 * id) == Region(s.kstackBottom, s.kstackTop, LEAF_RW, 0)
  {
  }

  lemma SlotGuards(s: Snap, l: Layout, id: int)
    requires Finished(s, l) && 0 <= id < MAX_TASKS
    requires var t := SlotOf(l, id);
             Passes(s, Check(t.ustackBottom, t.ustackTop, USER_RW)) && Passes(s, Check(t.ustackTop, t.brkWall, USER_RW))
             && Passes(s, Check(t.kstackBottom, t.kstackTop, KERNEL_RW))
    ensures var t := SlotOf(l, id);
            && 0 <= t.ustackGuard <= t.ustackBottom <= VA_LIMIT && t.ustackGuard % 4096 == 0 && t.ustackBottom % 4096 == 0
            && 0 <= t.brkWall <= t.kstackBottom <= VA_LIMIT && t.brkWall % 4096 == 0 && t.kstackBottom % 4096 == 0
  {
    hide AllMeet, BuiltTo, WellFormed;
    assert SlotOf(l, id).ustackGuard + 4096 == SlotOf(l, id).ustackBottom;
  }

  /** Every check of `verify` is met by the finished map. */
  lemma CheckPasses(s: Snap, l: Layout, k: int)
    requires Finished(s, l) && Aligned(l) && 0 <= k < CHECKS
    ensures Passes(s, CheckAt(l, k))
  {
    hide Finished, Aligned, SlotOf, SlotCheck, Passes, ExpectOf;
    LeafExpects();
    if 9 <= k < 29 {
      SlotPasses(s, l, (k - 9) / 5, (k - 9) % 5);
    } else if k == 3 {
      RegionUse(s, l, 2);
      RegionUse(s, l, 3);
      StackGuard(s, l);
      HolePasses(s, l, 0, l.be, l.sb);
    } else if k == 29 {
      RegionUse(s, l, 20);
      RegionUse(s, l, 21);
      JoinPasses(s, l.hs, l.he, RAM_L1_START, KERNEL_RW);
    } else {
      RegionUse(s, l, if k < 3 then k else if k < 9 then k - 1 else k - 8);
    }
  }

  lemma RegionUse(s: Snap, l: Layout, k: int)
    requires Finished(s, l) && Aligned(l) && (0 <= k < 8 || 20 <= k < REGIONS)
    ensures var r := RegionAt(l, k);
            && ExpectOf(r) == ExpectOf(Region(0, 0, r.flags, r.level)) && Passes(s, Check(r.lo, r.hi, ExpectOf(r)))
  {
    hide Finished, Aligned, SlotOf, Passes, ExpectOf;
    RegionPasses(s, l, k);
    SameExpect(RegionAt(l, k));
  }

  lemma StackGuard(s: Snap, l: Layout)
    requires Passes(s, Check(l.ds, l.be, KERNEL_RW)) && Passes(s, Check(l.sb, l.st, KERNEL_RW)) && Finished(s, l)
    ensures 0 <= l.be <= l.sb <= VA_LIMIT && l.be % 4096 == 0 && l.sb % 4096 == 0
  {
    hide AllMeet, BuiltTo, WellFormed;
  }

  // --- the single-address probes --------------------------------------------------------

  const RAM_START: int := 0x8000_0000
  const ABOVE_RAM: int := 0x9000_0000
  const UART_MMIO: int := 0x1000_0000

  datatype Spot = Spot(va: int, want: Expect)

  const SPOTS: int := 14
  /** The one probe whose address is not a linker symbol: the root table's own page. */
  const ROOT_SPOT: int := 9

  /** The `probe` calls of `verify` on fixed addresses, in order. */
  function SpotAt(l: Layout, root: int, k: int): Spot
    requires 0 <= k < SPOTS
  {
    if k == 0 then Spot(l.ks, KERNEL_RX)
    else if k == 1 then Spot(l.rs - 1, KERNEL_RX)
    else if k == 2 then Spot(l.rs, KERNEL_R)
    else if k == 3 then Spot(l.ds, KERNEL_RW)
    else if k == 4 then Spot(l.st - 0x10, KERNEL_RW)
    else if k == 5 then Spot(l.hs, KERNEL_RW)
    else if k == 6 then Spot(l.he, KERNEL_RW)
    else if k == 7 then Spot(RAM_L1_START, KERNEL_RW_L1)
    else if k == 8 then Spot(RAM_END - 4096, KERNEL_RW_L1)
    else if k == ROOT_SPOT then Spot(root, KERNEL_RW)
    else if k == 10 then Spot(l.be, ExpectUnmapped)
    else if k == 11 then Spot(RAM_START, ExpectUnmapped)
    else if k == 12 then Spot(ABOVE_RAM, ExpectUnmapped)
    else Spot(UART_MMIO, ExpectUnmapped)
  }

  /** The range check that covers a probe. */
  function CoveredBy(k: int): int {
    if k <= 1 then 0 else if k <= 3 then k - 1 else if k == 4 then 4 else if k <= 6 then 29 else if k <= 8 then 30 else 3
  }

  ghost predicate MetAt(s: Snap, va: int, e: Expect) {
    0 <= va < VA_LIMIT && Meets(WalkIn(s, va), va, e)
  }

  lemma MetIn(s: Snap, c: Check, va: int)
    requires Passes(s, c) && c.lo <= va < c.hi
    ensures MetAt(s, va, c.want)
  {
    hide Walk, Meets;
  }

  lemma StackTopCovered(a: int, b: int)
    requires a % 4096 == 0 && b % 4096 == 0 && a < b
    ensures a <= b - 0x10
  {
  }

  lemma Covered(l: Layout, root: int, k: int)
    requires Ordered(l) && 0 <= k <= 10 && k != ROOT_SPOT && (k == 4 ==> l.sb <= l.st - 0x10)
    ensures var c := CheckAt(l, CoveredBy(k)); var p := SpotAt(l, root, k); c.lo <= p.va < c.hi && p.want == c.want
  {
  }

  lemma OutsideRegions(l: Layout, k: int, j: int)
    requires Ordered(l) && 11 <= k < SPOTS && 0 <= j < REGIONS
    ensures !In(RegionAt(l, j), SpotAt(l, 0, k).va)
  {
    hide RegionAt, Ordered;
    RegionBounds(l, j);
  }

  /** Every probe but the root table's meets its expectation on the finished map. */
  lemma SpotMeets(s: Snap, l: Layout, root: int, k: int)
    requires Finished(s, l) && Aligned(l) && 0 <= k < SPOTS && k != ROOT_SPOT
    ensures var p := SpotAt(l, root, k); MetAt(s, p.va, p.want)
  {
    hide Finished, Aligned, Walk, CheckAt, RegionAt, AllMeet, Ordered;
    OrderedOf(s, l);
    if k <= 10 {
      CheckPasses(s, l, CoveredBy(k));
      if k == 4 {
        StackPages(s, l);
        StackTopCovered(l.sb, l.st);
      }
      Covered(l, root, k);
      MetIn(s, CheckAt(l, CoveredBy(k)), SpotAt(l, root, k).va);
    } else {
      forall j | 0 <= j < REGIONS
        ensures !In(RegionAt(l, j), SpotAt(l, root, k).va)
      {
        OutsideRegions(l, k, j);
      }
      FinishedHole(s, l, SpotAt(l, root, k).va);
    }
  }

  lemma StackPages(s: Snap, l: Layout)
    requires Ordered(l) && Passes(s, CheckAt(l, 4))
    ensures l.sb % 4096 == 0 && l.st % 4096 == 0 && l.sb < l.st
  {
    hide AllMeet;
  }

  /** The root table's probe wants a 4 KiB page, and above `RAM_L1_START` RAM is
      mapped in 2 MiB leaves. */
  lemma RootSpot(s: Snap, l: Layout, root: int)
    requires Finished(s, l) && l.he <= root < RAM_END
    ensures MetAt(s, root, KERNEL_RW) <==> root < RAM_L1_START
  {
    hide Finished, Walk, RegionAt, Ordered;
    OrderedOf(s, l);
    LeafExpects();
    FreeRam(l);
    var k := if root < RAM_L1_START then 21 else 22;
    SameExpect(RegionAt(l, k));
    FinishedBits(s, l, k, root);
  }

  lemma FreeRam(l: Layout)
    requires Ordered(l)
    ensures RegionAt(l, 21) == Region(l.he, RAM_L1_START, LEAF_RW, 0) && l.he > 0
    ensures RegionAt(l, 22) == Region(RAM_L1_START, RAM_END, LEAF_RW, 1)
  {
  }

  /** `probe`: it passes exactly when the address resolves as expected. */
  method Probe(mem: Mem, root: int, va: Word, e: Expect) returns (r: Outcome<()>)
    ensures r.Done? <==> Meets(Walk(mem, root, va), va, e)
  {
    hide Walk, FlagsMatch;
    var w := Walk(mem, root, va);
    match e {
      case ExpectUnmapped =>
        if !w.Unmapped? {
          return Panic;
        }
      case ExpectMapped(er, ew, ex, eu, level) =>
        if !w.Mapped? {
          return Panic;
        }
        if w.pa != va {
          return Panic;
        }
        if w.level != level {
          return Panic;
        }
        if !FlagsMatch(w.raw, er, ew, ex, eu) {
          return Panic;
        }
    }
    r := Done(());
  }

  /** `probe_span`: the first and the last byte, unless the span is empty. */
  method ProbeSpan(mem: Mem, root: int, c: Check) returns (r: Outcome<()>)
    requires 0 <= c.lo <= c.hi <= VA_LIMIT
    ensures r.Done? <==>
              c.lo == c.hi || (Meets(Walk(mem, root, c.lo), c.lo, c.want) && Meets(Walk(mem, root, c.hi - 1), c.hi - 1, c.want))
  {
    hide Walk, Meets;
    if c.lo == c.hi {
      return Done(());
    }
    r := Probe(mem, root, c.lo, c.want);
    if r.Done? {
      r := Probe(mem, root, c.hi - 1, c.want);
    }
  }

  lemma SpanEnds(s: Snap, c: Check)
    requires Passes(s, c) && c.lo < c.hi
    ensures MetAt(s, c.lo, c.want) && MetAt(s, c.hi - 1, c.want)
  {
    hide Passes, MetAt;
    MetIn(s, c, c.lo);
    MetIn(s, c, c.hi - 1);
  }

  /** The ranges whose ends `verify` probes: the device window, the user sections,
      and each slot's stacks, window and guards (a guard by its first byte). */
  predicate Probed(k: int) { k == 31 || 5 <= k < 29 }

  predicate GuardCheck(k: int) { 9 <= k < 29 && ((k - 9) % 5 == 0 || (k - 9) % 5 == 3) }

  /** The probes at the ends of one range. */
  method ProbeEnds(pm: PageMapper, l: Layout, k: int) returns (r: Outcome<()>)
    requires pm.Valid() && Finished(pm.Snapshot(), l) && Aligned(l) && Probed(k)
    ensures r.Done?
  {
    hide Finished, Aligned, CheckAt, AllMeet, Walk, Meets, GrainOk, TreeFrames, TableCount, Frame.PoolOk, WellFormed, Frame.FrameAllocator.FreeCount;
    CheckPasses(pm.Snapshot(), l, k);
    var c := CheckAt(l, k);
    if c.lo < c.hi {
      SpanEnds(pm.Snapshot(), c);
    }
    if GuardCheck(k) {
      GuardNonempty(l, k);
      r := Probe(pm.frames.mem, pm.rootPa, c.lo, c.want);
    } else {
      r := ProbeSpan(pm.frames.mem, pm.rootPa, c);
    }
  }

  lemma GuardNonempty(l: Layout, k: int)
    requires GuardCheck(k)
    ensures CheckAt(l, k).lo < CheckAt(l, k).hi
  {
  }

  /** The root table lies in the pool, above the heap. */
  lemma RootInPool(pm: PageMapper)
    requires pm.Valid()
    ensures pm.frames.heapEnd <= pm.rootPa < RAM_END
  {
    hide Frame.Threaded, Frame.Distinct, WellFormed;
    assert pm.tree.root in pm.frames.outstanding;
    assert pm.tree.root in Frame.Range(pm.frames.lo, pm.frames.hi);
  }

  /** The probes of `verify` on fixed addresses. */
  method ProbeSpots(pm: PageMapper, l: Layout) returns (r: Outcome<()>)
    requires pm.Valid() && Finished(pm.Snapshot(), l) && Aligned(l) && pm.frames.heapEnd == l.he
    ensures r.Done? <==> pm.rootPa < RAM_L1_START
  {
    hide Finished, Aligned, SpotAt, Walk, Meets, TreeFrames, TableCount, Frame.PoolOk, WellFormed, Frame.FrameAllocator.FreeCount;
    RootInPool(pm);
    RootSpot(pm.Snapshot(), l, pm.rootPa);
    for k := 0 to SPOTS
      invariant k > ROOT_SPOT ==> pm.rootPa < RAM_L1_START
    {
      RootSpotAt(l, pm.rootPa);
      if k != ROOT_SPOT {
        SpotMeets(pm.Snapshot(), l, pm.rootPa, k);
      }
      var p := SpotAt(l, pm.rootPa, k);
      var one := Probe(pm.frames.mem, pm.rootPa, p.va, p.want);
      if one.Panic? {
        return Panic;
      }
    }
    r := Done(());
  }

  lemma RootSpotAt(l: Layout, root: int)
    ensures SpotAt(l, root, ROOT_SPOT) == Spot(root, KERNEL_RW)
  {
  }

  /** `verify` on the map that `build` made: every probe and range check passes but
      one, and that one passes exactly when the root table is in a 4 KiB page. */
  method Verify(pm: PageMapper, l: Layout) returns (r: Outcome<()>)
    requires pm.Valid() && Finished(pm.Snapshot(), l) && Aligned(l) && pm.frames.heapEnd == l.he
    ensures r.Done? <==> pm.rootPa < RAM_L1_START
  {
    hide Finished, Aligned, CheckAt, AllMeet, GrainOk, TreeFrames, TableCount, Frame.PoolOk;
    r := ProbeSpots(pm, l);
    if r.Panic? {
      return;
    }
    var device := ProbeEnds(pm, l, 31);
    if device.Panic? {
      return Panic;
    }
    for k := 5 to 29 {
      var ends := ProbeEnds(pm, l, k);
      if ends.Panic? {
        return Panic;
      }
    }
    for k := 0 to CHECKS {
      CheckPasses(pm.Snapshot(), l, k);
      var c := CheckAt(l, k);
      var one := AssertRange(pm.frames.mem, pm.tree, pm.rootPa, c.lo, c.hi, c.want);
      if one.Panic? {
        return Panic;
      }
    }
  }

  /** `init`: build, then verify. A first call succeeds exactly on an ordered, aligned
      layout when the next frame, which becomes the root table, lies below `RAM_L1_START`. */
  method Init(pm: PageMapper, l: Layout) returns (r: Outcome<()>)
    requires pm.frames.Valid() && !pm.frames.frozen && pm.frames.heapEnd == l.he && (pm.rootPa == 0 ==> pm.tables == 0)
    requires Ordered(l) ==> pm.frames.FreeCount() >= EXPECTED_TABLES
    modifies pm, pm.frames
    ensures r.Done? <==> old(pm.rootPa) == 0 && Ordered(l) && Aligned(l) && old(pm.frames.NextFrame()) < RAM_L1_START
    ensures r.Done? ==> pm.Valid() && Finished(pm.Snapshot(), l) && pm.rootPa == old(pm.frames.NextFrame())
    ensures r.Done? ==> pm.tables == EXPECTED_TABLES && pm.frames.lo == old(pm.frames.lo)
    ensures r.Done? ==> pm.frames.FreeCount() == old(pm.frames.FreeCount()) - EXPECTED_TABLES
  {
    hide Ordered, Aligned, BuiltTo, TreeFrames, TableCount, Slots, Shape, Frame.PoolOk, Frame.FrameAllocator.FreeCount, Frame.FrameAllocator.NextFrame;
    if pm.rootPa != 0 {
      return Panic;
    }
    r := Build(pm, l);
    if r.Done? {
      r := Verify(pm, l);
      if pm.tables != EXPECTED_TABLES {
        r := Panic;
      }
    }
  }

  /** The memory part of boot, from `frame::init` to the accounting check of `enter`:
      the self-test keeps two frames, so the root table is the third above the heap. It
      must lie below `RAM_L1_START`, which the order checks do not ensure. */
  method Boot(m: Mem, l: Layout) returns (r: Outcome<()>, pm: PageMapper?)
    requires 0 <= l.hs
    ensures r.Done? <==> Ordered(l) && Aligned(l) && l.he + 0x2000 < RAM_L1_START
    ensures r.Done? ==> pm != null && fresh(pm) && pm.Valid() && Finished(pm.Snapshot(), l) && pm.rootPa == l.he + 0x2000
  {
    hide Ordered, Aligned, BuiltTo, WellFormed, TreeFrames, TableCount, Frame.PoolOk, Zeroed;
    HeapSymbols(l);
    pm := null;
    if l.hs % 4096 != 0 || l.he % 4096 != 0 || l.he <= l.hs || l.he > RAM_END {
      return Panic, null;
    }
    var frames := new Frame.FrameAllocator(l.hs, l.he, m);
    var tested := frames.SelfTest();
    if tested.Panic? {
      return Panic, null;
    }
    pm := new PageMapper(frames);
    r := Init(pm, l);
    if r.Done? {
      var held := frames.total - frames.FreeCount();
      if pm.tables != EXPECTED_TABLES || held != pm.tables + 2 {
        r := Panic;
      }
    }
  }

  /** An ordered, aligned layout has usable heap symbols and frames to spare. */
  lemma HeapSymbols(l: Layout)
    ensures Ordered(l) ==> 0 < l.hs < l.he < RAM_L1_START
    ensures Aligned(l) ==> l.hs % 4096 == 0 && l.he % 4096 == 0
  {
    if Aligned(l) {
      assert RegionAligned(RegionAt(l, 20));
    }
  }

  /** A layout with the least possible of everything but the heap, which ends one page
      below `RAM_L1_START`. */
  function TightLayout(): Layout {
    Layout(KERNEL_START, KERNEL_START + 0x1000, KERNEL_START + 0x2000, KERNEL_START + 0x3000, KERNEL_START + 0x4000,
           KERNEL_START + 0x5000, KERNEL_START + 0x5000, KERNEL_START + 0x5000, KERNEL_START + 0x5000,
           KERNEL_START + 0x5000, KERNEL_START + 0x5000, KERNEL_START + 0x5000, KERNEL_START + 0x5000,
           KERNEL_START + 0x5000, KERNEL_START + 0x10_0000, RAM_L1_START - 0x1000)
  }

  /** `build` accepts it, and boot panics: the root table is not in a 4 KiB page. */
  lemma TightFails()
    ensures var l := TightLayout(); Ordered(l) && Aligned(l) && l.he < RAM_L1_START <= l.he + 0x2000
  {
    hide RegionAligned;
    forall k | 0 <= k < REGIONS
      ensures RegionAligned(RegionAt(TightLayout(), k))
    {
      if 8 <= k < 20 {
        TightSlot((k - 8) / 3, (k - 8) % 3);
      } else {
        TightSection(k);
      }
    }
  }

  lemma TightSection(k: int)
    requires 0 <= k < 8 || 20 <= k < REGIONS
    ensures RegionAligned(RegionAt(TightLayout(), k))
  {
  }

  lemma TightSlot(id: int, part: int)
    requires 0 <= id < MAX_TASKS && 0 <= part < 3
    ensures RegionAligned(RegionAt(TightLayout(), 8 + 3 * id + part))
  {
    hide RegionAt;
    SlotThree(TightLayout(), id);
  }
}
