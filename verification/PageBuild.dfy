/** `build` (src/page.rs) on the linker layout (linker.ld): the finished kernel
    and user map, and what it rules out. */
module PageBuild {
  import opened Ram
  import opened Frame
  import opened Pte
  import opened PageTree
  import opened PageWalk
  import opened Page
  import opened PageMap

  const KERNEL_START: int := 0x8020_0000
  /** First 2 MiB slot of uniform kernel RAM. */
  const RAM_L1_START: int := 0x8040_0000
  const MMIO_BASE: int := 0x1000_1000
  const MMIO_END: int := 0x1000_9000
  const TASK_RESERVE: int := 0x1_6000
  const EXPECTED_TABLES: int := 5

  /** The linker symbols `build` reads. */
  datatype Layout = Layout(
    ks: int, rs: int, ds: int, be: int, sb: int, st: int,
    utextEnd: int, urodStart: int, urodEnd: int, udatStart: int, udatEnd: int, ubssStart: int, ubssEnd: int,
    tasks: int, hs: int, he: int)

  /** One task slot: guard, user stack, break window, guard, kernel stack. */
  datatype Slot = Slot(ustackGuard: int, ustackBottom: int, ustackTop: int, brkWall: int, kstackBottom: int, kstackTop: int)

  function SlotOf(l: Layout, id: int): Slot {
    var b := l.tasks + id * 0x1_6000;
    Slot(b, b + 0x1000, b + 0x3000, b + 0x1_3000, b + 0x1_4000, b + 0x1_6000)
  }

  datatype Region = Region(lo: int, hi: int, flags: Word, level: int)

  const REGIONS: int := 24

  /** The `map_range` calls of `build`, in order. */
  function RegionAt(l: Layout, k: int): Region
    requires 0 <= k < REGIONS
  {
    if k == 0 then Region(l.ks, l.rs, LEAF_RX, 0)
    else if k == 1 then Region(l.rs, l.ds, LEAF_R, 0)
    else if k == 2 then Region(l.ds, l.be, LEAF_RW, 0)
    else if k == 3 then Region(l.sb, l.st, LEAF_RW, 0)
    else if k == 4 then Region(l.st, l.utextEnd, LEAF_URX, 0)
    else if k == 5 then Region(l.urodStart, l.urodEnd, LEAF_UR, 0)
    else if k == 6 then Region(l.udatStart, l.udatEnd, LEAF_URW, 0)
    else if k == 7 then Region(l.ubssStart, l.ubssEnd, LEAF_URW, 0)
    else if k < 20 then
      var s := SlotOf(l, (k - 8) / 3);
      if (k - 8) % 3 == 0 then Region(s.ustackBottom, s.ustackTop, LEAF_URW, 0)
      else if (k - 8) % 3 == 1 then Region(s.ustackTop, s.brkWall, LEAF_URW, 0)
      else Region(s.kstackBottom, s.kstackTop, LEAF_RW, 0)
    else if k == 20 then Region(l.hs, l.he, LEAF_RW, 0)
    else if k == 21 then Region(l.he, RAM_L1_START, LEAF_RW, 0)
    else if k == 22 then Region(RAM_L1_START, RAM_END, LEAF_RW, 1)
    else Region(MMIO_BASE, MMIO_END, LEAF_RW, 0)
  }

  /** The order checks of `build` and `ram_l1_start`. */
  predicate Ordered(l: Layout) {
    && l.ks == KERNEL_START && l.be + 4096 == l.sb
    && l.ks < l.rs < l.ds < l.be < l.sb < l.st < l.hs < l.he < RAM_L1_START
    && l.st <= l.utextEnd <= l.urodStart <= l.urodEnd <= l.udatStart <= l.udatEnd <= l.ubssStart <= l.ubssEnd <= l.tasks
    && l.tasks + MAX_TASKS * TASK_RESERVE <= l.hs
  }

  predicate In(r: Region, x: int) { r.lo <= x < r.hi }

  lemma RegionBounds(l: Layout, k: int)
    requires Ordered(l) && 0 <= k < REGIONS
    ensures var r := RegionAt(l, k);
            && r.lo <= r.hi && r.flags < 1024 && 0 <= r.level <= 1
            && (k < 22 ==> KERNEL_START <= r.lo && r.hi <= RAM_L1_START && r.level == 0)
            && (k == 22 ==> r == Region(RAM_L1_START, RAM_END, LEAF_RW, 1))
            && (k == 23 ==> r == Region(MMIO_BASE, MMIO_END, LEAF_RW, 0))
  {
  }

  lemma RegionAdjacent(l: Layout, k: int)
    requires Ordered(l) && 0 <= k < 22
    ensures RegionAt(l, k).hi <= RegionAt(l, k + 1).lo
  {
  }

  lemma {:induction false} RegionAscends(l: Layout, j: int, k: int)
    requires Ordered(l) && 0 <= j < k <= 22
    ensures RegionAt(l, j).hi <= RegionAt(l, k).lo
    decreases k - j
  {
    hide RegionAt;
    RegionAdjacent(l, k - 1);
    if j < k - 1 {
      RegionAscends(l, j, k - 1);
      RegionBounds(l, k - 1);
    }
  }

  /** No address lies in two regions. */
  lemma RegionsDisjoint(l: Layout, j: int, k: int, x: int)
    requires Ordered(l) && 0 <= j < k < REGIONS && In(RegionAt(l, j), x)
    ensures !In(RegionAt(l, k), x)
  {
    hide RegionAt;
    RegionBounds(l, j);
    RegionBounds(l, k);
    if k <= 22 {
      RegionAscends(l, j, k);
    }
  }

  // --- the build loop --------------------------------------------------------

  /** Address `x` is identity-mapped the way region `r` says. */
  predicate HitIn(r: Region, x: Word, h: Hit) {
    x < VA_LIMIT && r.flags < 1024 && 0 <= r.level <= 1 && h == Leaf(IdLeaf(x, r.flags, r.level), r.level)
  }

  /** The first `k` regions are mapped and nothing else is. */
  ghost predicate BuiltTo(s: Snap, l: Layout, k: int)
    requires 0 <= k <= REGIONS
  {
    && Shape(s.tree)
    && (forall x: Word, j | Canonical(x) && 0 <= j < k && In(RegionAt(l, j), x) ::
          HitIn(RegionAt(l, j), x, HitAt(s.mem, s.tree, x)))
    && (forall x: Word | Canonical(x) && HitAt(s.mem, s.tree, x).Leaf? ::
          exists j :: 0 <= j < k && In(RegionAt(l, j), x))
  }

  lemma BuiltStep(s: Snap, s': Snap, l: Layout, k: int)
    requires Ordered(l) && 0 <= k < REGIONS && BuiltTo(s, l, k)
    requires var r := RegionAt(l, k);
             r.hi <= VA_LIMIT && r.flags < 1024 && 0 <= r.level <= 1 && RangeMapped(s, s', r.lo, r.hi, r.flags, r.level)
    ensures BuiltTo(s', l, k + 1)
  {
    hide RegionAt, HitAt, IdLeaf, Shape, Canonical;
    var r := RegionAt(l, k);
    RegionBounds(l, k);
    forall x: Word, j | Canonical(x) && 0 <= j < k + 1 && In(RegionAt(l, j), x)
      ensures HitIn(RegionAt(l, j), x, HitAt(s'.mem, s'.tree, x))
    {
      if j < k {
        RegionsDisjoint(l, j, k, x);
      }
    }
    forall x: Word | Canonical(x) && HitAt(s'.mem, s'.tree, x).Leaf?
      ensures exists j :: 0 <= j < k + 1 && In(RegionAt(l, j), x)
    {
      if !In(r, x) {
        assert HitAt(s.mem, s.tree, x).Leaf?;
      }
    }
  }

  /** The index paths the map needs: RAM and MMIO gigabytes, and one 2 MiB slot
      of 4 KiB pages in each. */
  ghost const K1: set<int> := {0, 2}
  ghost const K0: set<(int, int)> := {(2, 1), (0, 128)}

  lemma RamPath(x: Word)
    requires KERNEL_START <= x < RAM_END
    ensures Vpn(x, 2) == 2 && (x < RAM_L1_START ==> Vpn(x, 1) == 1) && (x >= RAM_L1_START ==> 2 <= Vpn(x, 1) < 64)
  {
  }

  lemma MmioPath(x: Word)
    requires MMIO_BASE <= x < MMIO_END
    ensures Vpn(x, 2) == 0 && Vpn(x, 1) == 128
  {
  }

  lemma RegionPaths(l: Layout, k: int, x: Word)
    requires Ordered(l) && 0 <= k < REGIONS && In(RegionAt(l, k), x)
    ensures Vpn(x, 2) in K1
    ensures if RegionAt(l, k).level == 0 then OnPaths(x, K1, K0) else (Vpn(x, 2), Vpn(x, 1)) !in K0
  {
    hide RegionAt, Vpn;
    RegionBounds(l, k);
    if k <= 22 {
      RamPath(x);
    } else {
      MmioPath(x);
    }
  }

  lemma HoleIn(s: Snap, l: Layout, k: int, x: Word)
    requires Ordered(l) && 0 <= k < REGIONS && BuiltTo(s, l, k) && TablesWithin(s.tree, K1, K0)
    requires In(RegionAt(l, k), x) && x < VA_LIMIT
    ensures HitAt(s.mem, s.tree, x).Miss? && HitAt(s.mem, s.tree, x).level >= RegionAt(l, k).level
  {
    hide RegionAt, Vpn, IdLeaf, Entry;
    RegionPaths(l, k, x);
    RegionBounds(l, k);
    if HitAt(s.mem, s.tree, x).Leaf? {
      var j :| 0 <= j < k && In(RegionAt(l, j), x);
      RegionsDisjoint(l, j, k, x);
    }
  }

  lemma FlagsAccepted(l: Layout, k: int)
    requires 0 <= k < REGIONS
    ensures Accepts(RegionAt(l, k).flags) && PteV(RegionAt(l, k).flags)
  {
  }

  lemma BuiltReady(s: Snap, l: Layout, k: int)
    requires Ordered(l) && 0 <= k < REGIONS && BuiltTo(s, l, k)
    requires Shape(s.tree) && TablesWithin(s.tree, K1, K0) && Funded(s, K1, K0)
    ensures var r := RegionAt(l, k);
            r.hi <= VA_LIMIT && 0 <= r.level <= 1 && Ready(s, r.lo, r.hi, r.flags, r.level, K1, K0)
  {
    hide RegionAt, Vpn, HitAt, BuiltTo, TablesWithin, Funded, OnPaths, Accepts, Shape;
    RegionBounds(l, k);
    FlagsAccepted(l, k);
    var r := RegionAt(l, k);
    forall x: Word | r.lo <= x < r.hi
      ensures HitAt(s.mem, s.tree, x).Miss? && HitAt(s.mem, s.tree, x).level >= r.level
      ensures Vpn(x, 2) in K1 && (r.level == 0 ==> OnPaths(x, K1, K0))
    {
      HoleIn(s, l, k, x);
      RegionPaths(l, k, x);
    }
  }

  predicate RegionAligned(r: Region) { RangeAligned(r.lo, r.hi, r.level) }

  /** Every boundary sits on the grain its region is mapped at. */
  ghost predicate Aligned(l: Layout) {
    forall k | 0 <= k < REGIONS :: RegionAligned(RegionAt(l, k))
  }

  /** The state of the build loop before region `k`. */
  ghost predicate Building(s0: Snap, s: Snap, l: Layout, k: int)
    requires 0 <= k <= REGIONS
  {
    && BuiltTo(s, l, k) && TablesWithin(s.tree, K1, K0) && KeptBudget(s0, s)
    && !s0.frozen && s0.free + s0.tables >= EXPECTED_TABLES
    && forall j | 0 <= j < k :: RegionAligned(RegionAt(l, j))
  }

  lemma BuildStart(s: Snap, l: Layout)
    requires Shape(s.tree) && s.tree.l1 == map[] && s.tree.l0 == map[]
    requires !s.frozen && s.free + s.tables >= EXPECTED_TABLES
    ensures Building(s, s, l, 0)
  {
    hide RegionAt, Vpn;
  }

  lemma BuildReady(s0: Snap, s: Snap, l: Layout, k: int)
    requires Ordered(l) && 0 <= k < REGIONS && Building(s0, s, l, k) && s.tables == TableCount(s.tree)
    ensures var r := RegionAt(l, k);
            && Shape(s.tree) && 0 <= r.lo <= r.hi <= VA_LIMIT && 0 <= r.level <= 1 && r.flags < 1024 && PteV(r.flags)
            && Ready(s, r.lo, r.hi, r.flags, r.level, K1, K0)
  {
    hide RegionAt, Vpn, Ready, TablesWithin, TableCount, HitIn, HitAt, PteV;
    assert |K1| == 2 && |K0| == 2;
    RegionBounds(l, k);
    FlagsAccepted(l, k);
    BuiltReady(s, l, k);
  }

  lemma BuildNext(s0: Snap, s: Snap, s': Snap, l: Layout, k: int)
    requires Ordered(l) && 0 <= k < REGIONS && Building(s0, s, l, k)
    requires var r := RegionAt(l, k);
             && r.hi <= VA_LIMIT && r.flags < 1024 && 0 <= r.level <= 1
             && RangeAdded(s, s', r.lo, r.hi, r.flags, r.level) && RegionAligned(r)
    requires TablesWithin(s'.tree, K1, K0)
    ensures Building(s0, s', l, k + 1)
  {
    hide RegionAt, TablesWithin, BuiltTo, RangeMapped, RegionAligned;
    BuiltStep(s, s', l, k);
  }

  /** One `map_range` / `map_range_2m` call of `build`. */
  method MapRegion(pm: PageMapper, r: Region, ghost s0: Snap, ghost l: Layout, ghost k: int) returns (one: Outcome<()>)
    requires Ordered(l) && 0 <= k < REGIONS && r == RegionAt(l, k)
    requires pm.Valid() && Building(s0, pm.Snapshot(), l, k)
    modifies pm, pm.frames
    ensures pm.Valid()
    ensures one.Done? <==> RegionAligned(r)
    ensures one.Done? ==> Building(s0, pm.Snapshot(), l, k + 1)
  {
    hide RegionAt, Building, RangeAdded, Ready, TablesWithin, TreeFrames, TableCount, Slots, Shape, Frame.PoolOk, PteV, RangeAligned;
    BuildReady(s0, pm.Snapshot(), l, k);
    ghost var s := pm.Snapshot();
    if r.level == 0 {
      one := MapRange(pm, r.lo, r.hi, r.flags, K1, K0);
    } else {
      one := MapRange2m(pm, r.lo, r.hi, r.flags, K1, K0);
    }
    if one.Done? {
      BuildNext(s0, s, pm.Snapshot(), l, k);
    }
  }

  /** `build`: it succeeds exactly on an ordered, aligned layout; then every
      region and nothing outside them is mapped, and exactly
      `EXPECTED_TABLES` frames have been spent. */
  method Build(pm: PageMapper, l: Layout) returns (r: Outcome<()>)
    requires pm.frames.Valid() && pm.tables == 0 && !pm.frames.frozen
    requires Ordered(l) ==> pm.frames.FreeCount() >= EXPECTED_TABLES
    modifies pm, pm.frames
    ensures r.Done? <==> Ordered(l) && Aligned(l)
    ensures r.Done? ==> pm.Valid() && BuiltTo(pm.Snapshot(), l, REGIONS)
    ensures r.Done? ==> pm.tables == EXPECTED_TABLES && pm.frames.lo == old(pm.frames.lo)
    ensures r.Done? ==> pm.rootPa == old(pm.frames.NextFrame())
    ensures r.Done? ==> pm.frames.FreeCount() == old(pm.frames.FreeCount()) - EXPECTED_TABLES
  {
    hide RegionAt, Ordered, RegionAligned, Building, BuiltTo, TreeFrames, TableCount, Slots, Shape, Frame.PoolOk;
    if !Ordered(l) {
      return Panic;
    }
    var root := pm.AllocRoot();
    if root.Panic? {
      return Panic;
    }
    BuildStart(pm.Snapshot(), l);
    ghost var s0 := pm.Snapshot();
    for k := 0 to REGIONS
      invariant pm.Valid() && Building(s0, pm.Snapshot(), l, k)
    {
      var one := MapRegion(pm, RegionAt(l, k), s0, l, k);
      if one.Panic? {
        return Panic;
      }
    }
    BuildDone(s0, pm.Snapshot(), l);
    r := Done(());
  }

  /** A page resolved at level 0 has both tables of its path. */
  lemma LeafHasTables(s: Snap, x: Word)
    requires Shape(s.tree) && HitAt(s.mem, s.tree, x).Leaf? && HitAt(s.mem, s.tree, x).level == 0
    ensures (Vpn(x, 2), Vpn(x, 1)) in s.tree.l0 && Vpn(x, 2) in s.tree.l1
  {
    hide Vpn, Entry;
  }

  lemma BuildDone(s0: Snap, s: Snap, l: Layout)
    requires Ordered(l) && Building(s0, s, l, REGIONS) && s.tables == TableCount(s.tree)
    ensures Aligned(l) && BuiltTo(s, l, REGIONS) && s.tables == EXPECTED_TABLES && KeptBudget(s0, s)
  {
    hide Vpn, HitAt, IdLeaf, Shape;
    RegionBounds(l, 0);
    RegionBounds(l, 23);
    assert In(RegionAt(l, 0), KERNEL_START) && In(RegionAt(l, 23), MMIO_BASE);
    assert Canonical(KERNEL_START) && Canonical(MMIO_BASE);
    LeafHasTables(s, KERNEL_START);
    LeafHasTables(s, MMIO_BASE);
    RamPath(KERNEL_START);
    MmioPath(MMIO_BASE);
    assert s.tree.l1.Keys == K1 && s.tree.l0.Keys == K0;
    assert |s.tree.l1| == |K1| == 2 && |s.tree.l0| == |K0| == 2;
  }
}
