/** Ranges of the identity map (src/page.rs): what `map_range` and
    `map_range_2m` leave behind, address by address. */
module PageMap {
  import opened Ram
  import opened Pte
  import opened PageTree
  import opened PageWalk
  import opened Page

  /** Top of the lower canonical half. */
  const VA_LIMIT: int := 0x40_0000_0000

  /** The leaf that identity-maps the page, or 2 MiB slot, of `x`. */
  function IdLeaf(x: Word, flags: Word, level: int): (e: Word)
    requires x < VA_LIMIT && flags < 1024 && 0 <= level <= 1
  {
    if level == 0 then x / 4096 * 1024 + flags else x / 0x20_0000 * 0x8_0000 + flags
  }

  /** Inside `[lo, hi)` every address is identity-mapped with `flags` at
      `level`; every other canonical address resolves as it did. */
  ghost predicate RangeMapped(s: Snap, s': Snap, lo: int, hi: int, flags: Word, level: int)
    requires hi <= VA_LIMIT && flags < 1024 && 0 <= level <= 1
  {
    && Shape(s.tree) && Shape(s'.tree)
    && forall x: Word | Canonical(x) ::
         if lo <= x < hi then HitAt(s'.mem, s'.tree, x) == Leaf(IdLeaf(x, flags, level), level)
         else SameHit(HitAt(s.mem, s.tree, x), HitAt(s'.mem, s'.tree, x))
  }

  lemma InPage(va: Word, x: Word)
    requires va % 4096 == 0
    ensures x / 4096 == va / 4096 <==> va <= x < va + 4096
  {
  }

  lemma InMega(va: Word, x: Word)
    requires va % 0x20_0000 == 0
    ensures x / 0x20_0000 == va / 0x20_0000 <==> va <= x < va + 0x20_0000
  {
  }

  lemma IdOfPage(va: Word, x: Word, flags: Word)
    requires va < VA_LIMIT && x < VA_LIMIT && flags < 1024 && x / 4096 == va / 4096
    ensures EncodeLeaf(va, flags) == IdLeaf(x, flags, 0)
  {
  }

  lemma IdOfMega(va: Word, x: Word, flags: Word)
    requires va < VA_LIMIT && va % 0x20_0000 == 0 && x < VA_LIMIT && flags < 1024
    requires x / 0x20_0000 == va / 0x20_0000
    ensures EncodeLeaf(va, flags) == IdLeaf(x, flags, 1)
  {
    assert va / 4096 == 512 * (va / 0x20_0000);
  }

  lemma PageIsRange(s: Snap, s': Snap, va: Word, flags: Word)
    requires va + 4096 <= VA_LIMIT && va % 4096 == 0 && flags < 1024
    requires PageMapped(s.mem, s.tree, s'.mem, s'.tree, va, EncodeLeaf(va, flags))
    ensures RangeMapped(s, s', va, va + 4096, flags, 0)
  {
    forall x: Word | Canonical(x)
      ensures if va <= x < va + 4096 then HitAt(s'.mem, s'.tree, x) == Leaf(IdLeaf(x, flags, 0), 0)
              else SameHit(HitAt(s.mem, s.tree, x), HitAt(s'.mem, s'.tree, x))
    {
      hide Lookup, Vpn, IdLeaf, EncodeLeaf, Shape;
      SamePage(x, va);
      InPage(va, x);
      if va <= x < va + 4096 {
        IdOfPage(va, x, flags);
      }
    }
  }

  lemma MegaIsRange(s: Snap, s': Snap, va: Word, flags: Word)
    requires va + 0x20_0000 <= VA_LIMIT && va % 0x20_0000 == 0 && flags < 1024
    requires MegaMapped(s.mem, s.tree, s'.mem, s'.tree, va, EncodeLeaf(va, flags))
    ensures RangeMapped(s, s', va, va + 0x20_0000, flags, 1)
  {
    forall x: Word | Canonical(x)
      ensures if va <= x < va + 0x20_0000 then HitAt(s'.mem, s'.tree, x) == Leaf(IdLeaf(x, flags, 1), 1)
              else SameHit(HitAt(s.mem, s.tree, x), HitAt(s'.mem, s'.tree, x))
    {
      hide Lookup, Vpn, IdLeaf, EncodeLeaf, Shape;
      SameMega(x, va);
      InMega(va, x);
      if va <= x < va + 0x20_0000 {
        IdOfMega(va, x, flags);
      }
    }
  }

  lemma RangeJoin(s0: Snap, s1: Snap, s2: Snap, lo: int, mid: int, hi: int, flags: Word, level: int)
    requires lo <= mid <= hi <= VA_LIMIT && flags < 1024 && 0 <= level <= 1
    requires RangeMapped(s0, s1, lo, mid, flags, level) && RangeMapped(s1, s2, mid, hi, flags, level)
    ensures RangeMapped(s0, s2, lo, hi, flags, level)
  {
    hide HitAt, IdLeaf, Shape;
  }

  /** What the walker says of an address outside what was mapped: a mapped one is
      as it was, and a hole is found at the level of the tables there now. */
  function Settled(w: WalkResult, sameSlot: bool, sameGiga: bool): WalkResult {
    if w.Mapped? then w
    else if sameSlot then Unmapped(0, 0)
    else if sameGiga && w.Unmapped? && w.level == 2 then Unmapped(1, 0)
    else w
  }

  predicate SameGiga(x: int, y: int) { x / 0x4000_0000 == y / 0x4000_0000 }

  predicate SameSlot(x: int, y: int) { x / 0x20_0000 == y / 0x20_0000 }

  /** Canonical addresses share the top index exactly within a gigabyte. */
  lemma SameTop(x: Word, y: Word)
    requires Canonical(x) && Canonical(y)
    ensures Vpn(x, 2) == Vpn(y, 2) <==> SameGiga(x, y)
  {
    hide Vpn;
    TopIndex(x);
    TopIndex(y);
  }

  /** The level of a hole is fixed by which tables exist. */
  lemma HoleLevel(mem: Mem, t: Tree, x: Word)
    requires Shape(t)
    ensures HitAt(mem, t, x).Miss? ==>
              HitAt(mem, t, x).level ==
              if Vpn(x, 2) !in t.l1 then 2 else if (Vpn(x, 2), Vpn(x, 1)) in t.l0 then 0 else 1
  {
    hide Vpn, Entry;
  }

  /** The two trees' walks of an address whose hit is kept, given the tables that
      appeared. */
  lemma WalkSettles(s: Snap, s': Snap, x: Word, sameSlot: bool, sameGiga: bool)
    requires WellFormed(s.mem, s.tree) && WellFormed(s'.mem, s'.tree) && Canonical(x)
    requires SameHit(HitAt(s.mem, s.tree, x), HitAt(s'.mem, s'.tree, x)) && (sameSlot ==> sameGiga)
    requires Vpn(x, 2) in s'.tree.l1 <==> Vpn(x, 2) in s.tree.l1 || sameGiga
    requires (Vpn(x, 2), Vpn(x, 1)) in s'.tree.l0 <==> (Vpn(x, 2), Vpn(x, 1)) in s.tree.l0 || sameSlot
    ensures Walk(s'.mem, 4096 * s'.tree.root, x) == Settled(Walk(s.mem, 4096 * s.tree.root, x), sameSlot, sameGiga)
  {
    hide Walk, Lookup, PtePpn, Vpn;
    WalkIsLookup(s.mem, s.tree, x);
    WalkIsLookup(s'.mem, s'.tree, x);
    HoleLevel(s.mem, s.tree, x);
    HoleLevel(s'.mem, s'.tree, x);
    TableNeedsParent(s.tree, x);
  }

  lemma TableNeedsParent(t: Tree, x: Word)
    requires Shape(t)
    ensures (Vpn(x, 2), Vpn(x, 1)) in t.l0 ==> Vpn(x, 2) in t.l1
  {
    hide Vpn;
  }

  lemma IdPpn(x: Word, flags: Word, level: int)
    requires x < VA_LIMIT && flags < 1024 && 0 <= level <= 1
    ensures PtePpn(IdLeaf(x, flags, level)) * 4096 + x % LeafBytes(level) == x
  {
    if level == 0 {
      assert IdLeaf(x, flags, 0) / 1024 == x / 4096;
      assert x / 4096 < 0x1000_0000_0000;
    } else {
      assert IdLeaf(x, flags, 1) / 1024 == x / 0x20_0000 * 512;
      assert x / 0x20_0000 * 512 < 0x1000_0000_0000;
    }
  }

  /** The walker reads the flag bits the mapper was given. */
  predicate SameBits(raw: Word, flags: Word) {
    && PteR(raw) == PteR(flags) && PteW(raw) == PteW(flags) && PteX(raw) == PteX(flags) && PteU(raw) == PteU(flags)
    && PteG(raw) == PteG(flags) && PteA(raw) == PteA(flags) && PteD(raw) == PteD(flags)
  }

  /** After `map`, for any virtual page and frame: `walk` resolves every address of
      the page to its offset in the frame with exactly those flags. Every other
      mapped address is unchanged; a hole is unchanged unless it shares the page's
      2 MiB slot, or shared only its gigabyte and had no table at all. */
  lemma WalkOfPage(s: Snap, s': Snap, va: Word, pa: int, flags: Word, x: Word)
    requires WellFormed(s.mem, s.tree) && WellFormed(s'.mem, s'.tree) && Canonical(x) && Canonical(va)
    requires va % 4096 == 0 && 0 <= pa < 0x100_0000_0000_0000 && pa % 4096 == 0
    requires flags < 1024 && PteV(flags) && Accepts(flags)
    requires PageAdded(s, s', va, EncodeLeaf(pa, flags))
    ensures va <= x < va + 4096 ==>
              && Walk(s'.mem, 4096 * s'.tree.root, x) == Mapped(pa + (x - va), EncodeLeaf(pa, flags), 0)
              && SameBits(EncodeLeaf(pa, flags), flags)
    ensures !(va <= x < va + 4096) ==>
              Walk(s'.mem, 4096 * s'.tree.root, x)
              == Settled(Walk(s.mem, 4096 * s.tree.root, x), SameSlot(x, va), SameGiga(x, va))
  {
    hide Walk, Lookup, PtePpn, WellFormed, Shape, EncodeLeaf, Vpn, PteV, PteR, PteW, PteX, PteU, PteG, PteA, PteD,
         NoAccess, WriteOnly, Settled, SameGiga;
    WalkIsLookup(s'.mem, s'.tree, x);
    SamePage(x, va);
    InPage(va, x);
    LeafDecodes(pa, flags);
    if va <= x < va + 4096 {
      PageOffset(va, x);
    } else {
      SameTop(x, va);
      SameMega(x, va);
      WalkSettles(s, s', x, SameSlot(x, va), SameGiga(x, va));
    }
  }

  lemma PageOffset(va: Word, x: Word)
    requires va % 4096 == 0 && va <= x < va + 4096
    ensures x % 4096 == x - va
  {
  }

  lemma MegaOffset(va: Word, x: Word)
    requires va % 0x20_0000 == 0 && va <= x < va + 0x20_0000
    ensures x % 0x20_0000 == x - va
  {
  }

  /** After `map_2m`, the same for a whole 2 MiB slot; only holes without any table
      in the gigabyte change, to level 1. */
  lemma WalkOfMega(s: Snap, s': Snap, va: Word, pa: int, flags: Word, x: Word)
    requires WellFormed(s.mem, s.tree) && WellFormed(s'.mem, s'.tree) && Canonical(x) && Canonical(va)
    requires va % 0x20_0000 == 0 && 0 <= pa < 0x100_0000_0000_0000 && pa % 0x20_0000 == 0
    requires flags < 1024 && PteV(flags) && Accepts(flags)
    requires MegaAdded(s, s', va, EncodeLeaf(pa, flags))
    ensures va <= x < va + 0x20_0000 ==>
              && Walk(s'.mem, 4096 * s'.tree.root, x) == Mapped(pa + (x - va), EncodeLeaf(pa, flags), 1)
              && SameBits(EncodeLeaf(pa, flags), flags)
    ensures !(va <= x < va + 0x20_0000) ==>
              Walk(s'.mem, 4096 * s'.tree.root, x)
              == Settled(Walk(s.mem, 4096 * s.tree.root, x), false, SameGiga(x, va))
  {
    hide Walk, Lookup, PtePpn, WellFormed, Shape, EncodeLeaf, Vpn, PteV, PteR, PteW, PteX, PteU, PteG, PteA, PteD,
         NoAccess, WriteOnly, Settled, SameGiga;
    WalkIsLookup(s'.mem, s'.tree, x);
    SameMega(x, va);
    InMega(va, x);
    MegaPpn(pa);
    LeafDecodes(pa, flags);
    if va <= x < va + 0x20_0000 {
      MegaOffset(va, x);
    } else {
      SameTop(x, va);
      WalkSettles(s, s', x, false, SameGiga(x, va));
    }
  }

  /** So `walk` of another address can change: in a map with no tables but the root,
      mapping page 0 moves the hole at page 1 from level 2 to level 0. */
  lemma LevelDrops(s: Snap, s': Snap, pa: int, flags: Word)
    requires WellFormed(s.mem, s.tree) && WellFormed(s'.mem, s'.tree) && s.tree.l1 == map[]
    requires 0 <= pa < 0x100_0000_0000_0000 && pa % 4096 == 0 && flags < 1024 && PteV(flags) && Accepts(flags)
    requires PageAdded(s, s', 0, EncodeLeaf(pa, flags))
    ensures Walk(s.mem, 4096 * s.tree.root, 4096) == Unmapped(2, 0)
    ensures Walk(s'.mem, 4096 * s'.tree.root, 4096) == Unmapped(0, 0)
  {
    hide Walk, PtePpn, WellFormed, EncodeLeaf, PageAdded, Accepts, PteV;
    WalkIsLookup(s.mem, s.tree, 4096);
    WalkOfPage(s, s', 0, pa, flags, 4096);
  }

  /** Some address of the range shares the slot, or the gigabyte, of `x`. */
  ghost predicate SlotIn(x: Word, lo: int, hi: int) { exists y: Word :: lo <= y < hi && SameSlot(x, y) }

  ghost predicate GigaIn(x: Word, lo: int, hi: int) { exists y: Word :: lo <= y < hi && SameGiga(x, y) }

  ghost predicate TopIndexIn(i: int, lo: int, hi: int) { exists y: Word :: lo <= y < hi && Vpn(y, 2) == i }

  ghost predicate SlotIndexIn(i: int, j: int, lo: int, hi: int) {
    exists y: Word :: lo <= y < hi && Vpn(y, 2) == i && Vpn(y, 1) == j
  }

  /** The tables after mapping `[lo, hi)`: the old ones and those on its paths. */
  ghost predicate Grown(t: Tree, t': Tree, lo: int, hi: int, level: int) {
    && (forall i :: i in t'.l1 <==> i in t.l1 || TopIndexIn(i, lo, hi))
    && (forall i, j :: (i, j) in t'.l0 <==> (i, j) in t.l0 || (level == 0 && SlotIndexIn(i, j, lo, hi)))
  }

  lemma TopIn(x: Word, lo: int, hi: int)
    requires Canonical(x) && hi <= VA_LIMIT
    ensures TopIndexIn(Vpn(x, 2), lo, hi) <==> GigaIn(x, lo, hi)
  {
    hide Vpn, SameGiga;
    forall y: Word | lo <= y < hi
      ensures Vpn(y, 2) == Vpn(x, 2) <==> SameGiga(x, y)
    {
      SameTop(x, y);
    }
  }

  lemma SlotIsIn(x: Word, lo: int, hi: int)
    requires Canonical(x) && hi <= VA_LIMIT
    ensures SlotIndexIn(Vpn(x, 2), Vpn(x, 1), lo, hi) <==> SlotIn(x, lo, hi)
    ensures SlotIn(x, lo, hi) ==> GigaIn(x, lo, hi)
  {
    hide Vpn, SameGiga;
    forall y: Word | lo <= y < hi
      ensures Vpn(y, 2) == Vpn(x, 2) && Vpn(y, 1) == Vpn(x, 1) <==> SameSlot(x, y)
      ensures SameSlot(x, y) ==> SameGiga(x, y)
    {
      SameMega(x, y);
      SameTop(x, y);
    }
  }

  lemma GrownNone(t: Tree, lo: int, level: int)
    ensures Grown(t, t, lo, lo, level)
  {
  }

  lemma GrownJoin(t0: Tree, t1: Tree, t2: Tree, lo: int, mid: int, hi: int, level: int)
    requires lo <= mid <= hi && Grown(t0, t1, lo, mid, level) && Grown(t1, t2, mid, hi, level)
    ensures Grown(t0, t2, lo, hi, level)
  {
    hide Vpn, TopIndexIn, SlotIndexIn;
    forall i
      ensures TopIndexIn(i, lo, hi) <==> TopIndexIn(i, lo, mid) || TopIndexIn(i, mid, hi)
    {
      TopJoin(i, lo, mid, hi);
    }
    forall i, j
      ensures SlotIndexIn(i, j, lo, hi) <==> SlotIndexIn(i, j, lo, mid) || SlotIndexIn(i, j, mid, hi)
    {
      SlotJoin(i, j, lo, mid, hi);
    }
  }

  lemma TopJoin(i: int, lo: int, mid: int, hi: int)
    requires lo <= mid <= hi
    ensures TopIndexIn(i, lo, hi) <==> TopIndexIn(i, lo, mid) || TopIndexIn(i, mid, hi)
  {
    hide Vpn;
  }

  lemma SlotJoin(i: int, j: int, lo: int, mid: int, hi: int)
    requires lo <= mid <= hi
    ensures SlotIndexIn(i, j, lo, hi) <==> SlotIndexIn(i, j, lo, mid) || SlotIndexIn(i, j, mid, hi)
  {
    hide Vpn;
  }

  lemma GrownPage(t: Tree, t': Tree, va: Word)
    requires va % 4096 == 0 && va + 4096 <= VA_LIMIT && PathTables(t, t', va, 0)
    ensures Grown(t, t', va, va + 4096, 0)
  {
    hide Vpn;
    forall y: Word | va <= y < va + 4096
      ensures Vpn(y, 2) == Vpn(va, 2) && Vpn(y, 1) == Vpn(va, 1)
    {
      InPage(va, y);
      SamePage(y, va);
    }
    assert TopIndexIn(Vpn(va, 2), va, va + 4096) && SlotIndexIn(Vpn(va, 2), Vpn(va, 1), va, va + 4096);
  }

  lemma GrownMega(t: Tree, t': Tree, va: Word)
    requires va % 0x20_0000 == 0 && va + 0x20_0000 <= VA_LIMIT && ChildTable(t, t', va, 2)
    ensures Grown(t, t', va, va + 0x20_0000, 1)
  {
    hide Vpn;
    forall y: Word | va <= y < va + 0x20_0000
      ensures Vpn(y, 2) == Vpn(va, 2)
    {
      InMega(va, y);
      SameMega(y, va);
    }
    assert TopIndexIn(Vpn(va, 2), va, va + 0x20_0000);
  }

  // --- the range loops -------------------------------------------------------

  /** All tables lie on the given index paths. */
  ghost predicate TablesWithin(t: Tree, k1: set<int>, k0: set<(int, int)>) {
    t.l1.Keys <= k1 && t.l0.Keys <= k0
  }

  /** One frame in hand for every table on those paths not yet built. */
  ghost predicate Funded(s: Snap, k1: set<int>, k0: set<(int, int)>) {
    !s.frozen && s.tables == TableCount(s.tree) && s.free + s.tables >= 1 + |k1| + |k0|
  }

  ghost predicate OnPaths(va: Word, k1: set<int>, k0: set<(int, int)>) {
    Vpn(va, 2) in k1 && (Vpn(va, 2), Vpn(va, 1)) in k0
  }

  lemma SubsetSize<T>(a: set<T>, b: set<T>)
    requires a <= b
    ensures |a| <= |b|
  {
    assert b == a + (b - a);
  }

  lemma FundedCanMap(s: Snap, va: Word, k1: set<int>, k0: set<(int, int)>)
    requires Shape(s.tree) && TablesWithin(s.tree, k1, k0) && Funded(s, k1, k0) && OnPaths(va, k1, k0)
    requires HitAt(s.mem, s.tree, va).Miss?
    ensures CanMap(s, va)
  {
    hide Vpn;
    var h := HitAt(s.mem, s.tree, va);
    SubsetSize(s.tree.l1.Keys, if h.level == 2 then k1 - {Vpn(va, 2)} else k1);
    SubsetSize(s.tree.l0.Keys, if h.level >= 1 then k0 - {(Vpn(va, 2), Vpn(va, 1))} else k0);
  }

  lemma FundedCanMap2m(s: Snap, va: Word, k1: set<int>, k0: set<(int, int)>)
    requires Shape(s.tree) && TablesWithin(s.tree, k1, k0) && Funded(s, k1, k0) && Vpn(va, 2) in k1
    requires HitAt(s.mem, s.tree, va).Miss? && HitAt(s.mem, s.tree, va).level >= 1
    ensures CanMap2m(s, va)
  {
    hide Vpn;
    SubsetSize(s.tree.l1.Keys, if HitAt(s.mem, s.tree, va).level == 2 then k1 - {Vpn(va, 2)} else k1);
    SubsetSize(s.tree.l0.Keys, k0);
  }

  ghost predicate HolesIn(s: Snap, lo: int, hi: int, level: int)
    requires Shape(s.tree) && hi <= VA_LIMIT
  {
    forall x: Word | lo <= x < hi :: HitAt(s.mem, s.tree, x).Miss? && HitAt(s.mem, s.tree, x).level >= level
  }

  /** Under these conditions a range can be mapped at `level` without a panic. */
  ghost predicate Ready(s: Snap, lo: int, hi: int, flags: Word, level: int, k1: set<int>, k0: set<(int, int)>)
    requires Shape(s.tree) && hi <= VA_LIMIT && 0 <= level <= 1
  {
    && Accepts(flags) && HolesIn(s, lo, hi, level) && TablesWithin(s.tree, k1, k0) && Funded(s, k1, k0)
    && forall x: Word | lo <= x < hi :: Vpn(x, 2) in k1 && (level == 0 ==> OnPaths(x, k1, k0))
  }

  lemma HoleStays(s: Snap, s': Snap, x: Word, level: int)
    requires Shape(s.tree) && Shape(s'.tree) && 0 <= level <= 1
    requires SameHit(HitAt(s.mem, s.tree, x), HitAt(s'.mem, s'.tree, x))
    requires HitAt(s.mem, s.tree, x).Miss? && HitAt(s.mem, s.tree, x).level >= level
    requires level == 1 ==> s'.tree.l0.Keys == s.tree.l0.Keys
    ensures HitAt(s'.mem, s'.tree, x).Miss? && HitAt(s'.mem, s'.tree, x).level >= level
  {
    hide Vpn, Entry;
  }

  lemma HolesStay(s: Snap, s': Snap, lo: int, mid: int, hi: int, flags: Word, level: int)
    requires lo <= mid <= hi <= VA_LIMIT && flags < 1024 && 0 <= level <= 1
    requires RangeMapped(s, s', lo, mid, flags, level) && HolesIn(s, lo, hi, level)
    requires level == 1 ==> s'.tree.l0.Keys == s.tree.l0.Keys
    ensures HolesIn(s', mid, hi, level)
  {
    hide HitAt, IdLeaf, Shape;
    forall x: Word | mid <= x < hi
      ensures HitAt(s'.mem, s'.tree, x).Miss? && HitAt(s'.mem, s'.tree, x).level >= level
    {
      assert Canonical(x);
      HoleStays(s, s', x, level);
    }
  }

  /** What a range step keeps of that: the rest of the range is still ready. */
  lemma StillReady(s: Snap, s': Snap, lo: int, mid: int, hi: int, flags: Word, level: int, k1: set<int>, k0: set<(int, int)>)
    requires lo <= mid <= hi <= VA_LIMIT && flags < 1024 && 0 <= level <= 1
    requires RangeMapped(s, s', lo, mid, flags, level) && KeptBudget(s, s') && Ready(s, lo, hi, flags, level, k1, k0)
    requires TablesWithin(s'.tree, k1, k0) && s'.tables == TableCount(s'.tree)
    requires level == 1 ==> s'.tree.l0.Keys == s.tree.l0.Keys
    ensures Ready(s', mid, hi, flags, level, k1, k0)
  {
    hide HitAt, IdLeaf, Vpn, TableCount, HolesIn, TablesWithin, Accepts, OnPaths;
    HolesStay(s, s', lo, mid, hi, flags, level);
  }

  /** A mapped range, and the accounting that goes with it. */
  ghost predicate RangeAdded(s: Snap, s': Snap, lo: int, hi: int, flags: Word, level: int)
    requires hi <= VA_LIMIT && flags < 1024 && 0 <= level <= 1
  {
    RangeMapped(s, s', lo, hi, flags, level) && KeptBudget(s, s') && Grown(s.tree, s'.tree, lo, hi, level)
  }

  /** Mapper and walker agree: after a range is mapped, `walk` is the identity
      with exactly those flags and that level on it. Elsewhere what was mapped is
      unchanged, and holes are exactly where the new tables put them. */
  lemma WalkOfRange(s: Snap, s': Snap, lo: int, hi: int, flags: Word, level: int, x: Word)
    requires WellFormed(s.mem, s.tree) && WellFormed(s'.mem, s'.tree) && Canonical(x)
    requires hi <= VA_LIMIT && flags < 1024 && 0 <= level <= 1
    requires RangeAdded(s, s', lo, hi, flags, level)
    ensures lo <= x < hi ==>
              Walk(s'.mem, 4096 * s'.tree.root, x) == Mapped(x, IdLeaf(x, flags, level), level)
    ensures !(lo <= x < hi) ==>
              Walk(s'.mem, 4096 * s'.tree.root, x)
              == Settled(Walk(s.mem, 4096 * s.tree.root, x), level == 0 && SlotIn(x, lo, hi), GigaIn(x, lo, hi))
  {
    hide Walk, Lookup, IdLeaf, PtePpn, WellFormed, Shape, Settled, Vpn;
    WalkIsLookup(s'.mem, s'.tree, x);
    if lo <= x < hi {
      IdPpn(x, flags, level);
    } else {
      TopIn(x, lo, hi);
      SlotIsIn(x, lo, hi);
      WalkSettles(s, s', x, level == 0 && SlotIn(x, lo, hi), GigaIn(x, lo, hi));
    }
  }

  lemma NothingAdded(s: Snap, lo: int, flags: Word, level: int)
    requires Shape(s.tree) && lo <= VA_LIMIT && flags < 1024 && 0 <= level <= 1
    ensures RangeAdded(s, s, lo, lo, flags, level)
  {
    hide HitAt, Shape, Grown;
    GrownNone(s.tree, lo, level);
  }

  lemma AddedPage(s0: Snap, s: Snap, s': Snap, lo: int, va: Word, flags: Word)
    requires lo <= va && va + 4096 <= VA_LIMIT && va % 4096 == 0 && flags < 1024
    requires RangeAdded(s0, s, lo, va, flags, 0) && PageAdded(s, s', va, EncodeLeaf(va, flags))
    ensures RangeAdded(s0, s', lo, va + 4096, flags, 0) && RangeMapped(s, s', va, va + 4096, flags, 0)
  {
    hide RangeMapped, PageMapped, PathTables, EncodeLeaf, Grown;
    GrownPage(s.tree, s'.tree, va);
    GrownJoin(s0.tree, s.tree, s'.tree, lo, va, va + 4096, 0);
    PageIsRange(s, s', va, flags);
    RangeJoin(s0, s, s', lo, va, va + 4096, flags, 0);
  }

  lemma AddedMega(s0: Snap, s: Snap, s': Snap, lo: int, va: Word, flags: Word)
    requires lo <= va && va + 0x20_0000 <= VA_LIMIT && va % 0x20_0000 == 0 && flags < 1024
    requires RangeAdded(s0, s, lo, va, flags, 1) && MegaAdded(s, s', va, EncodeLeaf(va, flags))
    ensures RangeAdded(s0, s', lo, va + 0x20_0000, flags, 1) && RangeMapped(s, s', va, va + 0x20_0000, flags, 1)
  {
    hide RangeMapped, MegaMapped, ChildTable, EncodeLeaf, Grown;
    GrownMega(s.tree, s'.tree, va);
    GrownJoin(s0.tree, s.tree, s'.tree, lo, va, va + 0x20_0000, 1);
    MegaIsRange(s, s', va, flags);
    RangeJoin(s0, s, s', lo, va, va + 0x20_0000, flags, 1);
  }

  lemma ReadyTables(s: Snap, lo: int, hi: int, flags: Word, level: int, k1: set<int>, k0: set<(int, int)>)
    requires Shape(s.tree) && hi <= VA_LIMIT && 0 <= level <= 1 && Ready(s, lo, hi, flags, level, k1, k0)
    ensures TablesWithin(s.tree, k1, k0)
  {
    hide HolesIn, Funded, Accepts;
  }

  lemma ReadyPage(s: Snap, va: Word, end: int, flags: Word, k1: set<int>, k0: set<(int, int)>)
    requires Shape(s.tree) && va < end <= VA_LIMIT && Ready(s, va, end, flags, 0, k1, k0)
    ensures Accepts(flags) && CanMap(s, va)
  {
    hide HitAt, Vpn, TableCount, Accepts;
    assert HitAt(s.mem, s.tree, va).Miss? && OnPaths(va, k1, k0);
    FundedCanMap(s, va, k1, k0);
  }

  lemma ReadyMega(s: Snap, va: Word, end: int, flags: Word, k1: set<int>, k0: set<(int, int)>)
    requires Shape(s.tree) && va < end <= VA_LIMIT && Ready(s, va, end, flags, 1, k1, k0)
    ensures Accepts(flags) && CanMap2m(s, va)
  {
    hide HitAt, Vpn, TableCount, Accepts;
    assert HitAt(s.mem, s.tree, va).Miss? && HitAt(s.mem, s.tree, va).level >= 1 && Vpn(va, 2) in k1;
    FundedCanMap2m(s, va, k1, k0);
  }

  lemma ReadyAfterPage(s: Snap, s': Snap, va: Word, end: int, flags: Word, k1: set<int>, k0: set<(int, int)>)
    requires va + 4096 <= end <= VA_LIMIT && flags < 1024
    requires RangeMapped(s, s', va, va + 4096, flags, 0) && PageAdded(s, s', va, EncodeLeaf(va, flags))
    requires Ready(s, va, end, flags, 0, k1, k0) && s'.tables == TableCount(s'.tree)
    ensures Ready(s', va + 4096, end, flags, 0, k1, k0)
  {
    hide RangeMapped, PageMapped, HolesIn, Vpn, TableCount, EncodeLeaf, Accepts;
    assert OnPaths(va, k1, k0);
    assert TablesWithin(s'.tree, k1, k0);
    StillReady(s, s', va, va + 4096, end, flags, 0, k1, k0);
  }

  lemma ReadyAfterMega(s: Snap, s': Snap, va: Word, end: int, flags: Word, k1: set<int>, k0: set<(int, int)>)
    requires va + 0x20_0000 <= end <= VA_LIMIT && flags < 1024
    requires RangeMapped(s, s', va, va + 0x20_0000, flags, 1) && MegaAdded(s, s', va, EncodeLeaf(va, flags))
    requires Ready(s, va, end, flags, 1, k1, k0) && s'.tables == TableCount(s'.tree)
    ensures Ready(s', va + 0x20_0000, end, flags, 1, k1, k0)
  {
    hide RangeMapped, MegaMapped, HolesIn, Vpn, TableCount, EncodeLeaf, Accepts;
    assert Vpn(va, 2) in k1;
    assert TablesWithin(s'.tree, k1, k0);
    StillReady(s, s', va, va + 0x20_0000, end, flags, 1, k1, k0);
  }

  predicate RangeAligned(start: int, end: int, level: int) {
    start <= end && if level == 0 then start % 4096 == 0 && end % 4096 == 0 else start % 0x20_0000 == 0 && end % 0x20_0000 == 0
  }

  /** A range loop's fixed context: where it began, and whether it was ready. */
  datatype Loop = Loop(s: Snap, start: int, end: int, go: bool, k1: set<int>, k0: set<(int, int)>)

  ghost predicate Looping(c: Loop, s: Snap, va: int, flags: Word, level: int) {
    && 0 <= c.start <= va <= c.end <= VA_LIMIT && flags < 1024 && 0 <= level <= 1 && Shape(s.tree)
    && RangeAdded(c.s, s, c.start, va, flags, level)
    && (c.go ==> Ready(s, va, c.end, flags, level, c.k1, c.k0))
  }

  lemma LoopStart(s: Snap, start: int, end: int, flags: Word, level: int, k1: set<int>, k0: set<(int, int)>) returns (c: Loop)
    requires Shape(s.tree) && 0 <= start <= end <= VA_LIMIT && flags < 1024 && 0 <= level <= 1
    ensures c == Loop(s, start, end, Ready(s, start, end, flags, level, k1, k0), k1, k0)
    ensures Looping(c, s, start, flags, level)
  {
    hide Ready, RangeAdded;
    NothingAdded(s, start, flags, level);
    c := Loop(s, start, end, Ready(s, start, end, flags, level, k1, k0), k1, k0);
  }

  lemma LoopDone(c: Loop, s: Snap, flags: Word, level: int)
    requires Looping(c, s, c.end, flags, level)
    ensures RangeAdded(c.s, s, c.start, c.end, flags, level)
    ensures c.go ==> TablesWithin(s.tree, c.k1, c.k0)
  {
    hide Ready, RangeAdded;
    if c.go {
      ReadyTables(s, c.end, c.end, flags, level, c.k1, c.k0);
    }
  }

  /** One turn of the loop in `map_range`. */
  method MapNext(pm: PageMapper, va: int, flags: Word, ghost c: Loop)
    returns (one: Outcome<()>)
    requires pm.Valid() && Looping(c, pm.Snapshot(), va, flags, 0) && va % 4096 == 0 && va + 4096 <= c.end
    requires flags < 1024 && PteV(flags)
    modifies pm, pm.frames
    ensures pm.Valid()
    ensures one.Panic? ==> !c.go
    ensures one.Done? ==> Looping(c, pm.Snapshot(), va + 4096, flags, 0)
  {
    hide RangeAdded, Ready, PageAdded, CanMap, Accepts, HitAt, Slots, Shape, TreeFrames, TableCount, RangeMapped, Frame.PoolOk, Harmless, EncodeLeaf, PteV;
    ghost var s := pm.Snapshot();
    if c.go {
      ReadyPage(s, va, c.end, flags, c.k1, c.k0);
    }
    one := pm.Map(va, va, flags);
    if one.Done? {
      AddedPage(c.s, s, pm.Snapshot(), c.start, va, flags);
      if c.go {
        ReadyAfterPage(s, pm.Snapshot(), va, c.end, flags, c.k1, c.k0);
      }
    }
  }

  /** `map_range`: 4 KiB identity leaves over `[start, end)`. A range of holes
      on funded paths is mapped without a panic. */
  method MapRange(pm: PageMapper, start: int, end: int, flags: Word, ghost k1: set<int>, ghost k0: set<(int, int)>)
    returns (r: Outcome<()>)
    requires pm.Valid() && 0 <= start <= VA_LIMIT && 0 <= end <= VA_LIMIT && flags < 1024 && PteV(flags)
    modifies pm, pm.frames
    ensures pm.Valid()
    ensures r.Done? ==> RangeAligned(start, end, 0) && RangeAdded(old(pm.Snapshot()), pm.Snapshot(), start, end, flags, 0)
    ensures RangeAligned(start, end, 0) && Ready(old(pm.Snapshot()), start, end, flags, 0, k1, k0) ==>
              r.Done? && TablesWithin(pm.tree, k1, k0)
  {
    hide RangeAdded, Ready, HitAt, Slots, Shape, TreeFrames, TableCount, Frame.PoolOk, PteV, Looping, TablesWithin;
    if start % 4096 != 0 || end % 4096 != 0 || start > end {
      return Panic;
    }
    ghost var c := LoopStart(pm.Snapshot(), start, end, flags, 0, k1, k0);
    var va := start;
    while va < end
      invariant start <= va <= end && va % 4096 == 0 && pm.Valid()
      invariant Looping(c, pm.Snapshot(), va, flags, 0)
    {
      var one := MapNext(pm, va, flags, c);
      if one.Panic? {
        return Panic;
      }
      va := va + 4096;
    }
    LoopDone(c, pm.Snapshot(), flags, 0);
    r := Done(());
  }

  /** One turn of the loop in `map_range_2m`. */
  method MapNext2m(pm: PageMapper, va: int, flags: Word, ghost c: Loop)
    returns (one: Outcome<()>)
    requires pm.Valid() && Looping(c, pm.Snapshot(), va, flags, 1) && va % 0x20_0000 == 0 && va + 0x20_0000 <= c.end
    requires flags < 1024 && PteV(flags)
    modifies pm, pm.frames
    ensures pm.Valid()
    ensures one.Panic? ==> !c.go
    ensures one.Done? ==> Looping(c, pm.Snapshot(), va + 0x20_0000, flags, 1)
  {
    hide RangeAdded, Ready, MegaAdded, CanMap2m, Accepts, HitAt, Slots, Shape, TreeFrames, TableCount, RangeMapped, Frame.PoolOk, Harmless, EncodeLeaf, PteV;
    ghost var s := pm.Snapshot();
    if c.go {
      ReadyMega(s, va, c.end, flags, c.k1, c.k0);
    }
    one := pm.Map2m(va, va, flags);
    if one.Done? {
      AddedMega(c.s, s, pm.Snapshot(), c.start, va, flags);
      if c.go {
        ReadyAfterMega(s, pm.Snapshot(), va, c.end, flags, c.k1, c.k0);
      }
    }
  }

  /** `map_range_2m`: 2 MiB identity leaves; both ends 2 MiB-aligned. */
  method MapRange2m(pm: PageMapper, start: int, end: int, flags: Word, ghost k1: set<int>, ghost k0: set<(int, int)>)
    returns (r: Outcome<()>)
    requires pm.Valid() && 0 <= start <= VA_LIMIT && 0 <= end <= VA_LIMIT && flags < 1024 && PteV(flags)
    modifies pm, pm.frames
    ensures pm.Valid()
    ensures r.Done? ==> RangeAligned(start, end, 1) && RangeAdded(old(pm.Snapshot()), pm.Snapshot(), start, end, flags, 1)
    ensures RangeAligned(start, end, 1) && Ready(old(pm.Snapshot()), start, end, flags, 1, k1, k0) ==>
              r.Done? && TablesWithin(pm.tree, k1, k0)
  {
    hide RangeAdded, Ready, HitAt, Slots, Shape, TreeFrames, TableCount, Frame.PoolOk, PteV, Looping, TablesWithin;
    if start % 0x20_0000 != 0 || end % 0x20_0000 != 0 || start > end {
      return Panic;
    }
    ghost var c := LoopStart(pm.Snapshot(), start, end, flags, 1, k1, k0);
    var va := start;
    while va < end
      invariant start <= va <= end && va % 0x20_0000 == 0 && pm.Valid()
      invariant Looping(c, pm.Snapshot(), va, flags, 1)
    {
      var one := MapNext2m(pm, va, flags, c);
      if one.Panic? {
        return Panic;
      }
      va := va + 0x20_0000;
    }
    LoopDone(c, pm.Snapshot(), flags, 1);
    r := Done(());
  }
}
