/** The mapper (src/page.rs): `map`, `map_2m` and the range loops over them. */
module Page {
  import opened Ram
  import opened Frame
  import opened Pte
  import opened PageTree
  import opened PageWalk

  ghost function TreeFrames(t: Tree): set<int> {
    {t.root} + (set i | i in t.l1 :: t.l1[i]) + (set k | k in t.l0 :: t.l0[k])
  }

  ghost function TableCount(t: Tree): int {
    1 + |t.l1| + |t.l0|
  }

  lemma OutsideIsFresh(t: Tree, f: int)
    requires IsFrame(f) && f !in TreeFrames(t)
    ensures FreshFrame(t, f)
  {
  }

  lemma EmptyTree(mem: Mem, f: int)
    requires IsFrame(f)
    ensures WellFormed(Zeroed(mem, 4096 * f), Tree(f, map[], map[]))
    ensures TreeFrames(Tree(f, map[], map[])) == {f} && TableCount(Tree(f, map[], map[])) == 1
  {
    hide Entry;
    EntryOfZeroed(mem, f);
  }

  /** Frame `f` holds the table that translates `va` at `level`. */
  ghost predicate IsTableOf(t: Tree, va: Word, level: int, f: int) {
    if level == 2 then f == t.root
    else if level == 1 then Vpn(va, 2) in t.l1 && f == t.l1[Vpn(va, 2)]
    else (Vpn(va, 2), Vpn(va, 1)) in t.l0 && f == t.l0[(Vpn(va, 2), Vpn(va, 1))]
  }

  /** The tree with the child of `va`'s table at `level` put in frame `f`. */
  ghost function WithChild(t: Tree, va: Word, level: int, f: int): Tree {
    if level == 2 then t.(l1 := t.l1[Vpn(va, 2) := f])
    else t.(l0 := t.l0[(Vpn(va, 2), Vpn(va, 1)) := f])
  }

  ghost function HitAt(mem: Mem, t: Tree, va: Word): Hit
    requires Shape(t)
  {
    Lookup(mem, t, PathOf(va))
  }

  /** No resolved page changes and no hole is filled. */
  ghost predicate Extends(mem: Mem, t: Tree, mem': Mem, t': Tree) {
    && Shape(t) && Shape(t')
    && forall p | Indices(p) :: SameHit(Lookup(mem, t, p), Lookup(mem', t', p))
  }

  /** The tree has gained at most the child of `va`'s table at `level`. */
  ghost predicate ChildTable(t: Tree, t': Tree, va: Word, level: int) {
    && t'.root == t.root
    && t'.l1.Keys == t.l1.Keys + (if level == 2 then {Vpn(va, 2)} else {})
    && t'.l0.Keys == t.l0.Keys + (if level == 1 then {(Vpn(va, 2), Vpn(va, 1))} else {})
  }

  lemma ExistingChild(t: Tree, va: Word, level: int, f: int)
    requires 1 <= level <= 2 && IsTableOf(t, va, level - 1, f)
    ensures ChildTable(t, t, va, level)
  {
  }

  lemma ReadSlot(mem: Mem, t: Tree, va: Word, level: int, g: int)
    requires Shape(t) && 0 <= level <= 2 && IsTableOf(t, va, level, g)
    ensures IsFrame(g) && 4096 * g / 8 == 512 * g
    ensures mem[512 * g + Vpn(va, level)] == Entry(mem, g, Vpn(va, level))
  {
  }

  lemma ChildCount(t: Tree, va: Word, level: int, f: int)
    requires Shape(t) && 1 <= level <= 2
    requires if level == 2 then Vpn(va, 2) !in t.l1 else (Vpn(va, 2), Vpn(va, 1)) !in t.l0
    ensures TableCount(WithChild(t, va, level, f)) == TableCount(t) + 1
    ensures TreeFrames(WithChild(t, va, level, f)) <= TreeFrames(t) + {f}
  {
    hide Vpn, Shape;
  }

  lemma ChildPlace(t: Tree, va: Word, level: int, f: int)
    requires 1 <= level <= 2
    ensures IsTableOf(WithChild(t, va, level, f), va, level - 1, f)
    ensures ChildTable(t, WithChild(t, va, level, f), va, level)
    ensures WithChild(t, va, level, f).root == t.root
  {
    hide Vpn;
  }

  lemma SameExtends(mem: Mem, t: Tree)
    requires Shape(t)
    ensures Extends(mem, t, mem, t)
  {
  }

  lemma ExtendsTrans(m0: Mem, t0: Tree, m1: Mem, t1: Tree, m2: Mem, t2: Tree)
    requires Extends(m0, t0, m1, t1) && Extends(m1, t1, m2, t2)
    ensures Extends(m0, t0, m2, t2)
  {
    hide Lookup, Shape;
  }

  /** Linking a fresh table where a lookup of `va` falls into a hole. */
  lemma LinkTable(mem: Mem, mem': Mem, t: Tree, va: Word, level: int, g: int, f: int)
    requires WellFormed(mem, t) && 1 <= level <= 2 && IsTableOf(t, va, level, g) && f !in TreeFrames(t)
    requires IsFrame(f) && Lookup(mem, t, PathOf(va)) == Miss(level)
    requires Linked(mem, mem', g, Vpn(va, level), f)
    ensures WellFormed(mem', WithChild(t, va, level, f))
    ensures Extends(mem, t, mem', WithChild(t, va, level, f))
    ensures Lookup(mem', WithChild(t, va, level, f), PathOf(va)) == Miss(level - 1)
    ensures if level == 2 then Vpn(va, 2) !in t.l1 else (Vpn(va, 2), Vpn(va, 1)) !in t.l0
  {
    hide Vpn, Entry, IsLeaf, Pointer, TreeFrames, MegaOrZero, PageOrZero;
    OutsideIsFresh(t, f);
    var p := PathOf(va);
    if level == 2 {
      assert p.i2 !in t.l1;
      LinkL1(mem, mem', t, p.i2, f);
      forall q | Indices(q)
        ensures SameHit(Lookup(mem, t, q), Lookup(mem', WithChild(t, va, level, f), q))
      {
        LinkL1Keeps(mem, mem', t, p.i2, f, q);
      }
    } else {
      assert (p.i2, p.i1) !in t.l0;
      LinkL0(mem, mem', t, p.i2, p.i1, f);
      forall q | Indices(q)
        ensures SameHit(Lookup(mem, t, q), Lookup(mem', WithChild(t, va, level, f), q))
      {
        LinkL0Keeps(mem, mem', t, p.i2, p.i1, f, q);
      }
    }
  }

  lemma TableIsInTree(t: Tree, va: Word, level: int, g: int)
    requires Shape(t) && 0 <= level <= 2 && IsTableOf(t, va, level, g)
    ensures g in TreeFrames(t) && IsFrame(g)
  {
  }

  /** The mapper's tests on a slot tell the walker's three cases apart. */
  lemma SlotCases(mem: Mem, t: Tree, va: Word, level: int, g: int) returns (f: int)
    requires WellFormed(mem, t) && 1 <= level <= 2 && IsTableOf(t, va, level, g)
    ensures var e := Entry(mem, g, Vpn(va, level));
            var h := Lookup(mem, t, PathOf(va));
            && (e == 0 <==> h == Miss(level))
            && (e != 0 && !NoAccess(e) <==> h.Leaf? && h.level == level)
            && (e != 0 && NoAccess(e) ==>
                  IsTableOf(t, va, level - 1, f) && IsFrame(f) && e % 2 == 1 && e / 1024 * 4096 == 4096 * f)
  {
    hide Vpn, Entry, Pointer, IsLeaf, NoAccess;
    var p := PathOf(va);
    var e := Entry(mem, g, Vpn(va, level));
    f := if level == 2 && p.i2 in t.l1 then t.l1[p.i2]
         else if level == 1 && (p.i2, p.i1) in t.l0 then t.l0[(p.i2, p.i1)] else 0;
    if f != 0 {
      PointerDecodes(f);
    } else if level == 1 && e != 0 {
      LeafHasAccess(e);
    }
  }

  /** `va`'s page now resolves to the leaf `e`; every other page as before. */
  ghost predicate PageMapped(mem: Mem, t: Tree, mem': Mem, t': Tree, va: Word, e: Word) {
    && Shape(t) && Shape(t')
    && forall q | Indices(q) ::
         if q == PathOf(va) then Lookup(mem', t', q) == Leaf(e, 0)
         else SameHit(Lookup(mem, t, q), Lookup(mem', t', q))
  }

  /** The tree has gained at most the tables on `va`'s path, down to `level`. */
  ghost predicate PathTables(t: Tree, t': Tree, va: Word, level: int) {
    && t'.root == t.root
    && t'.l1.Keys == t.l1.Keys + (if level <= 1 then {Vpn(va, 2)} else {})
    && t'.l0.Keys == t.l0.Keys + (if level == 0 then {(Vpn(va, 2), Vpn(va, 1))} else {})
  }

  lemma PathStep(t0: Tree, t: Tree, t': Tree, va: Word, level: int)
    requires PathTables(t0, t, va, level) && ChildTable(t, t', va, level) && 1 <= level <= 2
    ensures PathTables(t0, t', va, level - 1)
  {
    hide Vpn;
  }

  lemma StoreIsStored(mem: Mem, g: int, i: int, e: Word)
    requires IsFrame(g) && InTable(i)
    ensures Stored(mem, mem[512 * g + i := e], g, i, e)
  {
    hide Entry;
    EntryOfStore(mem, g, i, e);
  }

  lemma LeafInHole(m0: Mem, t0: Tree, mem: Mem, t: Tree, va: Word, g: int, e: Word)
    requires WellFormed(mem, t) && Extends(m0, t0, mem, t) && IsTableOf(t, va, 0, g) && IsLeaf(e) && e != 0
    ensures IsFrame(g)
    ensures var m' := mem[512 * g + Vpn(va, 0) := e]; WellFormed(m', t) && PageMapped(m0, t0, m', t, va, e)
  {
    hide Vpn, Entry, IsLeaf, Slots, Lookup;
    StoreIsStored(mem, g, Vpn(va, 0), e);
    SetPage(mem, mem[512 * g + Vpn(va, 0) := e], t, PathOf(va), e);
  }

  /** The 2 MiB slot of `va` now resolves to the leaf `e`. */
  ghost predicate MegaMapped(mem: Mem, t: Tree, mem': Mem, t': Tree, va: Word, e: Word) {
    && Shape(t) && Shape(t')
    && forall q | Indices(q) ::
         if q.i2 == Vpn(va, 2) && q.i1 == Vpn(va, 1) then Lookup(mem', t', q) == Leaf(e, 1)
         else SameHit(Lookup(mem, t, q), Lookup(mem', t', q))
  }

  lemma MegaInHole(m0: Mem, t0: Tree, mem: Mem, t: Tree, va: Word, g: int, e: Word)
    requires WellFormed(mem, t) && Extends(m0, t0, mem, t) && IsTableOf(t, va, 1, g)
    requires Lookup(mem, t, PathOf(va)) == Miss(1) && MegaOrZero(e) && e != 0
    ensures IsFrame(g)
    ensures var m' := mem[512 * g + Vpn(va, 1) := e]; WellFormed(m', t) && MegaMapped(m0, t0, m', t, va, e)
  {
    hide Vpn, Entry, IsLeaf, Slots, MegaOrZero;
    assert (Vpn(va, 2), Vpn(va, 1)) !in t.l0;
    StoreIsStored(mem, g, Vpn(va, 1), e);
    SetMega(mem, mem[512 * g + Vpn(va, 1) := e], t, Vpn(va, 2), Vpn(va, 1), e);
  }

  lemma MegaSlot(mem: Mem, t: Tree, va: Word, g: int)
    requires WellFormed(mem, t) && IsTableOf(t, va, 1, g)
    ensures IsFrame(g) && 4096 * g / 8 == 512 * g
    ensures mem[512 * g + Vpn(va, 1)] == 0 <==> Lookup(mem, t, PathOf(va)) == Miss(1)
  {
    var f := SlotCases(mem, t, va, 1, g);
  }

  lemma MegaPpn(pa: int)
    requires 0 <= pa && pa % 0x20_0000 == 0
    ensures pa % 4096 == 0 && pa / 4096 % 512 == 0
  {
    assert pa == 4096 * (512 * (pa / 0x20_0000));
    assert pa / 4096 == 512 * (pa / 0x20_0000);
  }

  lemma PpnOfLeaf(pa: int, flags: Word)
    requires 0 <= pa < 0x100_0000_0000_0000 && flags < 1024
    ensures EncodeLeaf(pa, flags) / 1024 == pa / 4096
  {
  }

  lemma MegaLeafDecodes(pa: int, flags: Word)
    requires 0 <= pa < 0x100_0000_0000_0000 && pa % 0x20_0000 == 0
    requires flags < 1024 && PteV(flags) && !NoAccess(flags) && !WriteOnly(flags)
    ensures MegaOrZero(EncodeLeaf(pa, flags)) && EncodeLeaf(pa, flags) != 0
  {
    hide IsLeaf, NoAccess, WriteOnly, PteV, PtePpn, EncodeLeaf;
    MegaPpn(pa);
    PpnOfLeaf(pa, flags);
    LeafDecodes(pa, flags);
  }

  lemma LastSlot(mem: Mem, t: Tree, va: Word, g: int)
    requires Shape(t) && IsTableOf(t, va, 0, g)
    ensures IsFrame(g) && 4096 * g / 8 == 512 * g
    ensures mem[512 * g + Vpn(va, 0)] == 0 <==> Lookup(mem, t, PathOf(va)) == Miss(0)
  {
    hide Vpn;
  }

  /** Everything the mapper's operations are about, as a value. */
  datatype Snap = Snap(mem: Mem, tree: Tree, tables: int, free: int, frozen: bool, lo: int)

  /** Every table costs one frame; the root, freezing and the pool's base do not move. */
  ghost predicate KeptBudget(s: Snap, s': Snap) {
    s'.tree.root == s.tree.root && s'.lo == s.lo && s'.frozen == s.frozen && s'.free + s'.tables == s.free + s.tables
  }

  /** One level down `va`'s path: any missing table was created, nothing that
      resolved changed, and a frame was spent for each table. */
  ghost predicate Descended(s: Snap, s': Snap, va: Word, level: int, f: int) {
    && Extends(s.mem, s.tree, s'.mem, s'.tree) && IsTableOf(s'.tree, va, level - 1, f)
    && ChildTable(s.tree, s'.tree, va, level)
    && KeptBudget(s, s')
    && var h := HitAt(s.mem, s.tree, va);
       && HitAt(s'.mem, s'.tree, va) == (if h == Miss(level) then Miss(level - 1) else h)
       && s'.tables == s.tables + (if h == Miss(level) then 1 else 0)
       && (h == Miss(level) ==> !s.frozen && s.free >= 1)
  }

  /** The walk down is stopped at `level` by a leaf or for want of a frame. */
  ghost predicate Blocked(s: Snap, va: Word, level: int)
    requires Shape(s.tree)
  {
    var h := HitAt(s.mem, s.tree, va);
    (h.Leaf? && h.level == level) || (h == Miss(level) && (s.frozen || s.free == 0))
  }

  /** All the way from the root down to `level`. */
  ghost predicate Reached(s: Snap, s': Snap, va: Word, level: int, g: int) {
    && Extends(s.mem, s.tree, s'.mem, s'.tree) && IsTableOf(s'.tree, va, level, g)
    && PathTables(s.tree, s'.tree, va, level)
    && KeptBudget(s, s')
    && var h := HitAt(s.mem, s.tree, va);
       var missing := if h.Miss? && h.level > level then h.level - level else 0;
       && HitAt(s'.mem, s'.tree, va) == (if missing > 0 then Miss(level) else h)
       && s'.tables == s.tables + missing
       && (missing > 0 ==> !s.frozen && s.free >= missing)
       && (h.Leaf? ==> h.level <= level)
  }

  lemma ReachedRoot(s: Snap, va: Word)
    requires Shape(s.tree)
    ensures Reached(s, s, va, 2, s.tree.root)
  {
    hide Lookup, Vpn, Shape, Extends;
    SameExtends(s.mem, s.tree);
  }

  lemma ReachedNext(s0: Snap, s: Snap, s': Snap, va: Word, level: int, g: int, f: int)
    requires Reached(s0, s, va, level, g) && Descended(s, s', va, level, f) && 1 <= level <= 2
    requires HitAt(s.mem, s.tree, va).Leaf? ==> HitAt(s.mem, s.tree, va).level < level
    ensures Reached(s0, s', va, level - 1, f)
  {
    hide Lookup, Vpn, Shape, PathTables, ChildTable, IsTableOf, HitAt;
    ExtendsTrans(s0.mem, s0.tree, s.mem, s.tree, s'.mem, s'.tree);
    PathStep(s0.tree, s.tree, s'.tree, va, level);
  }

  /** `map` finds every table on the path, or can make it. */
  ghost predicate Reachable(s: Snap, va: Word)
    requires Shape(s.tree)
  {
    var h := HitAt(s.mem, s.tree, va);
    h.level == 0 || (h.Miss? && !s.frozen && s.free >= h.level)
  }

  lemma BlockedMeans(s0: Snap, s: Snap, va: Word, level: int, g: int)
    requires Reached(s0, s, va, level, g) && 1 <= level <= 2 && Blocked(s, va, level)
    ensures Shape(s0.tree) && !Reachable(s0, va)
  {
    hide Lookup, Vpn, PathTables, ChildTable, IsTableOf;
  }

  /** The mapper's own checks on the flags. */
  predicate Accepts(flags: Word) {
    !WriteOnly(flags) && !NoAccess(flags)
  }

  /** The page is a hole, and there is a frame for each table it lacks. */
  ghost predicate CanMap(s: Snap, va: Word)
    requires Shape(s.tree)
  {
    HitAt(s.mem, s.tree, va).Miss? && Reachable(s, va)
  }

  ghost predicate CanMap2m(s: Snap, va: Word)
    requires Shape(s.tree)
  {
    var h := HitAt(s.mem, s.tree, va);
    h == Miss(1) || (h == Miss(2) && !s.frozen && s.free > 0)
  }

  ghost predicate PageAdded(s: Snap, s': Snap, va: Word, e: Word) {
    PageMapped(s.mem, s.tree, s'.mem, s'.tree, va, e) && PathTables(s.tree, s'.tree, va, 0) && KeptBudget(s, s')
  }

  ghost predicate MegaAdded(s: Snap, s': Snap, va: Word, e: Word) {
    MegaMapped(s.mem, s.tree, s'.mem, s'.tree, va, e) && ChildTable(s.tree, s'.tree, va, 2) && KeptBudget(s, s')
  }

  /** A panic may leave new empty tables behind, nothing else. */
  ghost predicate Harmless(s: Snap, s': Snap) {
    Extends(s.mem, s.tree, s'.mem, s'.tree) && KeptBudget(s, s')
  }

  lemma HarmlessSame(s: Snap)
    requires Shape(s.tree)
    ensures Harmless(s, s)
  {
  }

  lemma BlockedRoot(s: Snap, va: Word)
    requires Shape(s.tree) && Blocked(s, va, 2)
    ensures !CanMap2m(s, va)
  {
  }

  class PageMapper {
    const frames: FrameAllocator
    var rootPa: int
    var tables: int
    ghost var tree: Tree

    ghost predicate Valid()
      reads this, frames
    {
      && frames.Valid()
      && WellFormed(frames.mem, tree)
      && rootPa == 4096 * tree.root
      && TreeFrames(tree) <= frames.outstanding
      && tables == TableCount(tree)
    }

    constructor (allocator: FrameAllocator)
      ensures frames == allocator && rootPa == 0 && tables == 0
    {
      frames, rootPa, tables := allocator, 0, 0;
    }

    /** `build` starts by allocating the root: an empty tree, all holes. */
    method AllocRoot() returns (r: Outcome<()>)
      requires frames.Valid() && tables == 0
      modifies this, frames
      ensures r.Panic? <==> old(frames.frozen) || old(frames.FreeCount()) == 0
      ensures r.Done? ==>
                && Valid() && tree.l1 == map[] && tree.l0 == map[] && tables == 1
                && frames.FreeCount() == old(frames.FreeCount()) - 1 && !frames.frozen
                && frames.lo == old(frames.lo) && rootPa == old(frames.NextFrame())
    {
      hide PoolOk, Zeroed, WellFormed, TreeFrames, TableCount;
      var pa;
      ghost var f;
      pa, f := frames.AllocFrame();
      if pa.Panic? {
        return Panic;
      }
      rootPa := pa.value;
      tables := tables + 1;
      tree := Tree(f, map[], map[]);
      EmptyTree(old(frames.mem), f);
      r := Done(());
    }

    /** The missing-intermediate branch: allocate a zeroed table and store the
        pointer to it. */
    method Link(ghost g: int, table: int, va: Word, level: int) returns (r: Outcome<int>, ghost f: int)
      requires Valid() && 1 <= level <= 2 && IsTableOf(tree, va, level, g) && table == 4096 * g
      requires HitAt(frames.mem, tree, va) == Miss(level)
      modifies this, frames
      ensures Valid()
      ensures r.Panic? <==> old(frames.frozen) || old(frames.FreeCount()) == 0
      ensures r.Panic? ==> unchanged(this) && unchanged(frames)
      ensures r.Done? ==>
                && r.value == 4096 * f && IsTableOf(tree, va, level - 1, f) && ChildTable(old(tree), tree, va, level)
                && HitAt(frames.mem, tree, va) == Miss(level - 1) && tables == old(tables) + 1
                && frames.FreeCount() == old(frames.FreeCount()) - 1 && !frames.frozen
                && frames.lo == old(frames.lo) && tree.root == old(tree.root)
                && Extends(old(frames.mem), old(tree), frames.mem, tree)
    {
      hide PoolOk, Vpn, Entry, Zeroed, Pointer, EncodeLeaf, IsLeaf, Lookup, Slots, TreeFrames, TableCount, ChildTable, IsTableOf, WithChild;
      assert g in TreeFrames(tree) && IsFrame(g) by { TableIsInTree(tree, va, level, g); }
      r, f := frames.AllocFrame();
      if r.Done? {
        tables := tables + 1;
        PointerEncoding(f);
        LinkedByStores(old(frames.mem), g, Vpn(va, level), f);
        frames.Store(g, table, Vpn(va, level), EncodeLeaf(r.value, NONLEAF));
        LinkTable(old(frames.mem), frames.mem, tree, va, level, g, f);
        ChildCount(tree, va, level, f);
        ChildPlace(tree, va, level, f);
        tree := WithChild(tree, va, level, f);
      }
    }

    ghost function Snapshot(): Snap
      reads this, frames
    {
      Snap(frames.mem, tree, tables, frames.FreeCount(), frames.frozen, frames.lo)
    }

    /** One turn of the loop over the upper levels in `map`. */
    method Descend(ghost g: int, table: int, va: Word, level: int) returns (r: Outcome<int>, ghost f: int)
      requires Valid() && 1 <= level <= 2 && IsTableOf(tree, va, level, g) && table == 4096 * g
      modifies this, frames
      ensures Valid()
      ensures r.Panic? <==> Blocked(old(Snapshot()), va, level)
      ensures r.Panic? ==> Snapshot() == old(Snapshot())
      ensures r.Done? ==> r.value == 4096 * f && Descended(old(Snapshot()), Snapshot(), va, level, f)
    {
      hide PoolOk, Vpn, Entry, Lookup, Slots, NoAccess, Extends, ChildTable, IsTableOf, TreeFrames, TableCount;
      SameExtends(frames.mem, tree);
      ReadSlot(frames.mem, tree, va, level, g);
      f := SlotCases(frames.mem, tree, va, level, g);
      var raw := frames.mem[table / 8 + Vpn(va, level)];
      if raw == 0 {
        r, f := Link(g, table, va, level);
      } else if !NoAccess(raw) {
        r := Panic;
      } else if raw % 2 == 0 {
        r := Panic;
      } else {
        ExistingChild(tree, va, level, f);
        r := Done(raw / 1024 * 4096);
      }
    }

    /** The loop over the upper levels in `map`, creating missing tables. */
    method FindL0(va: Word) returns (r: Outcome<int>, ghost g: int)
      requires Valid()
      modifies this, frames
      ensures Valid()
      ensures r.Panic? ==> !CanMap(old(Snapshot()), va) && Harmless(old(Snapshot()), Snapshot())
      ensures r.Done? ==> r.value == 4096 * g && Reached(old(Snapshot()), Snapshot(), va, 0, g)
    {
      hide PoolOk, Vpn, Lookup, Slots, Extends, ChildTable, TreeFrames, TableCount, Descended, PathTables;
      var table, level := rootPa, 2;
      g := tree.root;
      ReachedRoot(Snapshot(), va);
      while level >= 1
        invariant 0 <= level <= 2 && Valid() && table == 4096 * g
        invariant Reached(old(Snapshot()), Snapshot(), va, level, g)
      {
        ghost var s := Snapshot();
        var next;
        ghost var f;
        next, f := Descend(g, table, va, level);
        if next.Panic? {
          BlockedMeans(old(Snapshot()), s, va, level, g);
          return Panic, g;
        }
        ReachedNext(old(Snapshot()), s, Snapshot(), va, level, g, f);
        table, g, level := next.value, f, level - 1;
      }
      r := Done(table);
    }

    /** `map`: it succeeds exactly when the walk of `va` falls into a hole and
        one frame is free for each missing level; then that page alone changes. */
    method Map(va: Word, pa: int, flags: Word) returns (r: Outcome<()>)
      requires Valid() && 0 <= pa < 0x100_0000_0000_0000 && flags < 1024 && PteV(flags)
      modifies this, frames
      ensures Valid()
      ensures r.Done? <==> va % 4096 == 0 && pa % 4096 == 0 && Accepts(flags) && CanMap(old(Snapshot()), va)
      ensures r.Done? ==> PageAdded(old(Snapshot()), Snapshot(), va, EncodeLeaf(pa, flags))
      ensures r.Panic? ==> Harmless(old(Snapshot()), Snapshot())
    {
      hide Accepts, CanMap, CanMap2m, PageAdded, MegaAdded, Harmless, Blocked, Reached, Descended, Slots, Shape, Frame.PoolOk, TreeFrames, TableCount, EncodeLeaf, PteV;
      HarmlessSame(Snapshot());
      if va % 4096 != 0 || pa % 4096 != 0 || !Accepts(flags) {
        r := Panic;
      } else {
        var table;
        ghost var g;
        table, g := FindL0(va);
        if table.Panic? {
          r := Panic;
        } else {
          r := SetLeaf(old(Snapshot()), g, table.value, va, pa, flags);
        }
      }
    }

    /** The last step of `map`: the level-0 slot must be empty. */
    method SetLeaf(ghost s0: Snap, ghost g: int, table: int, va: Word, pa: int, flags: Word) returns (r: Outcome<()>)
      requires Valid() && Reached(s0, Snapshot(), va, 0, g) && table == 4096 * g
      requires 0 <= pa < 0x100_0000_0000_0000 && pa % 4096 == 0
      requires flags < 1024 && PteV(flags) && Accepts(flags)
      modifies frames`mem
      ensures Valid()
      ensures r.Done? <==> CanMap(s0, va)
      ensures r.Done? ==> PageAdded(s0, Snapshot(), va, EncodeLeaf(pa, flags))
      ensures r.Panic? ==> Harmless(s0, Snapshot())
    {
      hide PoolOk, Vpn, Entry, Lookup, Slots, EncodeLeaf, TreeFrames, TableCount, IsLeaf, PteV, NoAccess, WriteOnly, Extends, PageMapped;
      TableIsInTree(tree, va, 0, g);
      LastSlot(frames.mem, tree, va, g);
      LeafDecodes(pa, flags);
      LeafInHole(s0.mem, s0.tree, frames.mem, tree, va, g, EncodeLeaf(pa, flags));
      var raw := frames.mem[table / 8 + Vpn(va, 0)];
      if raw != 0 {
        r := Panic;
      } else {
        frames.Store(g, table, Vpn(va, 0), EncodeLeaf(pa, flags));
        r := Done(());
      }
    }

    /** `map_2m`: like `map`, but the level-1 slot itself must be empty, so even
        an empty level-0 table under it is a remap. */
    method Map2m(va: Word, pa: int, flags: Word) returns (r: Outcome<()>)
      requires Valid() && 0 <= pa < 0x100_0000_0000_0000 && flags < 1024 && PteV(flags)
      modifies this, frames
      ensures Valid()
      ensures r.Done? <==> va % 0x20_0000 == 0 && va == pa && Accepts(flags) && CanMap2m(old(Snapshot()), va)
      ensures r.Done? ==> MegaAdded(old(Snapshot()), Snapshot(), va, EncodeLeaf(pa, flags))
      ensures r.Panic? ==> Harmless(old(Snapshot()), Snapshot())
    {
      hide Accepts, CanMap, CanMap2m, PageAdded, MegaAdded, Harmless, Blocked, Reached, Descended, Slots, Shape, Frame.PoolOk, TreeFrames, TableCount, EncodeLeaf, PteV;
      HarmlessSame(Snapshot());
      if va % 0x20_0000 != 0 || pa % 0x20_0000 != 0 || va != pa || !Accepts(flags) {
        r := Panic;
      } else {
        var l1;
        ghost var g;
        l1, g := Descend(tree.root, rootPa, va, 2);
        if l1.Panic? {
          BlockedRoot(old(Snapshot()), va);
          r := Panic;
        } else {
          r := SetMegaLeaf(old(Snapshot()), g, l1.value, va, pa, flags);
        }
      }
    }

    /** The last step of `map_2m`. */
    method SetMegaLeaf(ghost s0: Snap, ghost g: int, table: int, va: Word, pa: int, flags: Word) returns (r: Outcome<()>)
      requires Valid() && Descended(s0, Snapshot(), va, 2, g) && table == 4096 * g
      requires 0 <= pa < 0x100_0000_0000_0000 && pa % 0x20_0000 == 0
      requires flags < 1024 && PteV(flags) && Accepts(flags)
      modifies frames`mem
      ensures Valid()
      ensures r.Done? <==> CanMap2m(s0, va)
      ensures r.Done? ==> MegaAdded(s0, Snapshot(), va, EncodeLeaf(pa, flags))
      ensures r.Panic? ==> Harmless(s0, Snapshot())
    {
      hide PoolOk, Vpn, Entry, Lookup, Slots, EncodeLeaf, TreeFrames, TableCount, IsLeaf, PteV, NoAccess, WriteOnly, Extends, MegaMapped;
      TableIsInTree(tree, va, 1, g);
      MegaSlot(frames.mem, tree, va, g);
      var raw := frames.mem[table / 8 + Vpn(va, 1)];
      if raw != 0 {
        r := Panic;
      } else {
        MegaLeafDecodes(pa, flags);
        MegaInHole(s0.mem, s0.tree, frames.mem, tree, va, g, EncodeLeaf(pa, flags));
        frames.Store(g, table, Vpn(va, 1), EncodeLeaf(pa, flags));
        r := Done(());
      }
    }
  }
}
