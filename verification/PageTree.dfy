/** The pointer tree of tables in memory, and the three stores the mapper
    makes into it: link a fresh table, write a 4 KiB leaf, write a 2 MiB leaf. */
module PageTree {
  import opened Ram
  import opened Pte

  /** The frame of each table, by the index path that reaches it: the root,
      level-1 tables by VPN[2], level-0 tables by VPN[2] and VPN[1]. */
  datatype Tree = Tree(root: int, l1: map<int, int>, l0: map<(int, int), int>)

  /** The three table indices of one page. */
  datatype Path = Path(i2: int, i1: int, i0: int)

  predicate InTable(i: int) { 0 <= i < 512 }

  ghost predicate Indices(p: Path) {
    InTable(p.i2) && InTable(p.i1) && InTable(p.i0)
  }

  predicate IsFrame(f: int) { 0 < f < RAM_FRAMES }

  ghost predicate Shape(t: Tree) {
    && IsFrame(t.root)
    && (forall i | i in t.l1 :: InTable(i) && IsFrame(t.l1[i]) && t.l1[i] != t.root)
    && (forall k | k in t.l0 :: InTable(k.1) && k.0 in t.l1 && IsFrame(t.l0[k]) && t.l0[k] != t.root)
    // each table is reached from exactly one slot
    && (forall i, j | i in t.l1 && j in t.l1 :: t.l1[i] == t.l1[j] ==> i == j)
    && (forall k, l | k in t.l0 && l in t.l0 :: t.l0[k] == t.l0[l] ==> k == l)
    && (forall i, k | i in t.l1 && k in t.l0 :: t.l1[i] != t.l0[k])
  }

  predicate MegaOrZero(e: Word) { e == 0 || (IsLeaf(e) && e / 1024 % 512 == 0) }

  predicate PageOrZero(e: Word) { e == 0 || IsLeaf(e) }

  /** Every slot of every table holds what the tree says: a pointer to the
      child, nothing, or a leaf legal at that level. */
  ghost predicate Slots(mem: Mem, t: Tree)
    requires Shape(t)
  {
    && (forall i | InTable(i) :: Entry(mem, t.root, i) == if i in t.l1 then Pointer(t.l1[i]) else 0)
    && (forall i, j | i in t.l1 && InTable(j) ::
          if (i, j) in t.l0 then Entry(mem, t.l1[i], j) == Pointer(t.l0[(i, j)])
          else MegaOrZero(Entry(mem, t.l1[i], j)))
    && (forall k, j | k in t.l0 && InTable(j) :: PageOrZero(Entry(mem, t.l0[k], j)))
  }

  ghost predicate WellFormed(mem: Mem, t: Tree) {
    Shape(t) && Slots(mem, t)
  }

  /** What a lookup finds: a leaf at a level, or a hole first seen at a level. */
  datatype Hit = Miss(level: int) | Leaf(raw: Word, level: int)

  ghost function Lookup(mem: Mem, t: Tree, p: Path): (h: Hit)
    requires Shape(t) && Indices(p)
    ensures 0 <= h.level <= 2 && (h.Leaf? ==> h.level <= 1)
  {
    if p.i2 !in t.l1 then Miss(2)
    else if (p.i2, p.i1) !in t.l0 then
      var e := Entry(mem, t.l1[p.i2], p.i1);
      if e == 0 then Miss(1) else Leaf(e, 1)
    else
      var e := Entry(mem, t.l0[(p.i2, p.i1)], p.i0);
      if e == 0 then Miss(0) else Leaf(e, 0)
  }

  // --- reads over writes -----------------------------------------------------

  lemma EntryOfStore(mem: Mem, f: int, i: int, v: Word)
    requires IsFrame(f) && InTable(i)
    ensures forall g, j | IsFrame(g) && InTable(j) ::
              Entry(mem[512 * f + i := v], g, j) == if g == f && j == i then v else Entry(mem, g, j)
  {
  }

  lemma EntryOfZeroed(mem: Mem, f: int)
    requires IsFrame(f)
    ensures forall g, j | IsFrame(g) && InTable(j) ::
              Entry(Zeroed(mem, 4096 * f), g, j) == if g == f then 0 else Entry(mem, g, j)
  {
  }

  ghost predicate FreshFrame(t: Tree, f: int) {
    && IsFrame(f) && f != t.root
    && (forall i | i in t.l1 :: t.l1[i] != f)
    && (forall k | k in t.l0 :: t.l0[k] != f)
  }

  /** Leaves survive; a hole stays a hole, at the same level or deeper. */
  predicate SameHit(h: Hit, h': Hit) {
    if h.Leaf? then h' == h else h'.Miss? && h'.level <= h.level
  }

  /** Memory after linking the zeroed frame `f` into slot `i` of table `g`. */
  ghost predicate Linked(mem: Mem, mem': Mem, g: int, i: int, f: int)
    requires IsFrame(f)
  {
    forall h, j | IsFrame(h) && InTable(j) ::
      Entry(mem', h, j) ==
      if h == g && j == i then Pointer(f) else if h == f then 0 else Entry(mem, h, j)
  }

  lemma LinkedByStores(mem: Mem, g: int, i: int, f: int)
    requires IsFrame(g) && IsFrame(f) && InTable(i)
    ensures Linked(mem, Zeroed(mem, 4096 * f)[512 * g + i := Pointer(f)], g, i, f)
  {
    hide Entry, Zeroed, Pointer;
    EntryOfZeroed(mem, f);
    EntryOfStore(Zeroed(mem, 4096 * f), g, i, Pointer(f));
  }

  lemma LinkL1Shape(t: Tree, i2: int, f: int)
    requires Shape(t) && InTable(i2) && i2 !in t.l1 && FreshFrame(t, f)
    ensures Shape(t.(l1 := t.l1[i2 := f]))
  {
  }

  lemma LinkL0Shape(t: Tree, i2: int, i1: int, f: int)
    requires Shape(t) && InTable(i1) && i2 in t.l1 && (i2, i1) !in t.l0 && FreshFrame(t, f)
    ensures Shape(t.(l0 := t.l0[(i2, i1) := f]))
  {
  }

  /** A fresh level-1 table in an empty root slot. */
  lemma LinkL1(mem: Mem, mem': Mem, t: Tree, i2: int, f: int)
    requires WellFormed(mem, t) && InTable(i2) && i2 !in t.l1 && FreshFrame(t, f)
    requires Linked(mem, mem', t.root, i2, f)
    ensures WellFormed(mem', t.(l1 := t.l1[i2 := f]))
  {
    hide Entry, IsLeaf, Pointer;
    LinkL1Shape(t, i2, f);
  }

  lemma LinkL1Keeps(mem: Mem, mem': Mem, t: Tree, i2: int, f: int, p: Path)
    requires WellFormed(mem, t) && InTable(i2) && i2 !in t.l1 && FreshFrame(t, f)
    requires Linked(mem, mem', t.root, i2, f)
    requires Shape(t.(l1 := t.l1[i2 := f])) && Indices(p)
    ensures SameHit(Lookup(mem, t, p), Lookup(mem', t.(l1 := t.l1[i2 := f]), p))
  {
    hide Entry, IsLeaf, Pointer;
  }

  /** A fresh level-0 table in an empty level-1 slot. */
  lemma LinkL0(mem: Mem, mem': Mem, t: Tree, i2: int, i1: int, f: int)
    requires WellFormed(mem, t) && InTable(i1) && i2 in t.l1 && (i2, i1) !in t.l0 && FreshFrame(t, f)
    requires Entry(mem, t.l1[i2], i1) == 0 && Linked(mem, mem', t.l1[i2], i1, f)
    ensures WellFormed(mem', t.(l0 := t.l0[(i2, i1) := f]))
  {
    hide Entry, IsLeaf, Pointer;
    LinkL0Shape(t, i2, i1, f);
  }

  lemma LinkL0Keeps(mem: Mem, mem': Mem, t: Tree, i2: int, i1: int, f: int, p: Path)
    requires WellFormed(mem, t) && InTable(i1) && i2 in t.l1 && (i2, i1) !in t.l0 && FreshFrame(t, f)
    requires Entry(mem, t.l1[i2], i1) == 0 && Linked(mem, mem', t.l1[i2], i1, f)
    requires Shape(t.(l0 := t.l0[(i2, i1) := f])) && Indices(p)
    ensures SameHit(Lookup(mem, t, p), Lookup(mem', t.(l0 := t.l0[(i2, i1) := f]), p))
  {
    hide Entry, IsLeaf, Pointer;
  }

  /** A store of `e` into slot `i` of table `g` and nowhere else. */
  ghost predicate Stored(mem: Mem, mem': Mem, g: int, i: int, e: Word) {
    forall h, j | IsFrame(h) && InTable(j) ::
      Entry(mem', h, j) == if h == g && j == i then e else Entry(mem, h, j)
  }

  /** A 4 KiB leaf in an empty level-0 slot: that page resolves to it, every
      other page resolves as before. */
  lemma SetPage(mem: Mem, mem': Mem, t: Tree, p: Path, e: Word)
    requires WellFormed(mem, t) && Indices(p) && (p.i2, p.i1) in t.l0 && IsLeaf(e) && e != 0
    requires Stored(mem, mem', t.l0[(p.i2, p.i1)], p.i0, e)
    ensures WellFormed(mem', t)
    ensures forall q | Indices(q) :: Lookup(mem', t, q) == if q == p then Leaf(e, 0) else Lookup(mem, t, q)
  {
    hide Entry, IsLeaf, Pointer;
  }

  /** A 2 MiB leaf in an empty level-1 slot covers all 512 pages of the slot. */
  lemma SetMega(mem: Mem, mem': Mem, t: Tree, i2: int, i1: int, e: Word)
    requires WellFormed(mem, t) && i2 in t.l1 && InTable(i1) && (i2, i1) !in t.l0
    requires MegaOrZero(e) && e != 0
    requires Stored(mem, mem', t.l1[i2], i1, e)
    ensures WellFormed(mem', t)
    ensures forall q | Indices(q) ::
              Lookup(mem', t, q) == if q.i2 == i2 && q.i1 == i1 then Leaf(e, 1) else Lookup(mem, t, q)
  {
    hide Entry, IsLeaf, Pointer, MegaOrZero;
  }
}
