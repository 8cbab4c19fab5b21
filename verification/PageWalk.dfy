/** The independent walker agrees with the tree, address by address. */
module PageWalk {
  import opened Ram
  import opened Pte
  import opened PageTree

  function PathOf(va: Word): (p: Path)
    ensures Indices(p)
  {
    Path(Vpn(va, 2), Vpn(va, 1), Vpn(va, 0))
  }

  /** The walk result a tree lookup stands for. */
  function Translate(h: Hit, va: Word): WalkResult
    requires 0 <= h.level <= 2
  {
    match h
    case Miss(level) => Unmapped(level, 0)
    case Leaf(raw, level) => Mapped(PtePpn(raw) * 4096 + va % LeafBytes(level), raw, level)
  }

  lemma StepPointer(mem: Mem, ppn: int, va: Word, level: int, f: int)
    requires IsFrame(ppn) && 1 <= level <= 2 && IsFrame(f)
    requires Entry(mem, ppn, Vpn(va, level)) == Pointer(f)
    ensures WalkFrom(mem, ppn, va, level) == WalkFrom(mem, f, va, level - 1)
  {
    hide Pointer, PteV, PteR, PteW, PteX, PteU, PteG, PteA, PteD, PtePpn;
    PointerDecodes(f);
  }

  lemma StepZero(mem: Mem, ppn: int, va: Word, level: int)
    requires IsFrame(ppn) && 0 <= level <= 2
    requires Entry(mem, ppn, Vpn(va, level)) == 0
    ensures WalkFrom(mem, ppn, va, level) == Unmapped(level, 0)
  {
  }

  lemma StepLeaf(mem: Mem, ppn: int, va: Word, level: int)
    requires IsFrame(ppn) && 0 <= level <= 1
    requires var e := Entry(mem, ppn, Vpn(va, level));
             IsLeaf(e) && e != 0 && (level == 1 ==> e / 1024 % 512 == 0)
    ensures var e := Entry(mem, ppn, Vpn(va, level));
            WalkFrom(mem, ppn, va, level) == Mapped(PtePpn(e) * 4096 + va % LeafBytes(level), e, level)
  {
    hide PteV, PteR, PteW, PteX, PteU, PteG, PteA, PteD, PtePpn;
    var e := Entry(mem, ppn, Vpn(va, level));
    LeafPpn(e);
  }

  /** On a well-formed tree the walker never panics, and finds exactly what
      the tree holds for the address. */
  lemma WalkIsLookup(mem: Mem, t: Tree, va: Word)
    requires WellFormed(mem, t) && Canonical(va)
    ensures Walk(mem, 4096 * t.root, va) == Translate(Lookup(mem, t, PathOf(va)), va)
  {
    hide Entry, Pointer, IsLeaf, WalkFrom, Vpn, PtePpn;
    var p := PathOf(va);
    assert 4096 * t.root / 4096 == t.root;
    if p.i2 !in t.l1 {
      StepZero(mem, t.root, va, 2);
    } else {
      var a := t.l1[p.i2];
      StepPointer(mem, t.root, va, 2, a);
      if (p.i2, p.i1) in t.l0 {
        var b := t.l0[(p.i2, p.i1)];
        StepPointer(mem, a, va, 1, b);
        if Entry(mem, b, p.i0) == 0 {
          StepZero(mem, b, va, 0);
        } else {
          StepLeaf(mem, b, va, 0);
        }
      } else if Entry(mem, a, p.i1) == 0 {
        StepZero(mem, a, va, 1);
      } else {
        StepLeaf(mem, a, va, 1);
      }
    }
  }

  lemma SplitMega(va: Word)
    ensures va / 0x20_0000 == 512 * (va / 0x4000_0000) + Vpn(va, 1)
  {
    assert va / 0x20_0000 / 512 == va / 0x4000_0000;
  }

  lemma SplitPage(va: Word)
    ensures va / 4096 == 512 * (va / 0x20_0000) + Vpn(va, 0)
  {
    assert va / 4096 / 512 == va / 0x20_0000;
  }

  /** The top index of a canonical address fixes the gigabyte. */
  lemma TopIndex(va: Word)
    requires Canonical(va)
    ensures var g := va / 0x4000_0000;
            if g < 256 then Vpn(va, 2) == g else g == 0x3_FFFF_FE00 + Vpn(va, 2) && Vpn(va, 2) >= 256
  {
    var g := va / 0x4000_0000;
    assert va < 0x40_0000_0000 ==> g < 256;
    assert va >= 0xFFFF_FFC0_0000_0000 ==> 0x3_FFFF_FF00 <= g < 0x4_0000_0000;
  }

  /** Canonical addresses share the two upper indices exactly within a 2 MiB slot. */
  lemma SameMega(x: Word, y: Word)
    requires Canonical(x) && Canonical(y)
    ensures Vpn(x, 2) == Vpn(y, 2) && Vpn(x, 1) == Vpn(y, 1) <==> x / 0x20_0000 == y / 0x20_0000
  {
    hide Vpn;
    TopIndex(x);
    TopIndex(y);
    SplitMega(x);
    SplitMega(y);
    var gx, gy, mx, my := x / 0x4000_0000, y / 0x4000_0000, x / 0x20_0000, y / 0x20_0000;
    var ix, iy := Vpn(x, 1), Vpn(y, 1);
    assert mx == 512 * gx + ix && my == 512 * gy + iy;
  }

  /** They share all three indices exactly within a page. */
  lemma SamePage(x: Word, y: Word)
    requires Canonical(x) && Canonical(y)
    ensures PathOf(x) == PathOf(y) <==> x / 4096 == y / 4096
  {
    hide Vpn;
    SameMega(x, y);
    SplitPage(x);
    SplitPage(y);
    var mx, my, nx, ny := x / 0x20_0000, y / 0x20_0000, x / 4096, y / 4096;
    var ix, iy := Vpn(x, 0), Vpn(y, 0);
    assert nx == 512 * mx + ix && ny == 512 * my + iy;
  }
}
