/** Sv39 page-table entries and the software walker (src/page.rs). The mapper
    and the walker decode entries and split addresses independently: the
    mapper masks flag groups and shifts, the walker tests bit by bit. */
module Pte {
  import opened Ram

  // --- mapper side ---------------------------------------------------------

  const LEAF_RX: Word := 1 + 2 + 8 + 64 + 128
  const LEAF_R: Word := 1 + 2 + 64 + 128
  const LEAF_RW: Word := 1 + 2 + 4 + 64 + 128
  const LEAF_URX: Word := LEAF_RX + 16
  const LEAF_UR: Word := LEAF_R + 16
  const LEAF_URW: Word := LEAF_RW + 16
  const NONLEAF: Word := 1

  /** `vpn(va, level)`. */
  function Vpn(va: Word, level: int): (r: int)
    requires 0 <= level <= 2
    ensures 0 <= r < 512
  {
    (if level == 0 then va / 4096 else if level == 1 then va / 0x20_0000 else va / 0x4000_0000) % 512
  }

  /** `(pa >> 12 << 10) | flags`; the flag field is the ten low bits. */
  function EncodeLeaf(pa: int, flags: Word): (r: Word)
    requires 0 <= pa < 0x100_0000_0000_0000 && flags < 1024
  {
    pa / 4096 * 1024 + flags
  }

  /** `flags & (R | W | X) == 0`. */
  predicate NoAccess(flags: Word) {
    flags / 2 % 8 == 0
  }

  /** `flags & W != 0 && flags & R == 0`. */
  predicate WriteOnly(flags: Word) {
    flags / 4 % 2 == 1 && flags / 2 % 2 == 0
  }

  // --- walker side ---------------------------------------------------------

  predicate PteV(raw: Word) { raw % 2 == 1 }
  predicate PteR(raw: Word) { raw / 2 % 2 == 1 }
  predicate PteW(raw: Word) { raw / 4 % 2 == 1 }
  predicate PteX(raw: Word) { raw / 8 % 2 == 1 }
  predicate PteU(raw: Word) { raw / 16 % 2 == 1 }
  predicate PteG(raw: Word) { raw / 32 % 2 == 1 }
  predicate PteA(raw: Word) { raw / 64 % 2 == 1 }
  predicate PteD(raw: Word) { raw / 128 % 2 == 1 }

  function PtePpn(raw: Word): int {
    raw / 1024 % 0x1000_0000_0000
  }

  function LeafBytes(level: int): int
    requires 0 <= level <= 2
  {
    if level == 0 then 4096 else if level == 1 then 0x20_0000 else 0x4000_0000
  }

  /** Bits 63..39 of the address equal bit 38. */
  predicate Canonical(va: Word) {
    va < 0x40_0000_0000 || va >= 0xFFFF_FFC0_0000_0000
  }

  datatype WalkResult =
    | Unmapped(level: int, raw: Word)
    | Mapped(pa: int, raw: Word, level: int)
    | Bad  // a walk panic, or a table outside RAM

  /** Entry `i` of the table in frame `ppn`. */
  function Entry(mem: Mem, ppn: int, i: int): Word
    requires 0 <= ppn < RAM_FRAMES && 0 <= i < 512
  {
    mem[512 * ppn + i]
  }

  /** One level of `walk`, with the table in frame `ppn`. */
  function WalkFrom(mem: Mem, ppn: int, va: Word, level: int): WalkResult
    requires 0 <= level <= 2
    decreases level
  {
    if !(0 <= ppn < RAM_FRAMES) then Bad else
    var idx := (if level == 2 then va / 0x4000_0000 else if level == 1 then va / 0x20_0000 else va / 0x1000) % 0x200;
    var raw := Entry(mem, ppn, idx);
    if !PteV(raw) then Unmapped(level, raw)
    else if PteR(raw) || PteW(raw) || PteX(raw) then
      if PteW(raw) && !PteR(raw) then Bad
      else if level == 2 then Bad
      else if level == 1 && PtePpn(raw) % 512 != 0 then Bad
      else Mapped(PtePpn(raw) * 4096 + va % LeafBytes(level), raw, level)
    else if PteU(raw) || PteG(raw) || PteA(raw) || PteD(raw) then Bad
    else if level == 0 then Bad
    else WalkFrom(mem, PtePpn(raw), va, level - 1)
  }

  function Walk(mem: Mem, root: int, va: Word): WalkResult {
    if !Canonical(va) then Bad else WalkFrom(mem, root / 4096, va, 2)
  }

  predicate FlagsMatch(raw: Word, r: bool, w: bool, x: bool, u: bool) {
    PteV(raw) && PteR(raw) == r && PteW(raw) == w && PteX(raw) == x && PteU(raw) == u
    && !PteG(raw) && PteA(raw) && PteD(raw)
  }

  // --- where the two agree -------------------------------------------------

  /** An entry the walker takes for a leaf, at any level. */
  predicate IsLeaf(e: Word) {
    PteV(e) && (PteR(e) || PteX(e)) && (PteW(e) ==> PteR(e)) && e / 1024 < 0x1000_0000_0000
  }

  function Pointer(f: int): (e: Word)
    requires 0 <= f < RAM_FRAMES
  {
    1024 * f + 1
  }

  lemma BitR(p: int, flags: Word)
    requires 0 <= p < 0x1000_0000_0000 && flags < 1024
    ensures PteR(p * 1024 + flags) == PteR(flags)
  {
    SplitAt2(p, flags, flags / 2, flags % 2);
    EvenPart(256 * p, flags / 2);
  }

  lemma SplitAt2(p: int, flags: int, q: int, r: int)
    requires flags == 2 * q + r && 0 <= r < 2
    ensures (p * 1024 + flags) / 2 == 2 * (256 * p) + q
  {
  }

  lemma BitW(p: int, flags: Word)
    requires 0 <= p < 0x1000_0000_0000 && flags < 1024
    ensures PteW(p * 1024 + flags) == PteW(flags)
  {
    SplitAt4(p, flags, flags / 4, flags % 4);
    EvenPart(128 * p, flags / 4);
  }

  lemma SplitAt4(p: int, flags: int, q: int, r: int)
    requires flags == 4 * q + r && 0 <= r < 4
    ensures (p * 1024 + flags) / 4 == 2 * (128 * p) + q
  {
  }

  lemma BitX(p: int, flags: Word)
    requires 0 <= p < 0x1000_0000_0000 && flags < 1024
    ensures PteX(p * 1024 + flags) == PteX(flags)
  {
    SplitAt8(p, flags, flags / 8, flags % 8);
    EvenPart(64 * p, flags / 8);
  }

  lemma SplitAt8(p: int, flags: int, q: int, r: int)
    requires flags == 8 * q + r && 0 <= r < 8
    ensures (p * 1024 + flags) / 8 == 2 * (64 * p) + q
  {
  }

  lemma BitU(p: int, flags: Word)
    requires 0 <= p < 0x1000_0000_0000 && flags < 1024
    ensures PteU(p * 1024 + flags) == PteU(flags)
  {
    SplitAt16(p, flags, flags / 16, flags % 16);
    EvenPart(32 * p, flags / 16);
  }

  lemma SplitAt16(p: int, flags: int, q: int, r: int)
    requires flags == 16 * q + r && 0 <= r < 16
    ensures (p * 1024 + flags) / 16 == 2 * (32 * p) + q
  {
  }

  lemma BitG(p: int, flags: Word)
    requires 0 <= p < 0x1000_0000_0000 && flags < 1024
    ensures PteG(p * 1024 + flags) == PteG(flags)
  {
    SplitAt32(p, flags, flags / 32, flags % 32);
    EvenPart(16 * p, flags / 32);
  }

  lemma SplitAt32(p: int, flags: int, q: int, r: int)
    requires flags == 32 * q + r && 0 <= r < 32
    ensures (p * 1024 + flags) / 32 == 2 * (16 * p) + q
  {
  }

  lemma BitA(p: int, flags: Word)
    requires 0 <= p < 0x1000_0000_0000 && flags < 1024
    ensures PteA(p * 1024 + flags) == PteA(flags)
  {
    SplitAt64(p, flags, flags / 64, flags % 64);
    EvenPart(8 * p, flags / 64);
  }

  lemma SplitAt64(p: int, flags: int, q: int, r: int)
    requires flags == 64 * q + r && 0 <= r < 64
    ensures (p * 1024 + flags) / 64 == 2 * (8 * p) + q
  {
  }

  lemma EvenPart(a: int, b: int)
    ensures (2 * a + b) % 2 == b % 2
  {
  }

  lemma BitD(p: int, flags: Word)
    requires 0 <= p < 0x1000_0000_0000 && flags < 1024
    ensures PteD(p * 1024 + flags) == PteD(flags)
  {
    SplitAt128(p, flags, flags / 128, flags % 128);
    EvenPart(4 * p, flags / 128);
  }

  lemma SplitAt128(p: int, flags: int, q: int, r: int)
    requires flags == 128 * q + r && 0 <= r < 128
    ensures (p * 1024 + flags) / 128 == 2 * (4 * p) + q
  {
  }

  lemma BitV(p: int, flags: Word)
    requires 0 <= p < 0x1000_0000_0000 && flags < 1024
    ensures PteV(p * 1024 + flags) == PteV(flags) && PtePpn(p * 1024 + flags) == p
  {
    EvenPart(512 * p, flags);
    PpnPart(p, flags);
  }

  lemma PpnPart(p: int, flags: int)
    requires 0 <= flags < 1024
    ensures (p * 1024 + flags) / 1024 == p
  {
  }

  lemma LeafPpn(e: Word)
    requires IsLeaf(e)
    ensures PtePpn(e) == e / 1024
  {
  }

  /** The walker's bit tests on an entry see exactly its ten flag bits. */
  lemma BitsOfEntry(p: int, flags: Word)
    requires 0 <= p < 0x1000_0000_0000 && flags < 1024
    ensures var e := p * 1024 + flags;
            && PtePpn(e) == p
            && PteV(e) == PteV(flags) && PteR(e) == PteR(flags) && PteW(e) == PteW(flags)
            && PteX(e) == PteX(flags) && PteU(e) == PteU(flags) && PteG(e) == PteG(flags)
            && PteA(e) == PteA(flags) && PteD(e) == PteD(flags)
  {
    hide *;
    BitV(p, flags);
    BitR(p, flags);
    BitW(p, flags);
    BitX(p, flags);
    BitU(p, flags);
    BitG(p, flags);
    BitA(p, flags);
    BitD(p, flags);
  }

  /** The mapper's group test is the walker's three single-bit tests. */
  lemma AccessGroup(flags: Word)
    ensures NoAccess(flags) <==> !PteR(flags) && !PteW(flags) && !PteX(flags)
  {
    Halves(flags);
    ThreeBits(flags / 2);
  }

  lemma Halves(x: int)
    ensures x / 4 == x / 2 / 2 && x / 8 == x / 2 / 4
  {
  }

  lemma ThreeBits(q: int)
    ensures q % 8 == 0 <==> q % 2 == 0 && q / 2 % 2 == 0 && q / 4 % 2 == 0
  {
    var h, g := q / 8, q % 8;
    assert q == 8 * h + g;
    LowBits(h, g);
  }

  lemma LowBits(h: int, g: int)
    requires 0 <= g < 8
    ensures (8 * h + g) % 2 == g % 2 && (8 * h + g) / 2 == 4 * h + g / 2 && (8 * h + g) / 4 == 2 * h + g / 4
  {
  }

  lemma PointerDecodes(f: int)
    requires 0 <= f < RAM_FRAMES
    ensures var e := Pointer(f);
            && PteV(e) && !PteR(e) && !PteW(e) && !PteX(e) && !PteU(e) && !PteG(e) && !PteA(e) && !PteD(e)
            && PtePpn(e) == f && e / 1024 * 4096 == 4096 * f && NoAccess(e) && e % 2 == 1 && e != 0
  {
    BitsOfEntry(f, 1);
    AccessGroup(Pointer(f));
  }

  lemma LeafHasAccess(e: Word)
    requires IsLeaf(e)
    ensures !NoAccess(e)
  {
    AccessGroup(e);
  }

  lemma PointerEncoding(f: int)
    requires 0 <= f < RAM_FRAMES
    ensures EncodeLeaf(4096 * f, NONLEAF) == Pointer(f)
  {
  }

  /** What the mapper encodes, the walker reads back as that leaf. */
  lemma LeafDecodes(pa: int, flags: Word)
    requires 0 <= pa < 0x100_0000_0000_0000 && pa % 4096 == 0
    requires flags < 1024 && PteV(flags) && !NoAccess(flags) && !WriteOnly(flags)
    ensures var e := EncodeLeaf(pa, flags);
            && IsLeaf(e) && e != 0 && PtePpn(e) * 4096 == pa
            && PteR(e) == PteR(flags) && PteW(e) == PteW(flags) && PteX(e) == PteX(flags)
            && PteU(e) == PteU(flags) && PteG(e) == PteG(flags) && PteA(e) == PteA(flags) && PteD(e) == PteD(flags)
  {
    BitsOfEntry(pa / 4096, flags);
    AccessGroup(flags);
  }
}
