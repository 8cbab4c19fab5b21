/** Trap entry and return (src/trap.rs): the assembly, instruction by instruction,
    on a hart with 31 registers, the trap CSRs and memory. */
module Trap {
  /** Doublewords by address. */
  type Memory = imap<int, int>

  function Load(m: Memory, a: int): int { if a in m then m[a] else 0 }

  function Store(m: Memory, a: int, v: int): Memory { m[a := v] }

  const FRAME_SIZE: int := 272
  const SP: nat := 2
  const GP: nat := 3
  const T0: nat := 5
  const A0: nat := 10

  /** `x[0]` is the hardwired zero. */
  datatype Machine = Machine(x: seq<int>, sscratch: int, sepc: int, sstatus: int, mem: Memory)

  predicate Shaped(m: Machine) { |m.x| == 32 }

  /** `sstatus.SPP`: whether the trap came from S. */
  predicate FromS(sstatus: int) { sstatus / 256 % 2 == 1 }

  /** What a trap frame holds. */
  datatype Context = Context(x: seq<int>, sepc: int, sstatus: int)

  ghost predicate FrameIs(mem: Memory, f: int, c: Context) {
    && |c.x| == 32
    && (forall r | 0 < r < 32 :: Load(mem, f + 8 * r) == c.x[r])
    && Load(mem, f + 256) == c.sepc && Load(mem, f + 264) == c.sstatus
  }

  /** Memory outside `[lo, hi)` is the same. */
  ghost predicate SameOutside(mem: Memory, mem': Memory, lo: int, hi: int) {
    forall a | a < lo || hi <= a :: Load(mem', a) == Load(mem, a)
  }

  /** Where the frame ends: the kernel stack top parked in `sscratch`, or the
      trapped stack pointer when there is none. */
  function Top(m: Machine): int
    requires Shaped(m)
  {
    if m.sscratch != 0 then m.sscratch else m.x[2]
  }

  /** The stack pointer the frame remembers. A user stack pointer of zero is taken
      for the S path, and the kernel stack top is remembered instead. */
  function SavedSp(m: Machine): int
    requires Shaped(m)
  {
    if m.sscratch != 0 && m.x[2] == 0 then m.sscratch else m.x[2]
  }

  function SavedContext(m: Machine): Context
    requires Shaped(m)
  {
    Context(m.x[2 := SavedSp(m)], m.sepc, m.sstatus)
  }

  /** What `__trap_entry` leaves for the handler. `kgp` is the kernel's `gp`. */
  ghost predicate Entered(m: Machine, m': Machine, kgp: int)
    requires Shaped(m) && Shaped(m')
  {
    var f := Top(m) - FRAME_SIZE;
    && FrameIs(m'.mem, f, SavedContext(m)) && SameOutside(m.mem, m'.mem, f, Top(m))
    && m'.x[2] == f && m'.x[10] == f && m'.sscratch == 0
    && m'.x[3] == (if m.sscratch != 0 && m.x[2] != 0 then kgp else m.x[3])
  }

  /** What `__trap_return` does with frame `f`: to U it parks the kernel stack top
      in `sscratch`, to S it pops the frame. */
  ghost predicate Returned(m: Machine, f: int, m': Machine)
    requires Shaped(m) && Shaped(m')
  {
    && m'.mem == m.mem
    && m'.sepc == Load(m.mem, f + 256) && m'.sstatus == Load(m.mem, f + 264)
    && (forall r | 0 < r < 32 && r != 2 :: m'.x[r] == Load(m.mem, f + 8 * r))
    && (if FromS(m'.sstatus) then m'.x[2] == f + FRAME_SIZE && m'.sscratch == m.sscratch
        else m'.x[2] == Load(m.mem, f + 16) && m'.sscratch == f + FRAME_SIZE)
  }

  // --- the assembly ---------------------------------------------------------------------

  /** The stores of the save block, in order: register and frame offset. */
  const SAVED: seq<(nat, int)> := [
    (1, 8), (3, 24), (4, 32), (5, 40), (6, 48), (7, 56), (8, 64), (9, 72), (10, 80), (11, 88),
    (12, 96), (13, 104), (14, 112), (15, 120), (16, 128), (17, 136), (18, 144), (19, 152), (20, 160), (21, 168),
    (22, 176), (23, 184), (24, 192), (25, 200), (26, 208), (27, 216), (28, 224), (29, 232), (30, 240), (31, 248)]

  /** The loads of the restore block; `t0` is scratch until the end. */
  const RESTORED: seq<(nat, int)> := [
    (1, 8), (3, 24), (4, 32), (6, 48), (7, 56), (8, 64), (9, 72), (10, 80), (11, 88),
    (12, 96), (13, 104), (14, 112), (15, 120), (16, 128), (17, 136), (18, 144), (19, 152), (20, 160), (21, 168),
    (22, 176), (23, 184), (24, 192), (25, 200), (26, 208), (27, 216), (28, 224), (29, 232), (30, 240), (31, 248)]

  function SavedReg(k: nat): (r: nat)
    ensures 0 < r && r != 2 && (k < 30 ==> r < 32)
  {
    if k == 0 then 1 else k + 2
  }

  function RestoredReg(k: nat): (r: nat)
    ensures 0 < r && r != 2 && r != 5 && (k < 29 ==> r < 32)
  {
    if k == 0 then 1 else if k < 3 then k + 2 else k + 3
  }

  /** The save table covers every register but the stack pointer, each at eight
      times its number. */
  lemma SavedTable(k: nat)
    requires k < 30
    ensures |SAVED| == 30 && SAVED[k] == (SavedReg(k), 8 * SavedReg(k))
  {
  }

  lemma RestoredTable(k: nat)
    requires k < 29
    ensures |RESTORED| == 29 && RESTORED[k] == (RestoredReg(k), 8 * RestoredReg(k))
  {
  }

  class Hart {
    var m: Machine
    const kgp: int

    constructor (m0: Machine, gp: int)
      ensures m == m0 && kgp == gp
    {
      m, kgp := m0, gp;
    }

    /** `csrrw sp, sscratch, sp` */
    method SwapScratch()
      requires Shaped(m)
      modifies this
      ensures m == old(m).(x := old(m).x[2 := old(m).sscratch], sscratch := old(m).x[2])
    {
      m := m.(x := m.x[2 := m.sscratch], sscratch := m.x[2]);
    }

    /** `sd rs, off(sp)` */
    method Sd(rs: nat, off: int)
      requires Shaped(m) && rs < 32
      modifies this
      ensures m == old(m).(mem := Store(old(m).mem, old(m).x[2] + off, old(m).x[rs]))
    {
      m := m.(mem := Store(m.mem, m.x[2] + off, m.x[rs]));
    }

    /** `ld rd, off(sp)` */
    method Ld(rd: nat, off: int)
      requires Shaped(m) && 0 < rd < 32
      modifies this
      ensures m == old(m).(x := old(m).x[rd := Load(old(m).mem, old(m).x[2] + off)])
    {
      m := m.(x := m.x[rd := Load(m.mem, m.x[2] + off)]);
    }

    /** A register set from an arithmetic instruction or a CSR read. */
    method Set(rd: nat, v: int)
      requires Shaped(m) && 0 < rd < 32
      modifies this
      ensures m == old(m).(x := old(m).x[rd := v])
    {
      m := m.(x := m.x[rd := v]);
    }

    method SaveAll()
      requires Shaped(m)
      modifies this
      ensures m == old(m).(mem := m.mem)
      ensures forall k | 0 <= k < 30 :: Load(m.mem, m.x[2] + 8 * SavedReg(k)) == m.x[SavedReg(k)]
      ensures SameOutside(old(m).mem, m.mem, m.x[2] + 8, m.x[2] + 256)
    {
      hide SAVED, SavedReg;
      SavedTable(0);
      for k := 0 to |SAVED|
        invariant m == old(m).(mem := m.mem)
        invariant forall j | 0 <= j < k :: Load(m.mem, m.x[2] + 8 * SavedReg(j)) == m.x[SavedReg(j)]
        invariant SameOutside(old(m).mem, m.mem, m.x[2] + 8, m.x[2] + 256)
      {
        SavedTable(k);
        forall j | 0 <= j < k
          ensures SavedReg(j) != SavedReg(k)
        {
          SavedDistinct(j, k);
        }
        Sd(SAVED[k].0, SAVED[k].1);
      }
    }

    /** `__trap_entry`, up to the call of the handler. */
    method Entry()
      requires Shaped(m)
      modifies this
      ensures Shaped(m) && Entered(old(m), m, kgp)
    {
      hide SAVED, SavedReg, FrameIs, SameOutside, Completed, Load;
      SwapScratch();
      if m.x[2] == 0 {
        SwapScratch();
      }
      Set(SP, m.x[2] - 272);
      ghost var was := m;
      assert was.x == old(m).x[2 := Top(old(m)) - 272];
      SaveAll();
      ghost var saved := m.mem;
      Complete();
      FrameWritten(old(m), was, saved, m.mem);
    }

    /** The rest of the frame, and the registers the handler starts with. */
    method Complete()
      requires Shaped(m)
      modifies this
      ensures Shaped(m) && m.x[2] == old(m).x[2] && m.x[10] == m.x[2] && m.sscratch == 0
      ensures m.x[3] == if old(m).sscratch != 0 then kgp else old(m).x[3]
      ensures var sp := if old(m).sscratch != 0 then old(m).sscratch else m.x[2] + 272;
              Completed(old(m).mem, m.mem, m.x[2], sp, old(m).sepc, old(m).sstatus)
    {
      hide Store, Completed;
      ghost var f, saved := m.x[2], m.mem;
      Set(T0, m.x[2] + 272);
      Sd(T0, 16);
      StoreAgain(saved, f + 16, f + 272, m.sscratch);
      Set(T0, m.sscratch);
      if m.x[5] != 0 {
        Sd(T0, 16);
        m := m.(sscratch := 0);
        Set(GP, kgp);
      }
      ThreeStores(saved, f, if old(m).sscratch != 0 then old(m).sscratch else f + 272, m.sepc, m.sstatus);
      Set(T0, m.sepc);
      Sd(T0, 256);
      Set(T0, m.sstatus);
      Sd(T0, 264);
      Set(A0, m.x[2]);
    }

    method RestoreAll()
      requires Shaped(m)
      modifies this
      ensures Shaped(m) && m == old(m).(x := m.x) && m.x[2] == old(m).x[2]
      ensures forall k | 0 <= k < 29 :: m.x[RestoredReg(k)] == Load(m.mem, m.x[2] + 8 * RestoredReg(k))
    {
      hide RESTORED, RestoredReg;
      RestoredTable(0);
      for k := 0 to |RESTORED|
        invariant Shaped(m) && m == old(m).(x := m.x) && m.x[2] == old(m).x[2]
        invariant forall j | 0 <= j < k :: m.x[RestoredReg(j)] == Load(m.mem, m.x[2] + 8 * RestoredReg(j))
      {
        RestoredTable(k);
        Ld(RESTORED[k].0, RESTORED[k].1);
      }
    }

    /** `__trap_return` with the frame in `a0`. */
    method Return(f: int)
      requires Shaped(m) && m.x[10] == f
      modifies this
      ensures Shaped(m) && Returned(old(m), f, m)
    {
      hide RESTORED, FromS, Load;
      Set(SP, m.x[10]);
      Ld(T0, 256);
      m := m.(sepc := m.x[5]);
      Ld(T0, 264);
      m := m.(sstatus := m.x[5]);
      RestoreAll();
      ghost var loaded := m;
      ReturnTail();
      AllRestored(loaded, m, f);
    }

    /** The last instructions: SPP decides whether the stack pointer is popped or
        swapped with the parked one. */
    method ReturnTail()
      requires Shaped(m)
      modifies this
      ensures Shaped(m) && m == old(m).(x := m.x, sscratch := m.sscratch)
      ensures m.x == old(m).x[2 := m.x[2]][5 := Load(m.mem, old(m).x[2] + 40)]
      ensures if FromS(Load(m.mem, old(m).x[2] + 264))
              then m.x[2] == old(m).x[2] + 272 && m.sscratch == old(m).sscratch
              else m.x[2] == Load(m.mem, old(m).x[2] + 16) && m.sscratch == old(m).x[2] + 272
    {
      hide FromS, Load;
      Ld(T0, 264);
      Set(T0, if FromS(m.x[5]) then 256 else 0);
      Set(SP, m.x[2] + 272);
      if m.x[5] == 0 {
        Ld(T0, -256);
        m := m.(sscratch := m.x[5]);
        Ld(T0, -232);
        SwapScratch();
      } else {
        Ld(T0, -232);
      }
    }
  }

  lemma SavedDistinct(j: nat, k: nat)
    requires j < k
    ensures SavedReg(j) != SavedReg(k)
  {
  }

  /** The stack pointer and the two CSRs stored over the save block. */
  ghost predicate Completed(saved: Memory, mem: Memory, f: int, sp: int, sepc: int, sstatus: int) {
    && Load(mem, f + 16) == sp && Load(mem, f + 256) == sepc && Load(mem, f + 264) == sstatus
    && forall a | a != f + 16 && a != f + 256 && a != f + 264 :: Load(mem, a) == Load(saved, a)
  }

  lemma StoreAgain(mem: Memory, a: int, v: int, w: int)
    ensures Store(Store(mem, a, v), a, w) == Store(mem, a, w)
  {
  }

  lemma ThreeStores(saved: Memory, f: int, sp: int, sepc: int, sstatus: int)
    ensures Completed(saved, Store(Store(Store(saved, f + 16, sp), f + 256, sepc), f + 264, sstatus), f, sp, sepc, sstatus)
  {
  }

  /** The last stores complete the frame the save block began. */
  lemma FrameWritten(m: Machine, was: Machine, saved: Memory, mem: Memory)
    requires Shaped(m) && was == m.(x := m.x[2 := Top(m) - 272], sscratch := if m.sscratch != 0 then m.x[2] else 0)
    requires forall k | 0 <= k < 30 :: Load(saved, was.x[2] + 8 * SavedReg(k)) == was.x[SavedReg(k)]
    requires SameOutside(m.mem, saved, was.x[2] + 8, was.x[2] + 256)
    requires Completed(saved, mem, Top(m) - 272, SavedSp(m), m.sepc, m.sstatus)
    ensures FrameIs(mem, Top(m) - 272, SavedContext(m)) && SameOutside(m.mem, mem, Top(m) - 272, Top(m))
  {
    var f := Top(m) - 272;
    forall r | 0 < r < 32
      ensures Load(mem, f + 8 * r) == SavedContext(m).x[r]
    {
      if r != 2 {
        assert SavedReg(if r == 1 then 0 else r - 2) == r;
      }
    }
  }

  lemma AllRestored(loaded: Machine, m: Machine, f: int)
    requires Shaped(loaded) && Shaped(m) && loaded.x[2] == f
    requires forall k | 0 <= k < 29 :: loaded.x[RestoredReg(k)] == Load(loaded.mem, f + 8 * RestoredReg(k))
    requires m.x == loaded.x[2 := m.x[2]][5 := m.x[5]] && m.x[5] == Load(loaded.mem, f + 40)
    ensures forall r | 0 < r < 32 && r != 2 :: m.x[r] == Load(loaded.mem, f + 8 * r)
  {
    forall r | 0 < r < 32 && r != 2 && r != 5
      ensures m.x[r] == Load(loaded.mem, f + 8 * r)
    {
      assert RestoredReg(if r == 1 then 0 else if r < 5 then r - 2 else r - 3) == r;
    }
  }

  // --- transparency ------------------------------------------------------------------------

  /** The interrupted code sees its own registers, program counter and status. */
  ghost predicate Restores(m: Machine, m': Machine)
    requires Shaped(m) && Shaped(m')
  {
    && (forall r | 0 < r < 32 :: m'.x[r] == m.x[r])
    && m'.sepc == m.sepc && m'.sstatus == m.sstatus && m'.sscratch == m.sscratch
  }

  /** Entry, any handler that leaves the frame and `sscratch` alone, then return of
      the same frame: everything is restored, from U and from S, except exactly
      when user code trapped with a zero stack pointer. */
  lemma Transparent(m: Machine, entered: Machine, handled: Machine, m': Machine, kgp: int)
    requires Shaped(m) && Shaped(entered) && Shaped(handled) && Shaped(m')
    requires m.sscratch != 0 <==> !FromS(m.sstatus)
    requires Entered(m, entered, kgp)
    requires FrameIs(handled.mem, entered.x[10], SavedContext(m)) && handled.sscratch == entered.sscratch
    requires Returned(handled, entered.x[10], m')
    ensures Restores(m, m') <==> (FromS(m.sstatus) || m.x[2] != 0)
  {
    hide FromS;
    var f := Top(m) - FRAME_SIZE;
    assert SavedContext(m).x[2] == SavedSp(m);
    forall r | 0 < r < 32 && r != 2
      ensures m'.x[r] == m.x[r]
    {
      assert Load(handled.mem, f + 8 * r) == SavedContext(m).x[r];
    }
  }
}
