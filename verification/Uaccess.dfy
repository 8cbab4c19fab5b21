/** User-pointer checks against the built page map (src/uaccess.rs) and the break
    (`sys_sbrk` in src/syscall.rs). */
module Uaccess {
  import opened Ram
  import opened Pte
  import opened PageTree
  import opened Page
  import opened PageBuild
  import opened PageVerify

  const COPY_MAX: int := 4096

  datatype Access = Read | Write

  datatype Check = Pass | SpansPastInterval | NotInUserInterval

  predicate Contains(lo: int, hi: int, ptr: int, end: int) { lo < hi && ptr >= lo && end <= hi }

  /** `user_range_ok` for task `id` with break `brk`. The break begins where the
      user stack ends. */
  predicate RangeOk(l: Layout, id: int, brk: int, ptr: int, len: int, access: Access) {
    var end := ptr + len;
    var s := SlotOf(l, id);
    && end < 0x1_0000_0000_0000_0000
    && (|| Contains(s.ustackBottom, s.ustackTop, ptr, end)
        || Contains(s.ustackTop, brk, ptr, end)
        || Contains(l.udatStart, l.udatEnd, ptr, end)
        || Contains(l.ubssStart, l.ubssEnd, ptr, end)
        || (l.udatEnd == l.ubssStart && Contains(l.udatStart, l.ubssEnd, ptr, end))
        || (access == Read && Contains(l.urodStart, l.urodEnd, ptr, end)))
  }

  /** `classify`. */
  function Classify(l: Layout, id: int, brk: int, ptr: int, len: int, access: Access): Check {
    if RangeOk(l, id, brk, ptr, len, access) then Pass
    else if len > 0 && RangeOk(l, id, brk, ptr, 1, access) then SpansPastInterval
    else NotInUserInterval
  }

  predicate BreakOk(l: Layout, id: int, brk: int) { SlotOf(l, id).ustackTop <= brk <= SlotOf(l, id).brkWall }

  /** The region of the page map an accepted byte lies in. */
  lemma AcceptedRegion(l: Layout, id: int, brk: int, ptr: int, len: int, access: Access, x: int) returns (k: int)
    requires Ordered(l) && 0 <= id < MAX_TASKS && BreakOk(l, id, brk)
    requires RangeOk(l, id, brk, ptr, len, access) && ptr <= x < ptr + len
    ensures 0 <= k < REGIONS && In(RegionAt(l, k), x)
    ensures RegionAt(l, k).flags == LEAF_URW || (access == Read && RegionAt(l, k).flags == LEAF_UR)
  {
    hide RegionAt, SlotOf;
    var s := SlotOf(l, id);
    SlotRegions(l, id);
    if s.ustackBottom <= x < s.ustackTop {
      k := 8 + 3 * id;
    } else if s.ustackTop <= x < brk {
      k := 9 + 3 * id;
    } else if l.udatStart <= x < l.udatEnd {
      k := 6;
      UserSections(l, k);
    } else if l.ubssStart <= x < l.ubssEnd {
      k := 7;
      UserSections(l, k);
    } else {
      k := 5;
      UserSections(l, k);
    }
  }

  lemma FlagBits()
    ensures PteU(LEAF_URW) && PteR(LEAF_URW) && PteW(LEAF_URW) && PteU(LEAF_UR) && PteR(LEAF_UR)
  {
  }

  /** Every byte of an accepted range is a user page of the finished map that the
      access may touch: U and R always, W for a write, at its own address. */
  lemma AcceptedIsMapped(s: Snap, l: Layout, id: int, brk: int, ptr: int, len: int, access: Access, x: Word)
    requires Finished(s, l) && 0 <= id < MAX_TASKS && BreakOk(l, id, brk)
    requires RangeOk(l, id, brk, ptr, len, access) && ptr <= x < ptr + len
    ensures var w := WalkIn(s, x);
            w.Mapped? && w.pa == x && PteU(w.raw) && PteR(w.raw) && (access == Write ==> PteW(w.raw))
  {
    hide RegionAt, SlotOf, Walk, RangeOk, BreakOk, BuiltTo, WellFormed, FlagsMatch, PteR, PteW, PteX, PteU, Ordered;
    var k := AcceptedRegion(l, id, brk, ptr, len, access, x);
    FinishedBits(s, l, k, x);
    FlagBits();
  }

  /** The length `copy_from_user` and `copy_to_user` settle on, if they copy at all:
      capped first, then checked, never shortened to what fits. */
  function CopyLen(l: Layout, id: int, brk: int, ptr: int, len: nat, access: Access): Option<nat> {
    var n := if len < COPY_MAX then len else COPY_MAX;
    if Classify(l, id, brk, ptr, n, access) == Pass then Some(n) else None
  }

  /** A copy touches at most `COPY_MAX` bytes, and each is a user page of the finished
      map with the permission it needs. */
  lemma CopyIsMapped(s: Snap, l: Layout, id: int, brk: int, ptr: int, len: nat, access: Access, x: Word)
    requires Finished(s, l) && 0 <= id < MAX_TASKS && BreakOk(l, id, brk)
    requires CopyLen(l, id, brk, ptr, len, access).Some?
    ensures var n := CopyLen(l, id, brk, ptr, len, access).value;
            && n <= COPY_MAX && n <= len
            && (ptr <= x < ptr + n ==>
                  var w := WalkIn(s, x);
                  w.Mapped? && w.pa == x && PteU(w.raw) && PteR(w.raw) && (access == Write ==> PteW(w.raw)))
  {
    hide Finished, RangeOk, WalkIn, PteU, PteR, PteW;
    var n := CopyLen(l, id, brk, ptr, len, access).value;
    if ptr <= x < ptr + n {
      AcceptedIsMapped(s, l, id, brk, ptr, n, access, x);
    }
  }

  /** One accepted byte. */
  predicate ByteOk(l: Layout, id: int, brk: int, x: int, access: Access) { RangeOk(l, id, brk, x, 1, access) }

  /** The only boundaries between two user intervals that a range may not cross:
      stack into break, and read-only data into data. */
  predicate Crosses(l: Layout, id: int, ptr: int, len: int, access: Access) {
    || ptr < SlotOf(l, id).ustackTop < ptr + len
    || (access == Read && ptr < l.urodEnd < ptr + len)
  }

  lemma ByteMeans(l: Layout, id: int, brk: int, x: int, access: Access)
    requires Ordered(l) && 0 <= id < MAX_TASKS && BreakOk(l, id, brk)
    ensures ByteOk(l, id, brk, x, access) <==>
              || SlotOf(l, id).ustackBottom <= x < brk
              || l.udatStart <= x < l.udatEnd || l.ubssStart <= x < l.ubssEnd
              || (access == Read && l.urodStart <= x < l.urodEnd)
  {
    SlotBelow(l, id);
  }

  lemma SlotBelow(l: Layout, id: int)
    requires Ordered(l) && 0 <= id < MAX_TASKS
    ensures var s := SlotOf(l, id);
            l.ubssEnd < s.ustackBottom < s.ustackTop < s.brkWall < RAM_L1_START
  {
  }

  /** A nonempty range is accepted exactly when each of its bytes is and it
      crosses no boundary between intervals. */
  lemma RangeExact(l: Layout, id: int, brk: int, ptr: int, len: int, access: Access)
    requires Ordered(l) && 0 <= id < MAX_TASKS && BreakOk(l, id, brk) && len > 0
    ensures RangeOk(l, id, brk, ptr, len, access) <==>
              && (forall x | ptr <= x < ptr + len :: ByteOk(l, id, brk, x, access))
              && !Crosses(l, id, ptr, len, access)
  {
    hide ByteOk, SlotOf;
    SlotBelow(l, id);
    if RangeOk(l, id, brk, ptr, len, access) {
      forall x | ptr <= x < ptr + len
        ensures ByteOk(l, id, brk, x, access)
      {
        ByteMeans(l, id, brk, x, access);
      }
    } else if forall x | ptr <= x < ptr + len :: ByteOk(l, id, brk, x, access) {
      EdgesOk(l, id, brk, ptr, len, access);
    }
  }

  /** Bytes just past an interval are not accepted, so contiguous accepted bytes
      stay inside one. */
  lemma EdgesOk(l: Layout, id: int, brk: int, ptr: int, len: int, access: Access)
    requires Ordered(l) && 0 <= id < MAX_TASKS && BreakOk(l, id, brk) && len > 0
    requires forall x | ptr <= x < ptr + len :: ByteOk(l, id, brk, x, access)
    requires !RangeOk(l, id, brk, ptr, len, access)
    ensures Crosses(l, id, ptr, len, access)
  {
    hide ByteOk, SlotOf;
    SlotBelow(l, id);
    var end := ptr + len;
    ByteMeans(l, id, brk, ptr, access);
    ByteMeans(l, id, brk, end - 1, access);
    assert ByteOk(l, id, brk, ptr, access) && ByteOk(l, id, brk, end - 1, access);
    forall e | e == brk || e == l.udatEnd || e == l.ubssEnd || e == l.urodEnd
      ensures ptr <= e < end ==> ByteOk(l, id, brk, e, access)
    {
    }
    ByteMeans(l, id, brk, brk, access);
    ByteMeans(l, id, brk, l.udatEnd, access);
    ByteMeans(l, id, brk, l.ubssEnd, access);
    ByteMeans(l, id, brk, l.urodEnd, access);
  }

  /** The two error shapes: the range starts on an accepted byte, or it does not. */
  lemma ClassifyExact(l: Layout, id: int, brk: int, ptr: int, len: int, access: Access)
    requires Ordered(l) && 0 <= id < MAX_TASKS && BreakOk(l, id, brk) && len > 0
    ensures var c := Classify(l, id, brk, ptr, len, access);
            && (c == NotInUserInterval <==> !ByteOk(l, id, brk, ptr, access))
            && (c == SpansPastInterval <==>
                  && ByteOk(l, id, brk, ptr, access)
                  && ((exists x :: ptr <= x < ptr + len && !ByteOk(l, id, brk, x, access)) || Crosses(l, id, ptr, len, access)))
  {
    hide ByteOk, Crosses, SlotOf;
    RangeExact(l, id, brk, ptr, len, access);
    OneByte(l, id, brk, ptr, access);
    if RangeOk(l, id, brk, ptr, len, access) {
      assert ByteOk(l, id, brk, ptr, access);
    }
  }

  lemma OneByte(l: Layout, id: int, brk: int, ptr: int, access: Access)
    ensures ByteOk(l, id, brk, ptr, access) <==> RangeOk(l, id, brk, ptr, 1, access)
  {
  }

  // --- the break -----------------------------------------------------------------------------

  const OK: int := 0
  const NO_MEM: int := -3

  /** Whether `sbrk(delta)` moves the break. */
  predicate Moves(l: Layout, id: int, brk: int, delta: int) {
    && 0 <= brk + delta < 0x1_0000_0000_0000_0000
    && SlotOf(l, id).ustackTop <= brk + delta <= SlotOf(l, id).brkWall
  }

  class UserTask {
    const l: Layout
    const id: int
    var brk: int

    ghost predicate Valid()
      reads this
    {
      Ordered(l) && 0 <= id < MAX_TASKS && BreakOk(l, id, brk)
    }

    /** `create` starts the break at its base. */
    constructor (layout: Layout, slot: int)
      requires Ordered(layout) && 0 <= slot < MAX_TASKS
      ensures Valid() && brk == SlotOf(layout, slot).ustackTop && l == layout && id == slot
    {
      l, id := layout, slot;
      brk := SlotOf(layout, slot).ustackTop;
    }

    /** `sys_sbrk`: answers the old break, and moves it exactly when the new one
        stays inside the window. */
    method Sbrk(delta: int) returns (err: int, was: int)
      requires Valid()
      modifies this
      ensures Valid() && was == old(brk)
      ensures err == OK <==> Moves(l, id, old(brk), delta)
      ensures brk == old(brk) + (if err == OK then delta else 0)
    {
      was := brk;
      if !(0 <= brk + delta < 0x1_0000_0000_0000_0000) {
        return NO_MEM, was;
      }
      var new_ := brk + delta;
      if new_ > SlotOf(l, id).brkWall || new_ < SlotOf(l, id).ustackTop {
        return NO_MEM, was;
      }
      brk := new_;
      err := OK;
    }
  }

  /** The break after a run of requests. */
  function Broken(l: Layout, id: int, brk: int, deltas: seq<int>): int
    decreases deltas
  {
    if deltas == [] then brk
    else Broken(l, id, if Moves(l, id, brk, deltas[0]) then brk + deltas[0] else brk, deltas[1..])
  }

  /** The sum of the requests that were granted. */
  function Granted(l: Layout, id: int, brk: int, deltas: seq<int>): int
    decreases deltas
  {
    if deltas == [] then 0
    else if Moves(l, id, brk, deltas[0]) then deltas[0] + Granted(l, id, brk + deltas[0], deltas[1..])
    else Granted(l, id, brk, deltas[1..])
  }

  /** Over every run of requests the break stays in its window and is its start
      plus what was granted. */
  lemma {:induction false} BreakRuns(l: Layout, id: int, brk: int, deltas: seq<int>)
    requires BreakOk(l, id, brk)
    ensures BreakOk(l, id, Broken(l, id, brk, deltas))
    ensures Broken(l, id, brk, deltas) == brk + Granted(l, id, brk, deltas)
    decreases deltas
  {
    if deltas != [] {
      BreakRuns(l, id, if Moves(l, id, brk, deltas[0]) then brk + deltas[0] else brk, deltas[1..]);
    }
  }
}
