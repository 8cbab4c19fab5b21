/** Why user code cannot reach a trap frame or a page table: the finished page map
    (src/page.rs) gives no user page over any kernel stack or free frame (src/task.rs,
    linker.ld). */
module Isolation {
  import opened Ram
  import Frame
  import opened Pte
  import opened PageTree
  import opened Page
  import opened PageBuild
  import opened PageVerify
  import Trap
  import Task
  import Switch

  /** No byte of a doubleword that starts in a trap frame is a user address. */
  lemma FrameIsKernel(l: Layout, i: nat, a: int, b: int)
    requires Ordered(l) && i < 4
    requires Switch.FrameOf(l.tasks, i) <= a < Switch.KstackTop(l.tasks, i) && a <= b < a + 8
    ensures !UserAddr(l, b)
  {
    forall id | 0 <= id < MAX_TASKS
      ensures !(SlotOf(l, id).ustackBottom <= b < SlotOf(l, id).brkWall)
    {
      SlotApart(l, i, id, b);
    }
  }

  lemma SlotApart(l: Layout, i: nat, id: int, b: int)
    requires i < 4 && 0 <= id < MAX_TASKS
    requires SlotOf(l, i).kstackTop - 272 <= b < SlotOf(l, i).kstackTop + 7
    ensures !(SlotOf(l, id).ustackBottom <= b < SlotOf(l, id).brkWall)
  {
    if id <= i {
      assert SlotOf(l, id).brkWall <= SlotOf(l, i).brkWall;
    } else {
      assert SlotOf(l, i).kstackTop <= SlotOf(l, id).ustackGuard;
    }
  }

  /** What stores from U can do under the finished map: a doubleword changes only
      if one of its bytes lies in a mapped user page. */
  ghost predicate UserStores(s: Snap, mem: Trap.Memory, mem': Trap.Memory) {
    forall a | Trap.Load(mem', a) != Trap.Load(mem, a) :: TouchesUser(s, a)
  }

  ghost predicate TouchesUser(s: Snap, a: int) {
    exists b: Word :: a <= b < a + 8 && Canonical(b) && WalkIn(s, b).Mapped? && PteU(WalkIn(s, b).raw)
  }

  /** So whatever user code stores, every trap frame keeps its contents. */
  lemma UserKeepsFrames(s: Snap, l: Layout, mem: Trap.Memory, mem': Trap.Memory)
    requires Finished(s, l) && UserStores(s, mem, mem')
    ensures Switch.KeepsFrames(mem, mem', l.tasks)
  {
    hide Finished, UserAddr, Ordered, WalkIn, PteU, Canonical;
    forall i: nat, a | i < 4 && Switch.FrameOf(l.tasks, i) <= a < Switch.KstackTop(l.tasks, i)
      ensures Trap.Load(mem', a) == Trap.Load(mem, a)
    {
      if TouchesUser(s, a) {
        var b: Word :| a <= b < a + 8 && Canonical(b) && WalkIn(s, b).Mapped? && PteU(WalkIn(s, b).raw);
        OrderedOf(s, l);
        UserBitExact(s, l, b);
        FrameIsKernel(l, i, a, b);
      }
    }
  }

  lemma OrderedOf(s: Snap, l: Layout)
    requires Finished(s, l)
    ensures Ordered(l)
  {
  }

  /** Nor can it reach the tables of the map that confines it: they lie in frames of
      the pool, above the heap. */
  lemma UserKeepsTables(pm: PageMapper, l: Layout, mem: Trap.Memory, mem': Trap.Memory, f: int, a: int)
    requires pm.Valid() && Finished(pm.Snapshot(), l) && pm.frames.heapEnd == l.he && UserStores(pm.Snapshot(), mem, mem')
    requires f in TreeFrames(pm.tree) && 4096 * f <= a <= 4096 * f + 4088
    ensures Trap.Load(mem', a) == Trap.Load(mem, a)
  {
    hide Finished, UserAddr, Ordered, WalkIn, PteU, Canonical, TreeFrames, WellFormed, TableCount, Frame.PoolOk;
    OrderedOf(pm.Snapshot(), l);
    InPool(pm, f);
    if TouchesUser(pm.Snapshot(), a) {
      var b: Word :| a <= b < a + 8 && Canonical(b) && WalkIn(pm.Snapshot(), b).Mapped? && PteU(WalkIn(pm.Snapshot(), b).raw);
      UserBitExact(pm.Snapshot(), l, b);
      UserBelowHeap(l, b);
    }
  }

  lemma InPool(pm: PageMapper, f: int)
    requires pm.Valid() && f in TreeFrames(pm.tree)
    ensures pm.frames.heapEnd <= 4096 * f
  {
    hide Frame.Threaded, Frame.Distinct, WellFormed, TreeFrames;
    assert f in Frame.Range(pm.frames.lo, pm.frames.hi);
  }

  lemma UserBelowHeap(l: Layout, b: int)
    requires Ordered(l) && UserAddr(l, b)
    ensures b < l.he
  {
    hide SlotOf;
    if id :| 0 <= id < MAX_TASKS && SlotOf(l, id).ustackBottom <= b < SlotOf(l, id).brkWall {
      SlotInside(l, id);
    }
  }

  lemma SlotInside(l: Layout, id: int)
    requires Ordered(l) && 0 <= id < MAX_TASKS
    ensures SlotOf(l, id).brkWall <= l.hs
  {
  }

  // --- runs under the finished map -------------------------------------------------------------

  /** What user code may do before it traps, given only the page map: anything to its
      registers, and stores to user pages. The hart keeps `sscratch` from it, and the
      trap records U. */
  ghost predicate UserExecutes(s: Snap, m: Trap.Machine, user: Trap.Machine) {
    && Trap.Shaped(m) && Trap.Shaped(user) && user.sscratch == m.sscratch && !Trap.FromS(user.sstatus)
    && UserStores(s, m.mem, user.mem)
  }

  ghost predicate MappedStep(s: Snap, l: Layout, w: Switch.World, t: Switch.Trip, w': Switch.World, kgp: int) {
    UserExecutes(s, w.m, t.user) && Switch.KernelRuns(w, t, w', l.tasks, kgp)
  }

  ghost predicate MappedRuns(s: Snap, l: Layout, ws: seq<Switch.World>, ts: seq<Switch.Trip>, kgp: int) {
    && |ws| == |ts| + 1
    && forall k | 0 <= k < |ts| :: MappedStep(s, l, ws[k], ts[k], ws[k + 1], kgp)
  }

  /** Under the finished map every such run is one of the switch model. */
  lemma MappedIsRun(s: Snap, l: Layout, ws: seq<Switch.World>, ts: seq<Switch.Trip>, kgp: int)
    requires Finished(s, l) && MappedRuns(s, l, ws, ts, kgp)
    ensures Switch.Runs(ws, ts, l.tasks, kgp)
  {
    hide Finished, UserStores, Switch.KernelRuns, Switch.KeepsFrames;
    forall k | 0 <= k < |ts|
      ensures Switch.Step(ws[k], ts[k], ws[k + 1], l.tasks, kgp)
    {
      assert MappedStep(s, l, ws[k], ts[k], ws[k + 1], kgp);
      UserKeepsFrames(s, l, ws[k].m.mem, ts[k].user.mem);
    }
  }

  /** So with nothing assumed of user code but the page map, the invariant holds in
      every state of every run, */
  lemma MappedRunInv(s: Snap, l: Layout, ws: seq<Switch.World>, ts: seq<Switch.Trip>, kgp: int, k: nat)
    requires Finished(s, l) && MappedRuns(s, l, ws, ts, kgp) && Switch.Inv(ws[0], l.tasks) && k < |ws|
    ensures Switch.Inv(ws[k], l.tasks)
  {
    hide Finished, MappedRuns, Switch.Runs, Switch.Inv;
    MappedIsRun(s, l, ws, ts, kgp);
    Switch.RunInv(ws, ts, l.tasks, kgp, k);
  }

  /** and a task that traps at step `j` and next runs after step `k` sees the registers
      it trapped with, edited only by its own system call. */
  lemma MappedResumes(s: Snap, l: Layout, ws: seq<Switch.World>, ts: seq<Switch.Trip>, kgp: int, i: nat, j: nat, k: nat)
    requires Finished(s, l) && MappedRuns(s, l, ws, ts, kgp) && Switch.Inv(ws[0], l.tasks) && i < 4 && j < k < |ws|
    requires ws[j].s.current == Task.Cur(i) && ws[k].s.current == Task.Cur(i)
    requires forall n | j < n < k :: ws[n].s.current != Task.Cur(i)
    ensures Trap.Shaped(ts[j].user)
    ensures Switch.Sees(ws[k].m, Switch.Edited(Trap.SavedContext(ts[j].user), ts[j].cause))
    ensures ts[j].user.x[2] != 0 ==> Trap.SavedContext(ts[j].user).x == ts[j].user.x
  {
    hide Finished, Switch.Runs, Switch.Inv, Switch.Sees, Switch.KernelRuns;
    MappedIsRun(s, l, ws, ts, kgp);
    Switch.ResumesIntact(ws, ts, l.tasks, kgp, i, j, k);
  }
}
