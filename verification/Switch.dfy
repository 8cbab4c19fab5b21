/** Traps, the handler and the scheduler together: what a task sees across any
    number of context switches (src/trap.rs, src/task.rs, src/syscall.rs). */
module Switch {
  import opened Ram
  import opened Trap
  import Task

  /** Each slot is 88 KiB and ends with its kernel stack (linker.ld). */
  function KstackTop(base: int, i: nat): int { base + 90112 * (i + 1) }

  function FrameOf(base: int, i: nat): int { KstackTop(base, i) - FRAME_SIZE }

  /** The hart in U, the task table, and what each task will see when it next runs. */
  datatype World = World(m: Machine, s: Task.Table, saved: seq<Context>)

  /** `Break` is a breakpoint whose instruction is `width` bytes long. */
  datatype Cause = Tick | Yield | Call(a0: int, a1: int) | Break(width: int) | Leave

  /** What user code may do before it traps: anything to its registers, nothing to
      `sscratch` or the trap frames. The trap records U in `sstatus`. */
  ghost predicate UserRuns(m: Machine, user: Machine, base: int) {
    && Shaped(m) && Shaped(user) && user.sscratch == m.sscratch && !FromS(user.sstatus)
    && KeepsFrames(m.mem, user.mem, base)
  }

  ghost predicate KeepsFrame(mem: Memory, mem': Memory, base: int, i: nat) {
    forall a | FrameOf(base, i) <= a < KstackTop(base, i) :: Load(mem', a) == Load(mem, a)
  }

  ghost predicate KeepsFrames(mem: Memory, mem': Memory, base: int) {
    forall i: nat | i < 4 :: KeepsFrame(mem, mem', base, i)
  }

  /** `advance_ecall` and `set_retval`; a breakpoint only advances. */
  function Edited(c: Context, cause: Cause): (r: Context)
    requires |c.x| == 32
    ensures |r.x| == 32
  {
    match cause
    case Yield => c.(x := c.x[10 := 0][11 := 0], sepc := c.sepc + 4)
    case Call(a0, a1) => c.(x := c.x[10 := a0][11 := a1], sepc := c.sepc + 4)
    case Break(width) => c.(sepc := c.sepc + width)
    case _ => c
  }

  /** What the handler may do: edit the trapped task's frame as the cause demands,
      write anywhere outside the frames, use its registers. */
  ghost predicate Handles(entered: Machine, handled: Machine, base: int, c: nat, ctx: Context) {
    && Shaped(handled) && handled.sscratch == entered.sscratch
    && FrameIs(handled.mem, FrameOf(base, c), ctx)
    && forall i: nat | i < 4 && i != c :: KeepsFrame(entered.mem, handled.mem, base, i)
  }

  ghost predicate Picks(s: Task.Table, cause: Cause, s': Task.Table) {
    match cause
    case Tick => Task.Step(s, Task.Slice, s')
    case Yield => Task.Step(s, Task.Slice, s')
    case Call(_, _) => s' == s
    case Break(_) => s' == s
    case Leave => Task.Step(s, Task.Leave, s')
  }

  /** One round trip through the kernel. */
  datatype Trip = Trip(cause: Cause, user: Machine, entered: Machine, handled: Machine)

  ghost predicate Step(w: World, t: Trip, w': World, base: int, kgp: int) {
    UserRuns(w.m, t.user, base) && KernelRuns(w, t, w', base, kgp)
  }

  /** The kernel's part of it: entry, handler, scheduler and return. */
  ghost predicate KernelRuns(w: World, t: Trip, w': World, base: int, kgp: int)
    requires Shaped(t.user)
  {
    && w.s.current.Cur? && w.s.current.id < 4 && |w.saved| == 4
    && var c := w.s.current.id;
       && Shaped(t.entered) && Entered(t.user, t.entered, kgp)
       && var ctx := Edited(SavedContext(t.user), t.cause);
          && Handles(t.entered, t.handled, base, c, ctx)
          && Picks(w.s, t.cause, w'.s) && w'.s.current.Cur? && w'.s.current.id < 4
          && Shaped(w'.m) && t.handled.x[10] == FrameOf(base, w'.s.current.id)
          && Returned(t.handled, FrameOf(base, w'.s.current.id), w'.m)
          && w'.saved == w.saved[c := ctx]
  }

  /** The task on the hart sees this context. */
  ghost predicate Sees(m: Machine, c: Context) {
    && |m.x| == 32 && |c.x| == 32
    && (forall r | 0 < r < 32 :: m.x[r] == c.x[r])
    && m.sepc == c.sepc && m.sstatus == c.sstatus
  }

  ghost predicate Waiting(w: World, base: int, i: nat)
    requires |w.saved| == 4 && i < 4
  {
    FrameIs(w.m.mem, FrameOf(base, i), w.saved[i]) && !FromS(w.saved[i].sstatus)
  }

  /** In U: `sscratch` is the running task's kernel stack top, and every Ready
      task's frame holds what it will see. */
  ghost predicate Inv(w: World, base: int) {
    && Shaped(w.m) && |w.saved| == 4 && base > 0
    && Task.Ok(w.s) && w.s.current.Cur?
    && w.m.sscratch == KstackTop(base, w.s.current.id)
    && forall i: nat | i < 4 && w.s.state[i] == Task.Ready :: Waiting(w, base, i)
  }

  // --- frames do not overlap --------------------------------------------------------------

  lemma FrameKept(mem: Memory, mem': Memory, base: int, i: nat, c: Context)
    requires FrameIs(mem, FrameOf(base, i), c) && KeepsFrame(mem, mem', base, i)
    ensures FrameIs(mem', FrameOf(base, i), c)
  {
    var f := FrameOf(base, i);
    forall r | 0 < r < 32
      ensures Load(mem', f + 8 * r) == c.x[r]
    {
      assert Load(mem, f + 8 * r) == c.x[r];
    }
  }

  lemma EntryKeeps(user: Machine, entered: Machine, base: int, c: nat, i: nat, kgp: int)
    requires Shaped(user) && Shaped(entered) && Entered(user, entered, kgp)
    requires user.sscratch == KstackTop(base, c) && base > 0 && c < 4 && i < 4 && i != c
    ensures KeepsFrame(user.mem, entered.mem, base, i)
  {
    forall a | FrameOf(base, i) <= a < KstackTop(base, i)
      ensures Load(entered.mem, a) == Load(user.mem, a)
    {
    }
  }

  /** Inside the handler `sscratch` is zero and the frame is the running task's
      own, so the scheduler's frame check passes. */
  lemma HandlerSees(w: World, t: Trip, w': World, base: int, kgp: int)
    requires Inv(w, base) && Step(w, t, w', base, kgp)
    ensures t.entered.sscratch == 0 && t.entered.x[10] == FrameOf(base, w.s.current.id)
    ensures FrameIs(t.entered.mem, FrameOf(base, w.s.current.id), SavedContext(t.user))
  {
    hide FrameIs, SameOutside, SavedContext, KeepsFrames, Handles, Returned;
  }

  lemma OthersWait(w: World, t: Trip, w': World, base: int, kgp: int, i: nat)
    requires Inv(w, base) && Step(w, t, w', base, kgp) && i < 4 && i != w.s.current.id && w.s.state[i] == Task.Ready
    ensures FrameIs(t.handled.mem, FrameOf(base, i), w.saved[i]) && !FromS(w.saved[i].sstatus)
  {
    hide FrameIs, SameOutside, SavedContext, Returned, KeepsFrame, FromS;
    assert Waiting(w, base, i);
    FrameKept(w.m.mem, t.user.mem, base, i, w.saved[i]);
    EntryKeeps(t.user, t.entered, base, w.s.current.id, i, kgp);
    FrameKept(t.user.mem, t.entered.mem, base, i, w.saved[i]);
    FrameKept(t.entered.mem, t.handled.mem, base, i, w.saved[i]);
  }

  lemma EditKeepsMode(c: Context, cause: Cause)
    requires |c.x| == 32
    ensures Edited(c, cause).sstatus == c.sstatus
  {
  }

  lemma ReturnShows(m: Machine, f: int, m': Machine, c: Context)
    requires Shaped(m) && Shaped(m') && Returned(m, f, m') && FrameIs(m.mem, f, c) && !FromS(c.sstatus)
    ensures Sees(m', c) && m'.sscratch == f + FRAME_SIZE && m'.mem == m.mem
  {
    hide FromS;
    assert c.x[2] == Load(m.mem, f + 8 * 2);
    forall r | 0 < r < 32
      ensures m'.x[r] == c.x[r]
    {
      assert Load(m.mem, f + 8 * r) == c.x[r];
    }
  }

  lemma PicksOk(s: Task.Table, cause: Cause, s': Task.Table)
    requires Task.Ok(s) && s.current.Cur? && Picks(s, cause, s') && s'.current.Cur?
    ensures Task.Ok(s') && s'.current.id < 4 && |s.state| == 4 && |s'.state| == 4
    ensures s'.current == s.current || s.state[s'.current.id] == Task.Ready
    ensures forall i: nat | i < 4 && s'.state[i] == Task.Ready :: i == s.current.id || s.state[i] == Task.Ready
  {
    match cause
    case Tick => Task.StepOk(s, Task.Slice, s');
    case Yield => Task.StepOk(s, Task.Slice, s');
    case Leave => Task.StepOk(s, Task.Leave, s');
    case Call(_, _) =>
    case Break(_) =>
  }

  /** Every round trip keeps the invariant, and whoever runs next sees exactly
      what it trapped with, but for its system call's results. */
  lemma StepInv(w: World, t: Trip, w': World, base: int, kgp: int)
    requires Inv(w, base) && Step(w, t, w', base, kgp)
    ensures Inv(w', base) && Sees(w'.m, w'.saved[w'.s.current.id])
  {
    hide FrameIs, SameOutside, SavedContext, Returned, KeepsFrame, KeepsFrames, FromS, Entered, Task.Ok, Picks;
    var c, n := w.s.current.id, w'.s.current.id;
    PicksOk(w.s, t.cause, w'.s);
    ContextOf(t.user);
    EditKeepsMode(SavedContext(t.user), t.cause);
    forall i: nat | i < 4 && (i == c || w.s.state[i] == Task.Ready)
      ensures FrameIs(t.handled.mem, FrameOf(base, i), w'.saved[i]) && !FromS(w'.saved[i].sstatus)
    {
      if i != c {
        OthersWait(w, t, w', base, kgp, i);
      }
    }
    ReturnShows(t.handled, FrameOf(base, n), w'.m, w'.saved[n]);
  }

  lemma ContextOf(m: Machine)
    requires Shaped(m)
    ensures |SavedContext(m).x| == 32 && SavedContext(m).sstatus == m.sstatus
  {
  }

  /** `enter`: the first return into a fabricated frame establishes the invariant. */
  lemma EnterInv(m: Machine, s: Task.Table, saved: seq<Context>, id: nat, m': Machine, base: int)
    requires Shaped(m) && Shaped(m') && |saved| == 4 && base > 0 && id < 4
    requires Task.Ok(s) && s.current == Task.NoTask && s.state[id] == Task.Ready
    requires forall i: nat | i < 4 && s.state[i] == Task.Ready :: Waiting(World(m, s, saved), base, i)
    requires Returned(m, FrameOf(base, id), m')
    ensures var w := World(m', Task.Table(s.state[id := Task.Running], Task.Cur(id)), saved);
            Inv(w, base) && Sees(m', saved[id])
  {
    hide FrameIs, FromS, Returned;
    assert Waiting(World(m, s, saved), base, id);
    ReturnShows(m, FrameOf(base, id), m', saved[id]);
    forall i: nat | i < 4 && s.state[i] == Task.Ready
      ensures FrameIs(m'.mem, FrameOf(base, i), saved[i]) && !FromS(saved[i].sstatus)
    {
      assert Waiting(World(m, s, saved), base, i);
    }
  }

  // --- runs ----------------------------------------------------------------------------------

  ghost predicate Runs(ws: seq<World>, ts: seq<Trip>, base: int, kgp: int) {
    && |ws| == |ts| + 1
    && forall k | 0 <= k < |ts| :: Step(ws[k], ts[k], ws[k + 1], base, kgp)
  }

  lemma {:induction false} RunInv(ws: seq<World>, ts: seq<Trip>, base: int, kgp: int, k: nat)
    requires Runs(ws, ts, base, kgp) && Inv(ws[0], base) && k < |ws|
    ensures Inv(ws[k], base)
    decreases k
  {
    hide Inv, Step;
    if k > 0 {
      RunInv(ws, ts, base, kgp, k - 1);
      assert Step(ws[k - 1], ts[k - 1], ws[k - 1 + 1], base, kgp);
      StepInv(ws[k - 1], ts[k - 1], ws[k], base, kgp);
    }
  }

  /** A context stays what it was while others run. */
  lemma {:induction false} Untouched(ws: seq<World>, ts: seq<Trip>, base: int, kgp: int, i: nat, j: nat, k: nat)
    requires Runs(ws, ts, base, kgp) && Inv(ws[0], base) && i < 4 && j <= k < |ws|
    requires forall l | j <= l < k :: ws[l].s.current != Task.Cur(i)
    ensures |ws[j].saved| == 4 && |ws[k].saved| == 4 && ws[k].saved[i] == ws[j].saved[i]
    decreases k
  {
    hide Inv, Step;
    RunInv(ws, ts, base, kgp, j);
    SavedFour(ws[j], base);
    if j < k {
      Untouched(ws, ts, base, kgp, i, j, k - 1);
      assert Step(ws[k - 1], ts[k - 1], ws[k - 1 + 1], base, kgp);
      OthersKept(ws[k - 1], ts[k - 1], ws[k], base, kgp, i);
    }
  }

  lemma SavedFour(w: World, base: int)
    requires Inv(w, base)
    ensures |w.saved| == 4
  {
  }

  lemma OthersKept(w: World, t: Trip, w': World, base: int, kgp: int, i: nat)
    requires Step(w, t, w', base, kgp) && i < 4 && w.s.current != Task.Cur(i)
    ensures |w.saved| == |w'.saved| == 4 && w'.saved[i] == w.saved[i]
  {
    hide UserRuns, Entered, Handles, Picks, Returned, SavedContext;
  }

  /** A task that traps at step `j` and next runs after step `k` sees the context
      it trapped with, edited only by its own system call, however many other
      tasks ran in between; with a nonzero stack pointer that is its own
      registers exactly. */
  lemma ResumesIntact(ws: seq<World>, ts: seq<Trip>, base: int, kgp: int, i: nat, j: nat, k: nat)
    requires Runs(ws, ts, base, kgp) && Inv(ws[0], base) && i < 4 && j < k < |ws|
    requires ws[j].s.current == Task.Cur(i) && ws[k].s.current == Task.Cur(i)
    requires forall l | j < l < k :: ws[l].s.current != Task.Cur(i)
    ensures Shaped(ts[j].user) && Sees(ws[k].m, Edited(SavedContext(ts[j].user), ts[j].cause))
    ensures ts[j].user.x[2] != 0 ==> SavedContext(ts[j].user).x == ts[j].user.x
  {
    hide UserRuns, Entered, Handles, Picks, Returned, Sees, Inv;
    assert Step(ws[j], ts[j], ws[j + 1], base, kgp);
    assert Step(ws[k - 1], ts[k - 1], ws[k - 1 + 1], base, kgp);
    RunInv(ws, ts, base, kgp, k - 1);
    StepInv(ws[k - 1], ts[k - 1], ws[k], base, kgp);
    Untouched(ws, ts, base, kgp, i, j + 1, k);
    UserShaped(ws[j].m, ts[j].user, base);
  }

  lemma UserShaped(m: Machine, user: Machine, base: int)
    requires UserRuns(m, user, base)
    ensures Shaped(user)
  {
  }

  // --- the frame check --------------------------------------------------------------------------

  /** Where the hart can be while task `c` is current: in U with the kernel stack
      top parked, or in S on the boot stack, below the slots, or on the task's own
      8 KiB kernel stack. */
  ghost predicate Placed(m: Machine, base: int, c: nat) {
    && Shaped(m) && base > 0 && c < 4
    && (|| m.sscratch == KstackTop(base, c)
        || (m.sscratch == 0 && (m.x[2] <= base || KstackTop(base, c) - 8192 <= m.x[2] < KstackTop(base, c))))
  }

  /** The scheduler's frame check passes exactly for traps from U. */
  lemma FrameCheck(m: Machine, entered: Machine, base: int, c: nat, kgp: int)
    requires Placed(m, base, c) && Shaped(entered) && Entered(m, entered, kgp)
    ensures entered.x[10] == FrameOf(base, c) <==> m.sscratch != 0
  {
    hide FrameIs, SameOutside;
  }

  /** `sstatus.SIE`: whether S-mode takes interrupts. */
  predicate InterruptsOn(sstatus: int) { sstatus / 2 % 2 == 1 }

  /** SPIE and UXL=64: what `create` puts in every frame. */
  const FABRICATED_SSTATUS: int := 0x2_0000_0020

  lemma FabricatedStatus()
    ensures !InterruptsOn(FABRICATED_SSTATUS) && !FromS(FABRICATED_SSTATUS)
  {
  }

  /** How far `enter` has come since it named the current task: still on the boot
      stack, past `mv sp, a0`, or past `csrw sstatus`. */
  datatype Point = OnBootStack | OnFrame | StatusWritten

  // --- the handler, as code -----------------------------------------------------------------------

  /** The hart and the scheduler, as `__trap_entry`, `trap_handler` and
      `__trap_return` drive them. */
  class Kernel {
    const hart: Hart
    const sched: Task.Scheduler
    const base: int

    constructor (h: Hart, s: Task.Scheduler, b: int)
      ensures hart == h && sched == s && base == b
    {
      hart, sched, base := h, s, b;
    }

    ghost predicate Valid()
      reads this, hart, sched
    {
      && sched.Valid() && Shaped(hart.m) && base > 0
      && (forall i: nat | i < 4 :: sched.frames[i] == FrameOf(base, i))
    }

    /** The running task traps from U: the handler's `sscratch` and frame checks
        pass, and the trap is exactly one step of the model; only the exit of the
        last task ends the run. */
    method UserTrap(cause: Cause, ghost saved: seq<Context>) returns (r: Outcome<()>, ghost t: Trip)
      requires Valid() && Inv(World(hart.m, sched.s, saved), base) && !FromS(hart.m.sstatus)
      modifies hart, sched
      ensures r.Panic? <==> cause.Leave? && Task.NoneReady(old(sched.s))
      ensures r.Done? ==>
                && Valid() && t.cause == cause && t.user == old(hart.m)
                && Step(World(old(hart.m), old(sched.s), saved), t,
                        World(hart.m, sched.s, saved[old(sched.s).current.id := Edited(SavedContext(t.user), cause)]),
                        base, hart.kgp)
    {
      hide FrameIs, SameOutside, SavedContext, FromS, Waiting, Task.FirstReady, Task.NoneReady, KeepsFrame, Returned;
      ghost var user := hart.m;
      ghost var c := sched.s.current.id;
      ContextOf(user);
      SameFrames(user.mem, base);
      hart.Entry();
      ghost var entered := hart.m;
      assert entered.x[10] == FrameOf(base, c) && entered.sscratch == 0;
      var frame := hart.m.x[10];
      Edit(cause, frame, SavedContext(user));
      EditsOwnFrame(entered.mem, hart.m.mem, base, c);
      r, frame := Dispatch(cause, frame);
      if r.Panic? {
        t := Trip(cause, user, entered, hart.m);
        return;
      }
      hart.Set(A0, frame);
      t := Trip(cause, user, entered, hart.m);
      hart.Return(frame);
    }

    /** A timer tick while a task is current: the mismatch panic fires exactly when
        the tick was not taken from U. */
    method TimerTick() returns (r: Outcome<int>)
      requires Valid() && sched.s.current.Cur? && Placed(hart.m, base, sched.s.current.id)
      modifies hart, sched
      ensures sched.Valid() && Shaped(hart.m)
      ensures r.Panic? <==> old(hart.m).sscratch == 0
    {
      hide FrameIs, SameOutside, SavedContext, Task.FirstReady;
      ghost var m := hart.m;
      hart.Entry();
      FrameCheck(m, hart.m, base, sched.s.current.id, hart.kgp);
      r := sched.Preempt(hart.m.x[10]);
    }

    /** `enter` up to a point of the return path, then a tick if interrupts are on:
        the panic is reachable, exactly until `csrw sstatus` turns them off. */
    method EnterThenTick(id: nat, at: Point, ghost c: Context) returns (r: Outcome<int>)
      requires Valid() && sched.s.current == Task.NoTask && id < 4
      requires hart.m.sscratch == 0 && hart.m.x[2] <= base
      requires FrameIs(hart.m.mem, FrameOf(base, id), c) && c.sstatus == FABRICATED_SSTATUS
      modifies hart, sched
      ensures r.Panic? <==> InterruptsOn(old(hart.m).sstatus) && at != StatusWritten
    {
      hide InterruptsOn;
      FabricatedStatus();
      var f := sched.Enter(id);
      hart.Set(A0, f);
      if at != OnBootStack {
        hart.Set(SP, hart.m.x[10]);
      }
      if at == StatusWritten {
        hart.Ld(T0, 256);
        hart.m := hart.m.(sepc := hart.m.x[5]);
        hart.Ld(T0, 264);
        hart.m := hart.m.(sstatus := hart.m.x[5]);
      }
      if InterruptsOn(hart.m.sstatus) {
        r := TimerTick();
      } else {
        r := Done(f);
      }
    }

    /** `advance_ecall` and `set_retval` on the frame in memory. */
    method Edit(cause: Cause, frame: int, ghost c: Context)
      requires Shaped(hart.m) && FrameIs(hart.m.mem, frame, c)
      modifies hart
      ensures hart.m == old(hart.m).(mem := hart.m.mem) && FrameIs(hart.m.mem, frame, Edited(c, cause))
      ensures SameOutside(old(hart.m).mem, hart.m.mem, frame, frame + FRAME_SIZE)
    {
      if cause.Yield? || cause.Call? {
        var a0 := if cause.Yield? then 0 else cause.a0;
        var a1 := if cause.Yield? then 0 else cause.a1;
        var mem := Store(hart.m.mem, frame + 256, Load(hart.m.mem, frame + 256) + 4);
        mem := Store(mem, frame + 80, a0);
        mem := Store(mem, frame + 88, a1);
        hart.m := hart.m.(mem := mem);
      } else if cause.Break? {
        hart.m := hart.m.(mem := Store(hart.m.mem, frame + 256, Load(hart.m.mem, frame + 256) + cause.width));
      }
    }

    /** The scheduling part of `trap_handler`. */
    method Dispatch(cause: Cause, frame: int) returns (r: Outcome<()>, next: int)
      requires Valid() && sched.s.current.Cur? && frame == FrameOf(base, sched.s.current.id)
      modifies sched
      ensures sched.Valid()
      ensures r.Panic? <==> cause.Leave? && Task.NoneReady(old(sched.s))
      ensures r.Done? ==> sched.s.current.Cur? && Picks(old(sched.s), cause, sched.s) && next == FrameOf(base, sched.s.current.id)
    {
      hide Task.FirstReady, Task.NoneReady;
      next := frame;
      match cause {
        case Call(_, _) =>
          r := Done(());
        case Break(_) =>
          r := Done(());
        case Leave =>
          var o := sched.ExitCurrent();
          if o.Panic? {
            return Panic, frame;
          }
          next := o.value;
          r := Done(());
        case _ =>
          var o := sched.Preempt(frame);
          if o.Panic? {
            return Panic, frame;
          }
          next := o.value;
          r := Done(());
      }
    }
  }

  lemma SameFrames(mem: Memory, base: int)
    ensures KeepsFrames(mem, mem, base)
  {
  }

  lemma EditsOwnFrame(mem: Memory, mem': Memory, base: int, c: nat)
    requires c < 4 && SameOutside(mem, mem', FrameOf(base, c), KstackTop(base, c))
    ensures forall i: nat | i < 4 && i != c :: KeepsFrame(mem, mem', base, i)
  {
  }
}
