/** The task table and round-robin scheduler (src/task.rs). */
module Task {
  import opened Ram

  datatype State = Ready | Running | Exited

  datatype Current = NoTask | Cur(id: nat)

  /** The states of the four slots and the task on the hart. */
  datatype Table = Table(state: seq<State>, current: Current)

  /** At most one task is Running, and `current` names it. */
  predicate Ok(s: Table) {
    && |s.state| == 4
    && (s.current.Cur? ==> s.current.id < 4 && s.state[s.current.id] == Running)
    && (forall i | 0 <= i < 4 && s.state[i] == Running :: s.current == Cur(i))
  }

  function Slot(id: nat, step: nat): (r: nat)
    ensures r < 4
  {
    (id + step) % 4
  }

  predicate NoneReady(s: Table)
    requires |s.state| == 4
  {
    forall i | 0 <= i < 4 :: s.state[i] != Ready
  }

  /** `next` is the first Ready slot after `id`, going round; `id` itself comes last. */
  predicate FirstReady(s: Table, id: nat, next: nat)
    requires |s.state| == 4 && id < 4
  {
    exists step: nat ::
      && 1 <= step <= 4 && next == Slot(id, step) && s.state[next] == Ready
      && forall k: nat | 1 <= k < step :: s.state[Slot(id, k)] != Ready
  }

  /** The states after the current task leaves as `left` and `next` runs. */
  function Switched(s: Table, left: State, next: nat): Table
    requires s.current.Cur? && s.current.id < |s.state| && next < |s.state|
  {
    Table(s.state[s.current.id := left][next := Running], Cur(next))
  }

  /** Every slot is `k` steps round from `id` for some k in 1..4. */
  lemma Reaches(id: nat, i: nat)
    requires id < 4 && i < 4
    ensures exists step: nat :: 1 <= step <= 4 && i == Slot(id, step)
  {
    assert i == Slot(id, (if i > id then i - id else i + 4 - id));
  }

  // --- the static table --------------------------------------------------------------------

  class Scheduler {
    var s: Table
    /** Each slot's trap frame, `kstack_top - 272`. */
    const frames: seq<int>

    /** `init` of the default image: the application in slot 3, the rest Exited. */
    constructor (fs: seq<int>)
      requires |fs| == MAX_TASKS
      ensures Ok(s) && s.current == NoTask && frames == fs && s.state == [Exited, Exited, Exited, Ready]
    {
      s, frames := Table([Exited, Exited, Exited, Ready], NoTask), fs;
    }

    predicate Valid()
      reads this
    {
      Ok(s) && |frames| == 4
    }

    /** `next_ready_after`. */
    method NextReadyAfter(id: nat) returns (r: Outcome<nat>)
      requires |s.state| == 4 && id < 4
      ensures r.Done? ==> r.value < 4 && FirstReady(s, id, r.value)
      ensures r.Panic? <==> NoneReady(s)
    {
      for step := 1 to 5
        invariant forall k: nat | 1 <= k < step :: s.state[Slot(id, k)] != Ready
      {
        var cand := Slot(id, step);
        if s.state[cand] == Ready {
          return Done(cand);
        }
      }
      forall i | 0 <= i < 4
        ensures s.state[i] != Ready
      {
        Reaches(id, i);
      }
      r := Panic;
    }

    /** `run`. */
    method Run(id: nat) returns (f: int)
      requires id < 4 && |s.state| == 4 && |frames| == 4
      modifies this
      ensures s == Table(old(s).state[id := Running], Cur(id)) && f == frames[id]
    {
      s := s.(state := s.state[id := Running]);
      s := s.(current := Cur(id));
      f := frames[id];
    }

    /** `preempt`: panics exactly when no task is current or the frame is not its
        own; otherwise the next Ready task runs, or the same one if it is alone. */
    method Preempt(frame: int) returns (r: Outcome<int>)
      requires Valid()
      modifies this
      ensures Valid()
      ensures r.Panic? <==> old(s).current == NoTask || frame != frames[old(s).current.id]
      ensures r.Panic? ==> s == old(s)
      ensures r.Done? ==> SwitchedTo(old(s), Ready, s, frames, r.value)
    {
      if s.current == NoTask {
        return Panic;
      }
      var cur := s.current.id;
      if frames[cur] != frame {
        return Panic;
      }
      s := s.(state := s.state[cur := Ready]);
      var next := NextReadyAfter(cur);
      assert s.state[cur] == Ready;
      var id := if next.Done? then next.value else cur;
      PickedOk(old(s), Ready, id, frames);
      var f := Run(id);
      r := Done(f);
    }

    /** `mark_exited` then `after_exit`: exit and kill. Nobody left is the end. */
    method ExitCurrent() returns (r: Outcome<int>)
      requires Valid() && s.current.Cur?
      modifies this
      ensures Valid()
      ensures r.Done? ==> SwitchedTo(old(s), Exited, s, frames, r.value)
      ensures r.Panic? <==> NoneReady(old(s))
      ensures r.Panic? ==> s == Table(old(s).state[old(s).current.id := Exited], NoTask)
    {
      var id := s.current.id;
      s := s.(state := s.state[id := Exited]);
      s := s.(current := NoTask);
      var next := NextReadyAfter(id);
      SameReady(old(s), s);
      if next.Panic? {
        return Panic;
      }
      PickedOk(old(s), Exited, next.value, frames);
      var f := Run(next.value);
      r := Done(f);
    }

    /** `enter`, up to the jump into the return path. */
    method Enter(id: nat) returns (f: int)
      requires Valid() && id < 4 && s.current == NoTask
      modifies this
      ensures Valid() && s == Table(old(s).state[id := Running], Cur(id)) && f == frames[id]
    {
      f := Run(id);
    }
  }

  /** The current task left as `left`; the first Ready one after it runs. */
  ghost predicate SwitchedTo(s: Table, left: State, s': Table, frames: seq<int>, f: int) {
    && |s.state| == 4 && |frames| == 4 && s.current.Cur? && s.current.id < 4
    && s'.current.Cur? && s'.current.id < 4
    && FirstReady(s.(state := s.state[s.current.id := left]), s.current.id, s'.current.id)
    && s' == Switched(s, left, s'.current.id) && f == frames[s'.current.id]
  }

  /** The running task was not Ready, so its exit changes nobody's readiness. */
  lemma SameReady(s: Table, s': Table)
    requires Ok(s) && s.current.Cur? && s'.state == s.state[s.current.id := Exited]
    ensures NoneReady(s) <==> NoneReady(s')
  {
    if NoneReady(s') {
      forall i | 0 <= i < 4
        ensures s.state[i] != Ready
      {
        assert s'.state[i] != Ready;
      }
    }
  }

  lemma PickedOk(s: Table, left: State, next: nat, frames: seq<int>)
    requires Ok(s) && s.current.Cur? && next < 4 && left != Running && |frames| == 4
    requires FirstReady(s.(state := s.state[s.current.id := left]), s.current.id, next)
    ensures Ok(Switched(s, left, next)) && SwitchedTo(s, left, Switched(s, left, next), frames, frames[next])
  {
  }

  // --- runs --------------------------------------------------------------------------------

  /** A tick or `yield` keeps the task Ready; `exit` and a fault end it. */
  datatype Event = Slice | Leave

  function Left(e: Event): State { if e.Slice? then Ready else Exited }

  /** One scheduling event that finds somebody to run. */
  ghost predicate Step(s: Table, e: Event, s': Table) {
    && |s.state| == 4 && s.current.Cur? && s.current.id < 4 && s'.current.Cur? && s'.current.id < 4
    && FirstReady(s.(state := s.state[s.current.id := Left(e)]), s.current.id, s'.current.id)
    && s' == Switched(s, Left(e), s'.current.id)
  }

  lemma StepOk(s: Table, e: Event, s': Table)
    requires Step(s, e, s') && Ok(s)
    ensures Ok(s')
    ensures forall i | 0 <= i < 4 && s.state[i] == Exited :: s'.state[i] == Exited
    ensures forall i | 0 <= i < 4 && s.state[i] == Ready && s'.current != Cur(i) :: s'.state[i] == Ready
    ensures s.state[s'.current.id] != Exited
  {
  }

  ghost predicate Runs(ss: seq<Table>, es: seq<Event>) {
    && |ss| == |es| + 1
    && forall k | 0 <= k < |es| :: Step(ss[k], es[k], ss[k + 1])
  }

  /** Over every run, at most one task is Running and `current` names it, and an
      Exited task stays Exited, so it never runs again. */
  lemma {:induction false} RunOk(ss: seq<Table>, es: seq<Event>, i: nat)
    requires Runs(ss, es) && Ok(ss[0]) && i < 4
    ensures forall k | 0 <= k < |ss| :: Ok(ss[k])
    ensures ss[0].state[i] == Exited ==>
              forall k | 0 <= k < |ss| :: Ok(ss[k]) && ss[k].state[i] == Exited && ss[k].current != Cur(i)
    decreases |es|
  {
    if es != [] {
      assert Step(ss[0], es[0], ss[1]);
      StepOk(ss[0], es[0], ss[1]);
      Tail(ss, es);
      RunOk(ss[1..], es[1..], i);
      forall k | 0 <= k < |ss|
        ensures Ok(ss[k]) && (ss[0].state[i] == Exited ==> ss[k].state[i] == Exited && ss[k].current != Cur(i))
      {
        if k > 0 {
          assert ss[1..][k - 1] == ss[k];
        }
      }
    }
  }

  lemma Tail(ss: seq<Table>, es: seq<Event>)
    requires Runs(ss, es) && es != []
    ensures Runs(ss[1..], es[1..]) && ss[1..][0] == ss[1]
  {
    forall k | 0 <= k < |es| - 1
      ensures Step(ss[1..][k], es[1..][k], ss[1..][k + 1])
    {
      assert Step(ss[k + 1], es[k + 1], ss[k + 2]);
    }
  }

  /** How many slots round from `from` to `to`, at least one. */
  function Distance(from: nat, to: nat): (d: nat)
    requires from < 4 && to < 4
    ensures 1 <= d <= 4 && Slot(from, d) == to
  {
    if to > from then to - from else to + 4 - from
  }

  lemma DistanceUnique(from: nat, to: nat, d: nat)
    requires from < 4 && to < 4 && 1 <= d <= 4 && Slot(from, d) == to
    ensures d == Distance(from, to)
  {
  }

  lemma SlotOn(id: nat, k: nat, d: nat)
    requires id < 4 && k < d <= 4
    ensures Slot(Slot(id, k), d - k) == Slot(id, d)
  {
  }

  /** While a task waits Ready, every switch either runs it or brings the running
      task strictly nearer to it. */
  lemma Nearer(s: Table, e: Event, s': Table, i: nat)
    requires Step(s, e, s') && Ok(s) && i < 4 && s.state[i] == Ready
    ensures s'.current == Cur(i) || Distance(s'.current.id, i) < Distance(s.current.id, i)
  {
    var c, n := s.current.id, s'.current.id;
    var t := s.(state := s.state[c := Left(e)]);
    var step: nat :| 1 <= step <= 4 && n == Slot(c, step) && t.state[n] == Ready
                     && forall k: nat | 1 <= k < step :: t.state[Slot(c, k)] != Ready;
    var d := Distance(c, i);
    assert t.state[i] == Ready;
    assert step <= d;
    if step < d {
      SlotOn(c, step, d);
      DistanceUnique(n, i, d - step);
    }
  }

  /** A task that waits Ready runs within `MAX_TASKS - 1` switches. */
  lemma {:induction false} Fair(ss: seq<Table>, es: seq<Event>, i: nat)
    requires Runs(ss, es) && Ok(ss[0]) && i < 4 && ss[0].state[i] == Ready && ss[0].current.Cur?
    requires |es| >= Distance(ss[0].current.id, i)
    ensures exists k :: 1 <= k <= Distance(ss[0].current.id, i) <= 3 && ss[k].current == Cur(i)
    decreases Distance(ss[0].current.id, i)
  {
    assert Distance(ss[0].current.id, i) <= 3;
    assert Step(ss[0], es[0], ss[1]);
    StepOk(ss[0], es[0], ss[1]);
    Nearer(ss[0], es[0], ss[1], i);
    if ss[1].current != Cur(i) {
      Tail(ss, es);
      Fair(ss[1..], es[1..], i);
      var k :| 1 <= k <= Distance(ss[1].current.id, i) && ss[1..][k].current == Cur(i);
      assert ss[k + 1].current == Cur(i);
    }
  }
}
