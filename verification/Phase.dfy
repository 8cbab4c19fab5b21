/** The phase dump: printed by the kernel (src/phase.rs), checked by the bench
    script (scripts/bench.py). */
module Phase {
  import opened Ram

  const START: nat := 0
  const STAMP_A: nat := 1
  const STAMP_B: nat := 2
  const E3G: nat := 20
  const TICK_NS: int := 100

  /** One reading of the cycle counter per phase; zero is unset. */
  predicate Stamps(s: seq<int>) { |s| == 22 && forall i | 0 <= i < 22 :: 0 <= s[i] < 0x1_0000_0000_0000_0000 }

  // --- the order of the rows ------------------------------------------------------------

  predicate InRange(o: seq<nat>) { forall k | 0 <= k < |o| :: o[k] < 22 }

  /** Earlier, or at the same tick and earlier in the table. */
  predicate Before(s: seq<int>, a: nat, b: nat)
    requires |s| == 22 && a < 22 && b < 22
  {
    s[a] < s[b] || (s[a] == s[b] && a < b)
  }

  /** Stable time order. */
  predicate Sorted(s: seq<int>, o: seq<nat>)
    requires |s| == 22 && InRange(o)
  {
    forall j, k | 0 <= j < k < |o| :: Before(s, o[j], o[k])
  }

  predicate Ascending(o: seq<nat>) { forall j, k | 0 <= j < k < |o| :: o[j] < o[k] }

  ghost predicate SameElements(a: seq<nat>, b: seq<nat>) { forall v :: v in a <==> v in b }

  /** The stamps that are set, in table order. */
  predicate SetOnes(s: seq<int>, o: seq<nat>)
    requires |s| == 22
  {
    Ascending(o) && InRange(o) && forall i: nat | i < 22 :: i in o <==> s[i] != 0
  }

  method Collect(s: seq<int>, order: array<nat>) returns (n: nat)
    requires Stamps(s) && order.Length == 22
    modifies order
    ensures n <= 22 && SetOnes(s, order[..n])
  {
    n := 0;
    for i := 0 to 22
      invariant n <= i && Ascending(order[..n]) && InRange(order[..n])
      invariant forall k | 0 <= k < n :: order[k] < i
      invariant forall v: nat | v < i :: v in order[..n] <==> s[v] != 0
    {
      if s[i] == 0 {
        continue;
      }
      ghost var was := order[..n];
      order[n] := i;
      n := n + 1;
      assert order[..n] == was + [i];
    }
  }

  /** Everything but position `j` is in order, and `j` comes before what follows it. */
  predicate Sinking(s: seq<int>, o: seq<nat>, j: nat)
    requires |s| == 22 && InRange(o) && j < |o|
  {
    && (forall a, b | 0 <= a < b < |o| && a != j && b != j :: Before(s, o[a], o[b]))
    && (forall b | j < b < |o| :: Before(s, o[j], o[b]))
    && (forall a | 0 <= a < |o| && a != j :: o[a] < o[j])
  }

  lemma SinkOne(s: seq<int>, o: seq<nat>, j: nat)
    requires |s| == 22 && InRange(o) && 0 < j < |o| && Sinking(s, o, j) && s[o[j]] < s[o[j - 1]]
    ensures var o' := o[j := o[j - 1]][j - 1 := o[j]]; InRange(o') && Sinking(s, o', j - 1) && SameElements(o, o')
  {
    var o' := o[j := o[j - 1]][j - 1 := o[j]];
    forall v
      ensures v in o <==> v in o'
    {
      if v in o {
        var k :| 0 <= k < |o| && o[k] == v;
        assert o'[if k == j then j - 1 else if k == j - 1 then j else k] == v;
      }
      if v in o' {
        var k :| 0 <= k < |o| && o'[k] == v;
        assert o[if k == j then j - 1 else if k == j - 1 then j else k] == v;
      }
    }
  }

  lemma SunkSorted(s: seq<int>, o: seq<nat>, j: nat)
    requires |s| == 22 && InRange(o) && j < |o| && Sinking(s, o, j) && (j == 0 || s[o[j]] >= s[o[j - 1]])
    ensures Sorted(s, o)
  {
    if j > 0 {
      forall a | 0 <= a < j
        ensures Before(s, o[a], o[j])
      {
        assert a < j - 1 ==> Before(s, o[a], o[j - 1]);
      }
    }
  }

  /** One pass of the insertion sort: element `i` sinks to its place. */
  method Insert(s: seq<int>, order: array<nat>, i: nat)
    requires |s| == 22 && i < order.Length && InRange(order[..i + 1]) && Sorted(s, order[..i])
    requires forall a | 0 <= a < i :: order[a] < order[i]
    modifies order
    ensures InRange(order[..i + 1]) && Sorted(s, order[..i + 1])
    ensures SameElements(old(order[..i + 1]), order[..i + 1])
    ensures forall a | i < a < order.Length :: order[a] == old(order[a])
  {
    hide Before;
    var j: nat := i;
    StartSinking(s, order[..i + 1]);
    while j > 0 && s[order[j]] < s[order[j - 1]]
      invariant j <= i && InRange(order[..i + 1]) && Sinking(s, order[..i + 1], j)
      invariant SameElements(old(order[..i + 1]), order[..i + 1])
      invariant forall a | i < a < order.Length :: order[a] == old(order[a])
    {
      ghost var o := order[..i + 1];
      SinkOne(s, o, j);
      order[j], order[j - 1] := order[j - 1], order[j];
      assert order[..i + 1] == o[j := o[j - 1]][j - 1 := o[j]];
      j := j - 1;
    }
    SunkSorted(s, order[..i + 1], j);
  }

  lemma StartSinking(s: seq<int>, o: seq<nat>)
    requires |s| == 22 && o != [] && InRange(o) && InRange(o[..|o| - 1]) && Sorted(s, o[..|o| - 1])
    requires forall a | 0 <= a < |o| - 1 :: o[a] < o[|o| - 1]
    ensures Sinking(s, o, |o| - 1)
  {
    hide Before;
    var p := o[..|o| - 1];
    forall a, b | 0 <= a < b < |o| && a != |o| - 1 && b != |o| - 1
      ensures Before(s, o[a], o[b])
    {
      assert p[a] == o[a] && p[b] == o[b];
    }
  }

  /** The in-place sort: stable time order, the same rows. */
  method SortOrder(s: seq<int>, order: array<nat>, n: nat)
    requires |s| == 22 && n <= order.Length && InRange(order[..n]) && Ascending(order[..n])
    modifies order
    ensures InRange(order[..n]) && Sorted(s, order[..n]) && SameElements(old(order[..n]), order[..n])
  {
    hide Before, Sorted, SameElements;
    ghost var was := order[..n];
    if n == 0 {
      SortedOne(s, was, 0);
      SameSelf(was);
      assert was[..0] == was;
      return;
    }
    var i := 1;
    SortedOne(s, was, 1);
    SameSelf(was);
    assert was[..1] == order[..1];
    while i < n
      invariant 1 <= i <= n && InRange(order[..i]) && Sorted(s, order[..i])
      invariant order[i..n] == was[i..] && SameElements(was[..i], order[..i])
    {
      ghost var now := order[..n];
      assert now[..i] == order[..i] && now[i..] == order[i..n] && now[..i + 1] == order[..i + 1];
      NextUp(was, now, i);
      Insert(s, order, i);
      assert now[..i + 1][..i] == now[..i];
      ElementsGrow(was, now[..i + 1], order[..i + 1], i);
      assert was[i..][1..] == was[i + 1..] && now[i..][1..] == now[i + 1..];
      assert order[i + 1..n] == now[i + 1..];
      i := i + 1;
    }
    assert was[..n] == was;
  }

  lemma SameSelf(o: seq<nat>)
    ensures SameElements(o, o) && (o != [] ==> SameElements(o[..1], o[..1]))
  {
  }

  lemma SortedOne(s: seq<int>, o: seq<nat>, k: nat)
    requires |s| == 22 && InRange(o) && k <= |o| && k <= 1
    ensures InRange(o[..k]) && Sorted(s, o[..k])
  {
  }

  lemma NextUp(was: seq<nat>, now: seq<nat>, i: nat)
    requires |was| == |now| && 0 < i < |was| && Ascending(was) && InRange(was) && now[i..] == was[i..]
    requires SameElements(was[..i], now[..i]) && InRange(now[..i])
    ensures InRange(now[..i + 1]) && now[i] == was[i] && forall a | 0 <= a < i :: now[a] < now[i]
  {
    assert now[i] == now[i..][0] == was[i];
    forall a | 0 <= a < i
      ensures now[a] < now[i]
    {
      assert now[..i][a] in was[..i];
    }
  }

  lemma ElementsGrow(was: seq<nat>, before: seq<nat>, after: seq<nat>, i: nat)
    requires i < |was| && |before| == |after| == i + 1 && before[i] == was[i]
    requires SameElements(was[..i], before[..i]) && SameElements(before, after)
    ensures SameElements(was[..i + 1], after)
  {
    assert was[..i + 1] == was[..i] + [was[i]];
    assert before == before[..i] + [before[i]];
  }

  // --- the dump ---------------------------------------------------------------------------

  datatype Row = Row(phase: nat, ticks: int, since: int, sinceNs: int, delta: int, deltaNs: int)

  /** `unset` lines come first, then the rows in time order. */
  datatype Dump = Dump(unset: bool, rows: seq<Row>)

  /** A difference of ticks in nanoseconds, as printed: 64 bits, wrapping. */
  function Nanos(ticks: int): int { Mod64(Mod64(ticks) * TICK_NS) }

  function RowOf(s: seq<int>, i: nat, last: int): Row
    requires |s| == 22 && i < 22
  {
    Row(i, s[i], Mod64(s[i] - s[START]), Nanos(s[i] - s[START]), Mod64(s[i] - last), Nanos(s[i] - last))
  }

  /** The rows for `o`, each delta taken from the row before it. */
  predicate RowsOf(s: seq<int>, o: seq<nat>, rows: seq<Row>)
    requires |s| == 22 && InRange(o)
  {
    && |rows| == |o|
    && forall k | 0 <= k < |o| :: rows[k] == RowOf(s, o[k], if k == 0 then s[START] else s[o[k - 1]])
  }

  /** The dump of a set of stamps: the set ones in stable time order `o`. */
  predicate Printed(s: seq<int>, o: seq<nat>, d: Dump) {
    && Stamps(s) && InRange(o) && Sorted(s, o) && (forall i: nat | i < 22 :: i in o <==> s[i] != 0)
    && (d.unset <==> exists i :: 0 <= i < 22 && s[i] == 0) && RowsOf(s, o, d.rows)
  }

  /** The sorted dump of a set of stamps. */
  method Print(s: seq<int>) returns (d: Dump, o: seq<nat>)
    requires Stamps(s)
    ensures Printed(s, o, d)
  {
    hide Before, RowOf, Sorted, RowsOf;
    var order := new nat[22];
    var n := Collect(s, order);
    SortOrder(s, order, n);
    o := order[..n];
    var rows := PrintRows(s, o);
    d := Dump(exists i :: 0 <= i < 22 && s[i] == 0, rows);
  }

  method PrintRows(s: seq<int>, order: seq<nat>) returns (rows: seq<Row>)
    requires |s| == 22 && InRange(order)
    ensures RowsOf(s, order, rows)
  {
    hide RowOf;
    var last := s[START];
    rows := [];
    for k := 0 to |order|
      invariant |rows| == k && last == (if k == 0 then s[START] else s[order[k - 1]])
      invariant forall j | 0 <= j < k :: rows[j] == RowOf(s, order[j], if j == 0 then s[START] else s[order[j - 1]])
    {
      rows := rows + [RowOf(s, order[k], last)];
      last := s[order[k]];
    }
  }

  /** The stamp array and the printed flag. */
  class PhaseLog {
    var stamps: seq<int>
    var printed: bool

    ghost predicate Valid()
      reads this
    {
      Stamps(stamps)
    }

    /** The reading the first instructions take is stored once the array is zero. */
    constructor (start: Word)
      ensures Valid() && stamps[START] == start && !printed && forall i | 0 < i < 22 :: stamps[i] == 0
    {
      stamps := seq(22, i => if i == START then start else 0);
      printed := false;
    }

    /** `stamp`: the first reading of a phase stays; out of range panics. */
    method Stamp(i: nat, now: Word) returns (r: Outcome<()>)
      requires Valid()
      modifies this
      ensures Valid() && printed == old(printed) && (r.Panic? <==> i >= 22)
      ensures forall j | 0 <= j < 22 && old(stamps)[j] != 0 :: stamps[j] == old(stamps)[j]
      ensures i < 22 && old(stamps)[i] == 0 ==> stamps[i] == now
      ensures forall j | 0 <= j < 22 && j != i :: stamps[j] == old(stamps)[j]
    {
      if i >= 22 {
        return Panic;
      }
      if stamps[i] == 0 {
        stamps := stamps[i := now];
      }
      r := Done(());
    }

    /** `print_after_response`: at most once, and only with E3g stamped. */
    method PrintAfterResponse() returns (d: Option<Dump>, o: seq<nat>)
      requires Valid()
      modifies this
      ensures Valid() && stamps == old(stamps)
      ensures d.Some? <==> !old(printed) && stamps[E3G] != 0
      ensures printed == (old(printed) || d.Some?)
      ensures d.Some? ==> Printed(stamps, o, d.value)
    {
      hide Printed;
      if printed {
        return None, [];
      }
      if stamps[E3G] == 0 {
        return None, [];
      }
      printed := true;
      var dump;
      dump, o := Print(stamps);
      d := Some(dump);
    }
  }

  // --- the parser -----------------------------------------------------------------------------

  predicate Has(rows: seq<Row>, phase: nat) { exists k :: 0 <= k < |rows| && rows[k].phase == phase }

  /** The one row of a phase. */
  function Find(rows: seq<Row>, phase: nat): (r: Row)
    requires Has(rows, phase)
    ensures r in rows && r.phase == phase
    decreases rows
  {
    if rows[0].phase == phase then rows[0] else assert Has(rows[1..], phase) by { Later(rows, phase); } Find(rows[1..], phase)
  }

  lemma Later(rows: seq<Row>, phase: nat)
    requires Has(rows, phase) && rows[0].phase != phase
    ensures Has(rows[1..], phase)
  {
    var k :| 0 <= k < |rows| && rows[k].phase == phase;
    assert rows[1..][k - 1].phase == phase;
  }

  /** The deltas of the rows not after `limit`. */
  function SumUpTo(rows: seq<Row>, limit: int): int {
    if rows == [] then 0
    else (if rows[|rows| - 1].sinceNs <= limit then rows[|rows| - 1].deltaNs else 0) + SumUpTo(rows[..|rows| - 1], limit)
  }

  function Abs(x: int): int { if x < 0 then -x else x }

  function Max(a: int, b: int): int { if a < b then b else a }

  /** `parse_phases` with `assert_phases_sum_to_e3g`. */
  predicate Parses(d: Dump) {
    && !d.unset && d.rows != [] && d.rows[0].phase == START
    && Has(d.rows, E3G) && Has(d.rows, STAMP_A) && Has(d.rows, STAMP_B)
    && var e := Find(d.rows, E3G).sinceNs;
       Abs(SumUpTo(d.rows, e) - e) <= Max(Find(d.rows, STAMP_B).deltaNs, TICK_NS)
  }

  // --- the kernel's dump is accepted -------------------------------------------------------------

  predicate StartFirst(s: seq<int>)
    requires |s| == 22
  {
    forall i | 0 <= i < 22 :: s[START] <= s[i]
  }

  /** Stamp `i` comes less than 2^64 nanoseconds after the start. */
  predicate InNanos(s: seq<int>, i: nat)
    requires |s| == 22 && i < 22
  {
    (s[i] - s[START]) * TICK_NS < 0x1_0000_0000_0000_0000
  }

  lemma RowExact(s: seq<int>, i: nat, last: int)
    requires Stamps(s) && i < 22 && s[START] <= last <= s[i] && InNanos(s, i)
    ensures RowOf(s, i, last) == Row(i, s[i], s[i] - s[START], (s[i] - s[START]) * 100, s[i] - last, (s[i] - last) * 100)
  {
  }

  /** At every row the deltas so far add up to the time since the start. */
  lemma {:induction false} Telescope(s: seq<int>, o: seq<nat>, rows: seq<Row>, limit: int, k: nat)
    requires Stamps(s) && InRange(o) && Sorted(s, o) && RowsOf(s, o, rows) && StartFirst(s)
    requires k <= |rows| && (forall j | 0 <= j < k :: InNanos(s, o[j]) && rows[j].sinceNs <= limit)
    ensures SumUpTo(rows[..k], limit) == if k == 0 then 0 else (s[o[k - 1]] - s[START]) * 100
    decreases k
  {
    hide Mod64, Before, RowOf, InNanos;
    if k > 0 {
      assert rows[..k][..k - 1] == rows[..k - 1];
      Telescope(s, o, rows, limit, k - 1);
      Steps(s, o, k - 1);
      var j := k - 1;
      assert rows[..k][j] == rows[j] == RowOf(s, o[j], if j == 0 then s[START] else s[o[j - 1]]);
      RowExact(s, o[j], if j == 0 then s[START] else s[o[j - 1]]);
    }
  }

  lemma Steps(s: seq<int>, o: seq<nat>, k: nat)
    requires |s| == 22 && InRange(o) && Sorted(s, o) && StartFirst(s) && k < |o|
    ensures s[START] <= (if k == 0 then s[START] else s[o[k - 1]]) <= s[o[k]]
  {
    if k > 0 {
      assert Before(s, o[k - 1], o[k]);
    }
  }

  lemma SinceOf(s: seq<int>, o: seq<nat>, rows: seq<Row>, k: nat)
    requires Stamps(s) && InRange(o) && Sorted(s, o) && RowsOf(s, o, rows) && StartFirst(s) && k < |rows| && InNanos(s, o[k])
    ensures rows[k].sinceNs == (s[o[k]] - s[START]) * 100 && rows[k].phase == o[k]
  {
    hide Mod64, Before, RowOf, Sorted, InNanos;
    Steps(s, o, k);
    RowExact(s, o[k], if k == 0 then s[START] else s[o[k - 1]]);
  }

  /** How many rows are at or before time `t`. */
  function CountUpTo(s: seq<int>, o: seq<nat>, t: int): (k: nat)
    requires |s| == 22 && InRange(o) && Sorted(s, o)
    ensures k <= |o| && (forall j | 0 <= j < k :: s[o[j]] <= t) && (forall j | k <= j < |o| :: s[o[j]] > t)
    decreases o
  {
    if o == [] then 0
    else if s[o[|o| - 1]] <= t then
      assert forall j | 0 <= j < |o| - 1 :: Before(s, o[j], o[|o| - 1]);
      |o|
    else CountUpTo(s, o[..|o| - 1], t)
  }

  /** Up to E3g's tick the sum check finds exactly the time from start to E3g,
      equal stamps or not. */
  lemma SumExact(s: seq<int>, o: seq<nat>, rows: seq<Row>)
    requires Stamps(s) && InRange(o) && Sorted(s, o) && RowsOf(s, o, rows) && StartFirst(s) && InNanos(s, E3G) && E3G in o
    ensures var k := CountUpTo(s, o, s[E3G]);
            SumUpTo(rows[..k], (s[E3G] - s[START]) * 100) == (s[E3G] - s[START]) * 100
  {
    hide Mod64, Before, RowOf, Sorted, SumUpTo;
    var limit := (s[E3G] - s[START]) * 100;
    var k := CountUpTo(s, o, s[E3G]);
    forall j | 0 <= j < k
      ensures InNanos(s, o[j]) && rows[j].sinceNs <= limit
    {
      SinceOf(s, o, rows, j);
    }
    Telescope(s, o, rows, limit, k);
    var p :| 0 <= p < |o| && o[p] == E3G;
    assert p < k;
    LastAt(s, o, p, k);
  }

  lemma LastAt(s: seq<int>, o: seq<nat>, p: nat, k: nat)
    requires |s| == 22 && InRange(o) && Sorted(s, o) && p < k <= |o| && (forall j | 0 <= j < k :: s[o[j]] <= s[o[p]])
    ensures s[o[k - 1]] == s[o[p]]
  {
    if p < k - 1 {
      assert Before(s, o[p], o[k - 1]);
    }
  }

  /** The time of the row before phase `i`, among the first `n` phases; the start if
      there is none. */
  function Previous(s: seq<int>, i: nat, n: nat): (p: int)
    requires |s| == 22 && i < 22 && n <= 22
    ensures p >= s[START] && forall j: nat | j < n && Before(s, j, i) :: s[j] <= p
    ensures p == s[START] || exists j: nat :: j < n && Before(s, j, i) && s[j] == p
  {
    if n == 0 then s[START]
    else
      var p := Previous(s, i, n - 1);
      if Before(s, n - 1, i) && s[n - 1] > p then s[n - 1] else p
  }

  /** What phase `i` adds to the sum check: its wrapped delta, if its wrapped time since
      the start is not after `limit`. */
  function Share(s: seq<int>, i: nat, limit: int): int
    requires |s| == 22 && i < 22
  {
    if Nanos(s[i] - s[START]) <= limit then Nanos(s[i] - Previous(s, i, 22)) else 0
  }

  function Counted(s: seq<int>, limit: int, n: nat): int
    requires |s| == 22 && n <= 22
  {
    if n == 0 then 0 else Counted(s, limit, n - 1) + Share(s, n - 1, limit)
  }

  /** The part of it that comes from stamps after E3g. */
  function Late(s: seq<int>, limit: int, n: nat): int
    requires |s| == 22 && n <= 22
  {
    if n == 0 then 0 else Late(s, limit, n - 1) + (if s[n - 1] > s[E3G] then Share(s, n - 1, limit) else 0)
  }

  /** The tolerance of the sum check: stamp_b's own delta, at least one tick. */
  function Slack(s: seq<int>): int
    requires |s| == 22
  {
    Max(Nanos(s[STAMP_B] - Previous(s, STAMP_B, 22)), TICK_NS)
  }

  /** Row order is only an order: the row before phase `o[k]` is at `Previous`. */
  lemma PreviousIs(s: seq<int>, o: seq<nat>, k: nat)
    requires |s| == 22 && InRange(o) && Sorted(s, o) && StartFirst(s) && k < |o| && forall i: nat | i < 22 :: i in o
    ensures Previous(s, o[k], 22) == if k == 0 then s[START] else s[o[k - 1]]
  {
    hide Previous;
    var p := Previous(s, o[k], 22);
    if k > 0 {
      assert Before(s, o[k - 1], o[k]);
    }
    if p != s[START] {
      var j: nat :| j < 22 && Before(s, j, o[k]) && s[j] == p;
      assert j in o;
      var m :| 0 <= m < |o| && o[m] == j;
      assert m < k;
      assert m < k - 1 ==> Before(s, o[m], o[k - 1]);
    }
  }

  /** The sum over the phases in `o`, in table order. */
  function Part(s: seq<int>, limit: int, o: seq<nat>, n: nat): int
    requires |s| == 22 && n <= 22
  {
    if n == 0 then 0 else Part(s, limit, o, n - 1) + (if n - 1 in o then Share(s, n - 1, limit) else 0)
  }

  lemma {:induction false} PartAdd(s: seq<int>, limit: int, o: seq<nat>, x: nat, n: nat)
    requires |s| == 22 && n <= 22 && x < 22 && x !in o
    ensures Part(s, limit, o + [x], n) == Part(s, limit, o, n) + if x < n then Share(s, x, limit) else 0
    decreases n
  {
    hide Share;
    if n > 0 {
      PartAdd(s, limit, o, x, n - 1);
      assert n - 1 in o + [x] <==> n - 1 in o || n - 1 == x;
    }
  }

  lemma {:induction false} PartNone(s: seq<int>, limit: int, n: nat)
    requires |s| == 22 && n <= 22
    ensures Part(s, limit, [], n) == 0
    decreases n
  {
    if n > 0 {
      PartNone(s, limit, n - 1);
    }
  }

  lemma {:induction false} PartAll(s: seq<int>, limit: int, o: seq<nat>, n: nat)
    requires |s| == 22 && n <= 22 && forall i: nat | i < 22 :: i in o
    ensures Part(s, limit, o, n) == Counted(s, limit, n)
    decreases n
  {
    hide Share;
    if n > 0 {
      PartAll(s, limit, o, n - 1);
    }
  }

  lemma {:induction false} PartLate(s: seq<int>, limit: int, o: seq<nat>, n: nat)
    requires |s| == 22 && n <= 22 && forall i: nat | i < 22 :: i in o <==> s[i] <= s[E3G]
    ensures Part(s, limit, o, n) + Late(s, limit, n) == Counted(s, limit, n)
    decreases n
  {
    hide Share;
    if n > 0 {
      PartLate(s, limit, o, n - 1);
    }
  }

  /** The sum over the first rows is the sum over their phases, whatever the order. */
  lemma {:induction false} RowsPart(s: seq<int>, o: seq<nat>, rows: seq<Row>, limit: int, k: nat)
    requires |s| == 22 && InRange(o) && Sorted(s, o) && RowsOf(s, o, rows) && StartFirst(s) && k <= |rows|
    requires forall i: nat | i < 22 :: i in o
    ensures SumUpTo(rows[..k], limit) == Part(s, limit, o[..k], 22)
    decreases k
  {
    hide Before, Nanos, Part, Previous, Sorted, RowsOf;
    RowCount(s, o, rows);
    if k == 0 {
      PartNone(s, limit, 22);
      assert o[..k] == [];
    } else {
      var j := k - 1;
      assert rows[..k][..j] == rows[..j] && rows[..k][j] == rows[j];
      RowsPart(s, o, rows, limit, j);
      PreviousIs(s, o, j);
      RowIs(s, o, rows, j);
      NotEarlier(s, o, j);
      PartAdd(s, limit, o[..j], o[j], 22);
      assert o[..k] == o[..j] + [o[j]];
    }
  }

  lemma RowIs(s: seq<int>, o: seq<nat>, rows: seq<Row>, k: nat)
    requires |s| == 22 && InRange(o) && RowsOf(s, o, rows) && k < |o|
    ensures |rows| == |o| && rows[k] == RowOf(s, o[k], if k == 0 then s[START] else s[o[k - 1]])
  {
    hide RowOf;
  }

  lemma NotEarlier(s: seq<int>, o: seq<nat>, k: nat)
    requires |s| == 22 && InRange(o) && Sorted(s, o) && k < |o|
    ensures o[k] !in o[..k]
  {
    assert forall j | 0 <= j < k :: Before(s, o[j], o[k]);
  }

  lemma RowPhase(s: seq<int>, o: seq<nat>, rows: seq<Row>, k: nat)
    requires |s| == 22 && InRange(o) && RowsOf(s, o, rows) && k < |rows|
    ensures rows[k].phase == o[k]
  {
    hide Mod64;
    assert rows[k] == RowOf(s, o[k], if k == 0 then s[START] else s[o[k - 1]]);
  }

  lemma HasOf(s: seq<int>, o: seq<nat>, rows: seq<Row>, i: nat)
    requires |s| == 22 && InRange(o) && RowsOf(s, o, rows) && i in o
    ensures Has(rows, i) && Find(rows, i) in rows
  {
    var k :| 0 <= k < |o| && o[k] == i;
    RowPhase(s, o, rows, k);
  }

  lemma RowCount(s: seq<int>, o: seq<nat>, rows: seq<Row>)
    requires |s| == 22 && InRange(o) && RowsOf(s, o, rows)
    ensures |rows| == |o|
  {
  }

  lemma Least(s: seq<int>, o: seq<nat>, i: nat)
    requires |s| == 22 && InRange(o) && Sorted(s, o) && i in o
    ensures s[o[0]] < s[i] || (s[o[0]] == s[i] && o[0] <= i)
  {
    var p :| 0 <= p < |o| && o[p] == i;
    assert p == 0 || Before(s, o[0], o[p]);
  }

  lemma FirstRow(s: seq<int>, o: seq<nat>, rows: seq<Row>)
    requires |s| == 22 && InRange(o) && Sorted(s, o) && RowsOf(s, o, rows)
    requires forall i: nat | i < 22 :: i in o
    ensures rows != [] && (rows[0].phase == START <==> StartFirst(s))
  {
    hide RowsOf, Sorted, Before;
    assert START in o;
    RowCount(s, o, rows);
    RowPhase(s, o, rows, 0);
    Least(s, o, START);
    forall i: nat | i < 22
      ensures s[o[0]] < s[i] || (s[o[0]] == s[i] && o[0] <= i)
    {
      Least(s, o, i);
    }
  }

  /** The one row of phase `i`, found by name. */
  lemma FoundRow(s: seq<int>, o: seq<nat>, rows: seq<Row>, i: nat)
    requires |s| == 22 && InRange(o) && Sorted(s, o) && RowsOf(s, o, rows) && StartFirst(s) && i < 22
    requires forall i: nat | i < 22 :: i in o
    ensures Has(rows, i) && Find(rows, i).sinceNs == Nanos(s[i] - s[START])
    ensures Find(rows, i).deltaNs == Nanos(s[i] - Previous(s, i, 22))
  {
    hide Before, Nanos, Sorted, RowsOf, Previous;
    HasOf(s, o, rows, i);
    var f := Find(rows, i);
    var k :| 0 <= k < |rows| && rows[k] == f;
    RowCount(s, o, rows);
    RowPhase(s, o, rows, k);
    RowIs(s, o, rows, k);
    PreviousIs(s, o, k);
  }

  /** Exactly which dumps are accepted, as a condition on the stamps alone: every one is
      set, the start is earliest, and the wrapped deltas of the stamps whose wrapped time
      is not after E3g's add up to E3g's wrapped time within the tolerance. */
  lemma DumpAccepted(s: seq<int>, o: seq<nat>, d: Dump)
    requires Printed(s, o, d)
    ensures Parses(d) <==>
              && (forall i | 0 <= i < 22 :: s[i] != 0) && StartFirst(s)
              && var e := Nanos(s[E3G] - s[START]); Abs(Counted(s, e, 22) - e) <= Slack(s)
  {
    hide Before, Nanos, Sorted, RowsOf, SumUpTo, Find, Has, Counted, Previous;
    if !d.unset {
      FirstRow(s, o, d.rows);
      if StartFirst(s) {
        FoundRow(s, o, d.rows, E3G);
        FoundRow(s, o, d.rows, STAMP_A);
        FoundRow(s, o, d.rows, STAMP_B);
        var e := Nanos(s[E3G] - s[START]);
        RowsPart(s, o, d.rows, e, |d.rows|);
        RowCount(s, o, d.rows);
        assert d.rows[..|d.rows|] == d.rows && o[..|o|] == o;
        PartAll(s, e, o, 22);
      }
    }
  }

  /** With E3g within 2^64 nanoseconds of the start, what was counted is E3g's time plus
      what later stamps wrap round to. */
  lemma CountedNear(s: seq<int>, o: seq<nat>, d: Dump)
    requires Printed(s, o, d) && !d.unset && StartFirst(s) && InNanos(s, E3G)
    ensures var e := (s[E3G] - s[START]) * 100;
            Nanos(s[E3G] - s[START]) == e && Counted(s, e, 22) == e + Late(s, e, 22)
  {
    hide Before, Nanos, RowOf, Sorted, RowsOf, SumUpTo, Counted, Late, Part, InNanos, Previous;
    var e := (s[E3G] - s[START]) * 100;
    var k := CountUpTo(s, o, s[E3G]);
    SinceExact(s, E3G);
    SumExact(s, o, d.rows);
    RowCount(s, o, d.rows);
    RowsPart(s, o, d.rows, e, k);
    forall i: nat | i < 22
      ensures i in o[..k] <==> s[i] <= s[E3G]
    {
      InFirst(s, o, k, i);
    }
    PartLate(s, e, o[..k], 22);
  }

  lemma InFirst(s: seq<int>, o: seq<nat>, k: nat, i: nat)
    requires |s| == 22 && InRange(o) && i < 22 && i in o && k <= |o|
    requires (forall j | 0 <= j < k :: s[o[j]] <= s[E3G]) && (forall j | k <= j < |o| :: s[o[j]] > s[E3G])
    ensures i in o[..k] <==> s[i] <= s[E3G]
  {
    var m :| 0 <= m < |o| && o[m] == i;
    assert m < k ==> o[..k][m] == i;
  }

  lemma {:induction false} ShareSign(s: seq<int>, limit: int, n: nat)
    requires |s| == 22 && n <= 22
    ensures Late(s, limit, n) >= 0
    decreases n
  {
    if n > 0 {
      ShareSign(s, limit, n - 1);
    }
  }

  /** So then a dump is accepted exactly when every stamp is set, the start is earliest,
      and what later stamps wrap round to stays within the tolerance. */
  lemma DumpNear(s: seq<int>, o: seq<nat>, d: Dump)
    requires Printed(s, o, d) && InNanos(s, E3G)
    ensures Parses(d) <==>
              && (forall i | 0 <= i < 22 :: s[i] != 0) && StartFirst(s)
              && Late(s, (s[E3G] - s[START]) * 100, 22) <= Slack(s)
  {
    hide Nanos, Parses, Counted, Late, Slack, InNanos, Sorted, RowsOf;
    DumpAccepted(s, o, d);
    if !d.unset && StartFirst(s) {
      CountedNear(s, o, d);
      ShareSign(s, (s[E3G] - s[START]) * 100, 22);
    }
  }

  /** In particular, when no stamp is that late, all set and start first is all it takes. */
  lemma DumpInNanos(s: seq<int>, o: seq<nat>, d: Dump)
    requires Printed(s, o, d) && forall i: nat | i < 22 :: InNanos(s, i)
    ensures Parses(d) <==> (forall i | 0 <= i < 22 :: s[i] != 0) && StartFirst(s)
  {
    hide Printed, Parses, Late, Slack, InNanos;
    DumpNear(s, o, d);
    StampsOf(s, o, d);
    if StartFirst(s) {
      NothingLate(s, (s[E3G] - s[START]) * 100, 22);
      SlackTick(s);
    }
  }

  lemma StampsOf(s: seq<int>, o: seq<nat>, d: Dump)
    requires Printed(s, o, d)
    ensures Stamps(s)
  {
  }

  lemma SlackTick(s: seq<int>)
    requires |s| == 22
    ensures Slack(s) >= TICK_NS
  {
  }

  lemma {:induction false} NothingLate(s: seq<int>, limit: int, n: nat)
    requires Stamps(s) && StartFirst(s) && n <= 22 && limit == (s[E3G] - s[START]) * 100
    requires forall i: nat | i < 22 :: InNanos(s, i)
    ensures Late(s, limit, n) == 0
    decreases n
  {
    hide Nanos, InNanos, Previous;
    if n > 0 {
      NothingLate(s, limit, n - 1);
      SinceExact(s, n - 1);
    }
  }

  lemma SinceExact(s: seq<int>, i: nat)
    requires Stamps(s) && i < 22 && s[START] <= s[i] && InNanos(s, i)
    ensures Nanos(s[i] - s[START]) == (s[i] - s[START]) * 100
  {
  }

  // --- the order is unique, and a late stamp can spoil the dump ----------------------------------

  lemma {:induction false} SortedUnique(s: seq<int>, o: seq<nat>, o': seq<nat>)
    requires |s| == 22 && InRange(o) && InRange(o') && Sorted(s, o) && Sorted(s, o') && SameElements(o, o')
    ensures o == o'
    decreases |o|
  {
    if |o| + |o'| > 0 {
      BothNonempty(o, o');
      assert o[0] in o && o[0] in o';
      assert o'[0] in o;
      Least(s, o, o'[0]);
      Least(s, o', o[0]);
      TailElements(s, o, o');
      SortedUnique(s, o[1..], o'[1..]);
      assert o == [o[0]] + o[1..] && o' == [o'[0]] + o'[1..];
    }
  }

  lemma BothNonempty(o: seq<nat>, o': seq<nat>)
    requires SameElements(o, o') && |o| + |o'| > 0
    ensures o != [] && o' != []
  {
    assert |o| > 0 ==> o[0] in o';
    assert |o'| > 0 ==> o'[0] in o;
  }

  lemma TailElements(s: seq<int>, o: seq<nat>, o': seq<nat>)
    requires |s| == 22 && InRange(o) && InRange(o') && Sorted(s, o) && Sorted(s, o') && SameElements(o, o')
    requires o != [] && o' != [] && o[0] == o'[0]
    ensures InRange(o[1..]) && InRange(o'[1..]) && Sorted(s, o[1..]) && Sorted(s, o'[1..]) && SameElements(o[1..], o'[1..])
  {
    TailHas(s, o);
    TailHas(s, o');
  }

  lemma TailHas(s: seq<int>, o: seq<nat>)
    requires |s| == 22 && InRange(o) && Sorted(s, o) && o != []
    ensures forall v :: v in o[1..] <==> v in o && v != o[0]
  {
    forall v
      ensures v in o[1..] <==> v in o && v != o[0]
    {
      if v in o[1..] {
        var k :| 0 <= k < |o| - 1 && o[1..][k] == v;
        assert Before(s, o[0], o[k + 1]);
      }
    }
  }

  /** 100 times this is 2^64 + 84. */
  const LATE: int := 184_467_440_737_095_517

  /** Everything at tick 1, E3g one tick later, the doorbell more than 2^64
      nanoseconds after that. */
  function LateStamps(): (s: seq<int>)
    ensures Stamps(s)
  {
    seq(22, i => if i == 20 then 2 else if i == 21 then 1 + LATE else 1)
  }

  lemma LatePrevious()
    ensures Previous(LateStamps(), 21, 22) == 2 && Previous(LateStamps(), STAMP_B, 22) == 1
  {
    hide Previous;
    var s := LateStamps();
    assert Before(s, 20, 21) && Before(s, 0, STAMP_B);
    assert forall j: nat | j < 22 && Before(s, j, 21) :: s[j] <= 2;
    assert forall j: nat | j < 22 && Before(s, j, STAMP_B) :: s[j] == 1;
  }

  lemma {:induction false} NoneAfter(n: nat)
    requires n <= 21
    ensures Late(LateStamps(), 100, n) == 0
    decreases n
  {
    hide Share;
    if n > 0 {
      NoneAfter(n - 1);
    }
  }

  /** The doorbell's time since the start wraps round to 84 ns, its delta to almost 2^64. */
  lemma LateWraps()
    ensures Late(LateStamps(), 100, 22) == 0xffff_ffff_ffff_fff0 && Slack(LateStamps()) == TICK_NS
  {
    hide Previous;
    LatePrevious();
    NoneAfter(21);
    assert Nanos(LATE) == 84 && Nanos(LATE - 1) == 0xffff_ffff_ffff_fff0 && Nanos(0) == 0;
  }

  /** Whatever the kernel prints for those stamps is rejected, though all are set,
      the start is earliest and E3g is one tick after it. */
  lemma LateDumpRejected(o: seq<nat>, d: Dump)
    requires Printed(LateStamps(), o, d)
    ensures !d.unset && StartFirst(LateStamps()) && InNanos(LateStamps(), E3G) && !Parses(d)
  {
    hide RowsOf, Sorted, Nanos, Parses, Late, Slack;
    DumpNear(LateStamps(), o, d);
    LateWraps();
  }
}
