/** `align_up` (src/heap.rs): rounding up to a power of two, with the overflow
    check of `checked_add`. */
module Align {
  import opened Ram

  /** `align != 0 && align.is_power_of_two()`. */
  predicate PowerOfTwo(a: int) {
    a == 1 || (a > 1 && a % 2 == 0 && PowerOfTwo(a / 2))
  }

  /** `(x + mask) & !mask` with `mask = align - 1`. */
  function AlignUp(x: Word, align: Word): (r: Option<int>)
    ensures r.Some? ==> align > 0 && x <= r.value < x + align && r.value % align == 0
    ensures r.None? <==> !PowerOfTwo(align) || x + align - 1 >= 0x1_0000_0000_0000_0000
  {
    if !PowerOfTwo(align) then None
    else
      var s := x + align - 1;
      if s >= 0x1_0000_0000_0000_0000 then None
      else
        MultipleBelow(s, align);
        Some(s - s % align)
  }

  lemma Times(n: nat, a: int)
    requires a > 0
    ensures n * a >= 0
  {
  }

  lemma Spread(i: int, d: int, a: int)
    ensures (i + d) * a == i * a + d * a
  {
  }

  lemma MulApart(i: int, j: int, a: int)
    requires a > 0
    ensures i < j ==> i * a + a <= j * a
    ensures i >= j ==> i * a >= j * a
  {
    if i < j {
      Spread(i, j - i, a);
      Spread(1, j - i - 1, a);
      Times(j - i - 1, a);
    } else {
      Spread(j, i - j, a);
      Times(i - j, a);
    }
  }

  lemma MultipleMod(q: nat, a: int)
    requires a > 0
    ensures (q * a) % a == 0
  {
    var y := q * a;
    var d, m := y / a, y % a;
    assert y == d * a + m;
    MulApart(d, q, a);
    MulApart(q, d, a);
  }

  lemma MultipleBelow(s: nat, a: int)
    requires a > 0
    ensures (s - s % a) % a == 0 && s - a < s - s % a <= s
  {
    assert s - s % a == (s / a) * a;
    MultipleMod(s / a, a);
  }

  /** It is the least multiple not below `x`. */
  lemma LeastMultiple(x: Word, align: Word, m: int)
    requires AlignUp(x, align).Some? && m >= x && m % align == 0
    ensures AlignUp(x, align).value <= m
  {
    var r := AlignUp(x, align).value;
    MultiplesApart(m, r, align);
  }

  lemma MultiplesApart(m: int, r: int, a: int)
    requires a > 0 && 0 <= m && 0 <= r && m % a == 0 && r % a == 0
    ensures m < r ==> m + a <= r
  {
    var i, j := Quotient(m, a), Quotient(r, a);
    MulApart(i, j, a);
  }

  function Quotient(m: int, a: int): (q: int)
    requires a > 0 && m % a == 0
    ensures m == q * a
  {
    m / a
  }

  lemma {:induction false} PowerOfTwoEight(a: int)
    requires PowerOfTwo(a)
    ensures a == 1 || a == 2 || a == 4 || a % 8 == 0
  {
    if a > 1 {
      PowerOfTwoEight(a / 2);
    }
  }

  /** An 8-aligned address stays 8-aligned under any power-of-two alignment. */
  lemma EightAligned(x: Word, align: Word)
    requires AlignUp(x, align).Some? && x % 8 == 0
    ensures AlignUp(x, align).value % 8 == 0
  {
    hide PowerOfTwo, AlignUp;
    var r := AlignUp(x, align).value;
    AlignPower(x, align);
    PowerOfTwoEight(align);
    if align == 1 || align == 2 || align == 4 {
      SmallDivides(x, align);
      LeastMultiple(x, align, x);
    } else {
      ModOfMultiple(r, align);
    }
  }

  lemma AlignPower(x: Word, align: Word)
    requires AlignUp(x, align).Some?
    ensures PowerOfTwo(align)
  {
  }

  lemma SmallDivides(x: int, a: int)
    requires x % 8 == 0 && (a == 1 || a == 2 || a == 4)
    ensures x % a == 0
  {
    var q := x / 8;
    if a == 1 {
      assert x % 1 == 0;
    } else if a == 2 {
      Twos(4 * q);
    } else {
      Fours(2 * q);
    }
  }

  lemma Twos(k: int)
    ensures (2 * k) % 2 == 0
  {
  }

  lemma Fours(k: int)
    ensures (4 * k) % 4 == 0
  {
  }

  lemma ModOfMultiple(r: int, a: int)
    requires a > 0 && 0 <= r && r % a == 0 && a % 8 == 0
    ensures r % 8 == 0
  {
    var q, b := r / a, a / 8;
    assert r == q * a && a == b * 8;
    assert r == (q * b) * 8;
    MultipleMod(q * b, 8);
  }
}
