/** Converting a 64-bit integer to a double: 53 significant bits, to the nearest, ties to even. */
module Doubles {

  const Exact: int := 0x20_0000_0000_0000                 // 2^53
  const Top: int := 0x8000_0000_0000_0000                 // 2^63

  /** The distance between neighbouring doubles from 2^53 up to 2^63. */
  function Spacing(m: nat): nat {
    if m < Exact then 1
    else if m < 2 * Exact then 2
    else if m < 4 * Exact then 4
    else if m < 8 * Exact then 8
    else if m < 16 * Exact then 16
    else if m < 32 * Exact then 32
    else if m < 64 * Exact then 64
    else if m < 128 * Exact then 128
    else if m < 256 * Exact then 256
    else if m < 512 * Exact then 512
    else 1024
  }

  /** The nearest multiple, the even one on a tie. */
  function Nearest(m: nat, step: nat): (n: nat)
    requires step > 0
    ensures -(step as int) <= 2 * (n - m) <= step
    ensures m >= step ==> n >= step
  {
    DivMod(m, step);
    var q, r := m / step, m % step;
    if 2 * r < step || (2 * r == step && q % 2 == 0) then m - r else m - r + step
  }

  lemma DivMod(m: nat, step: nat)
    requires step > 0
    ensures 0 <= m % step < step && m % step <= m
    ensures m >= step ==> m - m % step >= step
  {
    var q, r := m / step, m % step;
    assert m == q * step + r;
    if m >= step {
      assert q >= 1;
      assert q * step >= step;
    }
  }

  function AsDouble(x: int): int {
    if x >= 0 then Nearest(x, Spacing(x)) else -(Nearest(-x, Spacing(-x)) as int)
  }

  /** Small numbers are exact. */
  lemma SmallIsExact(x: int)
    requires -Exact < x < Exact
    ensures AsDouble(x) == x
  {
  }

  /** The sign stays, and a 64-bit number stays within two to the 63. */
  lemma DoubleRange(x: int)
    requires -Top <= x < Top
    ensures x < 0 <==> AsDouble(x) < 0
    ensures -Top <= AsDouble(x) <= Top
  {
    var m := if x >= 0 then x else -x;
    if 512 * Exact <= m {
      NearTheTop(m);
    }
  }

  lemma NearTheTop(m: nat)
    requires 512 * Exact <= m <= Top
    ensures Spacing(m) == 1024 && Nearest(m, 1024) <= Top
    ensures Nearest(m, 1024) == Top <==> m >= Top - 512
    ensures Nearest(m, 1024) >= Top - 1024 <==> m >= Top - 1535
  {
    var k := (Top - m) / 1024;
    var r := (Top - m) % 1024;
    assert Top % 1024 == 0 && Top == 1024 * 0x20_0000_0000_0000;
  }

  /** The last two doubles below and at two to the 63, and what becomes of them. */
  lemma TopDoubles(x: int)
    requires -Top <= x < Top
    ensures AsDouble(x) == Top <==> x >= Top - 512
    ensures AsDouble(x) >= Top - 1024 <==> x >= Top - 1535
  {
    if x >= 512 * Exact {
      NearTheTop(x);
    } else if x < 0 {
      DoubleRange(x);
    }
  }

  /** A multiple of the step with at most 53 significant bits, no other multiple nearer, the even one of two. */
  ghost predicate IsRounded(x: int, y: int, step: nat) {
    exists f: int ::
      && y == f * step
      && -0x20_0000_0000_0000 <= f <= 0x20_0000_0000_0000
      && -(step as int) <= 2 * (y - x) <= step
      && (2 * (y - x) == step || 2 * (x - y) == step ==> f % 2 == 0)
  }

  lemma NearestIs(m: nat, step: nat) returns (f: nat)
    requires step > 0
    ensures Nearest(m, step) == f * step
    ensures 2 * (Nearest(m, step) - m) == step || 2 * (m - Nearest(m, step)) == step ==> f % 2 == 0
  {
    var q, r := m / step, m % step;
    DivMod(m, step);
    assert m == q * step + r;
    assert (q + 1) * step == q * step + step;
    f := if 2 * r < step || (2 * r == step && q % 2 == 0) then q else q + 1;
  }

  /** A 64-bit integer becomes the nearest double: the step is a power of two, one below two to the 53, and above
      it the smallest that leaves 53 significant bits. */
  lemma DoubleIsNearest(x: int)
    requires -Top <= x < Top
    ensures exists step: nat :: && step in [1, 2, 4, 8, 16, 32, 64, 128, 256, 512, 1024]
                                && IsRounded(x, AsDouble(x), step)
                                && (step > 1 ==> x >= 0x10_0000_0000_0000 * step || -x >= 0x10_0000_0000_0000 * step)
  {
    var m := if x >= 0 then x else -x;
    var step := Spacing(m);
    var f := NearestIs(m, step);
    MantissaFits(m, step, f);
    StepIsListed(m);
    hide Nearest, Spacing;
    if x >= 0 {
      assert AsDouble(x) == f * step;
    } else {
      var g: int := -(f as int);
      assert AsDouble(x) == g * step;
    }
  }

  lemma StepIsListed(m: nat)
    requires m <= Top
    ensures Spacing(m) in [1, 2, 4, 8, 16, 32, 64, 128, 256, 512, 1024]
    ensures Spacing(m) > 1 ==> m >= 0x10_0000_0000_0000 * Spacing(m)
    ensures m <= 0x20_0000_0000_0000 * Spacing(m)
  {
  }

  lemma MantissaFits(m: nat, step: nat, f: nat)
    requires m <= Top && step == Spacing(m) && Nearest(m, step) == f * step
    ensures f <= 0x20_0000_0000_0000
  {
    StepIsListed(m);
    var limit: int := 0x20_0000_0000_0000;
    assert (f - limit - 1) * step == f * step - limit * step - step;
  }
}
