/** Scale factors and quantisation (mpegaudio.c): how loud a subband is, and the level of each sample
    relative to that. */
module Mp2Quantise {
  import opened Numbers
  import opened BitFields
  import opened Mp2Tables
  import S = Mp2ScaleFactors

  /** A result of 32-bit arithmetic. */
  function Int32(x: int): int { U32(x + 0x8000_0000) - 0x8000_0000 }

  lemma Int32Exact(x: int)
    ensures -0x8000_0000 <= x < 0x8000_0000 ==> Int32(x) == x
    ensures 0x8000_0000 <= x < 0x1_0000_0000 ==> Int32(x) == x - WORD
  {
  }

  function Abs(x: int): nat { if x < 0 then -x else x }

  // ---------------------------------------------------------------- the tables

  /** The first three factors; the others are halves of these, and so on. */
  function Base(r: nat): nat { if r == 0 then 0x20_0000 else if r == 1 then 1664510 else 1321122 }

  function Multiplier(r: nat): nat { if r == 0 then 0x8000 else if r == 1 then 41285 else 52015 }

  /** `scale_factor_table`: 2^(21 - i / 3), rounded down. */
  function ScaleFactor(i: nat): nat { Quotient(Base(i % 3), Pow2(i / 3)) }

  function Quotient(x: nat, y: nat): nat
    requires y > 0
  {
    x / y
  }

  /** The shift and the multiplication that divide by a factor, up to 15 bits. */
  function Shifted(sample: int, e: nat): int {
    if e / 3 <= 6 then sample / Pow2(6 - e / 3) else Int32(sample * Pow2(e / 3 - 6))
  }

  function Normalised(sample: int, e: nat): int { Int32(Shifted(sample, e) * Multiplier(e % 3)) / 0x8000 }

  /** The level of a sample on a scale of `steps`. */
  function Level(sample: int, e: nat, steps: nat): int {
    var q := Int32((Normalised(sample, e) + 0x8000) * steps) / 0x1_0000;
    if q >= steps then steps - 1 else q
  }

  lemma FactorIsRoot(i: nat)
    requires i < 64
    ensures Cube(ScaleFactor(i)) <= Pow2(63 - i) < Cube(ScaleFactor(i) + 1)
  {
    var a, b := i / 3, Base(i % 3);
    BasesAreRoots(i % 3);
    PowAdds(63 - i, 3 * a);
    assert 63 - i % 3 == (63 - i) + 3 * a;
    PowerCubed(a);
    DivideBack(b, Pow2(a));
    RootOfQuotient(ScaleFactor(i), b, Pow2(a), Pow2(63 - i));
  }

  lemma PowerCubed(a: nat)
    ensures Pow2(3 * a) == Cube(Pow2(a))
  {
    PowAdds(a, a);
    PowAdds(2 * a, a);
  }

  lemma RootOfQuotient(f: nat, b: nat, p: nat, x: nat)
    requires p > 0 && f * p <= b < (f + 1) * p && Cube(b) <= x * Cube(p) < Cube(b + 1)
    ensures Cube(f) <= x < Cube(f + 1)
  {
    hide Cube;
    CubesCompare(f * p, b);
    CubesCompare(b + 1, (f + 1) * p);
    CubeScales(f, p);
    CubeScales(f + 1, p);
    CubePositive(p);
    Cancel(Cube(f), x, Cube(p));
    Cancel(x + 1, Cube(f + 1), Cube(p));
  }

  lemma Cancel(x: nat, y: nat, z: nat)
    requires z > 0 && (x * z <= y * z || (x > 0 && (x - 1) * z < y * z))
    ensures x <= y
  {
    if x > y {
      MulMono(y + 1, x, z);
      if x > 0 { MulMono(y, x - 1, z); }
    }
  }

  lemma CubePositive(p: nat)
    requires p > 0
    ensures Cube(p) > 0
  {
    CubesCompare(1, p);
  }

  function Cube(x: nat): nat { x * x * x }

  lemma BasesAreRoots(r: nat)
    requires r < 3
    ensures Cube(Base(r)) <= Pow2(63 - r) < Cube(Base(r) + 1)
  {
    LargePowers();
    hide Pow2;
  }

  lemma MultipliersAreRoots(r: nat)
    requires r < 3
    ensures Cube(Multiplier(r)) <= Pow2(45 + r) < Cube(Multiplier(r) + 1)
  {
    LargePowers();
    hide Pow2;
  }

  lemma LargePowers()
    ensures Pow2(45) == 0x2000_0000_0000 && Pow2(46) == 0x4000_0000_0000 && Pow2(47) == 0x8000_0000_0000
    ensures Pow2(61) == 0x2000_0000_0000_0000 && Pow2(62) == 0x4000_0000_0000_0000 && Pow2(63) == 0x8000_0000_0000_0000
  {
    Powers();
    assert Pow2(1) == 2;
    hide Pow2;
    PowAdds(15, 15);
    PowAdds(30, 15);
    PowAdds(45, 1);
    PowAdds(45, 2);
    PowAdds(45, 16);
    PowAdds(61, 1);
    PowAdds(61, 2);
  }

  lemma CubesCompare(x: nat, y: nat)
    requires x <= y
    ensures Cube(x) <= Cube(y)
  {
    MulMono(x, y, x);
    MulMono(x, y, y);
    MulMono(x * x, y * y, x);
    MulMono(x, y, y * y);
  }

  lemma CubeScales(x: nat, y: nat)
    ensures Cube(x * y) == Cube(x) * Cube(y)
  {
    assert (x * y) * (x * y) == (x * x) * (y * y);
    assert ((x * x) * (y * y)) * (x * y) == ((x * x) * x) * ((y * y) * y);
  }

  // ---------------------------------------------------------------- levels

  /** The samples whose level a field can take. Rounding takes one scale out of three a step too low at its
      end, and the finest quantiser overflows 32 bits above zero. */
  predicate Representable(sample: int, e: nat, steps: nat) {
    && (e % 3 == 2 && e < 21 ==> sample >= -20642 * Pow2(6 - e / 3))
    && (steps == 65535 ==> sample < if e < 21 then Pow2(6 - e / 3) else 1)
  }

  lemma ShiftedRange(sample: int, e: nat)
    requires e < 64 && Abs(sample) <= ScaleFactor(e)
    ensures var q, r := Shifted(sample, e), e % 3;
            && q <= Base(r) / 64 && -q <= (if r == 0 then 32768 else if r == 1 then 26008 else 20643)
            && (q < -20642 && r == 2 <==> e % 3 == 2 && e < 21 && sample < -20642 * Pow2(6 - e / 3))
            && (q > 0 <==> sample >= if e < 21 then Pow2(6 - e / 3) else 1)
  {
    var a := e / 3;
    var b, p := Base(e % 3), Pow2(a);
    DivideBack(b, p);
    var f := ScaleFactor(e);
    assert Pow2(6) == 64 by { Powers(); }
    hide Pow2, ScaleFactor;
    if a <= 6 {
      PowAdds(6 - a, a);
      QuotientRange(sample, Pow2(6 - a), f, p, b);
    } else {
      PowAdds(6, a - 6);
      ProductRange(sample, Pow2(a - 6), f, b);
    }
  }

  /** What is left of a sample after shifting it to the right. */
  lemma QuotientRange(sample: int, s: nat, f: int, p: nat, b: nat)
    requires s > 0 && s * p == 64 && f * p <= b && -f <= sample <= f
    ensures var q := sample / s; q <= b / 64 && (-q - 1) * 64 < b && (q > 0 <==> sample >= s) && (q < -20642 <==> sample < -20642 * s)
  {
    var q := sample / s;
    DivideBack(sample, s);
    BelowBase(q, s, f, p, b);
    BelowBase(-q - 1, s, f - 1, p, b);
    FloorCompares(sample, s, 1);
    FloorCompares(sample, s, -20642);
  }

  lemma BelowBase(q: int, s: nat, f: int, p: nat, b: nat)
    requires s * p == 64 && f * p <= b && q * s <= f
    ensures q * 64 <= b
  {
    MulMono(q * s, f, p);
    assert q * s * p == q * (s * p);
  }

  lemma FloorCompares(x: int, s: nat, q: int)
    requires s > 0
    ensures x / s < q <==> x < q * s
  {
    DivideBack(x, s);
    if x / s < q { MulMono(x / s + 1, q, s); } else { MulMono(q, x / s, s); }
  }

  /** And to the left. */
  lemma ProductRange(sample: int, s: nat, f: int, b: nat)
    requires s > 0 && f * (64 * s) <= b <= 0x20_0000 && -f <= sample <= f
    ensures var q := Int32(sample * s); q == sample * s && Abs(q) * 64 <= b && (q > 0 <==> sample >= 1)
  {
    MulMono(sample, f, s);
    MulMono(-f, sample, s);
    assert f * (64 * s) == (f * s) * 64;
    Int32Exact(sample * s);
    if sample >= 1 { MulMono(1, sample, s); } else { MulMono(sample, 0, s); }
  }

  lemma NormalisedRange(sample: int, e: nat)
    requires e < 64 && Abs(sample) <= ScaleFactor(e)
    ensures -32769 <= Normalised(sample, e) <= 32768
    ensures Normalised(sample, e) < -32768 <==> e % 3 == 2 && e < 21 && sample < -20642 * Pow2(6 - e / 3)
    ensures Normalised(sample, e) > 0 <==> sample >= if e < 21 then Pow2(6 - e / 3) else 1
  {
    ShiftedRange(sample, e);
    var q, r := Shifted(sample, e), e % 3;
    Int32Exact(q * Multiplier(r));
    hide Shifted, ScaleFactor, Pow2, Int32;
    assert if r == 0 then q <= 32768 else if r == 1 then q <= 26007 else q <= 20642;
  }

  /** A level is one of the steps exactly when the sample is representable. */
  lemma LevelExactly(sample: int, e: nat, steps: nat)
    requires e < 64 && Abs(sample) <= ScaleFactor(e) && (0 < steps <= 32767 || steps == 65535)
    ensures Level(sample, e, steps) < steps
    ensures Level(sample, e, steps) >= 0 <==> Representable(sample, e, steps)
  {
    NormalisedRange(sample, e);
    var n := Normalised(sample, e);
    hide Normalised, ScaleFactor, Pow2;
    LevelSign(n + 32768, steps);
  }

  lemma LevelSign(m: int, steps: nat)
    requires -1 <= m <= 65536 && (0 < steps <= 32767 || steps == 65535)
    ensures Int32(m * steps) / 0x1_0000 >= 0 <==> m >= 0 && (steps == 65535 ==> m <= 32768)
  {
    MulMono(-1, m, steps);
    MulMono(m, 65536, steps);
    Int32Exact(m * steps);
    if m >= 0 { MulMono(0, m, steps); } else { assert m * steps == -1 * steps; }
  }

  // How far a level is from its sample. Everything is in units of the exact scale 2^(21 - e / 3), which is
  // `Base(e % 3)` parts of which a sample unit has 2^(e / 3).

  lemma NormalisedIsNear(sample: int, e: nat)
    requires e < 64 && Abs(sample) <= ScaleFactor(e)
    ensures var n, x, b := Normalised(sample, e), sample * Pow2(e / 3), Base(e % 3);
            b * n <= 0x8000 * x + b && 0x8000 * x < b * n + 4 * b && Abs(x) <= b
  {
    var q, m, b, x := Shifted(sample, e), Multiplier(e % 3), Base(e % 3), sample * Pow2(e / 3);
    ShiftedRange(sample, e);
    ShiftedIsNear(sample, e);
    Int32Exact(q * m);
    DivideBack(q * m, 0x8000);
    hide Shifted, ScaleFactor, Pow2, Int32;
    var n := Normalised(sample, e);
    assert 0x8000 * n <= q * m < 0x8000 * n + 0x8000;
    NearProduct(e % 3, q, n, x);
  }

  lemma ShiftedIsNear(sample: int, e: nat)
    requires e < 64 && Abs(sample) <= ScaleFactor(e)
    ensures var q, x := Shifted(sample, e), sample * Pow2(e / 3);
            64 * q <= x < 64 * q + 64 && Abs(x) <= Base(e % 3)
  {
    var a := e / 3;
    var b, p, f: int := Base(e % 3), Pow2(a), ScaleFactor(e);
    DivideBack(b, p);
    BaseIsSmall(e % 3);
    assert Pow2(6) == 64 by { Powers(); }
    assert Shifted(sample, e) == if a <= 6 then sample / Pow2(6 - a) else Int32(sample * Pow2(a - 6));
    hide Pow2, ScaleFactor, Shifted, Base, Int32;
    AbsTimes(sample, f, p, b);
    if a <= 6 {
      PowAdds(6 - a, a);
      TimesQuotient(sample, Pow2(6 - a), p);
    } else {
      PowAdds(6, a - 6);
      ProductRange(sample, Pow2(a - 6), f, b);
      TimesShift(sample, Pow2(a - 6));
    }
  }

  lemma TimesShift(x: int, s: nat)
    ensures x * (64 * s) == 64 * (x * s)
  {
  }

  lemma AbsTimes(x: int, f: int, p: nat, b: nat)
    requires Abs(x) <= f && f * p <= b
    ensures Abs(x * p) <= b
  {
    if x >= 0 { MulMono(x, f, p); MulMono(0, x, p); } else { MulMono(0 - f, x, p); MulMono(x, 0, p); }
  }

  lemma TimesQuotient(x: int, s: nat, p: nat)
    requires s > 0 && s * p == 64
    ensures 64 * (x / s) <= x * p < 64 * (x / s) + 64
  {
    var q, r := x / s, x % s;
    assert x == s * q + r;
    assert (s * q + r) * p == (s * p) * q + r * p;
    MulMono(r + 1, s, p);
    MulMono(0, r, p);
  }

  /** The multiplier is 2^36 divided by the base, but for less than the base. */
  lemma NearProduct(r: nat, q: int, n: int, x: int)
    requires r < 3 && -32768 <= q <= 32768 && 64 * q <= x < 64 * q + 64
    requires 0x8000 * n <= q * Multiplier(r) < 0x8000 * n + 0x8000
    ensures Base(r) * n <= 0x8000 * x + Base(r) && 0x8000 * x < Base(r) * n + 4 * Base(r)
  {
    if r == 0 {
    } else if r == 1 {
      assert 1664510 * (q * 41285) == q * 0x10_0000_0000 - q * 181386;
    } else {
      assert 1321122 * (q * 52015) == q * 0x10_0000_0000 - q * 1315906;
    }
  }

  /** A level says where on its scale a sample lies: with `x` the sample and `b` the scale in the same units,
      `steps * (x + b) / (2 * b)` lies between the level and the next one, up to a rounding of less than one
      part in 8192 of the scale. */
  lemma LevelIsNear(sample: int, e: nat, steps: nat)
    requires e < 64 && Abs(sample) <= ScaleFactor(e) && (0 < steps <= 32767 || steps == 65535) && Representable(sample, e, steps)
    ensures var level, x, b := Level(sample, e, steps), sample * Pow2(e / 3), Base(e % 3);
            && 0x8000 * (2 * b * level) <= 0x8000 * (steps * (x + b)) + b * steps
            && 0x8000 * (steps * (x + b)) < 0x8000 * (2 * b * (level + 1)) + 4 * b * steps
  {
    NormalisedIsNear(sample, e);
    LevelIs(sample, e, steps);
    BaseIsSmall(e % 3);
    hide Level, Normalised, ScaleFactor, Pow2, Base, Representable;
    LevelWithin(Normalised(sample, e) + 0x8000, steps, Base(e % 3), sample * Pow2(e / 3), Level(sample, e, steps));
  }

  /** Without overflow. */
  lemma LevelIs(sample: int, e: nat, steps: nat)
    requires e < 64 && Abs(sample) <= ScaleFactor(e) && (0 < steps <= 32767 || steps == 65535) && Representable(sample, e, steps)
    ensures var m := Normalised(sample, e) + 0x8000; m >= 0 && Level(sample, e, steps) == Min((m * steps) / 0x1_0000, steps - 1)
  {
    NormalisedRange(sample, e);
    var m := Normalised(sample, e) + 0x8000;
    hide Normalised, ScaleFactor, Pow2;
    NoOverflow(m, steps);
  }

  lemma NoOverflow(m: nat, steps: nat)
    requires m <= 65536 && (0 < steps <= 32767 || (steps == 65535 && m <= 32768))
    ensures Int32(m * steps) == m * steps
  {
    MulMono(0, m, steps);
    if steps < 65535 { MulMono(m, 0x1_0000, steps); } else { MulMono(m, 0x8000, steps); }
    Int32Exact(m * steps);
  }

  lemma BaseIsSmall(r: nat)
    ensures 0 < Base(r) <= 0x20_0000
  {
  }

  lemma LevelWithin(m: nat, steps: nat, b: nat, x: int, level: int)
    requires b > 0 && steps > 0 && b * m <= 0x8000 * (x + b) + b && 0x8000 * (x + b) < b * m + 4 * b && x <= b
    requires level == Min((m * steps) / 0x1_0000, steps - 1)
    ensures 0x8000 * (2 * b * level) <= 0x8000 * (steps * (x + b)) + b * steps
    ensures 0x8000 * (steps * (x + b)) < 0x8000 * (2 * b * (level + 1)) + 4 * b * steps
  {
    var q := (m * steps) / 0x1_0000;
    LevelFromBelow(m, steps, b, x + b, level);
    if level == q {
      LevelFromAbove(m, steps, b, x + b, level);
    } else {
      MulMono(x + b, 2 * b, steps);
      Products(m, steps, b, x + b, level + 1);
      MulMono(1, 4 * b, steps);
    }
  }

  lemma LevelFromBelow(m: nat, steps: nat, b: nat, y: int, level: int)
    requires b * m <= 0x8000 * y + b && level * 0x1_0000 <= m * steps
    ensures 0x8000 * (2 * b * level) <= 0x8000 * (steps * y) + b * steps
  {
    MulMono(level * 0x1_0000, m * steps, b);
    MulMono(b * m, 0x8000 * y + b, steps);
    Products(m, steps, b, y, level);
  }

  lemma LevelFromAbove(m: nat, steps: nat, b: nat, y: int, level: int)
    requires b > 0 && steps > 0 && 0x8000 * y < b * m + 4 * b && m * steps < (level + 1) * 0x1_0000
    ensures 0x8000 * (steps * y) < 0x8000 * (2 * b * (level + 1)) + 4 * b * steps
  {
    MulMono(m * steps, (level + 1) * 0x1_0000, b);
    MulMono(0x8000 * y + 1, b * m + 4 * b, steps);
    Products(m, steps, b, y, level + 1);
    assert (0x8000 * y + 1) * steps == 0x8000 * (steps * y) + steps;
    assert (b * m + 4 * b) * steps == b * m * steps + 4 * b * steps;
  }

  lemma Products(m: int, steps: int, b: int, y: int, level: int)
    ensures m * steps * b == b * m * steps
    ensures level * 0x1_0000 * b == 0x8000 * (2 * b * level)
    ensures (0x8000 * y + b) * steps == 0x8000 * (steps * y) + b * steps
    ensures y * steps == steps * y && 2 * b * steps == 2 * (b * steps)
  {
  }

  /** A louder sample never gets a lower level. */
  lemma LevelsKeepOrder(x: int, y: int, e: nat, steps: nat)
    requires e < 64 && Abs(x) <= ScaleFactor(e) && Abs(y) <= ScaleFactor(e) && (0 < steps <= 32767 || steps == 65535)
    requires x <= y && Representable(x, e, steps) && Representable(y, e, steps)
    ensures Level(x, e, steps) <= Level(y, e, steps)
  {
    NormalisedRange(x, e);
    NormalisedRange(y, e);
    NormalisedKeepsOrder(x, y, e);
    var m, n := Normalised(x, e) + 32768, Normalised(y, e) + 32768;
    hide Normalised, ScaleFactor, Pow2;
    MulMono(m, n, steps);
    MulMono(0, m, steps);
    if steps < 65535 { MulMono(n, 65536, steps); } else { MulMono(n, 32768, steps); }
    Int32Exact(m * steps);
    Int32Exact(n * steps);
  }

  lemma NormalisedKeepsOrder(x: int, y: int, e: nat)
    requires e < 64 && Abs(x) <= ScaleFactor(e) && Abs(y) <= ScaleFactor(e) && x <= y
    ensures Normalised(x, e) <= Normalised(y, e)
  {
    ShiftedRange(x, e);
    ShiftedRange(y, e);
    ShiftedKeepsOrder(x, y, e);
    hide Shifted, ScaleFactor, Pow2;
    var p, q, m := Shifted(x, e), Shifted(y, e), Multiplier(e % 3);
    Int32Exact(p * m);
    Int32Exact(q * m);
  }

  lemma ShiftedKeepsOrder(x: int, y: int, e: nat)
    requires e < 64 && Abs(x) <= ScaleFactor(e) && Abs(y) <= ScaleFactor(e) && x <= y
    ensures Shifted(x, e) <= Shifted(y, e)
  {
    var a := e / 3;
    var b, p, f := Base(e % 3), Pow2(a), ScaleFactor(e);
    DivideBack(b, p);
    assert Pow2(6) == 64 by { Powers(); }
    hide Pow2, ScaleFactor;
    if a <= 6 {
      var s := Pow2(6 - a);
      DivideBack(x, s);
      DivideBack(y, s);
      if x / s > y / s { MulMono(y / s + 1, x / s, s); }
    } else {
      PowAdds(6, a - 6);
      ProductRange(x, Pow2(a - 6), f, b);
      ProductRange(y, Pow2(a - 6), f, b);
      MulMono(x, y, Pow2(a - 6));
    }
  }

  /** The arithmetic of `encode_frame`. */
  method QuantiseSample(sample: int, e: nat, steps: nat) returns (q: int)
    ensures q == Level(sample, e, steps)
  {
    hide Pow2, Int32;
    var shift: int := 6 - e / 3;
    var q1: int;
    if shift < 0 {
      q1 := Int32(sample * Pow2(-shift));
    } else {
      q1 := sample / Pow2(shift);
    }
    q1 := Int32(q1 * Multiplier(e % 3)) / 0x8000;
    q := Int32((q1 + 0x8000) * steps) / 0x1_0000;
    if q >= steps { q := steps - 1; }
  }

  /** Full scale at the third factor gets level -1 of 3; a small positive sample overflows the finest scale. */
  lemma LevelsOffScale()
    ensures Abs(-1321122) <= ScaleFactor(2) && Level(-1321122, 2, 3) == -1
    ensures Abs(64) <= ScaleFactor(0) && Level(64, 0, 65535) == -32768
  {
    Powers();
    assert Pow2(0) == 1;
    hide Pow2;
    assert Shifted(-1321122, 2) == -20643;
    assert Shifted(64, 0) == 1;
  }

  // ---------------------------------------------------------------- finding the scale

  /** `ff_log2_tab` */
  function Log2Table(v: nat): (n: nat)
    ensures v > 0 ==> Pow2(n) <= v < Pow2(n + 1)
  {
    if v < 2 then 0 else 1 + Log2Table(v / 2)
  }

  method AvLog2(v0: u32) returns (n: nat)
    requires v0 > 0
    ensures Pow2(n) <= v0 < Pow2(n + 1)
  {
    hide Pow2;
    var v: nat := v0;
    n := 0;
    if v >= 0x1_0000 { v, n := v / 0x1_0000, n + 16; }
    if v >= 0x100 { v, n := v / 0x100, n + 8; }
    BytesOff(v0, v, n);
    var m := Log2Table(v);
    LogShifted(v0, v, n, m);
    n := n + m;
  }

  lemma BytesOff(v0: u32, v: nat, n: nat)
    requires n == 0 ==> v == v0
    requires n == 8 ==> v == v0 / 0x100
    requires n == 16 ==> v == v0 / 0x1_0000
    requires n == 24 ==> v == v0 / 0x1_0000 / 0x100
    requires n == 0 || n == 8 || n == 16 || n == 24
    ensures v * Pow2(n) <= v0 < (v + 1) * Pow2(n)
  {
    Powers();
    PowAdds(16, 8);
    assert Pow2(0) == 1;
    hide Pow2;
  }

  lemma LogShifted(v0: nat, v: nat, n: nat, m: nat)
    requires v * Pow2(n) <= v0 < (v + 1) * Pow2(n) && Pow2(m) <= v < Pow2(m + 1)
    ensures Pow2(n + m) <= v0 < Pow2(n + m + 1)
  {
    PowAdds(m, n);
    PowAdds(m + 1, n);
    hide Pow2;
    MulMono(Pow2(m), v, Pow2(n));
    MulMono(v + 1, Pow2(m + 1), Pow2(n));
  }

  lemma FactorsFall(i: nat, j: nat)
    requires i <= j
    ensures ScaleFactor(i) >= ScaleFactor(j)
    decreases j - i
  {
    hide ScaleFactor;
    if i < j {
      NextFactor(i);
      FactorsFall(i + 1, j);
    }
  }

  lemma NextFactor(i: nat)
    ensures ScaleFactor(i) >= ScaleFactor(i + 1)
  {
    var r, k := i % 3, i / 3;
    assert (i + 1) % 3 == (if r == 2 then 0 else r + 1) && (i + 1) / 3 == (if r == 2 then k + 1 else k);
    assert Pow2(k + 1) == 2 * Pow2(k);
    hide Pow2;
    QuotientFalls(Base(r), Pow2(k), Base((i + 1) % 3), Pow2((i + 1) / 3));
  }

  lemma QuotientFalls(a: nat, p: nat, b: nat, q: nat)
    requires p > 0 && ((q == p && b <= a) || (q == 2 * p && b <= 2 * a))
    ensures Quotient(b, q) <= Quotient(a, p)
  {
    DivideBack(a, p);
    DivideBack(b, q);
    var x, y := Quotient(a, p), Quotient(b, q);
    if q == 2 * p { assert y * q == 2 * (y * p); }
    Cancel(y + 1, x + 1, p);
  }

  lemma FactorOfPower(n: nat)
    requires n <= 20
    ensures ScaleFactor(60 - 3 * n) == Pow2(n + 1)
  {
    PowAdds(n + 1, 20 - n);
    assert Pow2(21) == 0x20_0000 by { Powers(); PowAdds(16, 5); }
    hide Pow2;
    assert (60 - 3 * n) % 3 == 0 && (60 - 3 * n) / 3 == 20 - n;
    DivModIs(0x20_0000, Pow2(20 - n), Pow2(n + 1), 0);
  }

  lemma LastFactors()
    ensures ScaleFactor(61) == 1 && ScaleFactor(62) == 1 && ScaleFactor(63) == 1
    ensures ScaleFactor(0) == 0x20_0000 && ScaleFactor(1) == 1664510
  {
    Powers();
    assert Pow2(0) == 1;
    PowAdds(16, 4);
    PowAdds(16, 5);
    hide Pow2;
  }

  lemma PowersGrow(a: nat, b: nat)
    requires a <= b
    ensures Pow2(a) <= Pow2(b)
  {
    PowAdds(a, b - a);
    MulMono(1, Pow2(b - a), Pow2(a));
  }

  lemma LogIsExact(v: nat, n: nat)
    requires Pow2(n) <= v < Pow2(n + 1)
    ensures v < 0x20_0000 <==> n <= 20
    ensures v == 1 ==> n == 0
  {
    assert Pow2(21) == 0x20_0000 by { Powers(); PowAdds(16, 5); }
    assert Pow2(1) == 2;
    if n <= 20 { PowersGrow(n + 1, 21); } else { PowersGrow(21, n); }
    if n > 0 { PowersGrow(1, n); }
  }

  /** The smallest scale that covers the loudest sample; for one that is just 1 the search runs off the
      table, all of whose last factors are 1. */
  method ScaleIndex(vmax: u32) returns (index: int, offTable: bool)
    requires vmax < 0x8000_0000
    ensures offTable <==> vmax == 1
    ensures !offTable ==> 0 <= index <= 62 && (vmax <= 0x20_0000 ==> vmax <= ScaleFactor(index))
    ensures vmax >= 2 ==> vmax > ScaleFactor(index + 1)
    ensures (vmax == 0 ==> index == 62) && (vmax > 0x20_0000 ==> index == 0)
  {
    hide Pow2, ScaleFactor;
    LastFactors();
    if vmax == 0 { return 62, false; }
    var n := AvLog2(vmax);
    LogIsExact(vmax, n);
    index := (21 - n as int) * 3 - 3;
    if index < 0 { return 0, false; }
    FactorOfPower(n);
    while true
      invariant 0 <= index <= 63 && vmax <= ScaleFactor(index)
      invariant if vmax >= 2 then index <= 60 else index >= 60
      decreases 64 - index
    {
      if index == 63 { return index, true; }
      if vmax > ScaleFactor(index + 1) { return index, false; }
      index := index + 1;
    }
  }

  /** `sb_samples` of one channel: three parts of twelve samples for every subband. */
  type Samples = seq<seq<seq<int>>>

  ghost predicate GoodSamples(s: Samples, n: nat) {
    && |s| == 3
    && (forall k :: 0 <= k < 3 ==> |s[k]| == 12)
    && (forall k, t :: 0 <= k < 3 && 0 <= t < 12 ==> |s[k][t]| >= n)
    && (forall k, t, i :: 0 <= k < 3 && 0 <= t < 12 && 0 <= i < n ==> Abs(s[k][t][i]) < 0x8000_0000)
  }

  /** The loudest of the first `n` samples of subband `j`. */
  function Largest(part: seq<seq<int>>, j: nat, n: nat): nat
    requires n <= |part| && forall t :: 0 <= t < n ==> j < |part[t]|
  {
    if n == 0 then 0 else Max(Largest(part, j, n - 1), Abs(part[n - 1][j]))
  }

  lemma {:induction false} LargestCovers(part: seq<seq<int>>, j: nat, n: nat, t: nat)
    requires n <= |part| && (forall t :: 0 <= t < n ==> j < |part[t]|) && t < n
    ensures Abs(part[t][j]) <= Largest(part, j, n)
  {
    if t < n - 1 { LargestCovers(part, j, n - 1, t); }
  }

  lemma {:induction false} LargestBelow(part: seq<seq<int>>, j: nat, n: nat, most: nat)
    requires n <= |part| && forall t :: 0 <= t < n ==> j < |part[t]| && Abs(part[t][j]) <= most
    ensures Largest(part, j, n) <= most
  {
    if n > 0 { LargestBelow(part, j, n - 1, most); }
  }

  /** The scale covers every sample of its part, unless the part is louder than the loudest scale. */
  ghost predicate Covers(s: Samples, j: nat, k: nat, e: nat)
    requires GoodSamples(s, j + 1) && k < 3
  {
    e <= 62 && (Largest(s[k], j, 12) <= 0x20_0000 ==> Largest(s[k], j, 12) <= ScaleFactor(e))
  }

  /** It is the finest one that does: the next one would not, for silence it is the last one that may be sent, and
      above the loudest scale it is that one. */
  ghost predicate Finest(s: Samples, j: nat, k: nat, e: nat)
    requires GoodSamples(s, j + 1) && k < 3
  {
    var loudest := Largest(s[k], j, 12);
    Covers(s, j, k, e) && if loudest == 0 then e == 62 else loudest > ScaleFactor(e + 1) && (loudest > 0x20_0000 ==> e == 0)
  }

  lemma CoversMore(s: Samples, j: nat, k: nat, e: nat, e': nat)
    requires GoodSamples(s, j + 1) && k < 3 && Covers(s, j, k, e) && e' <= e
    ensures Covers(s, j, k, e')
  {
    FactorsFall(e', e);
  }

  /** The three factors of a subband and their code, ready to be sent. */
  ghost predicate GoodScale(s: Samples, j: nat, code: nat, sf: seq<nat>)
    requires GoodSamples(s, j + 1)
  {
    && code < 4 && |sf| == 3 && S.Restored(code, S.Sent(code, sf)) == sf
    && (forall k :: 0 <= k < 3 ==> Covers(s, j, k, sf[k]))
    && Evened(s, j, code, sf)
  }

  /** The factors are the finest ones, but for those that a part shares with a louder one. */
  ghost predicate Evened(s: Samples, j: nat, code: nat, sf: seq<nat>)
    requires GoodSamples(s, j + 1) && |sf| == 3
  {
    exists a: nat, b: nat, c: nat ::
      && Finest(s, j, 0, a) && Finest(s, j, 1, b) && Finest(s, j, 2, c)
      && code == S.CodeFor(a, b, c) && forall k :: 0 <= k < 3 ==> sf[k] == S.SharedFactor(code, a, b, c, k)
  }

  /** The loudest sample of some part is just 1. */
  ghost predicate HasFaint(s: Samples, n: nat)
    requires GoodSamples(s, n)
  {
    exists j, k :: 0 <= j < n && 0 <= k < 3 && Largest(s[k], j, 12) == 1
  }

  /** `compute_scale_factors`, for one channel. */
  method ComputeScaleFactors(s: Samples, sblimit: nat) returns (codes: seq<nat>, factors: seq<seq<nat>>, offTable: bool)
    requires GoodSamples(s, sblimit)
    ensures offTable <==> HasFaint(s, sblimit)
    ensures !offTable ==> |codes| == |factors| == sblimit && forall j :: 0 <= j < sblimit ==> GoodScale(s, j, codes[j], factors[j])
  {
    hide ScaleFactor, Largest, S.Restored, S.Sent, S.CodeFor, S.SharedFactor;
    codes, factors := [], [];
    for j := 0 to sblimit
      invariant |codes| == |factors| == j && forall i :: 0 <= i < j ==> GoodScale(s, i, codes[i], factors[i])
      invariant forall i, k :: 0 <= i < j && 0 <= k < 3 ==> Largest(s[k], i, 12) != 1
    {
      var sf := new nat[3];
      for k := 0 to 3
        invariant fresh(sf)
        invariant forall m :: 0 <= m < k ==> Finest(s, j, m, sf[m]) && Largest(s[m], j, 12) != 1
      {
        var vmax := FindLargest(s[k], j);
        var index, off := ScaleIndex(vmax);
        if off { return codes, factors, true; }
        sf[k] := index;
      }
      ghost var sf0 := sf[..];
      var code := S.SelectScaleCode(sf);
      forall k | 0 <= k < 3 ensures Covers(s, j, k, sf[k]) { CoversMore(s, j, k, sf0[k], sf[k]); }
      assert Evened(s, j, code, sf[..]);
      codes, factors := codes + [code], factors + [sf[..]];
    }
    offTable := false;
  }

  method FindLargest(part: seq<seq<int>>, j: nat) returns (vmax: u32)
    requires |part| == 12 && forall t :: 0 <= t < 12 ==> j < |part[t]| && Abs(part[t][j]) < 0x8000_0000
    ensures vmax == Largest(part, j, 12) < 0x8000_0000
  {
    vmax := Abs(part[0][j]);
    assert Largest(part, j, 0) == 0;
    for k := 1 to 12
      invariant vmax == Largest(part, j, k) < 0x8000_0000
    {
      var v := Abs(part[k][j]);
      if v > vmax { vmax := v; }
    }
  }
}
