/** The tables of MPEG audio layer II (mpegaudio.c, mpegaudio.h), and sums over subbands and channels. */
module Mp2Tables {
  import opened Numbers
  import opened BitFields

  const QUANT_STEPS: seq<nat> :=
    [3, 5, 7, 9, 15, 31, 63, 127, 255, 511, 1023, 2047, 4095, 8191, 16383, 32767, 65535]

  /** Negative where three samples share a field. */
  const QUANT_BITS: seq<int> := [-5, -7, 3, -10, 4, 5, 6, 7, 8, 9, 10, 11, 12, 13, 14, 15, 16]

  const QUANT_SNR: seq<int> := [70, 110, 160, 208, 253, 316, 378, 439, 499, 559, 620, 680, 740, 800, 861, 920, 980]

  const NB_SCALE_FACTORS: seq<nat> := [3, 2, 1, 2]

  /** The bits of three samples. */
  function GroupBits(q: nat): nat
    requires q < 17
  {
    if QUANT_BITS[q] < 0 then -QUANT_BITS[q] else 3 * QUANT_BITS[q]
  }

  function TotalQuantBits(q: nat): nat
    requires q < 17
  {
    12 * GroupBits(q)
  }

  /** Three samples fit the field they share, and each fits its own. */
  lemma QuantisedFit(q: nat, a: nat, b: nat, c: nat)
    requires q < 17 && a < QUANT_STEPS[q] && b < QUANT_STEPS[q] && c < QUANT_STEPS[q]
    ensures QUANT_BITS[q] < 0 ==> -QUANT_BITS[q] < 32 && a + QUANT_STEPS[q] * (b + QUANT_STEPS[q] * c) < Pow2(-QUANT_BITS[q])
    ensures QUANT_BITS[q] >= 0 ==> QUANT_BITS[q] < 32 && QUANT_STEPS[q] <= Pow2(QUANT_BITS[q])
  {
    Powers();
  }

  lemma Powers()
    ensures Pow2(2) == 4 && Pow2(3) == 8 && Pow2(4) == 16 && Pow2(5) == 32 && Pow2(6) == 64 && Pow2(7) == 128 && Pow2(8) == 256
    ensures Pow2(9) == 512 && Pow2(10) == 1024 && Pow2(11) == 2048 && Pow2(12) == 4096 && Pow2(13) == 8192 && Pow2(14) == 16384
    ensures Pow2(15) == 32768 && Pow2(16) == 65536
  {
    assert Pow2(4) == 16;
    assert Pow2(8) == 256;
    assert Pow2(12) == 4096;
  }

  // ---------------------------------------------------------------- allocation tables

  /** One subband: the width of its allocation field, then the quantiser for each allocation. */
  predicate GoodRow(r: seq<nat>) {
    && |r| > 0 && 2 <= r[0] <= 4 && |r| == Pow2(r[0])
    && (forall b :: 1 <= b < |r| ==> r[b] < 17)
    && (forall b :: 1 <= b < |r| - 1 ==> r[b] < r[b + 1])
  }

  predicate GoodRows(rows: seq<seq<nat>>) { |rows| <= 32 && forall i :: 0 <= i < |rows| ==> GoodRow(rows[i]) }

  function Flat(rows: seq<seq<nat>>): seq<nat> {
    if rows == [] then [] else Flat(rows[..|rows| - 1]) + rows[|rows| - 1]
  }

  function Offset(rows: seq<seq<nat>>, i: nat): nat
    requires i <= |rows|
  {
    |Flat(rows[..i])|
  }

  lemma {:induction false} RowInTable(rows: seq<seq<nat>>, i: nat)
    requires i < |rows|
    ensures Offset(rows, i + 1) == Offset(rows, i) + |rows[i]| <= |Flat(rows)|
    ensures Flat(rows)[Offset(rows, i)..Offset(rows, i + 1)] == rows[i]
    decreases |rows|
  {
    assert rows[..i + 1][..i] == rows[..i];
    if i + 1 == |rows| {
      assert rows[..i + 1] == rows;
    } else {
      var front := rows[..|rows| - 1];
      RowInTable(front, i);
      assert front[..i] == rows[..i] && front[..i + 1] == rows[..i + 1];
    }
  }

  function Repeat(row: seq<nat>, n: nat): seq<seq<nat>> { seq(n, _ => row) }

  const A: seq<nat> := [4, 0, 2, 4, 5, 6, 7, 8, 9, 10, 11, 12, 13, 14, 15, 16]
  const B: seq<nat> := [4, 0, 1, 2, 3, 4, 5, 6, 7, 8, 9, 10, 11, 12, 13, 16]
  const C: seq<nat> := [3, 0, 1, 2, 3, 4, 5, 16]
  const D: seq<nat> := [2, 0, 1, 16]
  const E: seq<nat> := [4, 0, 1, 3, 4, 5, 6, 7, 8, 9, 10, 11, 12, 13, 14, 15]
  const F: seq<nat> := [3, 0, 1, 3, 4, 5, 6, 7]
  const G: seq<nat> := [4, 0, 1, 2, 3, 4, 5, 6, 7, 8, 9, 10, 11, 12, 13, 14]
  const H: seq<nat> := [2, 0, 1, 3]

  const SBLIMIT_TABLE: seq<nat> := [27, 30, 8, 12, 30]

  /** The five tables; each row is one line of them. */
  function AllocRows(table: nat): seq<seq<nat>>
    requires table < 5
  {
    if table == 0 then Repeat(A, 3) + Repeat(B, 8) + Repeat(C, 12) + Repeat(D, 4)
    else if table == 1 then Repeat(A, 3) + Repeat(B, 8) + Repeat(C, 12) + Repeat(D, 7)
    else if table == 2 then Repeat(E, 2) + Repeat(F, 6)
    else if table == 3 then Repeat(E, 2) + Repeat(F, 10)
    else Repeat(G, 4) + Repeat(F, 7) + Repeat(H, 19)
  }

  lemma TablesAreGood(table: nat)
    requires table < 5
    ensures GoodRows(AllocRows(table)) && |AllocRows(table)| == SBLIMIT_TABLE[table]
  {
    LinesAreGood();
    hide GoodRow;
  }

  lemma LinesAreGood()
    ensures GoodRow(A) && GoodRow(B) && GoodRow(C) && GoodRow(D) && GoodRow(E) && GoodRow(F) && GoodRow(G) && GoodRow(H)
  {
    SmallPowers();
    hide Pow2;
    LineIsGood(A);
    LineIsGood(B);
    LineIsGood(C);
    LineIsGood(D);
    LineIsGood(E);
    LineIsGood(F);
    LineIsGood(G);
    LineIsGood(H);
  }

  lemma SmallPowers()
    ensures Pow2(2) == 4 && Pow2(3) == 8 && Pow2(4) == 16
  {
  }

  lemma LineIsGood(r: seq<nat>)
    requires |r| > 0 && 2 <= r[0] <= 4 && |r| == Pow2(r[0])
    requires forall b :: 1 <= b < |r| ==> r[b] < 17
    requires forall b :: 1 <= b < |r| - 1 ==> r[b] < r[b + 1]
    ensures GoodRow(r)
  {
  }

  // ---------------------------------------------------------------- sums over subbands and channels

  function RowSum(w: (nat, nat) -> nat, i: nat, ch: nat): nat {
    if ch == 0 then 0 else RowSum(w, i, ch - 1) + w(i, ch - 1)
  }

  function CellSum(w: (nat, nat) -> nat, n: nat, channels: nat): nat {
    if n == 0 then 0 else CellSum(w, n - 1, channels) + RowSum(w, n - 1, channels)
  }

  lemma {:induction false} RowSumLinear(w: (nat, nat) -> nat, a: (nat, nat) -> nat, b: (nat, nat) -> nat, c: (nat, nat) -> nat,
                                        x: nat, i: nat, ch: nat)
    requires forall k :: 0 <= k < ch ==> w(i, k) == a(i, k) + b(i, k) + x * c(i, k)
    ensures RowSum(w, i, ch) == RowSum(a, i, ch) + RowSum(b, i, ch) + x * RowSum(c, i, ch)
  {
    if ch > 0 {
      RowSumLinear(w, a, b, c, x, i, ch - 1);
      Spread(x, RowSum(c, i, ch - 1), c(i, ch - 1));
    }
  }

  lemma {:induction false} CellSumLinear(w: (nat, nat) -> nat, a: (nat, nat) -> nat, b: (nat, nat) -> nat, c: (nat, nat) -> nat,
                                         x: nat, n: nat, channels: nat)
    requires forall i, k :: 0 <= i < n && 0 <= k < channels ==> w(i, k) == a(i, k) + b(i, k) + x * c(i, k)
    ensures CellSum(w, n, channels) == CellSum(a, n, channels) + CellSum(b, n, channels) + x * CellSum(c, n, channels)
  {
    if n > 0 {
      CellSumLinear(w, a, b, c, x, n - 1, channels);
      RowSumLinear(w, a, b, c, x, n - 1, channels);
      Spread(x, CellSum(c, n - 1, channels), RowSum(c, n - 1, channels));
    }
  }

  /** Two sums that differ in one cell. */
  lemma {:induction false} RowSumUpdate(w: (nat, nat) -> nat, v: (nat, nat) -> nat, i: nat, ch: nat, i0: nat, ch0: nat)
    requires forall k :: 0 <= k < ch && (i != i0 || k != ch0) ==> v(i, k) == w(i, k)
    ensures RowSum(v, i, ch) == RowSum(w, i, ch) + if i == i0 && ch0 < ch then v(i0, ch0) - w(i0, ch0) else 0
  {
    if ch > 0 { RowSumUpdate(w, v, i, ch - 1, i0, ch0); }
  }

  lemma {:induction false} CellSumUpdate(w: (nat, nat) -> nat, v: (nat, nat) -> nat, n: nat, channels: nat, i0: nat, ch0: nat)
    requires forall i, k :: 0 <= i < n && 0 <= k < channels && (i != i0 || k != ch0) ==> v(i, k) == w(i, k)
    ensures CellSum(v, n, channels) == CellSum(w, n, channels) + if i0 < n && ch0 < channels then v(i0, ch0) - w(i0, ch0) else 0
  {
    if n > 0 {
      CellSumUpdate(w, v, n - 1, channels, i0, ch0);
      RowSumUpdate(w, v, n - 1, channels, i0, ch0);
    }
  }
}
