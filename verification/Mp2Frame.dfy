/** The frame writer of the layer II encoder, `encode_frame` (mpegaudio.c): it writes, to the bit, as much
    as the allocator counted. */
module Mp2Frame {
  import opened Numbers
  import opened BitFields
  import opened Mp2Tables
  import A = Mp2Allocation
  import Q = Mp2Quantise

  /** What goes into a frame: `samples[ch][k][t][i]` is sample `t` of part `k`. */
  datatype Frame = Frame(lsf: nat, bitrateIndex: nat, freqIndex: nat, doPadding: nat, channels: nat, rows: seq<seq<nat>>,
                         alloc: seq<seq<nat>>, codes: seq<seq<nat>>, factors: seq<seq<seq<nat>>>,
                         samples: seq<Q.Samples>)

  ghost predicate GoodFrame(f: Frame) {
    && f.lsf < 2 && f.bitrateIndex < 16 && f.freqIndex < 4 && f.doPadding < 2
    && A.GoodAlloc(f.rows, f.channels, f.codes, f.alloc) && |f.alloc| == f.channels
    && A.Shape(f.factors, f.channels, |f.rows|)
    && (forall ch, i :: 0 <= ch < f.channels && 0 <= i < |f.rows| ==> GoodFactors(f.factors[ch][i]))
    && |f.samples| == f.channels && forall ch :: 0 <= ch < f.channels ==> Q.GoodSamples(f.samples[ch], |f.rows|)
  }

  predicate GoodFactors(s: seq<nat>) { |s| == 3 && s[0] < 64 && s[1] < 64 && s[2] < 64 }

  // ---------------------------------------------------------------- the fields, in order

  function Header(f: Frame): seq<Field> {
    [Field(12, 0xfff), Field(1, if f.lsf == 0 then 1 else 0), Field(2, 2), Field(1, 1), Field(4, f.bitrateIndex),
     Field(2, f.freqIndex), Field(1, f.doPadding), Field(1, 0), Field(2, if f.channels == 2 then 0 else 3), Field(2, 0),
     Field(1, 0), Field(1, 1), Field(2, 0)]
  }

  /** The fields of one subband and channel, for each part of the frame. */
  ghost function AllocCell(f: Frame): (nat, nat) -> seq<Field>
    requires GoodFrame(f)
  {
    (i: nat, ch: nat) => if i < |f.rows| && ch < f.channels && |f.rows[i]| > 0 then [Field(f.rows[i][0], f.alloc[ch][i])] else []
  }

  ghost function CodeCell(f: Frame): (nat, nat) -> seq<Field>
    requires GoodFrame(f)
  {
    (i: nat, ch: nat) => if i < |f.rows| && ch < f.channels && f.alloc[ch][i] > 0 then [Field(2, f.codes[ch][i])] else []
  }

  function Factors(code: nat, s: seq<nat>): seq<Field>
    requires GoodFactors(s)
  {
    if code == 0 then [Field(6, s[0]), Field(6, s[1]), Field(6, s[2])]
    else if code == 2 then [Field(6, s[0])]
    else [Field(6, s[0]), Field(6, s[2])]
  }

  ghost function FactorCell(f: Frame): (nat, nat) -> seq<Field>
    requires GoodFrame(f)
  {
    (i: nat, ch: nat) =>
      if i < |f.rows| && ch < f.channels && f.alloc[ch][i] > 0 then Factors(f.codes[ch][i], f.factors[ch][i]) else []
  }

  lemma RowEntry(row: seq<nat>, b: nat)
    requires GoodRow(row) && 0 < b < |row|
    ensures row[b] < 17
  {
  }

  /** The steps of the quantiser that a subband was given. */
  ghost function Steps(f: Frame, ch: nat, i: nat): (n: nat)
    requires GoodFrame(f) && ch < f.channels && i < |f.rows| && f.alloc[ch][i] > 0
    ensures 0 < n <= 32767 || n == 65535
  {
    RowEntry(f.rows[i], f.alloc[ch][i]);
    QUANT_STEPS[f.rows[i][f.alloc[ch][i]]]
  }

  ghost function LevelAt(f: Frame, ch: nat, k: nat, t: nat, i: nat): int
    requires GoodFrame(f) && ch < f.channels && k < 3 && t < 12 && i < |f.rows| && f.alloc[ch][i] > 0
  {
    Q.Level(f.samples[ch][k][t][i], f.factors[ch][i][k], Steps(f, ch, i))
  }

  /** The three levels of a subband in group `g` of a channel are on the scale. */
  ghost predicate CellFits(f: Frame, g: nat, i: nat, ch: nat)
    requires GoodFrame(f) && g < 12 && i < |f.rows| && ch < f.channels
  {
    f.alloc[ch][i] > 0 ==> forall t :: 3 * (g % 4) <= t < 3 * (g % 4) + 3 ==> LevelAt(f, ch, g / 4, t, i) >= 0
  }

  ghost predicate GroupFits(f: Frame, g: nat)
    requires GoodFrame(f) && g < 12
  {
    forall i, ch :: 0 <= i < |f.rows| && 0 <= ch < f.channels ==> CellFits(f, g, i, ch)
  }

  ghost predicate LevelsFit(f: Frame)
    requires GoodFrame(f)
  {
    forall g :: 0 <= g < 12 ==> GroupFits(f, g)
  }

  function Samples(q: nat, a: nat, b: nat, c: nat): seq<Field>
    requires q < 17
  {
    var bits, steps := QUANT_BITS[q], QUANT_STEPS[q];
    if bits < 0 then [Field(-bits, a + steps * (b + steps * c))] else [Field(bits, a), Field(bits, b), Field(bits, c)]
  }

  ghost function SampleCell(f: Frame, g: nat): (nat, nat) -> seq<Field>
    requires GoodFrame(f) && g < 12
  {
    (i: nat, ch: nat) =>
      if i < |f.rows| && ch < f.channels && f.alloc[ch][i] > 0 then
        RowEntry(f.rows[i], f.alloc[ch][i]);
        var q, k, t := f.rows[i][f.alloc[ch][i]], g / 4, 3 * (g % 4);
        Samples(q, Max(0, LevelAt(f, ch, k, t, i)), Max(0, LevelAt(f, ch, k, t + 1, i)), Max(0, LevelAt(f, ch, k, t + 2, i)))
      else []
  }

  function CellRow(c: (nat, nat) -> seq<Field>, i: nat, ch: nat): seq<Field> {
    if ch == 0 then [] else CellRow(c, i, ch - 1) + c(i, ch - 1)
  }

  /** Subband by subband, and in each channel by channel. */
  function Cells(c: (nat, nat) -> seq<Field>, n: nat, channels: nat): seq<Field> {
    if n == 0 then [] else Cells(c, n - 1, channels) + CellRow(c, n - 1, channels)
  }

  /** The first `g` of the twelve groups of samples. */
  ghost function SampleGroups(f: Frame, g: nat): seq<Field>
    requires GoodFrame(f) && g <= 12
  {
    if g == 0 then [] else SampleGroups(f, g - 1) + Cells(SampleCell(f, g - 1), |f.rows|, f.channels)
  }

  function Padding(n: nat): seq<Field> { if n == 0 then [] else Padding(n - 1) + [Field(1, 0)] }

  ghost function FrameFields(f: Frame, padding: nat): seq<Field>
    requires GoodFrame(f)
  {
    Header(f) + Cells(AllocCell(f), |f.rows|, f.channels) + Cells(CodeCell(f), |f.rows|, f.channels)
    + Cells(FactorCell(f), |f.rows|, f.channels) + SampleGroups(f, 12) + Padding(padding)
  }

  // ---------------------------------------------------------------- how many bits that is

  function Width(fs: seq<Field>): nat { |FieldBits(fs)| }

  lemma WidthJoins(s: seq<Field>, t: seq<Field>)
    ensures Width(s + t) == Width(s) + Width(t)
  {
    FieldBitsJoin(s, t);
  }

  lemma WidthOne(f: Field)
    ensures Width([f]) == f.width
  {
    FieldBitsNext([], f);
    assert [] + [f] == [f];
  }

  lemma WidthTwo(a: Field, b: Field)
    ensures Width([a, b]) == a.width + b.width
  {
    WidthOne(a);
    FieldBitsNext([a], b);
    assert [a] + [b] == [a, b];
  }

  lemma WidthThree(a: Field, b: Field, c: Field)
    ensures Width([a, b, c]) == a.width + b.width + c.width
  {
    WidthTwo(a, b);
    FieldBitsNext([a, b], c);
    assert [a, b] + [c] == [a, b, c];
  }

  lemma HeaderWidth(f: Frame)
    ensures Width(Header(f)) == 32
  {
    var h := Header(f);
    WidthThree(h[0], h[1], h[2]);
    WidthThree(h[3], h[4], h[5]);
    WidthThree(h[6], h[7], h[8]);
    WidthThree(h[9], h[10], h[11]);
    WidthOne(h[12]);
    hide Width;
    WidthJoins([h[0], h[1], h[2]], [h[3], h[4], h[5]]);
    WidthJoins([h[0], h[1], h[2]] + [h[3], h[4], h[5]], [h[6], h[7], h[8]]);
    WidthJoins([h[0], h[1], h[2]] + [h[3], h[4], h[5]] + [h[6], h[7], h[8]], [h[9], h[10], h[11]]);
    WidthJoins([h[0], h[1], h[2]] + [h[3], h[4], h[5]] + [h[6], h[7], h[8]] + [h[9], h[10], h[11]], [h[12]]);
    assert h == [h[0], h[1], h[2]] + [h[3], h[4], h[5]] + [h[6], h[7], h[8]] + [h[9], h[10], h[11]] + [h[12]];
  }

  lemma {:induction false} CellRowWidth(c: (nat, nat) -> seq<Field>, w: (nat, nat) -> nat, i: nat, ch: nat)
    requires forall k :: 0 <= k < ch ==> Width(c(i, k)) == w(i, k)
    ensures Width(CellRow(c, i, ch)) == RowSum(w, i, ch)
  {
    if ch > 0 {
      CellRowWidth(c, w, i, ch - 1);
      WidthJoins(CellRow(c, i, ch - 1), c(i, ch - 1));
    }
  }

  lemma {:induction false} CellsWidth(c: (nat, nat) -> seq<Field>, w: (nat, nat) -> nat, n: nat, channels: nat)
    requires forall i, k :: 0 <= i < n && 0 <= k < channels ==> Width(c(i, k)) == w(i, k)
    ensures Width(Cells(c, n, channels)) == CellSum(w, n, channels)
  {
    NoWidth();
    hide Width;
    if n > 0 {
      CellsWidth(c, w, n - 1, channels);
      CellRowWidth(c, w, n - 1, channels);
      WidthJoins(Cells(c, n - 1, channels), CellRow(c, n - 1, channels));
    }
  }

  /** The widths by subband and channel. */
  ghost function CodeWidth(f: Frame): (nat, nat) -> nat
    requires GoodFrame(f)
  {
    (i: nat, ch: nat) => if i < |f.rows| && ch < f.channels && f.alloc[ch][i] > 0 then 2 else 0
  }

  ghost function FactorWidth(f: Frame): (nat, nat) -> nat
    requires GoodFrame(f)
  {
    (i: nat, ch: nat) =>
      if i < |f.rows| && ch < f.channels && f.alloc[ch][i] > 0 && f.codes[ch][i] < 4 then 6 * NB_SCALE_FACTORS[f.codes[ch][i]] else 0
  }

  ghost function SampleWidth(f: Frame): (nat, nat) -> nat
    requires GoodFrame(f)
  {
    (i: nat, ch: nat) =>
      if i < |f.rows| && ch < f.channels && 0 < f.alloc[ch][i] < |f.rows[i]| && f.rows[i][f.alloc[ch][i]] < 17
      then GroupBits(f.rows[i][f.alloc[ch][i]]) else 0
  }

  lemma SamplesWidth(q: nat, a: nat, b: nat, c: nat)
    requires q < 17
    ensures Width(Samples(q, a, b, c)) == GroupBits(q)
  {
    hide Width;
    var s := Samples(q, a, b, c);
    if QUANT_BITS[q] < 0 { WidthOne(s[0]); } else { WidthThree(s[0], s[1], s[2]); }
  }

  lemma FactorsWidth(code: nat, s: seq<nat>)
    requires GoodFactors(s) && code < 4
    ensures Width(Factors(code, s)) == 6 * NB_SCALE_FACTORS[code]
  {
    hide Width;
    var fs := Factors(code, s);
    if code == 0 { WidthThree(fs[0], fs[1], fs[2]); } else if code == 2 { WidthOne(fs[0]); } else { WidthTwo(fs[0], fs[1]); }
  }

  lemma NoWidth()
    ensures Width([]) == 0
  {
  }

  lemma CellWidths(f: Frame)
    requires GoodFrame(f)
    ensures forall i: nat, k: nat :: i < |f.rows| && k < f.channels ==>
              && Width(AllocCell(f)(i, k)) == A.AllocWidth(f.rows)(i, k) && Width(CodeCell(f)(i, k)) == CodeWidth(f)(i, k)
              && Width(FactorCell(f)(i, k)) == FactorWidth(f)(i, k)
  {
    hide Width, GoodRow, Factors;
    NoWidth();
    A.RowsAreLong(f.rows);
    forall i: nat, k: nat | i < |f.rows| && k < f.channels
      ensures Width(AllocCell(f)(i, k)) == A.AllocWidth(f.rows)(i, k)
      ensures Width(CodeCell(f)(i, k)) == CodeWidth(f)(i, k)
      ensures Width(FactorCell(f)(i, k)) == FactorWidth(f)(i, k)
    {
      WidthOne(Field(f.rows[i][0], f.alloc[k][i]));
      WidthOne(Field(2, f.codes[k][i]));
      FactorsWidth(f.codes[k][i], f.factors[k][i]);
    }
  }

  lemma SideWidths(f: Frame)
    requires GoodFrame(f)
    ensures Width(Cells(AllocCell(f), |f.rows|, f.channels)) == CellSum(A.AllocWidth(f.rows), |f.rows|, f.channels)
    ensures Width(Cells(CodeCell(f), |f.rows|, f.channels)) == CellSum(CodeWidth(f), |f.rows|, f.channels)
    ensures Width(Cells(FactorCell(f), |f.rows|, f.channels)) == CellSum(FactorWidth(f), |f.rows|, f.channels)
  {
    hide Width, Cells, CellSum, GoodRow, Factors;
    CellWidths(f);
    CellsWidth(AllocCell(f), A.AllocWidth(f.rows), |f.rows|, f.channels);
    CellsWidth(CodeCell(f), CodeWidth(f), |f.rows|, f.channels);
    CellsWidth(FactorCell(f), FactorWidth(f), |f.rows|, f.channels);
  }

  lemma {:induction false} SampleGroupsWidth(f: Frame, g: nat)
    requires GoodFrame(f) && g <= 12
    ensures Width(SampleGroups(f, g)) == g * CellSum(SampleWidth(f), |f.rows|, f.channels)
  {
    hide Width, Cells, CellSum, GoodFrame, Samples;
    NoWidth();
    if g > 0 {
      SampleGroupsWidth(f, g - 1);
      forall i: nat, k: nat | i < |f.rows| && k < f.channels
        ensures Width(SampleCell(f, g - 1)(i, k)) == SampleWidth(f)(i, k)
      {
        SampleCellWidth(f, g - 1, i, k);
      }
      CellsWidth(SampleCell(f, g - 1), SampleWidth(f), |f.rows|, f.channels);
      WidthJoins(SampleGroups(f, g - 1), Cells(SampleCell(f, g - 1), |f.rows|, f.channels));
      var total := CellSum(SampleWidth(f), |f.rows|, f.channels);
      assert g * total == (g - 1) * total + total;
    }
  }

  lemma SampleCellWidth(f: Frame, g: nat, i: nat, ch: nat)
    requires GoodFrame(f) && g < 12
    ensures Width(SampleCell(f, g)(i, ch)) == SampleWidth(f)(i, ch)
  {
    hide Width, Samples, GoodRow, LevelAt;
    NoWidth();
    if i < |f.rows| && ch < f.channels && f.alloc[ch][i] > 0 {
      RowEntry(f.rows[i], f.alloc[ch][i]);
      var q, k, t := f.rows[i][f.alloc[ch][i]], g / 4, 3 * (g % 4);
      SamplesWidth(q, Max(0, LevelAt(f, ch, k, t, i)), Max(0, LevelAt(f, ch, k, t + 1, i)), Max(0, LevelAt(f, ch, k, t + 2, i)));
    }
  }

  lemma {:induction false} PaddingWidth(n: nat)
    ensures Width(Padding(n)) == n
  {
    NoWidth();
    hide Width;
    if n > 0 {
      PaddingWidth(n - 1);
      WidthOne(Field(1, 0));
      WidthJoins(Padding(n - 1), [Field(1, 0)]);
    }
  }

  /** The writer's count is the allocator's: with the padding the allocator leaves, the frame is full. */
  lemma FrameIsFull(f: Frame, padding: nat)
    requires GoodFrame(f)
    ensures Width(FrameFields(f, padding)) == A.FrameSize(f.rows, f.channels, f.codes, f.alloc) + padding
  {
    hide Width, Cells, CellSum, GoodRow;
    var h, a, c, s, g := Header(f), Cells(AllocCell(f), |f.rows|, f.channels), Cells(CodeCell(f), |f.rows|, f.channels),
        Cells(FactorCell(f), |f.rows|, f.channels), SampleGroups(f, 12);
    HeaderWidth(f);
    SideWidths(f);
    SampleGroupsWidth(f, 12);
    PaddingWidth(padding);
    WidthJoins(h, a);
    WidthJoins(h + a, c);
    WidthJoins(h + a + c, s);
    WidthJoins(h + a + c + s, g);
    WidthJoins(h + a + c + s + g, Padding(padding));
    forall i: nat, k: nat | i < |f.rows| && k < f.channels
      ensures A.Cost(f.rows, f.codes, f.alloc)(i, k) == CodeWidth(f)(i, k) + FactorWidth(f)(i, k) + 12 * SampleWidth(f)(i, k)
    {
      assert GoodRow(f.rows[i]);
      CellBits(f.rows[i], f.codes[k][i], f.alloc[k][i]);
    }
    CellSumLinear(A.Cost(f.rows, f.codes, f.alloc), CodeWidth(f), FactorWidth(f), SampleWidth(f), 12, |f.rows|, f.channels);
  }

  lemma CellBits(row: seq<nat>, code: nat, b: nat)
    requires GoodRow(row) && code < 4 && b < |row|
    ensures b > 0 ==> row[b] < 17 && A.CellCost(row, code, b) == 2 + 6 * NB_SCALE_FACTORS[code] + 12 * GroupBits(row[b])
  {
  }

  // ---------------------------------------------------------------- writing it

  lemma {:induction false} RowPrefix(c: (nat, nat) -> seq<Field>, i: nat, ch: nat, channels: nat)
    requires ch <= channels
    ensures Width(CellRow(c, i, ch)) <= Width(CellRow(c, i, channels))
    decreases channels
  {
    hide Width;
    if ch < channels {
      RowPrefix(c, i, ch, channels - 1);
      WidthJoins(CellRow(c, i, channels - 1), c(i, channels - 1));
    }
  }

  lemma {:induction false} CellsPrefix(c: (nat, nat) -> seq<Field>, i: nat, ch: nat, n: nat, channels: nat)
    requires i < n && ch <= channels
    ensures Width(Cells(c, i, channels)) + Width(CellRow(c, i, ch)) <= Width(Cells(c, n, channels))
    decreases n
  {
    hide Width;
    WidthJoins(Cells(c, n - 1, channels), CellRow(c, n - 1, channels));
    if i + 1 < n { CellsPrefix(c, i, ch, n - 1, channels); } else { RowPrefix(c, i, ch, channels); }
  }

  /** One more cell: what it adds, and that it still fits. */
  lemma CellStep(c: (nat, nat) -> seq<Field>, i: nat, ch: nat, n: nat, channels: nat)
    requires i < n && ch < channels
    ensures FieldBits(Cells(c, i, channels) + CellRow(c, i, ch + 1)) == FieldBits(Cells(c, i, channels) + CellRow(c, i, ch)) + FieldBits(c(i, ch))
    ensures |FieldBits(Cells(c, i, channels) + CellRow(c, i, ch))| + |FieldBits(c(i, ch))| <= |FieldBits(Cells(c, n, channels))|
  {
    hide FieldBits, Cells;
    var front, row, cell := Cells(c, i, channels), CellRow(c, i, ch), c(i, ch);
    FieldBitsJoin(front + row, cell);
    FieldBitsJoin(front, row);
    FieldBitsJoin(row, cell);
    assert (front + row) + cell == front + (row + cell);
    CellsPrefix(c, i, ch + 1, n, channels);
  }

  lemma NoCells(c: (nat, nat) -> seq<Field>, channels: nat, view: seq<bool>)
    ensures view + FieldBits(Cells(c, 0, channels)) == view
  {
  }

  lemma RowEnds(c: (nat, nat) -> seq<Field>, i: nat, channels: nat)
    ensures Cells(c, i, channels) + CellRow(c, i, 0) == Cells(c, i, channels)
    ensures Cells(c, i + 1, channels) == Cells(c, i, channels) + CellRow(c, i, channels)
  {
  }

  ghost predicate Room(p: PutBitContext, fs: seq<Field>)
    reads p, p.buf
  {
    p.Valid() && |p.View()| + |FieldBits(fs)| <= 8 * p.buf.Length
  }

  /** A run of `put_bits`. */
  method PutFields(p: PutBitContext, fs: seq<Field>)
    requires Room(p, fs) && forall f :: f in fs ==> BitFields.Fits(f)
    modifies p, p.buf
    ensures p.Valid() && p.View() == old(p.View()) + FieldBits(fs)
  {
    hide FieldBits, Bits, Pow2, BytesBits;
    ghost var view := p.View();
    NoFields(fs);
    for k := 0 to |fs|
      invariant p.Valid() && p.View() == view + FieldBits(fs[..k])
    {
      FieldSplit(fs, k);
      p.PutBits(fs[k].width, fs[k].value);
    }
    assert fs[..|fs|] == fs;
  }

  lemma HeaderFits(f: Frame)
    requires GoodFrame(f)
    ensures forall x :: x in Header(f) ==> BitFields.Fits(x)
  {
    Powers();
    PowAt1();
  }

  lemma PowAt1()
    ensures Pow2(1) == 2
  {
  }

  method WriteAllocation(p: PutBitContext, f: Frame, table: seq<nat>)
    requires GoodFrame(f) && table == Flat(f.rows) && Room(p, Cells(AllocCell(f), |f.rows|, f.channels))
    modifies p, p.buf
    ensures p.Valid() && p.View() == old(p.View()) + FieldBits(Cells(AllocCell(f), |f.rows|, f.channels))
  {
    hide FieldBits, Bits, Pow2, BytesBits, Cells, CellRow, GoodRow, Flat, Q.GoodSamples;
    ghost var c, view := AllocCell(f), p.View();
    NoCells(c, f.channels, view);
    A.RowsAreLong(f.rows);
    var j := 0;
    assert Offset(f.rows, 0) == 0 by { A.OffsetStarts(f.rows); }
    for i := 0 to |f.rows|
      invariant p.Valid() && p.View() == view + FieldBits(Cells(c, i, f.channels)) && j == Offset(f.rows, i)
    {
      A.LineAt(f.rows, i);
      assert table[j + 0] == f.rows[i][0];
      var bits := table[j];
      RowEnds(c, i, f.channels);
      for ch := 0 to f.channels
        invariant p.Valid() && p.View() == view + FieldBits(Cells(c, i, f.channels) + CellRow(c, i, ch))
      {
        CellStep(c, i, ch, |f.rows|, f.channels);
        OneField(Field(bits, f.alloc[ch][i]));
        BitsSmall(f.rows[i]);
        p.PutBits(bits, f.alloc[ch][i]);
      }
      j := j + Pow2(bits);
    }
  }

  lemma OneField(f: Field)
    ensures FieldBits([f]) == Bits(f.value, f.width)
  {
    FieldBitsNext([], f);
    assert [] + [f] == [f];
  }

  lemma BitsSmall(row: seq<nat>)
    requires GoodRow(row)
    ensures row[0] < 32 && |row| == Pow2(row[0]) <= 16
  {
    SmallPowers();
  }

  method WriteScaleCodes(p: PutBitContext, f: Frame)
    requires GoodFrame(f) && Room(p, Cells(CodeCell(f), |f.rows|, f.channels))
    modifies p, p.buf
    ensures p.Valid() && p.View() == old(p.View()) + FieldBits(Cells(CodeCell(f), |f.rows|, f.channels))
  {
    hide FieldBits, Bits, BytesBits, Cells, CellRow, GoodRow, Q.GoodSamples;
    ghost var c, view := CodeCell(f), p.View();
    NoCells(c, f.channels, view);
    NoBits();
    SmallPowers();
    hide Pow2;
    for i := 0 to |f.rows|
      invariant p.Valid() && p.View() == view + FieldBits(Cells(c, i, f.channels))
    {
      RowEnds(c, i, f.channels);
      for ch := 0 to f.channels
        invariant p.Valid() && p.View() == view + FieldBits(Cells(c, i, f.channels) + CellRow(c, i, ch))
      {
        CellStep(c, i, ch, |f.rows|, f.channels);
        if f.alloc[ch][i] != 0 {
          OneField(Field(2, f.codes[ch][i]));
          p.PutBits(2, f.codes[ch][i]);
        }
      }
    }
  }

  method WriteScaleFactors(p: PutBitContext, f: Frame)
    requires GoodFrame(f) && Room(p, Cells(FactorCell(f), |f.rows|, f.channels))
    modifies p, p.buf
    ensures p.Valid() && p.View() == old(p.View()) + FieldBits(Cells(FactorCell(f), |f.rows|, f.channels))
  {
    hide FieldBits, Bits, BytesBits, Cells, CellRow, GoodRow, Q.GoodSamples;
    ghost var c, view := FactorCell(f), p.View();
    NoCells(c, f.channels, view);
    NoBits();
    hide Pow2, Factors;
    for i := 0 to |f.rows|
      invariant p.Valid() && p.View() == view + FieldBits(Cells(c, i, f.channels))
    {
      RowEnds(c, i, f.channels);
      for ch := 0 to f.channels
        invariant p.Valid() && p.View() == view + FieldBits(Cells(c, i, f.channels) + CellRow(c, i, ch))
      {
        CellStep(c, i, ch, |f.rows|, f.channels);
        if f.alloc[ch][i] != 0 {
          WriteFactors(p, f.codes[ch][i], f.factors[ch][i]);
        }
      }
    }
  }

  method WriteFactors(p: PutBitContext, code: nat, sf: seq<nat>)
    requires GoodFactors(sf) && code < 4 && Room(p, Factors(code, sf))
    modifies p, p.buf
    ensures p.Valid() && p.View() == old(p.View()) + FieldBits(Factors(code, sf))
  {
    hide FieldBits, Bits, BytesBits;
    Powers();
    hide Pow2;
    if code == 0 {
      PutFields(p, [Field(6, sf[0]), Field(6, sf[1]), Field(6, sf[2])]);
    } else if code == 3 || code == 1 {
      PutFields(p, [Field(6, sf[0]), Field(6, sf[2])]);
    } else if code == 2 {
      PutFields(p, [Field(6, sf[0])]);
    }
  }

  lemma NoBits()
    ensures FieldBits([]) == [] && forall v: seq<bool> :: v + [] == v
  {
  }

  /** Three samples of every subband and channel that has bits; not past a level off the scale, whose sign
      would run over the fields before it. */
  method WriteSamples(p: PutBitContext, f: Frame, table: seq<nat>, g: nat) returns (ok: bool)
    requires GoodFrame(f) && g < 12 && table == Flat(f.rows) && Room(p, Cells(SampleCell(f, g), |f.rows|, f.channels))
    modifies p, p.buf
    ensures p.Valid() && (ok <==> GroupFits(f, g))
    ensures ok ==> p.View() == old(p.View()) + FieldBits(Cells(SampleCell(f, g), |f.rows|, f.channels))
  {
    hide FieldBits, Bits, Pow2, BytesBits, Cells, CellRow, GoodRow, Flat, Samples, CellFits, SampleCell, Q.GoodSamples;
    ghost var c, view := SampleCell(f, g), p.View();
    NoCells(c, f.channels, view);
    NoBits();
    A.RowsAreLong(f.rows);
    var j := 0;
    assert Offset(f.rows, 0) == 0 by { A.OffsetStarts(f.rows); }
    for i := 0 to |f.rows|
      invariant p.Valid() && p.View() == view + FieldBits(Cells(c, i, f.channels)) && j == Offset(f.rows, i)
      invariant forall n, ch :: 0 <= n < i && 0 <= ch < f.channels ==> CellFits(f, g, n, ch)
    {
      A.LineAt(f.rows, i);
      assert table[j + 0] == f.rows[i][0];
      var bits := table[j];
      RowEnds(c, i, f.channels);
      for ch := 0 to f.channels
        invariant p.Valid() && p.View() == view + FieldBits(Cells(c, i, f.channels) + CellRow(c, i, ch))
        invariant forall m :: 0 <= m < ch ==> CellFits(f, g, i, m)
      {
        CellStep(c, i, ch, |f.rows|, f.channels);
        var b := f.alloc[ch][i];
        if b != 0 {
          var fits := WriteSampleCell(p, f, table[j + b], g, i, ch);
          if !fits { return false; }
        } else {
          EmptyCell(f, g, i, ch);
        }
      }
      j := j + Pow2(bits);
    }
    ok := true;
  }

  lemma EmptyCell(f: Frame, g: nat, i: nat, ch: nat)
    requires GoodFrame(f) && g < 12 && i < |f.rows| && ch < f.channels && f.alloc[ch][i] == 0
    ensures SampleCell(f, g)(i, ch) == [] && CellFits(f, g, i, ch)
  {
    hide GoodRow;
  }

  method WriteSampleCell(p: PutBitContext, f: Frame, q: nat, g: nat, i: nat, ch: nat) returns (ok: bool)
    requires GoodFrame(f) && g < 12 && i < |f.rows| && ch < f.channels && f.alloc[ch][i] > 0 && q == f.rows[i][f.alloc[ch][i]]
    requires Room(p, SampleCell(f, g)(i, ch))
    modifies p, p.buf
    ensures p.Valid() && (ok <==> CellFits(f, g, i, ch))
    ensures ok ==> p.View() == old(p.View()) + FieldBits(SampleCell(f, g)(i, ch))
  {
    hide FieldBits, Bits, Pow2, BytesBits, GoodRow, Samples, Q.Level;
    RowEntry(f.rows[i], f.alloc[ch][i]);
    var k, l := g / 4, 3 * (g % 4);
    var q0 := Q.QuantiseSample(f.samples[ch][k][l][i], f.factors[ch][i][k], QUANT_STEPS[q]);
    var q1 := Q.QuantiseSample(f.samples[ch][k][l + 1][i], f.factors[ch][i][k], QUANT_STEPS[q]);
    var q2 := Q.QuantiseSample(f.samples[ch][k][l + 2][i], f.factors[ch][i][k], QUANT_STEPS[q]);
    assert q0 == LevelAt(f, ch, k, l, i) && q1 == LevelAt(f, ch, k, l + 1, i) && q2 == LevelAt(f, ch, k, l + 2, i);
    ok := q0 >= 0 && q1 >= 0 && q2 >= 0;
    if ok {
      LevelIsBelow(f, ch, k, l, i);
      LevelIsBelow(f, ch, k, l + 1, i);
      LevelIsBelow(f, ch, k, l + 2, i);
      WriteThree(p, q, q0, q1, q2);
    }
  }

  lemma LevelIsBelow(f: Frame, ch: nat, k: nat, t: nat, i: nat)
    requires GoodFrame(f) && ch < f.channels && k < 3 && t < 12 && i < |f.rows| && f.alloc[ch][i] > 0
    ensures LevelAt(f, ch, k, t, i) < Steps(f, ch, i)
  {
    hide Q.Normalised, GoodRow, Steps;
  }

  /** Three samples of one subband, in one field or in three. */
  method WriteThree(p: PutBitContext, q: nat, q0: nat, q1: nat, q2: nat)
    requires q < 17 && q0 < QUANT_STEPS[q] && q1 < QUANT_STEPS[q] && q2 < QUANT_STEPS[q]
    requires Room(p, Samples(q, q0, q1, q2))
    modifies p, p.buf
    ensures p.Valid() && p.View() == old(p.View()) + FieldBits(Samples(q, q0, q1, q2))
  {
    hide FieldBits, Bits, BytesBits;
    var steps, bits := QUANT_STEPS[q], QUANT_BITS[q];
    SamplesFit(q, q0, q1, q2);
    hide Pow2, BitFields.Fits;
    if bits < 0 {
      PutFields(p, [Field(-bits, q0 + steps * (q1 + steps * q2))]);
    } else {
      PutFields(p, [Field(bits, q0), Field(bits, q1), Field(bits, q2)]);
    }
  }

  lemma SamplesFit(q: nat, a: nat, b: nat, c: nat)
    requires q < 17 && a < QUANT_STEPS[q] && b < QUANT_STEPS[q] && c < QUANT_STEPS[q]
    ensures forall x :: x in Samples(q, a, b, c) ==> BitFields.Fits(x)
  {
    QuantisedFit(q, a, b, c);
    FieldSmall(q);
    hide Pow2;
  }

  lemma FieldSmall(q: nat)
    requires q < 17
    ensures (QUANT_BITS[q] < 0 ==> Pow2(-QUANT_BITS[q]) <= 65536) && (QUANT_BITS[q] >= 0 ==> Pow2(QUANT_BITS[q]) <= 65536)
  {
    Powers();
  }

  /** `encode_frame`, as far as its levels are on their scales. */
  method EncodeFrame(p: PutBitContext, f: Frame, table: seq<nat>, padding: nat) returns (ok: bool)
    requires GoodFrame(f) && table == Flat(f.rows) && p.Valid() && p.View() == []
    requires A.FrameSize(f.rows, f.channels, f.codes, f.alloc) + padding <= 8 * p.buf.Length
    modifies p, p.buf
    ensures ok <==> LevelsFit(f)
    ensures ok ==> p.Valid() && p.bufPtr == (A.FrameSize(f.rows, f.channels, f.codes, f.alloc) + padding + 7) / 8
    ensures ok ==> FieldBits(FrameFields(f, padding)) <= BytesBits(p.buf[..p.bufPtr])
  {
    hide FieldBits, Bits, Pow2, BytesBits, Cells, GoodFrame, LevelsFit;
    FrameIsFull(f, padding);
    WriteSide(p, f, table, padding);
    ok := WriteSampleGroups(p, f, table, padding);
    if !ok { return; }
    WritePadding(p, f, padding);
    SideThenRest(f, padding);
    p.Flush();
  }

  /** Everything before the samples. */
  method WriteSide(p: PutBitContext, f: Frame, table: seq<nat>, ghost padding: nat)
    requires GoodFrame(f) && table == Flat(f.rows) && p.Valid() && p.View() == []
    requires Width(FrameFields(f, padding)) <= 8 * p.buf.Length
    modifies p, p.buf
    ensures p.Valid() && p.View() == FieldBits(SideFields(f))
  {
    hide FieldBits, Bits, Pow2, BytesBits, Cells, GoodFrame, Header, SideFields, FrameFields;
    FramePrefixes(f, padding);
    HeaderFits(f);
    PutFields(p, Header(f));
    WriteAllocation(p, f, table);
    WriteScaleCodes(p, f);
    WriteScaleFactors(p, f);
  }

  /** The samples, in three parts of four groups. */
  method WriteSampleGroups(p: PutBitContext, f: Frame, table: seq<nat>, ghost padding: nat) returns (ok: bool)
    requires GoodFrame(f) && table == Flat(f.rows) && p.Valid() && p.View() == FieldBits(SideFields(f))
    requires Width(FrameFields(f, padding)) <= 8 * p.buf.Length
    modifies p, p.buf
    ensures p.Valid() && (ok <==> LevelsFit(f))
    ensures ok ==> p.View() == FieldBits(SideFields(f) + SampleGroups(f, 12))
  {
    hide FieldBits, Bits, Pow2, BytesBits, Cells, GoodFrame, SideFields, FrameFields, GroupFits;
    ghost var side := SideFields(f);
    assert side + SampleGroups(f, 0) == side;
    hide SampleGroups;
    for k := 0 to 3
      invariant p.Valid() && p.View() == FieldBits(side + SampleGroups(f, 4 * k))
      invariant forall g :: 0 <= g < 4 * k ==> GroupFits(f, g)
    {
      for l := 0 to 4
        invariant p.Valid() && p.View() == FieldBits(side + SampleGroups(f, 4 * k + l))
        invariant forall g :: 0 <= g < 4 * k + l ==> GroupFits(f, g)
      {
        GroupPrefix(f, padding, 4 * k + l);
        var fits := WriteSamples(p, f, table, 4 * k + l);
        if !fits { return false; }
      }
    }
    ok := true;
  }

  method WritePadding(p: PutBitContext, ghost f: Frame, padding: nat)
    requires GoodFrame(f) && p.Valid() && p.View() == FieldBits(SideFields(f) + SampleGroups(f, 12))
    requires Width(FrameFields(f, padding)) <= 8 * p.buf.Length
    modifies p, p.buf
    ensures p.Valid() && p.View() == FieldBits(SideFields(f) + SampleGroups(f, 12) + Padding(padding))
  {
    hide FieldBits, Bits, Pow2, BytesBits, GoodFrame, SideFields, SampleGroups, FrameFields;
    ghost var all := SideFields(f) + SampleGroups(f, 12);
    assert all + Padding(0) == all;
    hide Padding;
    for i := 0 to padding
      invariant p.Valid() && p.View() == FieldBits(all + Padding(i))
    {
      PaddingPrefix(f, padding, i);
      p.PutBits(1, 0);
    }
  }

  ghost function SideFields(f: Frame): seq<Field>
    requires GoodFrame(f)
  {
    Header(f) + Cells(AllocCell(f), |f.rows|, f.channels) + Cells(CodeCell(f), |f.rows|, f.channels)
    + Cells(FactorCell(f), |f.rows|, f.channels)
  }

  lemma FramePrefixes(f: Frame, padding: nat)
    requires GoodFrame(f)
    ensures var h, a, c, s := Header(f), Cells(AllocCell(f), |f.rows|, f.channels), Cells(CodeCell(f), |f.rows|, f.channels),
                Cells(FactorCell(f), |f.rows|, f.channels);
            && FieldBits(h + a + c + s) == FieldBits(h) + FieldBits(a) + FieldBits(c) + FieldBits(s)
            && Width(h) + Width(a) + Width(c) + Width(s) <= Width(FrameFields(f, padding))
            && SideFields(f) == h + a + c + s
  {
    hide FieldBits, Cells, GoodFrame;
    var h, a, c, s := Header(f), Cells(AllocCell(f), |f.rows|, f.channels), Cells(CodeCell(f), |f.rows|, f.channels),
        Cells(FactorCell(f), |f.rows|, f.channels);
    FieldBitsJoin(h, a);
    FieldBitsJoin(h + a, c);
    FieldBitsJoin(h + a + c, s);
    WidthJoins(h + a + c + s, SampleGroups(f, 12));
    WidthJoins(h + a + c + s + SampleGroups(f, 12), Padding(padding));
  }

  lemma {:induction false} GroupsPrefix(f: Frame, g: nat, n: nat)
    requires GoodFrame(f) && g <= n <= 12
    ensures Width(SampleGroups(f, g)) <= Width(SampleGroups(f, n))
  {
    hide Width, GoodFrame, Cells;
    if g < n {
      GroupsPrefix(f, g, n - 1);
      WidthJoins(SampleGroups(f, n - 1), Cells(SampleCell(f, n - 1), |f.rows|, f.channels));
    }
  }

  lemma GroupPrefix(f: Frame, padding: nat, g: nat)
    requires GoodFrame(f) && g < 12
    ensures var side, cells := SideFields(f), Cells(SampleCell(f, g), |f.rows|, f.channels);
            && FieldBits(side + SampleGroups(f, g + 1)) == FieldBits(side + SampleGroups(f, g)) + FieldBits(cells)
            && Width(side + SampleGroups(f, g)) + Width(cells) <= Width(FrameFields(f, padding))
  {
    hide FieldBits, Cells, GoodFrame;
    var side, cells := SideFields(f), Cells(SampleCell(f, g), |f.rows|, f.channels);
    FieldBitsJoin(side + SampleGroups(f, g), cells);
    assert side + SampleGroups(f, g + 1) == (side + SampleGroups(f, g)) + cells;
    GroupsPrefix(f, g + 1, 12);
    WidthJoins(side, SampleGroups(f, g + 1));
    WidthJoins(side, SampleGroups(f, 12));
    WidthJoins(side + SampleGroups(f, 12), Padding(padding));
  }

  lemma PaddingPrefix(f: Frame, padding: nat, i: nat)
    requires GoodFrame(f) && i < padding
    ensures var all := SideFields(f) + SampleGroups(f, 12);
            && FieldBits(all + Padding(i + 1)) == FieldBits(all + Padding(i)) + Bits(0, 1)
            && Width(all + Padding(i)) + 1 <= Width(FrameFields(f, padding))
    ensures 0 < Pow2(1)
  {
    hide FieldBits, Cells, GoodFrame, SideFields;
    var all := SideFields(f) + SampleGroups(f, 12);
    FieldBitsNext(all + Padding(i), Field(1, 0));
    assert all + Padding(i + 1) == (all + Padding(i)) + [Field(1, 0)];
    WidthJoins(all, Padding(i));
    WidthJoins(all, Padding(padding));
    PaddingWidth(i);
    PaddingWidth(padding);
    assert FrameFields(f, padding) == all + Padding(padding) by { SideThenRest(f, padding); }
  }

  lemma SideThenRest(f: Frame, padding: nat)
    requires GoodFrame(f)
    ensures FrameFields(f, padding) == SideFields(f) + SampleGroups(f, 12) + Padding(padding)
  {
  }

  /** Every level is on its scale exactly when every sample is representable. */
  lemma LevelsFitExactly(f: Frame)
    requires GoodFrame(f) && Covered(f)
    ensures LevelsFit(f) <==>
            forall ch, k, t, i :: 0 <= ch < f.channels && 0 <= k < 3 && 0 <= t < 12 && 0 <= i < |f.rows| && f.alloc[ch][i] > 0 ==>
              Q.Representable(f.samples[ch][k][t][i], f.factors[ch][i][k], Steps(f, ch, i))
  {
    hide GoodRow, Q.Level, Q.Representable, Q.ScaleFactor, Steps;
    forall ch, k, t, i | 0 <= ch < f.channels && 0 <= k < 3 && 0 <= t < 12 && 0 <= i < |f.rows| && f.alloc[ch][i] > 0
      ensures LevelAt(f, ch, k, t, i) >= 0 <==> Q.Representable(f.samples[ch][k][t][i], f.factors[ch][i][k], Steps(f, ch, i))
      ensures LevelsFit(f) ==> LevelAt(f, ch, k, t, i) >= 0
    {
      assert IsCovered(f, ch, k, t, i);
      Q.LevelExactly(f.samples[ch][k][t][i], f.factors[ch][i][k], Steps(f, ch, i));
      var g := 4 * k + t / 3;
      assert g / 4 == k && 3 * (g % 4) <= t < 3 * (g % 4) + 3;
      assert GroupFits(f, g) ==> CellFits(f, g, i, ch);
    }
  }

  /** No sample is louder than its scale. */
  ghost predicate Covered(f: Frame)
    requires GoodFrame(f)
  {
    forall ch, k, t, i :: 0 <= ch < f.channels && 0 <= k < 3 && 0 <= t < 12 && 0 <= i < |f.rows| ==> IsCovered(f, ch, k, t, i)
  }

  ghost predicate IsCovered(f: Frame, ch: nat, k: nat, t: nat, i: nat)
    requires GoodFrame(f) && ch < f.channels && k < 3 && t < 12 && i < |f.rows|
  {
    Q.Abs(f.samples[ch][k][t][i]) <= Q.ScaleFactor(f.factors[ch][i][k])
  }

  // ---------------------------------------------------------------- the whole encoder

  /** What becomes of a frame: it is written, or the search for a scale leaves its table, or a level leaves
      its scale. The C code goes on in the last two cases. */
  datatype Outcome = Written(length: nat) | OffTable | OffScale

  /** The scale factors of all channels. */
  method FindScales(samples: seq<Q.Samples>, n: nat) returns (codes: seq<seq<nat>>, factors: seq<seq<seq<nat>>>, offTable: bool)
    requires forall ch :: 0 <= ch < |samples| ==> Q.GoodSamples(samples[ch], n)
    ensures offTable <==> FallsOff(samples, n)
    ensures !offTable ==> Scaled(samples, n, codes, factors)
  {
    hide Q.GoodSamples, Q.GoodScale, Q.HasFaint;
    codes, factors := [], [];
    for ch := 0 to |samples|
      invariant |codes| == |factors| == ch && forall c :: 0 <= c < ch ==> !Q.HasFaint(samples[c], n)
      invariant forall c :: 0 <= c < ch ==> |codes[c]| == |factors[c]| == n
      invariant forall c, i :: 0 <= c < ch && 0 <= i < n ==> ScaleAt(samples[c], n, i, codes[c][i], factors[c][i])
    {
      var code, factor, off := Q.ComputeScaleFactors(samples[ch], n);
      if off { return codes, factors, true; }
      forall i | 0 <= i < n ensures ScaleAt(samples[ch], n, i, code[i], factor[i]) { FewerAreGood(samples[ch], n, i); }
      codes, factors := codes + [code], factors + [factor];
    }
    offTable := false;
  }

  ghost predicate FallsOff(samples: seq<Q.Samples>, n: nat)
    requires forall ch :: 0 <= ch < |samples| ==> Q.GoodSamples(samples[ch], n)
  {
    exists ch :: 0 <= ch < |samples| && Q.HasFaint(samples[ch], n)
  }

  lemma FewerAreGood(s: Q.Samples, n: nat, i: nat)
    requires Q.GoodSamples(s, n) && i < n
    ensures Q.GoodSamples(s, i + 1)
  {
  }

  ghost predicate ScaleAt(s: Q.Samples, n: nat, i: nat, code: nat, sf: seq<nat>)
    requires Q.GoodSamples(s, n) && i < n
  {
    FewerAreGood(s, n, i);
    Q.GoodScale(s, i, code, sf)
  }

  ghost predicate Scaled(samples: seq<Q.Samples>, n: nat, codes: seq<seq<nat>>, factors: seq<seq<seq<nat>>>)
    requires forall ch :: 0 <= ch < |samples| ==> Q.GoodSamples(samples[ch], n)
  {
    && A.Shape(codes, |samples|, n) && A.Shape(factors, |samples|, n)
    && forall ch, i :: 0 <= ch < |samples| && 0 <= i < n ==> ScaleAt(samples[ch], n, i, codes[ch][i], factors[ch][i])
  }

  lemma ScaledIsGood(samples: seq<Q.Samples>, n: nat, codes: seq<seq<nat>>, factors: seq<seq<seq<nat>>>)
    requires (forall ch :: 0 <= ch < |samples| ==> Q.GoodSamples(samples[ch], n)) && Scaled(samples, n, codes, factors)
    ensures forall ch, i :: 0 <= ch < |samples| && 0 <= i < n ==> codes[ch][i] < 4 && GoodFactors(factors[ch][i])
  {
    forall ch, i | 0 <= ch < |samples| && 0 <= i < n ensures codes[ch][i] < 4 && GoodFactors(factors[ch][i]) {
      assert ScaleAt(samples[ch], n, i, codes[ch][i], factors[ch][i]);
      FewerAreGood(samples[ch], n, i);
      forall k | 0 <= k < 3 ensures factors[ch][i][k] < 64 { assert Q.Covers(samples[ch], i, k, factors[ch][i][k]); }
    }
  }

  /** No part is louder than the loudest scale. */
  ghost predicate NotTooLoud(samples: seq<Q.Samples>, n: nat) {
    forall ch, k, t, i :: 0 <= ch < |samples| && 0 <= k < |samples[ch]| && 0 <= t < |samples[ch][k]| && 0 <= i < n && i < |samples[ch][k][t]| ==>
      Q.Abs(samples[ch][k][t][i]) <= 0x20_0000
  }

  lemma ScaledIsCovered(f: Frame)
    requires GoodFrame(f) && Scaled(f.samples, |f.rows|, f.codes, f.factors) && NotTooLoud(f.samples, |f.rows|)
    ensures Covered(f)
  {
    hide GoodRow;
    forall ch, k, t, i | 0 <= ch < f.channels && 0 <= k < 3 && 0 <= t < 12 && 0 <= i < |f.rows| ensures IsCovered(f, ch, k, t, i) {
      assert ScaleAt(f.samples[ch], |f.rows|, i, f.codes[ch][i], f.factors[ch][i]);
      FewerAreGood(f.samples[ch], |f.rows|, i);
      assert Q.Covers(f.samples[ch], i, k, f.factors[ch][i][k]);
      Q.LargestCovers(f.samples[ch][k], i, 12, t);
      Q.LargestBelow(f.samples[ch][k], i, 12, 0x20_0000);
    }
  }

  /** `MPA_encode_frame`, from the subband samples and the signal to mask ratios on. The frame has exactly
      its size, and is the fields of the frame one after the other. */
  method EncodeWholeFrame(s: A.MpegAudioContext, smr: seq<seq<A.short>>, lsf: nat, bitrateIndex: nat, freqIndex: nat,
                          samples: seq<Q.Samples>, frame: array<byte>)
    returns (outcome: Outcome, ghost f: Frame, ghost run: seq<A.State>)
    requires s.TableIs() && A.Shape(smr, s.nbChannels, s.sblimit) && lsf < 2 && bitrateIndex < 16 && freqIndex < 4
    requires |samples| == s.nbChannels && forall ch :: 0 <= ch < |samples| ==> Q.GoodSamples(samples[ch], s.sblimit)
    requires 32 + CellSum(A.AllocWidth(s.rows), |s.rows|, s.nbChannels) <= s.frameSize
    requires s.frameSize % 8 == 0 && s.frameSize / 8 + 1 <= frame.Length
    modifies s`frameFrac, s`doPadding, s`scaleCode, frame
    ensures outcome.OffTable? <==> FallsOff(samples, s.sblimit)
    ensures !outcome.OffTable? ==>
              && s.frameFrac + 65536 * s.doPadding == old(s.frameFrac) + s.frameFracIncr
              && run != [] && A.GreedyRun(s.rows, s.scaleCode, smr, run)
              && run[0] == A.State(smr, seq(s.nbChannels, _ => seq(s.sblimit, _ => A.NotAllocated)),
                                   seq(s.nbChannels, _ => seq(s.sblimit, _ => 0)),
                                   s.frameSize + 8 * s.doPadding - 32 - CellSum(A.AllocWidth(s.rows), |s.rows|, s.nbChannels))
              && var last := run[|run| - 1];
              && last.left >= 0
              && f == Frame(lsf, bitrateIndex, freqIndex, s.doPadding, s.nbChannels, s.rows, last.alloc, s.scaleCode, f.factors, samples)
              && GoodFrame(f) && Scaled(samples, s.sblimit, s.scaleCode, f.factors)
              && (NotTooLoud(samples, s.sblimit) ==> Covered(f)) && (outcome.OffScale? <==> !LevelsFit(f))
              && forall ch, i :: 0 <= ch < s.nbChannels && 0 <= i < s.sblimit ==> A.Exhausted(s.rows, s.scaleCode, last.alloc, last.left, ch, i)
    ensures outcome.Written? ==>
              && outcome.length == s.frameSize / 8 + s.doPadding <= frame.Length
              && BytesBits(frame[..outcome.length]) == FieldBits(FrameFields(f, run[|run| - 1].left))
  {
    hide CellSum, GoodRow, FieldBits, BytesBits, FrameFields, A.GreedyRun, A.Exhausted, Q.GoodSamples, ScaleAt, Covered, NotTooLoud, LevelsFit;
    var codes, factors, offTable := FindScales(samples, s.sblimit);
    f, run := Frame(0, 0, 0, 0, 0, [], [], [], [], []), [];
    if offTable { return OffTable, f, run; }
    s.scaleCode := codes;
    ScaledIsGood(samples, s.sblimit, codes, factors);
    var alloc, left;
    ghost var size;
    alloc, left, size, run := s.ComputeBitAllocation(smr);
    var fr := Frame(lsf, bitrateIndex, freqIndex, s.doPadding, s.nbChannels, s.rows, alloc, codes, factors, samples);
    f := fr;
    if NotTooLoud(samples, s.sblimit) { ScaledIsCovered(f); }
    FrameIsFull(f, left);
    var p := new PutBitContext(frame);
    var ok := EncodeFrame(p, fr, s.allocTable, left);
    if !ok { return OffScale, f, run; }
    outcome := Written(p.bufPtr);
  }
}
