/** Reading a frame of the layer II encoder back, as ISO/IEC 11172-3, 2.4.1 lays it out: where every number of a
    frame stands in its bits, found by adding up the widths of what comes sooner. */
module Mp2ReadBack {
  import opened Numbers
  import opened BitFields
  import opened Mp2Tables
  import opened Mp2Frame
  import A = Mp2Allocation
  import Q = Mp2Quantise
  import S = Mp2ScaleFactors

  // ---------------------------------------------------------------- bits within bits

  predicate Lies(d: seq<bool>, at: nat, part: seq<bool>) { at + |part| <= |d| && d[at..at + |part|] == part }

  /** At this place `n` bits spell this number. */
  ghost predicate Spells(d: seq<bool>, at: nat, n: nat, v: int) { at + n <= |d| && Number(d[at..at + n]) == v }

  lemma SliceTwice(d: seq<bool>, at: nat, m: nat, at': nat, n: nat)
    requires at + m <= |d| && at' + n <= m
    ensures d[at + at'..at + at' + n] == d[at..at + m][at'..at' + n]
  {
    var s, t := d[at + at'..at + at' + n], d[at..at + m][at'..at' + n];
    assert |s| == |t| && forall k :: 0 <= k < n ==> s[k] == t[k];
  }

  lemma Within(d: seq<bool>, at: nat, part: seq<bool>, at': nat, small: seq<bool>)
    requires Lies(d, at, part) && Lies(part, at', small)
    ensures Lies(d, at + at', small)
  {
    SliceTwice(d, at, |part|, at', |small|);
  }

  lemma LiesBetween(before: seq<bool>, part: seq<bool>, after: seq<bool>)
    ensures Lies(before + part + after, |before|, part)
  {
  }

  lemma LiesInLonger(d: seq<bool>, at: nat, part: seq<bool>, longer: seq<bool>)
    requires Lies(d, at, part) && d <= longer
    ensures Lies(longer, at, part)
  {
    assert longer[at..at + |part|] == d[at..at + |part|];
  }

  lemma SpelledIn(d: seq<bool>, at: nat, part: seq<bool>, at': nat, n: nat, v: int)
    requires Lies(d, at, part) && Spells(part, at', n, v)
    ensures Spells(d, at + at', n, v)
  {
    hide Number;
    SliceTwice(d, at, |part|, at', n);
  }

  /** A field of a list is spelled behind those before it. */
  lemma FieldSpelled(fs: seq<Field>, j: nat)
    requires j < |fs| && fs[j].value < Pow2(fs[j].width)
    ensures Spells(FieldBits(fs), Width(fs[..j]), fs[j].width, fs[j].value)
  {
    hide FieldBits, Bits, Pow2, Number;
    var before, field, after := FieldBits(fs[..j]), Bits(fs[j].value, fs[j].width), FieldBits(fs[j + 1..]);
    Cut(fs, j);
    FieldBitsNext(fs[..j], fs[j]);
    FieldBitsJoin(fs[..j + 1], fs[j + 1..]);
    LiesBetween(before, field, after);
    NumberOfBits(fs[j].value, fs[j].width);
  }

  // ---------------------------------------------------------------- cells

  /** What comes sooner: every channel of the subbands below, then the channels before this one. */
  function Sooner(w: (nat, nat) -> nat, i: nat, ch: nat, channels: nat): nat { CellSum(w, i, channels) + RowSum(w, i, ch) }

  lemma {:induction false} InRow(c: (nat, nat) -> seq<Field>, w: (nat, nat) -> nat, i: nat, ch: nat, channels: nat)
    requires ch < channels && forall k :: 0 <= k < channels ==> Width(c(i, k)) == w(i, k)
    ensures Lies(FieldBits(CellRow(c, i, channels)), RowSum(w, i, ch), FieldBits(c(i, ch)))
    decreases channels
  {
    hide FieldBits;
    var front, cell := CellRow(c, i, channels - 1), c(i, channels - 1);
    FieldBitsJoin(front, cell);
    if ch + 1 < channels {
      InRow(c, w, i, ch, channels - 1);
      LiesInLonger(FieldBits(front), RowSum(w, i, ch), FieldBits(c(i, ch)), FieldBits(CellRow(c, i, channels)));
    } else {
      CellRowWidth(c, w, i, ch);
      LiesBetween(FieldBits(front), FieldBits(cell), []);
      assert FieldBits(front) + FieldBits(cell) + [] == FieldBits(CellRow(c, i, channels));
    }
  }

  lemma {:induction false} InCells(c: (nat, nat) -> seq<Field>, w: (nat, nat) -> nat, n: nat, channels: nat, i: nat, ch: nat)
    requires i < n && ch < channels && forall j, k :: 0 <= j < n && 0 <= k < channels ==> Width(c(j, k)) == w(j, k)
    ensures Lies(FieldBits(Cells(c, n, channels)), Sooner(w, i, ch, channels), FieldBits(c(i, ch)))
    decreases n
  {
    hide FieldBits;
    var front, row := Cells(c, n - 1, channels), CellRow(c, n - 1, channels);
    FieldBitsJoin(front, row);
    if i + 1 < n {
      InCells(c, w, n - 1, channels, i, ch);
      LiesInLonger(FieldBits(front), Sooner(w, i, ch, channels), FieldBits(c(i, ch)), FieldBits(Cells(c, n, channels)));
    } else {
      CellsWidth(c, w, i, channels);
      InRow(c, w, i, ch, channels);
      LiesBetween(FieldBits(front), FieldBits(row), []);
      assert FieldBits(front) + FieldBits(row) + [] == FieldBits(Cells(c, n, channels));
      Within(FieldBits(Cells(c, n, channels)), |FieldBits(front)|, FieldBits(row), RowSum(w, i, ch), FieldBits(c(i, ch)));
    }
  }

  // ---------------------------------------------------------------- the sections of a frame

  ghost function CodesAt(f: Frame): nat
    requires GoodFrame(f)
  {
    32 + CellSum(A.AllocWidth(f.rows), |f.rows|, f.channels)
  }

  ghost function FactorsAt(f: Frame): nat
    requires GoodFrame(f)
  {
    CodesAt(f) + CellSum(CodeWidth(f), |f.rows|, f.channels)
  }

  /** The bits of `g` groups of one size. */
  function Times(g: nat, size: nat): (n: nat)
    ensures n == g * size
  {
    if g == 0 then 0 else Times(g - 1, size) + size
  }

  /** Where the samples of group `g` of twelve begin. */
  ghost function GroupAt(f: Frame, g: nat): nat
    requires GoodFrame(f)
  {
    FactorsAt(f) + CellSum(FactorWidth(f), |f.rows|, f.channels) + Times(g, CellSum(SampleWidth(f), |f.rows|, f.channels))
  }

  lemma SectionsLie(f: Frame, padding: nat, d: seq<bool>)
    requires GoodFrame(f) && FieldBits(FrameFields(f, padding)) <= d
    ensures Lies(d, 0, FieldBits(Header(f)))
    ensures Lies(d, 32, FieldBits(Cells(AllocCell(f), |f.rows|, f.channels)))
    ensures Lies(d, CodesAt(f), FieldBits(Cells(CodeCell(f), |f.rows|, f.channels)))
    ensures Lies(d, FactorsAt(f), FieldBits(Cells(FactorCell(f), |f.rows|, f.channels)))
    ensures Lies(d, GroupAt(f, 0), FieldBits(SampleGroups(f, 12)))
    ensures Lies(d, GroupAt(f, 12), FieldBits(Padding(padding)))
  {
    hide FieldBits, Cells, CellSum, GoodFrame, Header, SampleGroups, Padding, AllocCell, CodeCell, FactorCell;
    var h, a, c, s, g, z := FieldBits(Header(f)), FieldBits(Cells(AllocCell(f), |f.rows|, f.channels)),
        FieldBits(Cells(CodeCell(f), |f.rows|, f.channels)), FieldBits(Cells(FactorCell(f), |f.rows|, f.channels)),
        FieldBits(SampleGroups(f, 12)), FieldBits(Padding(padding));
    HeaderWidth(f);
    SideWidths(f);
    SampleGroupsWidth(f, 12);
    FieldsJoin(f, padding);
    SixLie(h, a, c, s, g, z, d);
  }

  lemma FieldsJoin(f: Frame, padding: nat)
    requires GoodFrame(f)
    ensures FieldBits(FrameFields(f, padding)) ==
            FieldBits(Header(f)) + FieldBits(Cells(AllocCell(f), |f.rows|, f.channels)) + FieldBits(Cells(CodeCell(f), |f.rows|, f.channels))
            + FieldBits(Cells(FactorCell(f), |f.rows|, f.channels)) + FieldBits(SampleGroups(f, 12)) + FieldBits(Padding(padding))
  {
    hide FieldBits, Cells, GoodFrame, Header, SampleGroups, Padding;
    FramePrefixes(f, padding);
    SideThenRest(f, padding);
    FieldBitsJoin(SideFields(f), SampleGroups(f, 12));
    FieldBitsJoin(SideFields(f) + SampleGroups(f, 12), Padding(padding));
  }

  lemma SixLie(h: seq<bool>, a: seq<bool>, c: seq<bool>, s: seq<bool>, g: seq<bool>, z: seq<bool>, d: seq<bool>)
    requires h + a + c + s + g + z <= d
    ensures Lies(d, 0, h) && Lies(d, |h|, a) && Lies(d, |h| + |a|, c) && Lies(d, |h| + |a| + |c|, s)
    ensures Lies(d, |h| + |a| + |c| + |s|, g) && Lies(d, |h| + |a| + |c| + |s| + |g|, z)
  {
    var all := h + a + c + s + g + z;
    assert d[..|all|] == all;
    assert all == [] + h + (a + c + s + g + z);
    assert all == h + a + (c + s + g + z);
    assert all == h + a + c + (s + g + z);
    assert all == (h + a + c) + s + (g + z);
    assert all == (h + a + c + s) + g + z;
    assert all == (h + a + c + s + g) + z + [];
    LiesBetween([], h, a + c + s + g + z);
    LiesBetween(h, a, c + s + g + z);
    LiesBetween(h + a, c, s + g + z);
    LiesBetween(h + a + c, s, g + z);
    LiesBetween(h + a + c + s, g, z);
    LiesBetween(h + a + c + s + g, z, []);
    LiesInLonger(all, 0, h, d);
    LiesInLonger(all, |h|, a, d);
    LiesInLonger(all, |h| + |a|, c, d);
    LiesInLonger(all, |h| + |a| + |c|, s, d);
    LiesInLonger(all, |h| + |a| + |c| + |s|, g, d);
    LiesInLonger(all, |h| + |a| + |c| + |s| + |g|, z, d);
  }

  lemma {:induction false} GroupLies(f: Frame, g: nat, n: nat)
    requires GoodFrame(f) && g < n <= 12
    ensures Lies(FieldBits(SampleGroups(f, n)), Times(g, CellSum(SampleWidth(f), |f.rows|, f.channels)),
                 FieldBits(Cells(SampleCell(f, g), |f.rows|, f.channels)))
    decreases n
  {
    hide FieldBits, Cells, CellSum, GoodFrame, SampleCell, Times;
    var front, cells := SampleGroups(f, n - 1), Cells(SampleCell(f, n - 1), |f.rows|, f.channels);
    var at, part := Times(g, CellSum(SampleWidth(f), |f.rows|, f.channels)), Cells(SampleCell(f, g), |f.rows|, f.channels);
    FieldBitsJoin(front, cells);
    if g + 1 < n {
      GroupLies(f, g, n - 1);
      LiesInLonger(FieldBits(front), at, FieldBits(part), FieldBits(SampleGroups(f, n)));
    } else {
      SampleGroupsWidth(f, g);
      LiesBetween(FieldBits(front), FieldBits(cells), []);
      assert FieldBits(front) + FieldBits(cells) + [] == FieldBits(SampleGroups(f, n));
    }
  }

  // ---------------------------------------------------------------- what a decoder reads

  /** The header: synchronisation word, MPEG-1 or the lower sampling frequencies, layer II, no checksum, rate,
      frequency, padding, stereo or one channel, and an original. */
  ghost predicate HeaderReads(f: Frame, d: seq<bool>) {
    && Spells(d, 0, 12, 0xFFF) && Spells(d, 12, 1, 1 - f.lsf) && Spells(d, 13, 2, 2) && Spells(d, 15, 1, 1)
    && Spells(d, 16, 4, f.bitrateIndex) && Spells(d, 20, 2, f.freqIndex) && Spells(d, 22, 1, f.doPadding) && Spells(d, 23, 1, 0)
    && Spells(d, 24, 2, if f.channels == 2 then 0 else 3) && Spells(d, 26, 2, 0) && Spells(d, 28, 1, 0) && Spells(d, 29, 1, 1)
    && Spells(d, 30, 2, 0)
  }

  lemma HeaderSpelled(f: Frame)
    requires GoodFrame(f)
    ensures HeaderReads(f, FieldBits(Header(f)))
  {
    var h := Header(f);
    HeaderFits(f);
    hide FieldBits, Pow2;
    HeaderPlaces(f);
    forall j | 0 <= j < 13 ensures Spells(FieldBits(h), Width(h[..j]), h[j].width, h[j].value) {
      assert h[j] in h;
      FieldSpelled(h, j);
    }
    hide Spells, Width;
    assert Spells(FieldBits(h), Width(h[..0]), h[0].width, h[0].value);
    assert Spells(FieldBits(h), Width(h[..1]), h[1].width, h[1].value);
    assert Spells(FieldBits(h), Width(h[..2]), h[2].width, h[2].value);
    assert Spells(FieldBits(h), Width(h[..3]), h[3].width, h[3].value);
    assert Spells(FieldBits(h), Width(h[..4]), h[4].width, h[4].value);
    assert Spells(FieldBits(h), Width(h[..5]), h[5].width, h[5].value);
    assert Spells(FieldBits(h), Width(h[..6]), h[6].width, h[6].value);
    assert Spells(FieldBits(h), Width(h[..7]), h[7].width, h[7].value);
    assert Spells(FieldBits(h), Width(h[..8]), h[8].width, h[8].value);
    assert Spells(FieldBits(h), Width(h[..9]), h[9].width, h[9].value);
    assert Spells(FieldBits(h), Width(h[..10]), h[10].width, h[10].value);
    assert Spells(FieldBits(h), Width(h[..11]), h[11].width, h[11].value);
    assert Spells(FieldBits(h), Width(h[..12]), h[12].width, h[12].value);
  }

  lemma NextWidth(fs: seq<Field>, j: nat)
    requires j < |fs|
    ensures Width(fs[..j + 1]) == Width(fs[..j]) + fs[j].width
  {
    hide FieldBits;
    Cut(fs, j);
    FieldBitsNext(fs[..j], fs[j]);
  }

  lemma HeaderPlaces(f: Frame)
    ensures var h := Header(f);
            && Width(h[..0]) == 0 && Width(h[..1]) == 12 && Width(h[..2]) == 13 && Width(h[..3]) == 15 && Width(h[..4]) == 16
            && Width(h[..5]) == 20 && Width(h[..6]) == 22 && Width(h[..7]) == 23 && Width(h[..8]) == 24 && Width(h[..9]) == 26
            && Width(h[..10]) == 28 && Width(h[..11]) == 29 && Width(h[..12]) == 30
  {
    var h := Header(f);
    NoWidth();
    assert h[..0] == [];
    hide Width;
    forall j | 0 <= j < 13 ensures Width(h[..j + 1]) == Width(h[..j]) + h[j].width { NextWidth(h, j); }
    assert Width(h[..0 + 1]) == 12;
    assert Width(h[..1 + 1]) == 13;
    assert Width(h[..2 + 1]) == 15;
    assert Width(h[..3 + 1]) == 16;
    assert Width(h[..4 + 1]) == 20;
    assert Width(h[..5 + 1]) == 22;
    assert Width(h[..6 + 1]) == 23;
    assert Width(h[..7 + 1]) == 24;
    assert Width(h[..8 + 1]) == 26;
    assert Width(h[..9 + 1]) == 28;
    assert Width(h[..10 + 1]) == 29;
    assert Width(h[..11 + 1]) == 30;
  }

  /** The allocation of a subband and channel. */
  ghost predicate AllocReads(f: Frame, d: seq<bool>, i: nat, ch: nat)
    requires GoodFrame(f) && i < |f.rows| && ch < f.channels
  {
    |f.rows[i]| > 0 && Spells(d, 32 + Sooner(A.AllocWidth(f.rows), i, ch, f.channels), f.rows[i][0], f.alloc[ch][i])
  }

  /** The scale code, if it has bits. */
  ghost predicate CodeReads(f: Frame, d: seq<bool>, i: nat, ch: nat)
    requires GoodFrame(f) && i < |f.rows| && ch < f.channels
  {
    f.alloc[ch][i] > 0 ==> Spells(d, CodesAt(f) + Sooner(CodeWidth(f), i, ch, f.channels), 2, f.codes[ch][i])
  }

  /** The factors that are sent for that code. */
  ghost predicate FactorsRead(f: Frame, d: seq<bool>, i: nat, ch: nat)
    requires GoodFrame(f) && i < |f.rows| && ch < f.channels
  {
    var sent := S.Sent(f.codes[ch][i], f.factors[ch][i]);
    f.alloc[ch][i] > 0 ==>
      forall j :: 0 <= j < |sent| ==> Spells(d, FactorsAt(f) + Sooner(FactorWidth(f), i, ch, f.channels) + 6 * j, 6, sent[j])
  }

  lemma OneSpelled(w: nat, v: nat)
    requires v < Pow2(w)
    ensures Spells(FieldBits([Field(w, v)]), 0, w, v)
  {
    var fs := [Field(w, v)];
    NoWidth();
    assert fs[..0] == [];
    FieldSpelled(fs, 0);
  }

  lemma FactorsSpelled(code: nat, s: seq<nat>, j: nat)
    requires GoodFactors(s) && code < 4 && j < |S.Sent(code, s)|
    ensures Spells(FieldBits(Factors(code, s)), 6 * j, 6, S.Sent(code, s)[j])
  {
    var fs := Factors(code, s);
    Powers();
    NoWidth();
    hide Width, Pow2, Spells, FieldBits;
    assert fs[..0] == [];
    if j > 0 { NextWidth(fs, 0); }
    if j > 1 { NextWidth(fs, 1); }
    FieldSpelled(fs, j);
  }

  lemma SideCells(f: Frame, i: nat, ch: nat)
    requires GoodFrame(f) && i < |f.rows| && ch < f.channels
    ensures Lies(FieldBits(Cells(AllocCell(f), |f.rows|, f.channels)), Sooner(A.AllocWidth(f.rows), i, ch, f.channels),
                 FieldBits(AllocCell(f)(i, ch)))
    ensures Lies(FieldBits(Cells(CodeCell(f), |f.rows|, f.channels)), Sooner(CodeWidth(f), i, ch, f.channels), FieldBits(CodeCell(f)(i, ch)))
    ensures Lies(FieldBits(Cells(FactorCell(f), |f.rows|, f.channels)), Sooner(FactorWidth(f), i, ch, f.channels),
                 FieldBits(FactorCell(f)(i, ch)))
  {
    hide Width, Cells, CellSum, GoodRow, Factors, Lies, Sooner;
    CellWidths(f);
    InCells(AllocCell(f), A.AllocWidth(f.rows), |f.rows|, f.channels, i, ch);
    InCells(CodeCell(f), CodeWidth(f), |f.rows|, f.channels, i, ch);
    InCells(FactorCell(f), FactorWidth(f), |f.rows|, f.channels, i, ch);
  }

  lemma SideSpelled(f: Frame, padding: nat, d: seq<bool>, i: nat, ch: nat)
    requires GoodFrame(f) && FieldBits(FrameFields(f, padding)) <= d && i < |f.rows| && ch < f.channels
    ensures AllocReads(f, d, i, ch) && CodeReads(f, d, i, ch) && FactorsRead(f, d, i, ch)
  {
    hide Lies, FieldBits, Cells, FrameFields, Sooner, CodesAt, FactorsAt, GoodRow, AllocReads, CodeReads, FactorsRead, AllocCell, CodeCell, FactorCell;
    SectionsLie(f, padding, d);
    SideCells(f, i, ch);
    AllocIn(f, d, i, ch);
    if f.alloc[ch][i] > 0 {
      CodeIn(f, d, i, ch);
      FactorsIn(f, d, i, ch);
    } else {
      NotSent(f, d, i, ch);
    }
  }

  lemma NotSent(f: Frame, d: seq<bool>, i: nat, ch: nat)
    requires GoodFrame(f) && i < |f.rows| && ch < f.channels && f.alloc[ch][i] == 0
    ensures CodeReads(f, d, i, ch) && FactorsRead(f, d, i, ch)
  {
    hide GoodRow;
  }

  lemma AllocIn(f: Frame, d: seq<bool>, i: nat, ch: nat)
    requires GoodFrame(f) && i < |f.rows| && ch < f.channels
    requires Lies(d, 32, FieldBits(Cells(AllocCell(f), |f.rows|, f.channels)))
    requires Lies(FieldBits(Cells(AllocCell(f), |f.rows|, f.channels)), Sooner(A.AllocWidth(f.rows), i, ch, f.channels),
                  FieldBits(AllocCell(f)(i, ch)))
    ensures AllocReads(f, d, i, ch)
  {
    hide Lies, Spells, FieldBits, Cells, Sooner;
    var row, b := f.rows[i], f.alloc[ch][i];
    assert GoodRow(row) && |row| == Pow2(row[0]);
    OneSpelled(row[0], b);
    hide GoodRow;
    assert AllocCell(f)(i, ch) == [Field(row[0], b)];
    var all, at := FieldBits(Cells(AllocCell(f), |f.rows|, f.channels)), Sooner(A.AllocWidth(f.rows), i, ch, f.channels);
    Within(d, 32, all, at, FieldBits([Field(row[0], b)]));
    SpelledIn(d, 32 + at, FieldBits([Field(row[0], b)]), 0, row[0], b);
  }

  lemma CodeIn(f: Frame, d: seq<bool>, i: nat, ch: nat)
    requires GoodFrame(f) && i < |f.rows| && ch < f.channels && f.alloc[ch][i] > 0
    requires Lies(d, CodesAt(f), FieldBits(Cells(CodeCell(f), |f.rows|, f.channels)))
    requires Lies(FieldBits(Cells(CodeCell(f), |f.rows|, f.channels)), Sooner(CodeWidth(f), i, ch, f.channels),
                  FieldBits(CodeCell(f)(i, ch)))
    ensures CodeReads(f, d, i, ch)
  {
    hide Lies, Spells, FieldBits, Cells, Sooner, CodesAt, GoodRow;
    var code := f.codes[ch][i];
    Powers();
    OneSpelled(2, code);
    hide Pow2;
    assert CodeCell(f)(i, ch) == [Field(2, code)];
    var all, from, at := FieldBits(Cells(CodeCell(f), |f.rows|, f.channels)), CodesAt(f), Sooner(CodeWidth(f), i, ch, f.channels);
    Within(d, from, all, at, FieldBits([Field(2, code)]));
    SpelledIn(d, from + at, FieldBits([Field(2, code)]), 0, 2, code);
  }

  lemma FactorsIn(f: Frame, d: seq<bool>, i: nat, ch: nat)
    requires GoodFrame(f) && i < |f.rows| && ch < f.channels && f.alloc[ch][i] > 0
    requires Lies(d, FactorsAt(f), FieldBits(Cells(FactorCell(f), |f.rows|, f.channels)))
    requires Lies(FieldBits(Cells(FactorCell(f), |f.rows|, f.channels)), Sooner(FactorWidth(f), i, ch, f.channels),
                  FieldBits(FactorCell(f)(i, ch)))
    ensures FactorsRead(f, d, i, ch)
  {
    hide Lies, Spells, FieldBits, Cells, CellSum, Factors, Sooner, FactorsAt, GoodRow, S.Sent;
    var all, code, factors := FieldBits(Cells(FactorCell(f), |f.rows|, f.channels)), f.codes[ch][i], f.factors[ch][i];
    var from, at, sent := FactorsAt(f), Sooner(FactorWidth(f), i, ch, f.channels), S.Sent(code, factors);
    assert FactorCell(f)(i, ch) == Factors(code, factors);
    Within(d, from, all, at, FieldBits(Factors(code, factors)));
    forall j | 0 <= j < |sent| ensures Spells(d, from + at + 6 * j, 6, sent[j]) {
      FactorsSpelled(code, factors, j);
      SpelledIn(d, from + at, FieldBits(Factors(code, factors)), 6 * j, 6, sent[j]);
    }
  }

  /** Three levels for quantiser `q`, in a number each or together in one, which its decoder takes apart by dividing
      by the steps (ISO/IEC 11172-3, 2.4.3.3.4). */
  ghost predicate ThreeRead(d: seq<bool>, at: nat, q: nat, a: int, b: int, c: int)
    requires q < 17
  {
    var bits, n := QUANT_BITS[q], QUANT_STEPS[q];
    if bits > 0 then Spells(d, at, bits, a) && Spells(d, at + bits, bits, b) && Spells(d, at + 2 * bits, bits, c)
    else exists v: nat :: Spells(d, at, -bits, v) && a == v % n && b == v / n % n && c == v / n / n
  }

  /** The levels of the three samples of a subband and channel in group `g`: four groups make up a part, and each
      part has its factor. */
  ghost predicate LevelsRead(f: Frame, d: seq<bool>, g: nat, i: nat, ch: nat)
    requires GoodFrame(f) && g < 12 && i < |f.rows| && ch < f.channels && f.alloc[ch][i] > 0
  {
    var q, k, t := f.rows[i][f.alloc[ch][i]], g / 4, 3 * (g % 4);
    var s, e := f.samples[ch][k], f.factors[ch][i][k];
    q < 17 && ThreeRead(d, GroupAt(f, g) + Sooner(SampleWidth(f), i, ch, f.channels), q,
                        Q.Level(s[t][i], e, QUANT_STEPS[q]), Q.Level(s[t + 1][i], e, QUANT_STEPS[q]), Q.Level(s[t + 2][i], e, QUANT_STEPS[q]))
  }

  lemma TakenApart(v: nat, a: nat, b: nat, c: nat, n: nat)
    requires v == a + n * (b + n * c) && a < n && b < n
    ensures v % n == a && v / n % n == b && v / n / n == c
  {
    var rest := b + n * c;
    DivModIs(v, n, rest, a);
    DivModIs(rest, n, c, b);
  }

  lemma SamplesSpelled(q: nat, a: nat, b: nat, c: nat)
    requires q < 17 && a < QUANT_STEPS[q] && b < QUANT_STEPS[q] && c < QUANT_STEPS[q]
    ensures var d, bits, n := FieldBits(Samples(q, a, b, c)), QUANT_BITS[q], QUANT_STEPS[q];
            if bits > 0 then Spells(d, 0, bits, a) && Spells(d, bits, bits, b) && Spells(d, 2 * bits, bits, c)
            else Spells(d, 0, -bits, a + n * (b + n * c))
  {
    QuantisedFit(q, a, b, c);
    hide FieldBits, Width, Pow2, Spells;
    if QUANT_BITS[q] > 0 { ThreeSpelled(QUANT_BITS[q], a, b, c); } else { OneSpelled(-QUANT_BITS[q], a + QUANT_STEPS[q] * (b + QUANT_STEPS[q] * c)); }
  }

  lemma ThreeSpelled(w: nat, a: nat, b: nat, c: nat)
    requires a < Pow2(w) && b < Pow2(w) && c < Pow2(w)
    ensures var d := FieldBits([Field(w, a), Field(w, b), Field(w, c)]);
            Spells(d, 0, w, a) && Spells(d, w, w, b) && Spells(d, 2 * w, w, c)
  {
    var fs := [Field(w, a), Field(w, b), Field(w, c)];
    NoWidth();
    hide FieldBits, Width, Pow2, Spells;
    assert fs[..0] == [];
    NextWidth(fs, 0);
    NextWidth(fs, 1);
    FieldSpelled(fs, 0);
    FieldSpelled(fs, 1);
    FieldSpelled(fs, 2);
  }

  lemma SampleCellLies(f: Frame, padding: nat, d: seq<bool>, g: nat, i: nat, ch: nat)
    requires GoodFrame(f) && FieldBits(FrameFields(f, padding)) <= d && g < 12 && i < |f.rows| && ch < f.channels
    ensures Lies(d, GroupAt(f, g) + Sooner(SampleWidth(f), i, ch, f.channels), FieldBits(SampleCell(f, g)(i, ch)))
  {
    hide Lies, FieldBits, Cells, CellSum, FrameFields, Sooner, SampleGroups, SampleCell, SampleWidth, GoodFrame, Times;
    var groups, cells, size := SampleGroups(f, 12), Cells(SampleCell(f, g), |f.rows|, f.channels), CellSum(SampleWidth(f), |f.rows|, f.channels);
    SectionsLie(f, padding, d);
    GroupLies(f, g, 12);
    forall j: nat, k: nat | j < |f.rows| && k < f.channels ensures Width(SampleCell(f, g)(j, k)) == SampleWidth(f)(j, k) {
      SampleCellWidth(f, g, j, k);
    }
    InCells(SampleCell(f, g), SampleWidth(f), |f.rows|, f.channels, i, ch);
    Within(d, GroupAt(f, 0), FieldBits(groups), Times(g, size), FieldBits(cells));
    Within(d, GroupAt(f, g), FieldBits(cells), Sooner(SampleWidth(f), i, ch, f.channels), FieldBits(SampleCell(f, g)(i, ch)));
  }

  lemma LevelsSpelled(f: Frame, padding: nat, d: seq<bool>, g: nat, i: nat, ch: nat)
    requires GoodFrame(f) && FieldBits(FrameFields(f, padding)) <= d && g < 12 && i < |f.rows| && ch < f.channels
    requires f.alloc[ch][i] > 0 && CellFits(f, g, i, ch)
    ensures LevelsRead(f, d, g, i, ch)
  {
    hide Lies, Spells, FieldBits, Cells, CellSum, FrameFields, Sooner, SampleGroups, Samples, Q.Level, GoodRow, GroupAt;
    SampleCellLies(f, padding, d, g, i, ch);
    RowEntry(f.rows[i], f.alloc[ch][i]);
    var q, k, t := f.rows[i][f.alloc[ch][i]], g / 4, 3 * (g % 4);
    var bits, n, at := QUANT_BITS[q], QUANT_STEPS[q], GroupAt(f, g) + Sooner(SampleWidth(f), i, ch, f.channels);
    var a, b, c := LevelAt(f, ch, k, t, i), LevelAt(f, ch, k, t + 1, i), LevelAt(f, ch, k, t + 2, i);
    LevelIsBelow(f, ch, k, t, i);
    LevelIsBelow(f, ch, k, t + 1, i);
    LevelIsBelow(f, ch, k, t + 2, i);
    SamplesSpelled(q, a, b, c);
    var part := FieldBits(Samples(q, a, b, c));
    assert SampleCell(f, g)(i, ch) == Samples(q, a, b, c);
    if bits > 0 {
      SpelledIn(d, at, part, 0, bits, a);
      SpelledIn(d, at, part, bits, bits, b);
      SpelledIn(d, at, part, 2 * bits, bits, c);
    } else {
      SpelledIn(d, at, part, 0, -bits, a + n * (b + n * c));
      TakenApart(a + n * (b + n * c), a, b, c, n);
    }
  }

  lemma {:induction false} PaddingIsZero(n: nat)
    ensures FieldBits(Padding(n)) == Zeros(n)
  {
    hide FieldBits;
    if n == 0 { NoBits(); } else {
      PaddingIsZero(n - 1);
      FieldBitsNext(Padding(n - 1), Field(1, 0));
      ZeroBits(1);
      assert Zeros(n - 1) + Zeros(1) == Zeros(n);
    }
  }

  ghost predicate SidesRead(f: Frame, d: seq<bool>)
    requires GoodFrame(f)
  {
    forall i, ch :: 0 <= i < |f.rows| && 0 <= ch < f.channels ==>
      AllocReads(f, d, i, ch) && CodeReads(f, d, i, ch) && FactorsRead(f, d, i, ch)
  }

  ghost predicate GroupsRead(f: Frame, d: seq<bool>)
    requires GoodFrame(f)
  {
    forall g, i, ch :: 0 <= g < 12 && 0 <= i < |f.rows| && 0 <= ch < f.channels && f.alloc[ch][i] > 0 ==> LevelsRead(f, d, g, i, ch)
  }

  lemma GroupsSpelled(f: Frame, padding: nat, d: seq<bool>)
    requires GoodFrame(f) && LevelsFit(f) && FieldBits(FrameFields(f, padding)) <= d
    ensures GroupsRead(f, d)
  {
    hide FieldBits, FrameFields, LevelsRead, CellFits, GoodRow;
    forall g, i, ch | 0 <= g < 12 && 0 <= i < |f.rows| && 0 <= ch < f.channels && f.alloc[ch][i] > 0 ensures LevelsRead(f, d, g, i, ch) {
      assert GroupFits(f, g) && CellFits(f, g, i, ch);
      LevelsSpelled(f, padding, d, g, i, ch);
    }
  }

  lemma SidesSpelled(f: Frame, padding: nat, d: seq<bool>)
    requires GoodFrame(f) && FieldBits(FrameFields(f, padding)) <= d
    ensures SidesRead(f, d)
  {
    hide FieldBits, FrameFields, AllocReads, CodeReads, FactorsRead, GoodFrame;
    forall i, ch | 0 <= i < |f.rows| && 0 <= ch < f.channels ensures AllocReads(f, d, i, ch) && CodeReads(f, d, i, ch) && FactorsRead(f, d, i, ch) {
      SideSpelled(f, padding, d, i, ch);
    }
  }

  /** A decoder reads out of a frame what went into it: header, allocations, scale codes, the factors sent, every
      level of every sample of its part with the factor of that part, and zeros behind them. */
  lemma FrameReadBack(f: Frame, padding: nat, d: seq<bool>)
    requires GoodFrame(f) && LevelsFit(f) && FieldBits(FrameFields(f, padding)) <= d
    ensures HeaderReads(f, d) && SidesRead(f, d) && GroupsRead(f, d) && Lies(d, GroupAt(f, 12), Zeros(padding))
  {
    hide FieldBits, FrameFields, GroupAt, SidesRead, GroupsRead, LevelsFit, GoodFrame, Lies, Header, HeaderReads;
    SectionsLie(f, padding, d);
    PaddingIsZero(padding);
    HeaderSpelled(f);
    HeaderIn(f, d);
    SidesSpelled(f, padding, d);
    GroupsSpelled(f, padding, d);
  }

  lemma HeaderIn(f: Frame, d: seq<bool>)
    requires HeaderReads(f, FieldBits(Header(f))) && Lies(d, 0, FieldBits(Header(f)))
    ensures HeaderReads(f, d)
  {
    hide FieldBits, Header, Lies, Spells;
    forall at: nat, n: nat, v: int | Spells(FieldBits(Header(f)), at, n, v) ensures Spells(d, at, n, v) {
      SpelledIn(d, 0, FieldBits(Header(f)), at, n, v);
    }
  }
}
