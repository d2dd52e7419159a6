/** The bit allocator of the layer II encoder, `compute_bit_allocation` (mpegaudio.c): bits are given to
    the subband that needs them most, one step of its quantiser at a time, while they fit the frame. */
module Mp2Allocation {
  import opened Numbers
  import opened BitFields
  import opened Mp2Tables

  type short = x: int | -0x8000 <= x < 0x8000

  function Short(x: int): short { (x + 0x8000) % 0x1_0000 - 0x8000 }

  datatype Status = NotAllocated | Allocated | NoMore

  predicate Shape<T>(g: seq<seq<T>>, channels: nat, n: nat) {
    |g| == channels && forall ch :: 0 <= ch < channels ==> |g[ch]| == n
  }

  function Changed<T>(g: seq<seq<T>>, ch: nat, i: nat, x: T): (r: seq<seq<T>>)
    requires ch < |g| && i < |g[ch]|
    ensures |r| == |g| && forall c :: 0 <= c < |g| ==> |r[c]| == |g[c]|
    ensures r[ch][i] == x
    ensures forall c, k :: 0 <= c < |g| && 0 <= k < |g[c]| && (c != ch || k != i) ==> r[c][k] == g[c][k]
  {
    g[ch := g[ch][i := x]]
  }

  // ---------------------------------------------------------------- what an allocation costs

  /** The bits of one subband: scale code, scale factors and samples. */
  function CellCost(row: seq<nat>, code: nat, b: nat): nat
    requires GoodRow(row) && b < |row| && code < 4
  {
    if b == 0 then 0 else 2 + 6 * NB_SCALE_FACTORS[code] + TotalQuantBits(row[b])
  }

  function Fits<T>(rows: seq<seq<nat>>, g: seq<seq<T>>, i: nat, ch: nat): bool { i < |rows| && ch < |g| && i < |g[ch]| }

  ghost predicate GoodAlloc(rows: seq<seq<nat>>, channels: nat, codes: seq<seq<nat>>, alloc: seq<seq<nat>>) {
    && GoodRows(rows) && Shape(codes, channels, |rows|) && Shape(alloc, channels, |rows|)
    && (forall ch, i :: 0 <= ch < channels && 0 <= i < |rows| ==> codes[ch][i] < 4)
    && (forall ch, i :: 0 <= ch < channels && 0 <= i < |rows| ==> alloc[ch][i] < |rows[i]|)
  }

  /** The cost by subband and channel; nothing outside the grid. */
  ghost function Cost(rows: seq<seq<nat>>, codes: seq<seq<nat>>, alloc: seq<seq<nat>>): (nat, nat) -> nat
    requires GoodAlloc(rows, |alloc|, codes, alloc)
  {
    (i: nat, ch: nat) => if ch < |alloc| && i < |rows| then CellCost(rows[i], codes[ch][i], alloc[ch][i]) else 0
  }

  /** The width of the allocation fields. */
  function AllocWidth(rows: seq<seq<nat>>): (nat, nat) -> nat {
    (i: nat, ch: nat) => if i < |rows| && |rows[i]| > 0 then rows[i][0] else 0
  }

  ghost function FrameSize(rows: seq<seq<nat>>, channels: nat, codes: seq<seq<nat>>, alloc: seq<seq<nat>>): nat
    requires GoodAlloc(rows, channels, codes, alloc)
  {
    32 + CellSum(AllocWidth(rows), |rows|, channels) + CellSum(Cost(rows, codes, alloc), |rows|, channels)
  }

  /** The allocation can still grow. */
  function RoomAt(rows: seq<seq<nat>>, alloc: seq<seq<nat>>): (nat, nat) -> nat {
    (i: nat, ch: nat) =>
      if i < |rows| && ch < |alloc| && i < |alloc[ch]| && alloc[ch][i] < |rows[i]| then |rows[i]| - alloc[ch][i] else 0
  }

  function OpenAt(status: seq<seq<Status>>): (nat, nat) -> nat {
    (i: nat, ch: nat) => if ch < |status| && i < |status[ch]| && status[ch][i] != NoMore then 1 else 0
  }

  /** The statuses say how far each subband got. */
  ghost predicate StatusFits(rows: seq<seq<nat>>, alloc: seq<seq<nat>>, status: seq<seq<Status>>, ch: nat, i: nat)
    requires ch < |status| && i < |status[ch]| && ch < |alloc| && i < |alloc[ch]| && i < |rows|
  {
    match status[ch][i]
    case NotAllocated => alloc[ch][i] == 0 && 1 < |rows[i]|
    case Allocated => 0 < alloc[ch][i] && alloc[ch][i] + 1 < |rows[i]|
    case NoMore => true
  }

  /** One step more in this subband does not fit in what is left, or there is none. */
  ghost predicate Exhausted(rows: seq<seq<nat>>, codes: seq<seq<nat>>, alloc: seq<seq<nat>>, left: int, ch: nat, i: nat)
    requires GoodAlloc(rows, |alloc|, codes, alloc) && ch < |alloc| && i < |rows|
  {
    var b := alloc[ch][i];
    b + 1 == |rows[i]| || CellCost(rows[i], codes[ch][i], b + 1) - CellCost(rows[i], codes[ch][i], b) > left
  }

  // ---------------------------------------------------------------- the greedy choice

  /** The allocator between two steps; `left` is what is left of the frame. */
  datatype State = State(smr: seq<seq<short>>, status: seq<seq<Status>>, alloc: seq<seq<nat>>, left: int)

  /** Before it in the order in which the subbands are looked at. */
  predicate Before(c: nat, k: nat, ch: nat, i: nat) {
    c < ch || (c == ch && k < i)
  }

  /** The first open subband with the largest ratio; it can take a step. */
  ghost predicate Chosen(rows: seq<seq<nat>>, codes: seq<seq<nat>>, smr1: seq<seq<short>>, s: State, ch: nat, i: nat) {
    var channels, n := |s.alloc|, |rows|;
    && Shape(s.smr, channels, n) && Shape(s.status, channels, n) && Shape(smr1, channels, n) && GoodAlloc(rows, channels, codes, s.alloc)
    && ch < channels && i < n && s.alloc[ch][i] + 1 < |rows[i]| && rows[i][s.alloc[ch][i] + 1] < 17
    && s.status[ch][i] != NoMore
    && (forall c, k :: 0 <= c < channels && 0 <= k < n && s.status[c][k] != NoMore ==> s.smr[c][k] <= s.smr[ch][i])
    && (forall c, k :: 0 <= c < channels && 0 <= k < n && s.status[c][k] != NoMore && Before(c, k, ch, i) ==> s.smr[c][k] < s.smr[ch][i])
  }

  /** It gets the step if that fits, and its ratio is what its new quantiser leaves of the first one;
      otherwise it is closed. */
  ghost function Stepped(rows: seq<seq<nat>>, codes: seq<seq<nat>>, smr1: seq<seq<short>>, s: State, ch: nat, i: nat): State
    requires Chosen(rows, codes, smr1, s, ch, i)
  {
    var b := s.alloc[ch][i] + 1;
    var incr := CellCost(rows[i], codes[ch][i], b) - CellCost(rows[i], codes[ch][i], b - 1);
    if incr > s.left then s.(status := Changed(s.status, ch, i, NoMore))
    else
      State(Changed(s.smr, ch, i, Short(smr1[ch][i] - QUANT_SNR[rows[i][b]])),
            Changed(s.status, ch, i, if b + 1 == |rows[i]| then NoMore else Allocated),
            Changed(s.alloc, ch, i, b), s.left - incr)
  }

  ghost predicate GreedyStep(rows: seq<seq<nat>>, codes: seq<seq<nat>>, smr1: seq<seq<short>>, s: State, s': State) {
    exists ch: nat, i: nat :: Chosen(rows, codes, smr1, s, ch, i) && s' == Stepped(rows, codes, smr1, s, ch, i)
  }

  /** A run of the greedy choice. */
  ghost predicate GreedyRun(rows: seq<seq<nat>>, codes: seq<seq<nat>>, smr1: seq<seq<short>>, run: seq<State>) {
    forall k: nat :: k + 1 < |run| ==> GreedyStep(rows, codes, smr1, run[k], run[k + 1])
  }

  lemma RunStarts(rows: seq<seq<nat>>, codes: seq<seq<nat>>, smr1: seq<seq<short>>, run: seq<State>)
    requires |run| == 1
    ensures GreedyRun(rows, codes, smr1, run)
  {
  }

  lemma RunGrows(rows: seq<seq<nat>>, codes: seq<seq<nat>>, smr1: seq<seq<short>>, run: seq<State>, ch: nat, i: nat)
    requires run != [] && GreedyRun(rows, codes, smr1, run) && Chosen(rows, codes, smr1, run[|run| - 1], ch, i)
    ensures GreedyRun(rows, codes, smr1, run + [Stepped(rows, codes, smr1, run[|run| - 1], ch, i)])
  {
    hide Stepped, Chosen;
    var more := run + [Stepped(rows, codes, smr1, run[|run| - 1], ch, i)];
    forall k: nat | k + 1 < |more| ensures GreedyStep(rows, codes, smr1, more[k], more[k + 1]) {
      if k + 1 < |run| { assert GreedyStep(rows, codes, smr1, run[k], run[k + 1]); }
    }
  }

  class MpegAudioContext {
    const nbChannels: nat
    const sblimit: nat
    const allocTable: seq<nat>
    const frameSize: nat
    const frameFracIncr: nat
    var frameFrac: nat
    var doPadding: nat
    var scaleCode: seq<seq<nat>>
    const rows: seq<seq<nat>>     // the lines of allocTable

    constructor (nbChannels: nat, table: nat, frameSize: nat, frameFracIncr: nat, scaleCode: seq<seq<nat>>)
      requires table < 5
      ensures this.nbChannels == nbChannels && this.frameSize == frameSize && this.frameFracIncr == frameFracIncr
      ensures rows == AllocRows(table) && TableIs() && frameFrac == 0 && this.scaleCode == scaleCode
    {
      TablesAreGood(table);
      this.nbChannels, this.frameSize, this.frameFracIncr, this.scaleCode := nbChannels, frameSize, frameFracIncr, scaleCode;
      sblimit, allocTable := SBLIMIT_TABLE[table], Flat(AllocRows(table));
      rows := AllocRows(table);
      frameFrac, doPadding := 0, 0;
    }

    ghost predicate TableIs() {
      GoodRows(rows) && sblimit == |rows| && allocTable == Flat(rows)
    }

    /** The frame's size for now: one byte more when the fractions add up to one. */
    method NextFrameSize() returns (size: nat)
      modifies this`frameFrac, this`doPadding
      ensures frameFrac + 65536 * doPadding == old(frameFrac) + frameFracIncr
      ensures doPadding == if old(frameFrac) + frameFracIncr >= 65536 then 1 else 0
      ensures size == frameSize + 8 * doPadding
    {
      size := frameSize;
      frameFrac := frameFrac + frameFracIncr;
      if frameFrac >= 65536 {
        frameFrac := frameFrac - 65536;
        doPadding := 1;
        size := size + 8;
      } else {
        doPadding := 0;
      }
    }

    /** Header and allocation fields. */
    method BaseSize() returns (size: nat)
      requires TableIs()
      ensures size == 32 + CellSum(AllocWidth(rows), |rows|, nbChannels)
    {
      hide GoodRow, Pow2;
      size := 32;
      var j := 0;
      assert Offset(rows, 0) == 0;
      for i := 0 to sblimit
        invariant j == Offset(rows, i) && size == 32 + CellSum(AllocWidth(rows), i, nbChannels)
      {
        LineAt(rows, i);
        var incr := allocTable[j];
        RowOfWidths(rows, i, nbChannels);
        size := size + incr * nbChannels;
        j := j + Pow2(incr);
      }
    }

    /** Where the line of a subband starts in the table. */
    method FindLine(sb: nat) returns (j: nat)
      requires TableIs() && sb < sblimit
      ensures j + |rows[sb]| <= |allocTable| && forall b :: 0 <= b < |rows[sb]| ==> allocTable[j + b] == rows[sb][b]
    {
      hide GoodRow, Pow2;
      j := 0;
      assert Offset(rows, 0) == 0;
      for i := 0 to sb
        invariant j == Offset(rows, i)
      {
        LineAt(rows, i);
        j := j + Pow2(allocTable[j]);
      }
      LineAt(rows, sb);
    }

    /** The first subband with the largest signal to mask ratio among those still open. */
    method FindLargest(smr: seq<seq<short>>, status: seq<seq<Status>>) returns (found: bool, ch: nat, sb: nat)
      requires Shape(smr, nbChannels, sblimit) && Shape(status, nbChannels, sblimit)
      ensures found ==> ch < nbChannels && sb < sblimit && status[ch][sb] != NoMore
      ensures found ==> forall c, i :: 0 <= c < nbChannels && 0 <= i < sblimit && status[c][i] != NoMore ==> smr[c][i] <= smr[ch][sb]
      ensures found ==> forall c, i :: 0 <= c < nbChannels && 0 <= i < sblimit && status[c][i] != NoMore && Before(c, i, ch, sb)
                                       ==> smr[c][i] < smr[ch][sb]
      ensures !found ==> forall c, i :: 0 <= c < nbChannels && 0 <= i < sblimit ==> status[c][i] == NoMore
    {
      found, ch, sb := false, 0, 0;
      var most: int := -0x8000_0000;
      for c := 0 to nbChannels
        invariant found ==> ch < nbChannels && sb < sblimit && status[ch][sb] != NoMore && most == smr[ch][sb]
        invariant !found ==> most == -0x8000_0000
        invariant forall d, i :: 0 <= d < c && 0 <= i < sblimit && status[d][i] != NoMore ==> found && smr[d][i] <= most
        invariant found ==> forall d, k :: 0 <= d < nbChannels && 0 <= k < sblimit && status[d][k] != NoMore && Before(d, k, ch, sb)
                                       ==> smr[d][k] < most
      {
        for i := 0 to sblimit
          invariant found ==> ch < nbChannels && sb < sblimit && status[ch][sb] != NoMore && most == smr[ch][sb]
          invariant !found ==> most == -0x8000_0000
          invariant forall d, k :: 0 <= d < c && 0 <= k < sblimit && status[d][k] != NoMore ==> found && smr[d][k] <= most
          invariant forall k :: 0 <= k < i && status[c][k] != NoMore ==> found && smr[c][k] <= most
          invariant found ==> forall d, k :: 0 <= d < nbChannels && 0 <= k < sblimit && status[d][k] != NoMore && Before(d, k, ch, sb)
                                         ==> smr[d][k] < most
        {
          if smr[c][i] > most && status[c][i] != NoMore {
            most, sb, ch, found := smr[c][i], i, c, true;
          }
        }
      }
    }

    /** The bits and the quantiser of one step more, and whether it is the last one. */
    method NextStep(ch: nat, sb: nat, b: nat, first: bool) returns (incr: int, q: nat, last: bool)
      requires TableIs() && sb < sblimit && ch < |scaleCode| && sb < |scaleCode[ch]| && scaleCode[ch][sb] < 4
      requires b + 1 < |rows[sb]| && first == (b == 0)
      ensures incr == CellCost(rows[sb], scaleCode[ch][sb], b + 1) - CellCost(rows[sb], scaleCode[ch][sb], b) > 0
      ensures q == rows[sb][b + 1] < 17 && last == (b + 2 == |rows[sb]|)
    {
      StepCosts(rows[sb], scaleCode[ch][sb], b);
      hide TotalQuantBits, CellCost, Pow2;
      var j := FindLine(sb);
      assert allocTable[j + 0] == rows[sb][0] && allocTable[j + 1] == rows[sb][1];
      if first {
        incr := 2 + NB_SCALE_FACTORS[scaleCode[ch][sb]] * 6;
        incr := incr + TotalQuantBits(allocTable[j + 1]);
      } else {
        incr := TotalQuantBits(allocTable[j + b + 1]) - TotalQuantBits(allocTable[j + b]);
      }
      q := allocTable[j + (b + 1)];
      last := b + 1 == Pow2(allocTable[j]) - 1;
    }

    /** `compute_bit_allocation`: what is left of the frame is its padding, and no subband can take one
        step more. */
    method ComputeBitAllocation(smr1: seq<seq<short>>) returns (bitAlloc: seq<seq<nat>>, padding: nat, ghost size: nat, ghost run: seq<State>)
      requires TableIs() && Shape(smr1, nbChannels, sblimit) && Shape(scaleCode, nbChannels, sblimit)
      requires forall ch, i :: 0 <= ch < nbChannels && 0 <= i < sblimit ==> scaleCode[ch][i] < 4
      requires 32 + CellSum(AllocWidth(rows), |rows|, nbChannels) <= frameSize
      modifies this`frameFrac, this`doPadding
      ensures size == frameSize + 8 * doPadding
      ensures frameFrac + 65536 * doPadding == old(frameFrac) + frameFracIncr
      ensures doPadding == if old(frameFrac) + frameFracIncr >= 65536 then 1 else 0
      ensures GoodAlloc(rows, nbChannels, scaleCode, bitAlloc)
      ensures padding == size - FrameSize(rows, nbChannels, scaleCode, bitAlloc)
      ensures forall ch, i :: 0 <= ch < nbChannels && 0 <= i < sblimit ==> Exhausted(rows, scaleCode, bitAlloc, padding, ch, i)
      ensures run != [] && GreedyRun(rows, scaleCode, smr1, run)
      ensures run[0] == State(smr1, seq(nbChannels, _ => seq(sblimit, _ => NotAllocated)), seq(nbChannels, _ => seq(sblimit, _ => 0)),
                              size - 32 - CellSum(AllocWidth(rows), |rows|, nbChannels))
      ensures run[|run| - 1].alloc == bitAlloc && run[|run| - 1].left == padding
    {
      hide GoodRow, Pow2, CellSum, TotalQuantBits, CellCost, FrameSize, Short, Tracked, GreedyRun, Stepped, Chosen;
      RowsAreLong(rows);
      var smr := smr1;
      var status := seq(nbChannels, _ => seq(sblimit, _ => NotAllocated));
      bitAlloc := seq(nbChannels, _ => seq(sblimit, _ => 0));
      var maxSize := NextFrameSize();
      size := maxSize;
      var current := BaseSize();
      NothingAllocated(rows, nbChannels, scaleCode, bitAlloc);
      TrackedAtFirst(rows, scaleCode, bitAlloc, status, maxSize - current);
      run := [State(smr, status, bitAlloc, maxSize - current)];
      RunStarts(rows, scaleCode, smr1, run);
      ghost var first := run[0];
      while true
        modifies {}
        invariant run != [] && run[0] == first && run[|run| - 1] == State(smr, status, bitAlloc, maxSize - current)
        invariant GreedyRun(rows, scaleCode, smr1, run)
        invariant Shape(smr, nbChannels, sblimit) && Shape(status, nbChannels, sblimit)
        invariant GoodAlloc(rows, nbChannels, scaleCode, bitAlloc)
        invariant current == FrameSize(rows, nbChannels, scaleCode, bitAlloc) <= maxSize
        invariant Tracked(rows, scaleCode, bitAlloc, status, maxSize - current)
        decreases CellSum(RoomAt(rows, bitAlloc), |rows|, nbChannels), CellSum(OpenAt(status), |rows|, nbChannels)
      {
        var found, ch, sb := FindLargest(smr, status);
        if !found { break; }
        var b := bitAlloc[ch][sb];
        StillOpen(rows, scaleCode, bitAlloc, status, maxSize - current, ch, sb);
        var incr, q, last := NextStep(ch, sb, b, status[ch][sb] == NotAllocated);
        ghost var state := run[|run| - 1];
        IsChosen(rows, scaleCode, smr1, state, ch, sb);
        RunGrows(rows, scaleCode, smr1, run, ch, sb);
        run := run + [Stepped(rows, scaleCode, smr1, state, ch, sb)];
        SteppedIs(rows, scaleCode, smr1, state, ch, sb, incr, q, last);
        if current + incr <= maxSize {
          Grows(rows, nbChannels, scaleCode, bitAlloc, ch, sb);
          TrackedGrows(rows, scaleCode, bitAlloc, status, maxSize - current, incr, ch, sb);
          bitAlloc := Changed(bitAlloc, ch, sb, b + 1);
          current := current + incr;
          smr := Changed(smr, ch, sb, Short(smr1[ch][sb] - QUANT_SNR[q]));
          status := Changed(status, ch, sb, if last then NoMore else Allocated);
        } else {
          Closes(status, |rows|, nbChannels, ch, sb);
          TrackedCloses(rows, scaleCode, bitAlloc, status, maxSize - current, ch, sb);
          status := Changed(status, ch, sb, NoMore);
        }
      }
      padding := maxSize - current;
      AllExhausted(rows, scaleCode, bitAlloc, status, padding);
    }
  }

  lemma IsChosen(rows: seq<seq<nat>>, codes: seq<seq<nat>>, smr1: seq<seq<short>>, s: State, ch: nat, i: nat)
    requires GoodAlloc(rows, |s.alloc|, codes, s.alloc) && Shape(s.smr, |s.alloc|, |rows|) && Shape(s.status, |s.alloc|, |rows|)
    requires Shape(smr1, |s.alloc|, |rows|) && ch < |s.alloc| && i < |rows| && s.status[ch][i] != NoMore
    requires s.alloc[ch][i] + 1 < |rows[i]| && rows[i][s.alloc[ch][i] + 1] < 17
    requires forall c, k :: 0 <= c < |s.alloc| && 0 <= k < |rows| && s.status[c][k] != NoMore ==> s.smr[c][k] <= s.smr[ch][i]
    requires forall c, k :: 0 <= c < |s.alloc| && 0 <= k < |rows| && s.status[c][k] != NoMore && Before(c, k, ch, i)
                            ==> s.smr[c][k] < s.smr[ch][i]
    ensures Chosen(rows, codes, smr1, s, ch, i)
  {
  }

  lemma SteppedIs(rows: seq<seq<nat>>, codes: seq<seq<nat>>, smr1: seq<seq<short>>, s: State, ch: nat, i: nat,
                  incr: int, q: nat, last: bool)
    requires Chosen(rows, codes, smr1, s, ch, i)
    requires var b := s.alloc[ch][i];
             && incr == CellCost(rows[i], codes[ch][i], b + 1) - CellCost(rows[i], codes[ch][i], b)
             && q == rows[i][b + 1] && last == (b + 2 == |rows[i]|)
    ensures Stepped(rows, codes, smr1, s, ch, i) ==
            if incr > s.left then s.(status := Changed(s.status, ch, i, NoMore))
            else State(Changed(s.smr, ch, i, Short(smr1[ch][i] - QUANT_SNR[q])),
                       Changed(s.status, ch, i, if last then NoMore else Allocated),
                       Changed(s.alloc, ch, i, s.alloc[ch][i] + 1), s.left - incr)
  {
  }

  /** What the statuses say is so, when `left` bits are left. */
  ghost predicate Tracked(rows: seq<seq<nat>>, codes: seq<seq<nat>>, alloc: seq<seq<nat>>, status: seq<seq<Status>>, left: int)
    requires GoodAlloc(rows, |alloc|, codes, alloc) && Shape(status, |alloc|, |rows|)
  {
    forall ch, i :: 0 <= ch < |alloc| && 0 <= i < |rows| ==> TrackedAt(rows, codes, alloc, status, left, ch, i)
  }

  ghost predicate TrackedAt(rows: seq<seq<nat>>, codes: seq<seq<nat>>, alloc: seq<seq<nat>>, status: seq<seq<Status>>, left: int,
                            ch: nat, i: nat)
    requires GoodAlloc(rows, |alloc|, codes, alloc) && Shape(status, |alloc|, |rows|) && ch < |alloc| && i < |rows|
  {
    StatusFits(rows, alloc, status, ch, i) && (status[ch][i] == NoMore ==> Exhausted(rows, codes, alloc, left, ch, i))
  }

  lemma TrackedAtFirst(rows: seq<seq<nat>>, codes: seq<seq<nat>>, alloc: seq<seq<nat>>, status: seq<seq<Status>>, left: int)
    requires GoodAlloc(rows, |alloc|, codes, alloc) && Shape(status, |alloc|, |rows|)
    requires forall ch, i :: 0 <= ch < |alloc| && 0 <= i < |rows| ==> alloc[ch][i] == 0 && status[ch][i] == NotAllocated
    ensures Tracked(rows, codes, alloc, status, left)
  {
    RowsAreLong(rows);
  }

  lemma StillOpen(rows: seq<seq<nat>>, codes: seq<seq<nat>>, alloc: seq<seq<nat>>, status: seq<seq<Status>>, left: int, ch: nat, i: nat)
    requires GoodAlloc(rows, |alloc|, codes, alloc) && Shape(status, |alloc|, |rows|) && Tracked(rows, codes, alloc, status, left)
    requires ch < |alloc| && i < |rows| && status[ch][i] != NoMore
    ensures alloc[ch][i] + 1 < |rows[i]| && (status[ch][i] == NotAllocated <==> alloc[ch][i] == 0)
  {
    assert TrackedAt(rows, codes, alloc, status, left, ch, i);
  }

  lemma TrackedGrows(rows: seq<seq<nat>>, codes: seq<seq<nat>>, alloc: seq<seq<nat>>, status: seq<seq<Status>>, left: int, incr: nat,
                     ch: nat, i: nat)
    requires GoodAlloc(rows, |alloc|, codes, alloc) && Shape(status, |alloc|, |rows|) && Tracked(rows, codes, alloc, status, left)
    requires ch < |alloc| && i < |rows| && alloc[ch][i] + 1 < |rows[i]|
    requires GoodAlloc(rows, |alloc|, codes, Changed(alloc, ch, i, alloc[ch][i] + 1))
    ensures var b := alloc[ch][i] + 1;
            Tracked(rows, codes, Changed(alloc, ch, i, b), Changed(status, ch, i, if b + 1 == |rows[i]| then NoMore else Allocated), left - incr)
  {
    hide GoodRow, CellCost, Changed;
    var b := alloc[ch][i] + 1;
    var alloc1, status1 := Changed(alloc, ch, i, b), Changed(status, ch, i, if b + 1 == |rows[i]| then NoMore else Allocated);
    var less := left - incr;
    forall c, k | 0 <= c < |alloc| && 0 <= k < |rows| ensures TrackedAt(rows, codes, alloc1, status1, less, c, k) {
      assert TrackedAt(rows, codes, alloc, status, left, c, k);
    }
  }

  lemma TrackedCloses(rows: seq<seq<nat>>, codes: seq<seq<nat>>, alloc: seq<seq<nat>>, status: seq<seq<Status>>, left: int,
                      ch: nat, i: nat)
    requires GoodAlloc(rows, |alloc|, codes, alloc) && Shape(status, |alloc|, |rows|) && Tracked(rows, codes, alloc, status, left)
    requires ch < |alloc| && i < |rows| && Exhausted(rows, codes, alloc, left, ch, i)
    ensures Tracked(rows, codes, alloc, Changed(status, ch, i, NoMore), left)
  {
    hide GoodRow, CellCost, Changed;
    forall c, k | 0 <= c < |alloc| && 0 <= k < |rows|
      ensures TrackedAt(rows, codes, alloc, Changed(status, ch, i, NoMore), left, c, k)
    {
      assert TrackedAt(rows, codes, alloc, status, left, c, k);
    }
  }

  lemma AllExhausted(rows: seq<seq<nat>>, codes: seq<seq<nat>>, alloc: seq<seq<nat>>, status: seq<seq<Status>>, left: int)
    requires GoodAlloc(rows, |alloc|, codes, alloc) && Shape(status, |alloc|, |rows|) && Tracked(rows, codes, alloc, status, left)
    requires forall ch, i :: 0 <= ch < |alloc| && 0 <= i < |rows| ==> status[ch][i] == NoMore
    ensures forall ch, i :: 0 <= ch < |alloc| && 0 <= i < |rows| ==> Exhausted(rows, codes, alloc, left, ch, i)
  {
    hide Exhausted;
    forall ch, i | 0 <= ch < |alloc| && 0 <= i < |rows| ensures Exhausted(rows, codes, alloc, left, ch, i) {
      assert TrackedAt(rows, codes, alloc, status, left, ch, i);
    }
  }

  lemma LineAt(rows: seq<seq<nat>>, i: nat)
    requires GoodRows(rows) && i < |rows|
    ensures |rows[i]| > 0 && |rows[i]| == Pow2(rows[i][0]) && Offset(rows, i + 1) == Offset(rows, i) + |rows[i]| <= |Flat(rows)|
    ensures forall b :: 0 <= b < |rows[i]| ==> Flat(rows)[Offset(rows, i) + b] == rows[i][b]
  {
    hide Flat, Pow2, Offset;
    RowInTable(rows, i);
    SliceAt(Flat(rows), Offset(rows, i), rows[i]);
  }

  lemma OffsetStarts(rows: seq<seq<nat>>)
    ensures Offset(rows, 0) == 0
  {
  }

  lemma SliceAt<T>(s: seq<T>, at: nat, t: seq<T>)
    requires at + |t| <= |s| && s[at..at + |t|] == t
    ensures forall b :: 0 <= b < |t| ==> s[at + b] == t[b]
  {
    forall b | 0 <= b < |t| ensures s[at + b] == t[b] { assert s[at..at + |t|][b] == t[b]; }
  }

  lemma RowsAreLong(rows: seq<seq<nat>>)
    requires GoodRows(rows)
    ensures forall i :: 0 <= i < |rows| ==> |rows[i]| > 1 && |rows[i]| == Pow2(rows[i][0])
  {
    Powers();
    forall i | 0 <= i < |rows| ensures |rows[i]| > 1 { assert GoodRow(rows[i]); }
  }

  lemma {:induction false} RowOfWidths(rows: seq<seq<nat>>, i: nat, ch: nat)
    requires i < |rows| && |rows[i]| > 0
    ensures RowSum(AllocWidth(rows), i, ch) == rows[i][0] * ch
  {
    if ch > 0 { RowOfWidths(rows, i, ch - 1); }
  }

  lemma {:induction false} ZeroRow(w: (nat, nat) -> nat, i: nat, ch: nat)
    requires forall k :: 0 <= k < ch ==> w(i, k) == 0
    ensures RowSum(w, i, ch) == 0
  {
    if ch > 0 { ZeroRow(w, i, ch - 1); }
  }

  lemma {:induction false} ZeroCells(w: (nat, nat) -> nat, n: nat, channels: nat)
    requires forall i, k :: 0 <= i < n && 0 <= k < channels ==> w(i, k) == 0
    ensures CellSum(w, n, channels) == 0
  {
    if n > 0 {
      ZeroCells(w, n - 1, channels);
      ZeroRow(w, n - 1, channels);
    }
  }

  lemma NothingAllocated(rows: seq<seq<nat>>, channels: nat, codes: seq<seq<nat>>, alloc: seq<seq<nat>>)
    requires GoodAlloc(rows, channels, codes, alloc)
    requires forall ch, i :: 0 <= ch < channels && 0 <= i < |rows| ==> alloc[ch][i] == 0
    ensures FrameSize(rows, channels, codes, alloc) == 32 + CellSum(AllocWidth(rows), |rows|, channels)
  {
    ZeroCells(Cost(rows, codes, alloc), |rows|, channels);
  }

  /** A step costs what the code adds for it, and never nothing. */
  lemma StepCosts(row: seq<nat>, code: nat, b: nat)
    requires GoodRow(row) && b + 1 < |row| && code < 4
    ensures row[b + 1] < 17 && (b > 0 ==> row[b] < 17)
    ensures CellCost(row, code, b + 1) - CellCost(row, code, b) ==
            if b == 0 then 2 + NB_SCALE_FACTORS[code] * 6 + TotalQuantBits(row[1]) else TotalQuantBits(row[b + 1]) - TotalQuantBits(row[b])
    ensures CellCost(row, code, b + 1) > CellCost(row, code, b)
  {
    if b > 0 { MoreBits(row[b], row[b + 1]); }
  }

  lemma MoreBits(p: nat, q: nat)
    requires p < q < 17
    ensures TotalQuantBits(p) < TotalQuantBits(q)
  {
  }

  /** One step in one subband. */
  lemma Grows(rows: seq<seq<nat>>, channels: nat, codes: seq<seq<nat>>, alloc: seq<seq<nat>>, ch: nat, i: nat)
    requires GoodAlloc(rows, channels, codes, alloc) && ch < channels && i < |rows| && alloc[ch][i] + 1 < |rows[i]|
    ensures var more := Changed(alloc, ch, i, alloc[ch][i] + 1);
            && GoodAlloc(rows, channels, codes, more)
            && FrameSize(rows, channels, codes, more) == FrameSize(rows, channels, codes, alloc)
               + CellCost(rows[i], codes[ch][i], alloc[ch][i] + 1) - CellCost(rows[i], codes[ch][i], alloc[ch][i])
            && CellSum(RoomAt(rows, more), |rows|, channels) < CellSum(RoomAt(rows, alloc), |rows|, channels)
  {
    hide GoodRow, CellSum, CellCost, Changed;
    var more := Changed(alloc, ch, i, alloc[ch][i] + 1);
    CellSumUpdate(Cost(rows, codes, alloc), Cost(rows, codes, more), |rows|, channels, i, ch);
    CellSumUpdate(RoomAt(rows, alloc), RoomAt(rows, more), |rows|, channels, i, ch);
  }

  lemma Closes(status: seq<seq<Status>>, n: nat, channels: nat, ch: nat, i: nat)
    requires Shape(status, channels, n) && ch < channels && i < n && status[ch][i] != NoMore
    ensures var s := Changed(status, ch, i, NoMore);
            CellSum(OpenAt(s), n, channels) < CellSum(OpenAt(status), n, channels)
  {
    hide CellSum, Changed;
    CellSumUpdate(OpenAt(status), OpenAt(Changed(status, ch, i, NoMore)), n, channels, i, ch);
  }

  // ---------------------------------------------------------------- along the greedy run

  /** Before the first step: the first ratios, and nothing allocated. */
  ghost predicate AtFirst(rows: seq<seq<nat>>, codes: seq<seq<nat>>, smr1: seq<seq<short>>, s: State) {
    && s.smr == smr1 && Shape(smr1, |s.alloc|, |rows|) && GoodAlloc(rows, |s.alloc|, codes, s.alloc)
    && forall ch, i :: 0 <= ch < |s.alloc| && 0 <= i < |rows| ==> s.alloc[ch][i] == 0
  }

  /** The ratio of a subband is what its quantiser's own ratio leaves of the first one. */
  ghost predicate RatioAt(rows: seq<seq<nat>>, smr1: seq<seq<short>>, s: State, ch: nat, i: nat)
    requires Shape(s.smr, |s.alloc|, |rows|) && Shape(smr1, |s.alloc|, |rows|) && Shape(s.alloc, |s.alloc|, |rows|)
    requires ch < |s.alloc| && i < |rows|
  {
    var b := s.alloc[ch][i];
    if b == 0 then s.smr[ch][i] == smr1[ch][i]
    else b < |rows[i]| && rows[i][b] < 17 && s.smr[ch][i] == Short(smr1[ch][i] - QUANT_SNR[rows[i][b]])
  }

  /** In every state of a greedy run the ratios are those of the quantisers reached, and what is left is what the
      allocation reached has not taken. */
  lemma {:induction false} RatiosFollow(rows: seq<seq<nat>>, codes: seq<seq<nat>>, smr1: seq<seq<short>>, run: seq<State>, k: nat)
    requires k < |run| && GreedyRun(rows, codes, smr1, run) && AtFirst(rows, codes, smr1, run[0])
    ensures |run[k].alloc| == |run[0].alloc| == |smr1| && GoodAlloc(rows, |smr1|, codes, run[k].alloc) && Shape(run[k].smr, |smr1|, |rows|)
    ensures forall ch, i :: 0 <= ch < |smr1| && 0 <= i < |rows| ==> RatioAt(rows, smr1, run[k], ch, i)
    ensures run[k].left == run[0].left - CellSum(Cost(rows, codes, run[k].alloc), |rows|, |smr1|)
  {
    hide GoodRow, CellSum, Cost, Short, CellCost, Stepped, Chosen, RatioAt;
    if k == 0 {
      FirstRatios(rows, codes, smr1, run[0]);
      NothingAllocated(rows, |smr1|, codes, run[0].alloc);
    } else {
      RatiosFollow(rows, codes, smr1, run, k - 1);
      assert GreedyStep(rows, codes, smr1, run[k - 1], run[k - 1 + 1]);
      var ch: nat, i: nat :| Chosen(rows, codes, smr1, run[k - 1], ch, i) && run[k] == Stepped(rows, codes, smr1, run[k - 1], ch, i);
      SpentStep(rows, codes, smr1, run[k - 1], ch, i);
      forall c, j | 0 <= c < |smr1| && 0 <= j < |rows| ensures RatioAt(rows, smr1, run[k], c, j) {
        RatioStep(rows, codes, smr1, run[k - 1], run[k], ch, i, c, j);
      }
    }
  }

  lemma FirstRatios(rows: seq<seq<nat>>, codes: seq<seq<nat>>, smr1: seq<seq<short>>, s: State)
    requires AtFirst(rows, codes, smr1, s)
    ensures |s.alloc| == |smr1| && forall ch, i :: 0 <= ch < |smr1| && 0 <= i < |rows| ==> RatioAt(rows, smr1, s, ch, i)
  {
    hide GoodRow;
  }

  lemma SpentStep(rows: seq<seq<nat>>, codes: seq<seq<nat>>, smr1: seq<seq<short>>, s: State, ch: nat, i: nat)
    requires Chosen(rows, codes, smr1, s, ch, i)
    ensures var t := Stepped(rows, codes, smr1, s, ch, i);
            && |t.alloc| == |s.alloc| == |smr1| && GoodAlloc(rows, |smr1|, codes, t.alloc) && Shape(t.smr, |smr1|, |rows|)
            && t.left + CellSum(Cost(rows, codes, t.alloc), |rows|, |smr1|)
               == s.left + CellSum(Cost(rows, codes, s.alloc), |rows|, |smr1|)
  {
    hide GoodRow, CellSum, Short, CellCost, Changed, Cost, Stepped;
    var b := s.alloc[ch][i];
    var incr := CellCost(rows[i], codes[ch][i], b + 1) - CellCost(rows[i], codes[ch][i], b);
    SteppedIs(rows, codes, smr1, s, ch, i, incr, rows[i][b + 1], b + 2 == |rows[i]|);
    Grows(rows, |smr1|, codes, s.alloc, ch, i);
  }

  lemma RatioStep(rows: seq<seq<nat>>, codes: seq<seq<nat>>, smr1: seq<seq<short>>, s: State, t: State, ch: nat, i: nat, c: nat, j: nat)
    requires Chosen(rows, codes, smr1, s, ch, i) && t == Stepped(rows, codes, smr1, s, ch, i)
    requires c < |smr1| && j < |rows| && RatioAt(rows, smr1, s, c, j)
    requires Shape(t.smr, |smr1|, |rows|) && Shape(t.alloc, |smr1|, |rows|) && |t.alloc| == |smr1|
    ensures RatioAt(rows, smr1, t, c, j)
  {
    hide GoodRow, Short, CellCost, Changed, Stepped, RatioAt;
    var b := s.alloc[ch][i];
    var incr := CellCost(rows[i], codes[ch][i], b + 1) - CellCost(rows[i], codes[ch][i], b);
    SteppedIs(rows, codes, smr1, s, ch, i, incr, rows[i][b + 1], b + 2 == |rows[i]|);
    hide Chosen;
    if incr <= s.left { RatioCell(rows, smr1, s, t, ch, i, c, j); } else { SameRatio(rows, smr1, s, t, c, j); }
  }

  lemma RatioCell(rows: seq<seq<nat>>, smr1: seq<seq<short>>, s: State, t: State, ch: nat, i: nat, c: nat, j: nat)
    requires Shape(s.smr, |smr1|, |rows|) && Shape(smr1, |smr1|, |rows|) && Shape(s.alloc, |smr1|, |rows|)
    requires ch < |smr1| && c < |smr1| && i < |rows| && j < |rows| && RatioAt(rows, smr1, s, c, j)
    requires s.alloc[ch][i] + 1 < |rows[i]| && rows[i][s.alloc[ch][i] + 1] < 17
    requires t.alloc == Changed(s.alloc, ch, i, s.alloc[ch][i] + 1)
    requires t.smr == Changed(s.smr, ch, i, Short(smr1[ch][i] - QUANT_SNR[rows[i][s.alloc[ch][i] + 1]]))
    ensures Shape(t.smr, |smr1|, |rows|) && Shape(t.alloc, |smr1|, |rows|) && RatioAt(rows, smr1, t, c, j)
  {
    hide Short;
  }

  lemma SameRatio(rows: seq<seq<nat>>, smr1: seq<seq<short>>, s: State, t: State, c: nat, j: nat)
    requires Shape(s.smr, |smr1|, |rows|) && Shape(smr1, |smr1|, |rows|) && Shape(s.alloc, |smr1|, |rows|)
    requires c < |smr1| && j < |rows| && RatioAt(rows, smr1, s, c, j) && t.smr == s.smr && t.alloc == s.alloc
    ensures RatioAt(rows, smr1, t, c, j)
  {
  }
}
