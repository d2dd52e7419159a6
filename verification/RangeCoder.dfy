/** The carry-less 32-bit range coder of enet-1.3.3/compress.c: the interval arithmetic that
    the compressor and the decompressor share, the bytes it emits and the code word it reads. */
module RangeCoder {
  import opened Numbers

  const TOP: int := 0x100_0000      // ENET_RANGE_CODER_TOP
  const BOTTOM: int := 0x1_0000     // ENET_RANGE_CODER_BOTTOM

  type word = u32   // every register is an unsigned 32-bit integer

  /** One coding decision: `count` out of `total` units, the first of them being unit `under`. */
  datatype Slot = Slot(under: nat, count: nat, total: nat)

  ghost predicate ValidSlot(s: Slot) {
    0 < s.count && s.under + s.count <= s.total < BOTTOM
  }

  datatype Interval = Interval(low: word, range: word)

  /** A non-empty interval that stays inside the 32-bit space; it may touch the upper end
      only when its first byte is already non-zero. */
  ghost predicate Inside(low: int, range: int) {
    0 <= low && 0 < range && low + range <= WORD && (low + range == WORD ==> low >= TOP)
  }

  /** What holds between two coding steps. */
  ghost predicate Ready(iv: Interval) {
    Inside(iv.low, iv.range) && iv.range >= BOTTOM
  }

  const START := Interval(0, 0xFFFF_FFFF)

  // ---------------------------------------------------------------- normalisation

  /** `(low ^ (low + range)) >= TOP` on 32-bit registers: the leading bytes differ. */
  predicate LeadDiffers(low: word, range: word) {
    low / TOP != ((low + range) % WORD) / TOP
  }

  // The C operators `^` and `&`, bit by bit.

  function Xor(x: nat, y: nat): nat {
    if x == 0 && y == 0 then 0 else 2 * Xor(x / 2, y / 2) + (if x % 2 != y % 2 then 1 else 0)
  }

  function And(x: nat, y: nat): nat {
    if x == 0 || y == 0 then 0 else 2 * And(x / 2, y / 2) + (if x % 2 == 1 && y % 2 == 1 then 1 else 0)
  }

  function Two(k: nat): (p: nat)
    ensures p > 0
  {
    if k == 0 then 1 else 2 * Two(k - 1)
  }

  lemma TopAndBottom()
    ensures Two(24) == TOP && Two(16) == BOTTOM
  {
    assert Two(8) == 256;
    assert Two(16) == 256 * Two(8);
    assert Two(24) == 256 * Two(16);
  }

  lemma HalfThenRest(x: nat, p: nat)
    requires p > 0
    ensures x / (2 * p) == x / 2 / p && x % (2 * p) == 2 * (x / 2 % p) + x % 2
  {
    var q, r := x / 2 / p, x / 2 % p;
    assert x / 2 == p * q + r && x == (2 * p) * q + (2 * r + x % 2);
    DivModIs(x, 2 * p, q, 2 * r + x % 2);
  }

  /** Whatever the bits above position `k` have in common, the exclusive or has not. */
  lemma {:induction false} XorIsSmall(x: nat, y: nat, k: nat)
    ensures Xor(x, y) < Two(k) <==> x / Two(k) == y / Two(k)
    decreases k, x + y
  {
    if k > 0 {
      XorIsSmall(x / 2, y / 2, k - 1);
      HalfThenRest(x, Two(k - 1));
      HalfThenRest(y, Two(k - 1));
    } else if x + y > 0 {
      XorIsSmall(x / 2, y / 2, 0);
    }
  }

  lemma {:induction false} MaskIsRemainder(x: nat, k: nat)
    ensures And(x, Two(k) - 1) == x % Two(k)
  {
    if k > 0 {
      var p := Two(k - 1);
      MaskIsRemainder(x / 2, k - 1);
      HalfThenRest(x, p);
      AndOdd(x, 2 * p - 1);
      assert (2 * p - 1) / 2 == p - 1;
    }
  }

  lemma AndOdd(x: nat, y: nat)
    requires y % 2 == 1
    ensures And(x, y) == 2 * And(x / 2, y / 2) + x % 2
  {
  }

  /** The test of the C code and its mask, on 32-bit registers, as the comparisons and remainders used here. */
  lemma BitTests(low: word, range: word)
    ensures Xor(low, (low + range) % WORD) >= TOP <==> LeadDiffers(low, range)
    ensures And((0 - low) % WORD, BOTTOM - 1) == (WORD - low) % BOTTOM
  {
    hide Xor, And, Two;
    TopAndBottom();
    XorIsSmall(low, (low + range) % WORD, 24);
    MaskIsRemainder((0 - low) % WORD, 16);
    assert (0 - low) % WORD == if low == 0 then 0 else WORD - low;
  }

  /** The range with which the coder goes on when it cannot stop yet. */
  function Narrowed(low: word, range: word): word {
    if LeadDiffers(low, range) then (WORD - low) % BOTTOM else range
  }

  function Shift(x: word): word { (x * 256) % WORD }

  function ZeroBytes(x: word): nat {
    if x == 0 then 4
    else if x % TOP == 0 then 3
    else if x % BOTTOM == 0 then 2
    else if x % 256 == 0 then 1
    else 0
  }

  lemma ShiftIsTail(x: word)
    ensures Shift(x) == 256 * (x % TOP)
  {
    assert x == TOP * (x / TOP) + x % TOP;
    assert x * 256 == WORD * (x / TOP) + 256 * (x % TOP);
  }

  lemma ShiftAddsZeroByte(x: word)
    requires x != 0
    ensures ZeroBytes(x) < ZeroBytes(Shift(x)) <= 4
  {
    hide Shift;
    ShiftIsTail(x);
    TailZeros(x, x % TOP);
  }

  /** The zero bytes of what is left behind the leading byte, and one more. */
  lemma TailZeros(x: word, t: nat)
    requires t == x % TOP
    ensures x % 256 == 0 ==> 256 * t % BOTTOM == 0
    ensures x % BOTTOM == 0 ==> 256 * t % TOP == 0
    ensures 256 * t % 256 == 0 && (256 * t == 0 <==> x % TOP == 0)
  {
    OneByteLess(x, t, x / TOP, 256, BOTTOM);
    OneByteLess(x, t, x / TOP, BOTTOM, 256);
  }

  /** If `x` is a multiple of `p`, so is its tail. */
  lemma OneByteLess(x: nat, t: nat, q: nat, p: nat, n: nat)
    requires p > 0 && x == p * n * q + t
    ensures x % p == 0 ==> 256 * t % (256 * p) == 0
  {
    if x % p == 0 {
      var a := x / p;
      assert x == p * a;
      assert p * n * q == p * (n * q);
      assert 256 * t == (a - n * q) * (256 * p);
      DivModIs(256 * t, 256 * p, a - n * q, 0);
    }
  }

  /** The bytes a normalisation emits and the interval it ends in, or `Spin` when the range has
      become zero, in which case the C loop never leaves. */
  datatype Normal = Normal(out: seq<byte>, iv: Interval) | Spin

  function Normalise(iv: Interval): Normal
    decreases 4 - ZeroBytes(iv.low), if iv.low == 0 then WORD - iv.range else 0
  {
    if LeadDiffers(iv.low, iv.range) && iv.range >= BOTTOM then Normal([], iv)
    else
      var r := Narrowed(iv.low, iv.range);
      if r == 0 then Spin
      else
        assert iv.low != 0 ==> ZeroBytes(iv.low) < ZeroBytes(Shift(iv.low)) <= 4 by {
          if iv.low != 0 { ShiftAddsZeroByte(iv.low); }
        }
        match Normalise(Interval(Shift(iv.low), Shift(r)))
        case Spin => Spin
        case Normal(out, end) => Normal([iv.low / TOP] + out, end)
  }

  /** One round of the loop on an interval that lies inside: narrowing never empties or widens it,
      and shifting out the common leading byte loses nothing. */
  lemma RoundStaysInside(iv: Interval)
    requires Inside(iv.low, iv.range)
    requires !(LeadDiffers(iv.low, iv.range) && iv.range >= BOTTOM)
    ensures var r := Narrowed(iv.low, iv.range);
            && 0 < r <= iv.range
            && Shift(iv.low) == 256 * (iv.low % TOP)
            && Shift(r) == 256 * r
            && iv.low % TOP + r <= TOP
            && Inside(Shift(iv.low), Shift(r))
  {
    hide LeadDiffers;
    RemainderFits(iv.low, iv.range);
    ShiftIsTail(iv.low);
    var r := Narrowed(iv.low, iv.range);
    SmallMod(256 * r);
  }

  /** The range that is left fits behind the leading byte. */
  lemma RemainderFits(low: word, range: word)
    requires Inside(low, range) && !(LeadDiffers(low, range) && range >= BOTTOM)
    ensures 0 < Narrowed(low, range) <= range && low % TOP + Narrowed(low, range) <= TOP
    ensures low % TOP + Narrowed(low, range) == TOP ==> low % TOP >= BOTTOM
  {
    if LeadDiffers(low, range) { NarrowedFits(low, range); } else { SameLeadFits(low, range); }
  }

  lemma NarrowedFits(low: word, range: word)
    requires Inside(low, range) && LeadDiffers(low, range) && range < BOTTOM
    ensures var r := (WORD - low) % BOTTOM;
            0 < r <= range && low % TOP + r <= TOP && low % TOP >= BOTTOM
  {
    var a, b := low / TOP, low % TOP;
    assert low == TOP * a + b;
    assert b + range >= TOP;
    assert b % BOTTOM == low % BOTTOM;
    var c := b / BOTTOM;
    assert b == BOTTOM * c + b % BOTTOM && c == 255;
  }

  lemma SameLeadFits(low: word, range: word)
    requires Inside(low, range) && !LeadDiffers(low, range)
    ensures low % TOP + range < TOP
  {
    var a, b := low / TOP, low % TOP;
    assert low == TOP * a + b;
    assert low + range < WORD;
  }

  lemma {:induction false} NormaliseKeepsInterval(iv: Interval)
    requires Inside(iv.low, iv.range)
    ensures Normalise(iv).Normal?
    ensures Ready(Normalise(iv).iv)
    decreases 4 - ZeroBytes(iv.low), if iv.low == 0 then WORD - iv.range else 0
  {
    if !(LeadDiffers(iv.low, iv.range) && iv.range >= BOTTOM) {
      RoundStaysInside(iv);
      if iv.low != 0 { ShiftAddsZeroByte(iv.low); }
      NormaliseKeepsInterval(Interval(Shift(iv.low), Shift(Narrowed(iv.low, iv.range))));
    }
  }

  // ---------------------------------------------------------------- coding one slot

  function Slice(iv: Interval, under: nat, count: nat, total: nat): Interval
    requires total > 0
  {
    Interval((iv.low + under * (iv.range / total)) % WORD, ((iv.range / total) * count) % WORD)
  }

  /** The arithmetic of one slice: a whole number of units, and never more than the range. */
  lemma SliceFits(range: nat, s: Slot)
    requires range >= BOTTOM && ValidSlot(s)
    ensures var r := range / s.total;
            r > 0 && 0 <= s.under * r && 0 < r * s.count && s.under * r + r * s.count <= range
  {
    var r := range / s.total;
    DivBounds(range, s.total);
    MulMono(s.under + s.count, s.total, r);
    Distribute(s.under, s.count, r);
    MulMono(1, s.count, r);
    MulMono(0, s.under, r);
  }

  lemma SliceStaysInside(iv: Interval, s: Slot)
    requires Ready(iv) && ValidSlot(s)
    ensures var r := iv.range / s.total;
            && r > 0
            && 0 <= s.under * r && 0 < r * s.count
            && s.under * r + r * s.count <= iv.range
            && Slice(iv, s.under, s.count, s.total) == Interval(iv.low + s.under * r, r * s.count)
            && Inside(iv.low + s.under * r, r * s.count)
  {
    SliceFits(iv.range, s);
    var r := iv.range / s.total;
    var a, b := s.under * r, r * s.count;
    assert iv.low + a < WORD && b < WORD;
    SmallMod(iv.low + a);
    SmallMod(b);
  }

  lemma SmallMod(x: int)
    requires 0 <= x < WORD
    ensures x % WORD == x
  {
  }

  lemma DivBounds(a: nat, b: nat)
    requires 0 < b <= a
    ensures 0 < a / b && b * (a / b) <= a
  {
  }

  lemma Distribute(a: int, b: int, r: int)
    ensures (a + b) * r == a * r + r * b
  {
  }

  // ---------------------------------------------------------------- the emitted bytes

  /** `ENET_RANGE_CODER_FLUSH`: the low register, without its trailing zero bytes. */
  function Flush(low: word): seq<byte>
    decreases 4 - ZeroBytes(low)
  {
    if low == 0 then []
    else
      ShiftAddsZeroByte(low);
      [low / TOP] + Flush(Shift(low))
  }

  /** Everything the coder writes for a list of slots, the final flush included. */
  function Encode(slots: seq<Slot>, iv: Interval): seq<byte>
    requires forall s <- slots :: ValidSlot(s)
    requires Ready(iv)
  {
    if slots == [] then Flush(iv.low)
    else
      SliceStaysInside(iv, slots[0]);
      var cut := Slice(iv, slots[0].under, slots[0].count, slots[0].total);
      NormaliseKeepsInterval(cut);
      var n := Normalise(cut);
      n.out + Encode(slots[1..], n.iv)
  }

  /** The first four bytes as a big-endian word; past the end the decoder reads zeros. */
  function ByteAt(s: seq<byte>, i: nat): byte { if i < |s| then s[i] else 0 }

  function Word(s: seq<byte>): word {
    ByteAt(s, 0) * TOP + ByteAt(s, 1) * BOTTOM + ByteAt(s, 2) * 256 + ByteAt(s, 3)
  }

  function Beyond(s: seq<byte>): seq<byte> { if |s| >= 4 then s[4..] else [] }

  lemma WordOfCons(b: byte, s: seq<byte>)
    ensures Word([b] + s) == b * TOP + Word(s) / 256
    ensures Word(s) == (Word([b] + s) * 256) % WORD + ByteAt(s, 3)
    ensures Beyond([b] + s) == if |s| >= 3 then s[3..] else []
  {
    var t := [b] + s;
    assert ByteAt(t, 0) == b && ByteAt(t, 1) == ByteAt(s, 0);
    assert ByteAt(t, 2) == ByteAt(s, 1) && ByteAt(t, 3) == ByteAt(s, 2);
    var x: int, y: int, z: int, w: int := ByteAt(s, 0), ByteAt(s, 1), ByteAt(s, 2), ByteAt(s, 3);
    assert Word(s) == 256 * (x * BOTTOM + y * 256 + z) + w;
    assert Word(t) * 256 == WORD * b + 256 * (x * BOTTOM + y * 256 + z);
    assert (Word(t) * 256) % WORD == 256 * (x * BOTTOM + y * 256 + z);
  }

  lemma NoBytes()
    ensures Word([]) == 0 && ZeroBytes(0) == 4
  {
  }

  lemma {:induction false} FlushSpellsLow(low: word)
    ensures Word(Flush(low)) == low
    ensures |Flush(low)| <= 4 - ZeroBytes(low)
    decreases 4 - ZeroBytes(low)
  {
    hide Word, ZeroBytes;
    if low == 0 {
      NoBytes();
    } else {
      ShiftAddsZeroByte(low);
      FlushSpellsLow(Shift(low));
      ByteFirst(low / TOP, Flush(Shift(low)));
      hide Shift;
      ShiftIsTail(low);
    }
  }

  /** The measure of the loop on an interval that lies inside. */
  lemma RoundShrinks(iv: Interval)
    requires Inside(iv.low, iv.range)
    requires !(LeadDiffers(iv.low, iv.range) && iv.range >= BOTTOM)
    ensures iv.low != 0 ==> ZeroBytes(iv.low) < ZeroBytes(Shift(iv.low)) <= 4
    ensures iv.low == 0 ==> Shift(iv.low) == 0 && Shift(Narrowed(iv.low, iv.range)) > iv.range
    ensures ZeroBytes(iv.low) <= 4
  {
    if iv.low != 0 { ShiftAddsZeroByte(iv.low); }
  }

  lemma ByteInFront(low: word, r: int, b: byte, w: word)
    requires b == low / TOP && 256 * (low % TOP) <= w < 256 * (low % TOP) + 256 * r
    ensures low <= b * TOP + w / 256 < low + r
  {
    assert low == b * TOP + low % TOP;
  }

  /** Whatever follows, if the bytes after a normalisation point into its final interval then the
      bytes from its start point into the initial one: no later step changes an emitted byte. */
  lemma {:induction false} WordBeforeNormalise(iv: Interval, tail: seq<byte>)
    requires Inside(iv.low, iv.range)
    requires var n := Normalise(iv);
             n.Normal? && n.iv.low <= Word(tail) < n.iv.low + n.iv.range
    ensures iv.low <= Word(Normalise(iv).out + tail) < iv.low + iv.range
    decreases 4 - ZeroBytes(iv.low), if iv.low == 0 then WORD - iv.range else 0
  {
    hide Word, Shift, Narrowed, LeadDiffers, ZeroBytes;
    if LeadDiffers(iv.low, iv.range) && iv.range >= BOTTOM {
      assert [] + tail == tail;
    } else {
      RoundStaysInside(iv);
      RoundShrinks(iv);
      var r := Narrowed(iv.low, iv.range);
      var next := Interval(Shift(iv.low), Shift(r));
      WordBeforeNormalise(next, tail);
      var rest := Normalise(next).out + tail;
      assert Normalise(iv).out + tail == [iv.low / TOP] + rest;
      ByteFirst(iv.low / TOP, rest);
      ByteInFront(iv.low, r, iv.low / TOP, Word(rest));
    }
  }

  lemma ByteFirst(b: byte, s: seq<byte>)
    ensures Word([b] + s) == b * TOP + Word(s) / 256
  {
    WordOfCons(b, s);
  }

  /** The whole output always points into the interval it was produced from. */
  lemma {:induction false} OutputPointsInside(slots: seq<Slot>, iv: Interval)
    requires forall s <- slots :: ValidSlot(s)
    requires Ready(iv)
    ensures iv.low <= Word(Encode(slots, iv)) < iv.low + iv.range
  {
    if slots == [] {
      FlushSpellsLow(iv.low);
    } else {
      var s := slots[0];
      SliceStaysInside(iv, s);
      var cut := Slice(iv, s.under, s.count, s.total);
      NormaliseKeepsInterval(cut);
      OutputPointsInside(slots[1..], Normalise(cut).iv);
      WordBeforeNormalise(cut, Encode(slots[1..], Normalise(cut).iv));
    }
  }

  // ---------------------------------------------------------------- the reading side

  /** The decoder's registers: the same interval, the code word and the unread input. */
  datatype Reader = Reader(iv: Interval, code: word, rest: seq<byte>)

  /** `ENET_RANGE_CODER_SEED`. */
  function Seed(data: seq<byte>): Reader { Reader(START, Word(data), Beyond(data)) }

  /** `ENET_RANGE_CODER_READ`: the scaled code, stored into a 16-bit variable. */
  function Read(rd: Reader, total: nat): nat
    requires 0 < total <= rd.iv.range
  {
    DivBounds(rd.iv.range, total);
    (((rd.code - rd.iv.low) % WORD) / (rd.iv.range / total)) % BOTTOM
  }

  datatype Renormal = Renormal(rd: Reader) | Spinning

  /** The normalisation loop of `ENET_RANGE_CODER_DECODE`. */
  function Renormalise(rd: Reader): Renormal
    decreases 4 - ZeroBytes(rd.iv.low), if rd.iv.low == 0 then WORD - rd.iv.range else 0
  {
    var iv := rd.iv;
    if LeadDiffers(iv.low, iv.range) && iv.range >= BOTTOM then Renormal(rd)
    else
      var r := Narrowed(iv.low, iv.range);
      if r == 0 then Spinning
      else
        assert iv.low != 0 ==> ZeroBytes(iv.low) < ZeroBytes(Shift(iv.low)) <= 4 by {
          if iv.low != 0 { ShiftAddsZeroByte(iv.low); }
        }
        Renormalise(ReadByte(rd, Interval(Shift(iv.low), Shift(r))))
  }

  function ReadByte(rd: Reader, iv: Interval): Reader {
    assert Shift(rd.code) % 256 == 0;
    if rd.rest == [] then Reader(iv, Shift(rd.code), [])
    else Reader(iv, Shift(rd.code) + rd.rest[0], rd.rest[1..])
  }

  /** `ENET_RANGE_CODER_DECODE`, after a `Read` with the same total. */
  function Decode(rd: Reader, under: nat, count: nat, total: nat): Renormal
    requires total > 0
  {
    Renormalise(rd.(iv := Slice(rd.iv, under, count, total)))
  }

  /** The decoder is in step with an encoder that still has `slots` to write. */
  ghost predicate InStep(rd: Reader, slots: seq<Slot>) {
    && (forall s <- slots :: ValidSlot(s))
    && Ready(rd.iv)
    && rd.code == Word(Encode(slots, rd.iv))
    && rd.rest == Beyond(Encode(slots, rd.iv))
  }

  lemma {:induction false} RenormaliseFollows(rd: Reader, tail: seq<byte>)
    requires Inside(rd.iv.low, rd.iv.range)
    requires Normalise(rd.iv).Normal?
    requires var s := Normalise(rd.iv).out + tail; rd.code == Word(s) && rd.rest == Beyond(s)
    ensures Renormalise(rd) == Renormal(Reader(Normalise(rd.iv).iv, Word(tail), Beyond(tail)))
    decreases 4 - ZeroBytes(rd.iv.low), if rd.iv.low == 0 then WORD - rd.iv.range else 0
  {
    var iv := rd.iv;
    if LeadDiffers(iv.low, iv.range) && iv.range >= BOTTOM {
      assert [] + tail == tail;
    } else {
      RoundStaysInside(iv);
      if iv.low != 0 { ShiftAddsZeroByte(iv.low); }
      var next := Interval(Shift(iv.low), Shift(Narrowed(iv.low, iv.range)));
      var s := Normalise(next).out + tail;
      assert Normalise(iv).out + tail == [iv.low / TOP] + s;
      WordOfCons(iv.low / TOP, s);
      RenormaliseFollows(ReadByte(rd, next), tail);
    }
  }

  lemma ReadHitsSlot(rd: Reader, s: Slot)
    requires Ready(rd.iv) && ValidSlot(s)
    requires var r := rd.iv.range / s.total;
             s.under * r <= rd.code - rd.iv.low < s.under * r + r * s.count
    ensures 0 < s.total <= rd.iv.range
    ensures s.under <= Read(rd, s.total) < s.under + s.count
  {
    var x := rd.code - rd.iv.low;
    SliceFits(rd.iv.range, s);
    SmallMod(x);
    QuotientInRange(x, s.under, s.count, rd.iv.range / s.total);
  }

  /** One decoding step: the scaled code falls into the slot that was encoded, and decoding that
      slot puts the decoder in step with the rest. */
  lemma StepRecoversSlot(rd: Reader, slots: seq<Slot>)
    requires slots != [] && InStep(rd, slots)
    ensures 0 < slots[0].total <= rd.iv.range
    ensures slots[0].under <= Read(rd, slots[0].total) < slots[0].under + slots[0].count
    ensures var d := Decode(rd, slots[0].under, slots[0].count, slots[0].total);
            d.Renormal? && InStep(d.rd, slots[1..])
  {
    var s, iv := slots[0], rd.iv;
    assert ValidSlot(s);
    SliceStaysInside(iv, s);
    var cut := Slice(iv, s.under, s.count, s.total);
    NormaliseKeepsInterval(cut);
    var n := Normalise(cut);
    var tail := Encode(slots[1..], n.iv);
    assert Encode(slots, iv) == n.out + tail;
    RenormaliseFollows(rd.(iv := cut), tail);
    assert cut.low <= rd.code < cut.low + cut.range by {
      OutputPointsInside(slots[1..], n.iv);
      WordBeforeNormalise(cut, tail);
    }
    ReadHitsSlot(rd, s);
  }

  lemma QuotientInRange(x: int, under: nat, count: nat, r: nat)
    requires r > 0 && under * r <= x < under * r + r * count
    ensures x >= 0 && under <= x / r < under + count
  {
    MulMono(0, under, r);
    Distribute(under, count, r);
    var q := x / r;
    assert x == r * q + x % r;
    if q < under {
      MulMono(q + 1, under, r);
      Distribute(q, 1, r);
      assert false;
    }
    if q >= under + count {
      MulMono(under + count, q, r);
      assert false;
    }
  }

  // ---------------------------------------------------------------- the implicit end

  /** All slots are decoded: the code word is the low register and no input is left. */
  ghost predicate AtEnd(rd: Reader) { InStep(rd, []) }

  lemma AtEndMeansLow(rd: Reader)
    requires Ready(rd.iv)
    ensures AtEnd(rd) <==> rd.code == rd.iv.low && rd.rest == []
  {
    FlushSpellsLow(rd.iv.low);
  }

  lemma {:induction false} ZerosFollowLow(rd: Reader)
    requires Inside(rd.iv.low, rd.iv.range) && rd.code == rd.iv.low && rd.rest == []
    ensures Renormalise(rd).Renormal?
    ensures var e := Renormalise(rd).rd; Ready(e.iv) && e.code == e.iv.low && e.rest == []
    decreases 4 - ZeroBytes(rd.iv.low), if rd.iv.low == 0 then WORD - rd.iv.range else 0
  {
    var iv := rd.iv;
    if !(LeadDiffers(iv.low, iv.range) && iv.range >= BOTTOM) {
      RoundStaysInside(iv);
      if iv.low != 0 { ShiftAddsZeroByte(iv.low); }
      ZerosFollowLow(ReadByte(rd, Interval(Shift(iv.low), Shift(Narrowed(iv.low, iv.range)))));
    }
  }

  lemma ReadAtLow(rd: Reader, total: nat)
    requires Ready(rd.iv) && rd.code == rd.iv.low && 0 < total < BOTTOM
    ensures total <= rd.iv.range && Read(rd, total) == 0
  {
    DivBounds(rd.iv.range, total);
    var q := rd.iv.range / total;
    assert 0 / q == 0;
  }

  lemma EscapeKeepsLow(iv: Interval, s: Slot)
    requires Ready(iv) && ValidSlot(s) && s.under == 0
    ensures Slice(iv, s.under, s.count, s.total).low == iv.low
    ensures Inside(iv.low, Slice(iv, s.under, s.count, s.total).range)
  {
    SliceStaysInside(iv, s);
  }

  /** At the end every read gives zero, and reading an escape keeps the decoder at the end. */
  lemma EndReadsZero(rd: Reader, escapes: nat, total: nat)
    requires AtEnd(rd) && 0 < escapes <= total < BOTTOM
    ensures total <= rd.iv.range
    ensures Read(rd, total) == 0
    ensures Decode(rd, 0, escapes, total).Renormal?
    ensures AtEnd(Decode(rd, 0, escapes, total).rd)
  {
    AtEndMeansLow(rd);
    ReadAtLow(rd, total);
    EscapeKeepsLow(rd.iv, Slot(0, escapes, total));
    var cut := rd.(iv := Slice(rd.iv, 0, escapes, total));
    ZerosFollowLow(cut);
    AtEndMeansLow(Renormalise(cut).rd);
  }

  // ---------------------------------------------------------------- whole runs

  /** Decoding with the encoder's own slots as the model: the list of scaled codes read. */
  function ReadAll(rd: Reader, slots: seq<Slot>): (codes: seq<nat>)
    requires forall s <- slots :: ValidSlot(s)
    decreases |slots|
  {
    if slots == [] || rd.iv.range < slots[0].total then []
    else
      var s := slots[0];
      assert ValidSlot(s);
      match Decode(rd, s.under, s.count, s.total)
      case Spinning => [Read(rd, s.total)]
      case Renormal(next) => [Read(rd, s.total)] + ReadAll(next, slots[1..])
  }

  ghost predicate Hits(codes: seq<nat>, slots: seq<Slot>) {
    |codes| == |slots|
    && forall i :: 0 <= i < |slots| ==> slots[i].under <= codes[i] < slots[i].under + slots[i].count
  }

  lemma HitsCons(code: nat, codes: seq<nat>, slots: seq<Slot>)
    requires slots != [] && Hits(codes, slots[1..])
    requires slots[0].under <= code < slots[0].under + slots[0].count
    ensures Hits([code] + codes, slots)
  {
    forall i | 0 <= i < |slots|
      ensures slots[i].under <= ([code] + codes)[i] < slots[i].under + slots[i].count
    {
      if i > 0 { assert slots[1..][i - 1] == slots[i]; }
    }
  }

  /** For any agreed list of slots, every code the decoder reads back lies in the slot encoded. */
  lemma {:induction false} RunRecoversEverySlot(rd: Reader, slots: seq<Slot>)
    requires InStep(rd, slots)
    ensures Hits(ReadAll(rd, slots), slots)
    decreases |slots|
  {
    if slots != [] {
      StepRecoversSlot(rd, slots);
      var s := slots[0];
      var next := Decode(rd, s.under, s.count, s.total).rd;
      RunRecoversEverySlot(next, slots[1..]);
      HitsCons(Read(rd, s.total), ReadAll(next, slots[1..]), slots);
    }
  }

  lemma SeedIsInStep(slots: seq<Slot>)
    requires forall s <- slots :: ValidSlot(s)
    ensures Ready(START)
    ensures InStep(Seed(Encode(slots, START)), slots)
  {
  }
}
