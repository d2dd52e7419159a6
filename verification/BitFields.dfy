/** Bit fields in a byte buffer: `put_bits` and `flush_put_bits` write them a word at a time (mpegaudio.h,
    mpegaudio.c), `get_field` reads them back (rtp-mpeg4.c). */
module BitFields {
  import opened Numbers

  function Pow2(n: nat): (p: nat)
    ensures p >= 1
  {
    if n == 0 then 1 else 2 * Pow2(n - 1)
  }

  /** The last `n` bits of a number, the highest first. */
  function Bits(v: nat, n: nat): (s: seq<bool>)
    ensures |s| == n
  {
    if n == 0 then [] else Bits(v / 2, n - 1) + [v % 2 == 1]
  }

  function Number(s: seq<bool>): nat {
    if s == [] then 0 else 2 * Number(s[..|s| - 1]) + if s[|s| - 1] then 1 else 0
  }

  function BytesBits(s: seq<byte>): (b: seq<bool>)
    ensures |b| == 8 * |s|
  {
    if s == [] then [] else BytesBits(s[..|s| - 1]) + Bits(s[|s| - 1], 8)
  }

  // ---------------------------------------------------------------- numbers and their bits

  lemma {:induction false} PowAdds(m: nat, n: nat)
    ensures Pow2(m + n) == Pow2(m) * Pow2(n)
  {
    if n > 0 {
      PowAdds(m, n - 1);
      assert Pow2(m + n) == 2 * Pow2(m + (n - 1));
    }
  }

  lemma {:induction false} NumberOfBits(v: nat, n: nat)
    requires v < Pow2(n)
    ensures Number(Bits(v, n)) == v
  {
    if n > 0 {
      NumberOfBits(v / 2, n - 1);
      assert Bits(v, n)[..n - 1] == Bits(v / 2, n - 1);
    }
  }

  /** A number shifted left by the width of another one, with that one in the low bits. */
  lemma {:induction false} BitsJoin(a: nat, b: nat, m: nat, n: nat)
    requires b < Pow2(n)
    ensures Bits(a * Pow2(n) + b, m + n) == Bits(a, m) + Bits(b, n)
    decreases n
  {
    if n > 0 {
      var x := a * Pow2(n) + b;
      assert a * Pow2(n) == 2 * (a * Pow2(n - 1));
      assert x / 2 == a * Pow2(n - 1) + b / 2 && x % 2 == b % 2;
      BitsJoin(a, b / 2, m, n - 1);
      assert m + n - 1 == m + (n - 1);
    }
  }

  lemma DivMod(x: nat, y: nat)
    requires y > 0
    ensures x == (x / y) * y + x % y && x % y < y
  {
    assert x == y * (x / y) + x % y;
    assert y * (x / y) == (x / y) * y;
  }

  lemma HalfModulo(v: nat, p: nat)
    requires p > 0
    ensures (v % (2 * p)) / 2 == (v / 2) % p && (v % (2 * p)) % 2 == v % 2
  {
    var q, r := v / (2 * p), v % (2 * p);
    DivMod(v, 2 * p);
    assert q * (2 * p) == 2 * (q * p);
    DivModIs(v / 2, p, q, r / 2);
  }

  /** Bits above the width do not matter. */
  lemma {:induction false} BitsModulo(v: nat, m: nat, n: nat)
    requires n <= m
    ensures Bits(v % Pow2(m), n) == Bits(v, n)
  {
    if n > 0 {
      HalfModulo(v, Pow2(m - 1));
      BitsModulo(v / 2, m - 1, n - 1);
    }
  }

  lemma Doubled(x: nat, y: nat)
    ensures x * (2 * y) == 2 * (x * y)
  {
  }

  lemma {:induction false} NumberJoin(s: seq<bool>, t: seq<bool>)
    ensures Number(s + t) == Number(s) * Pow2(|t|) + Number(t)
  {
    if t == [] {
      assert s + t == s;
    } else {
      var u := s + t;
      assert u[..|u| - 1] == s + t[..|t| - 1] && u[|u| - 1] == t[|t| - 1];
      NumberJoin(s, t[..|t| - 1]);
      hide Pow2;
      Doubled(Number(s), Pow2(|t| - 1));
    }
  }

  lemma {:induction false} BytesJoin(s: seq<byte>, t: seq<byte>)
    ensures BytesBits(s + t) == BytesBits(s) + BytesBits(t)
  {
    if t == [] {
      assert s + t == s;
    } else {
      var u := s + t;
      assert u[..|u| - 1] == s + t[..|t| - 1];
      BytesJoin(s, t[..|t| - 1]);
    }
  }

  lemma OneByte(b: byte)
    ensures BytesBits([b]) == Bits(b, 8)
  {
    assert [b][..0] == [];
  }

  lemma {:induction false} BytesAt(s: seq<byte>, i: nat)
    requires i < |s|
    ensures BytesBits(s)[8 * i..8 * i + 8] == Bits(s[i], 8)
  {
    hide BytesBits, Bits;
    Cut(s, i);
    BytesJoin(s[..i], [s[i]]);
    BytesJoin(s[..i + 1], s[i + 1..]);
    OneByte(s[i]);
    FieldBitsAt(BytesBits(s), BytesBits(s), BytesBits(s[..i]), Bits(s[i], 8));
  }

  /** The four bytes of a word, highest first. */
  function WordBytes(w: u32): seq<byte> {
    [w / 0x100_0000, w / 0x1_0000 % 0x100, w / 0x100 % 0x100, w % 0x100]
  }

  lemma PowValues()
    ensures Pow2(1) == 2 && Pow2(2) == 4 && Pow2(4) == 0x10 && Pow2(8) == 0x100 && Pow2(16) == 0x1_0000 && Pow2(24) == 0x100_0000
    ensures Pow2(32) == WORD
  {
    assert Pow2(4) == 16;
    PowAdds(4, 4);
    PowAdds(8, 8);
    PowAdds(16, 8);
    PowAdds(16, 16);
  }

  lemma LastByte(x: nat, n: nat)
    ensures Bits(x, n + 8) == Bits(x / 0x100, n) + Bits(x % 0x100, 8)
  {
    PowValues();
    BitsJoin(x / 0x100, x % 0x100, n, 8);
  }

  lemma WordBytesBits(w: u32)
    ensures BytesBits(WordBytes(w)) == Bits(w, 32)
  {
    var a, b, c, d := w / 0x100_0000, w / 0x1_0000 % 0x100, w / 0x100 % 0x100, w % 0x100;
    LastByte(w, 24);
    LastByte(w / 0x100, 16);
    LastByte(w / 0x1_0000, 8);
    assert w / 0x100 / 0x100 == w / 0x1_0000 && w / 0x1_0000 / 0x100 == a;
    hide Bits, BytesBits;
    OneByte(a);
    OneByte(b);
    OneByte(c);
    OneByte(d);
    BytesJoin([a], [b]);
    BytesJoin([a, b], [c]);
    BytesJoin([a, b, c], [d]);
    assert [a] + [b] == [a, b] && [a, b] + [c] == [a, b, c] && [a, b, c] + [d] == WordBytes(w);
  }

  /** The shifts of a 32-bit word. */
  function ShiftLeft(w: u32, n: nat): u32 { U32(w * Pow2(n)) }

  function ShiftRight(w: u32, n: nat): (r: u32)
    ensures r <= w
  {
    Smaller(w, Pow2(n));
    w / Pow2(n)
  }

  lemma Smaller(x: nat, y: nat)
    requires y > 0
    ensures 0 <= x / y <= x
  {
    DivMod(x, y);
    MulMono(1, y, x / y);
    assert y * (x / y) == (x / y) * y;
  }

  // ---------------------------------------------------------------- the writer

  /** PutBitContext. Of `bitBuf` only the low 32 - `bitLeft` bits are meant; those above them are left over. */
  class PutBitContext {
    const buf: array<byte>
    var bitBuf: u32
    var bitLeft: nat
    var bufPtr: nat

    ghost predicate Valid()
      reads this
    {
      1 <= bitLeft <= 32 && bufPtr <= buf.Length
    }

    /** The bits written so far. */
    ghost function View(): seq<bool>
      reads this, buf
      requires Valid()
    {
      BytesBits(buf[..bufPtr]) + Bits(bitBuf, 32 - bitLeft)
    }

    constructor (buf: array<byte>)
      ensures Valid() && View() == [] && this.buf == buf
    {
      this.buf := buf;
      bitBuf, bitLeft, bufPtr := 0, 32, 0;
    }

    /** `put_bits`. */
    method PutBits(n: nat, value: u32)
      requires Valid() && n < 32 && value < Pow2(n)
      requires |View()| + n <= 8 * buf.Length
      modifies this, buf
      ensures Valid() && View() == old(View()) + Bits(value, n)
    {
      hide Pow2, Bits, BytesBits, ShiftLeft, ShiftRight;
      ghost var view := View();
      if n < bitLeft {
        ShiftIn(bitBuf, value, 32 - bitLeft, n);
        bitBuf := ShiftLeft(bitBuf, n) + value;
        bitLeft := bitLeft - n;
      } else {
        Split(value, n, n - bitLeft);
        ShiftIn(bitBuf, ShiftRight(value, n - bitLeft), 32 - bitLeft, bitLeft);
        var word := ShiftLeft(bitBuf, bitLeft) + ShiftRight(value, n - bitLeft);
        WordBytesBits(word);
        ghost var before := buf[..bufPtr];
        StoreWord(word);
        BytesJoin(before, WordBytes(word));
        bitLeft := bitLeft + 32 - n;
        bitBuf := value;
      }
    }

    /** `flush_put_bits`: zeros fill up the last byte. */
    method Flush()
      requires Valid() && |View()| <= 8 * buf.Length
      modifies this, buf
      ensures Valid() && bitLeft == 32 && bufPtr == (|old(View())| + 7) / 8
      ensures View() == BytesBits(buf[..bufPtr]) == old(View()) + Zeros(8 * bufPtr - |old(View())|)
    {
      hide Pow2, Bits, BytesBits, ShiftLeft;
      ghost var view, added := View(), bitLeft;
      ShiftIn(bitBuf, 0, 32 - bitLeft, bitLeft) by { Pow2Positive(bitLeft); }
      ZeroBits(bitLeft);
      bitBuf := ShiftLeft(bitBuf, bitLeft);
      while bitLeft < 32
        invariant bufPtr <= buf.Length && 8 * bufPtr - bitLeft == 8 * old(bufPtr) - old(bitLeft)
        invariant old(bitLeft) <= bitLeft < 40 && added == bitLeft
        invariant BytesBits(buf[..bufPtr]) + Bits(bitBuf, 32) == view + Zeros(added)
        decreases 40 - bitLeft
      {
        ghost var before := buf[..bufPtr];
        TopByte(bitBuf);
        buf[bufPtr] := bitBuf / 0x100_0000;
        bufPtr := bufPtr + 1;
        assert buf[..bufPtr] == before + [bitBuf / 0x100_0000];
        BytesJoin(before, [bitBuf / 0x100_0000]);
        OneByte(bitBuf / 0x100_0000);
        MoveUp(BytesBits(before), Bits(bitBuf, 32), Bits(bitBuf / 0x100_0000, 8), Bits(ShiftLeft(bitBuf, 8), 32), view, added);
        bitBuf := ShiftLeft(bitBuf, 8);
        bitLeft := bitLeft + 8;
        added := added + 8;
      }
      PrefixOf(BytesBits(buf[..bufPtr]), Bits(bitBuf, 32), view, added);
      bitLeft, bitBuf := 32, 0;
      assert Bits(bitBuf, 0) == [];
    }

    /** `*(uint32_t *)s->buf_ptr = be2me_32(bit_buf)`. */
    method StoreWord(word: u32)
      requires Valid() && bufPtr + 4 <= buf.Length
      modifies this`bufPtr, buf
      ensures bufPtr == old(bufPtr) + 4 && buf[..bufPtr] == old(buf[..bufPtr]) + WordBytes(word)
    {
      buf[bufPtr], buf[bufPtr + 1] := word / 0x100_0000, word / 0x1_0000 % 0x100;
      buf[bufPtr + 2], buf[bufPtr + 3] := word / 0x100 % 0x100, word % 0x100;
      bufPtr := bufPtr + 4;
    }
  }

  function Zeros(n: nat): seq<bool> { seq(n, _ => false) }

  lemma {:induction false} ZeroBits(n: nat)
    ensures Bits(0, n) == Zeros(n)
  {
    if n > 0 { ZeroBits(n - 1); }
  }

  lemma MoveUp(bytes: seq<bool>, word: seq<bool>, top: seq<bool>, word': seq<bool>, view: seq<bool>, zeros: nat)
    requires bytes + word == view + Zeros(zeros) && word + Zeros(8) == top + word'
    ensures (bytes + top) + word' == view + Zeros(zeros + 8)
  {
    assert (bytes + top) + word' == bytes + (top + word');
    assert bytes + (word + Zeros(8)) == (bytes + word) + Zeros(8);
    assert Zeros(zeros) + Zeros(8) == Zeros(zeros + 8);
    assert (view + Zeros(zeros)) + Zeros(8) == view + (Zeros(zeros) + Zeros(8));
  }

  lemma Pow2Positive(n: nat)
    ensures 0 < Pow2(n)
  {
  }

  /** The highest byte is written, the others move up. */
  lemma TopByte(w: u32)
    ensures Bits(w, 32) + Zeros(8) == Bits(w / 0x100_0000, 8) + Bits(ShiftLeft(w, 8), 32)
  {
    hide Pow2, Bits, ShiftLeft;
    PowValues();
    ShiftIn(w, 0, 24, 8);
    ZeroBits(8);
    BitsJoin(w / 0x100_0000, w % 0x100_0000, 8, 24);
    BitsModulo(w, 24, 24);
  }

  lemma PrefixOf(bytes: seq<bool>, rest: seq<bool>, view: seq<bool>, zeros: nat)
    requires bytes + rest == view + Zeros(zeros) && |view| <= |bytes|
    ensures bytes == view + Zeros(|bytes| - |view|)
  {
    var whole := view + Zeros(zeros);
    assert bytes == (bytes + rest)[..|bytes|];
    assert whole[..|bytes|] == view + Zeros(|bytes| - |view|);
  }

  /** A field shifted in from the right; what falls out on the left was not meant. */
  lemma ShiftIn(w: u32, value: nat, k: nat, n: nat)
    requires value < Pow2(n) && k + n <= 32
    ensures ShiftLeft(w, n) + value < WORD
    ensures Bits(ShiftLeft(w, n) + value, k + n) == Bits(w, k) + Bits(value, n)
  {
    hide Pow2, Bits, ShiftLeft;
    NoCarry(w, value, n);
    PowValues();
    BitsJoin(w, value, k, n);
    BitsModulo(w * Pow2(n) + value, 32, k + n);
  }

  lemma NoCarry(w: u32, value: nat, n: nat)
    requires value < Pow2(n) && n <= 32
    ensures ShiftLeft(w, n) + value == (w * Pow2(n) + value) % WORD
  {
    PowValues();
    PowAdds(32 - n, n);
    NoCarryFor(w, Pow2(32 - n), Pow2(n), value);
  }

  lemma NoCarryFor(w: nat, m: nat, p: nat, v: nat)
    requires m > 0 && m * p == WORD && v < p
    ensures (w * p) % WORD + v == (w * p + v) % WORD
  {
    DivMod(w, m);
    NoCarryInts(w, w / m, w % m, m, p, v);
  }

  lemma NoCarryInts(w: nat, a: nat, t: nat, m: nat, p: nat, v: nat)
    requires w == a * m + t && t < m && m * p == WORD && v < p
    ensures (w * p) % WORD + v == (w * p + v) % WORD
  {
    assert w * p == a * WORD + t * p by {
      assert (a * m + t) * p == a * m * p + t * p;
      assert a * m * p == a * (m * p);
    }
    MulMono(t + 1, m, p);
    assert (t + 1) * p == t * p + p && t * p >= 0;
    DivModIs(w * p, WORD, a, t * p);
    DivModIs(w * p + v, WORD, a, t * p + v);
  }

  /** A field cut in two. */
  lemma Split(value: u32, n: nat, low: nat)
    requires value < Pow2(n) && low <= n
    ensures ShiftRight(value, low) < Pow2(n - low)
    ensures Bits(value, n) == Bits(ShiftRight(value, low), n - low) + Bits(value, low)
  {
    hide Pow2, Bits;
    var h, l := value / Pow2(low), value % Pow2(low);
    DivMod(value, Pow2(low));
    PowAdds(n - low, low);
    if h >= Pow2(n - low) { MulMono(Pow2(n - low), h, Pow2(low)); }
    BitsJoin(h, l, n - low, low);
    BitsModulo(value, low, low);
  }

  // ---------------------------------------------------------------- the reader

  lemma ReadMore(x: nat, b: nat, n: nat)
    requires b < Pow2(n) && n <= 32
    ensures ShiftLeft(U32(x), n) + b == U32(x * Pow2(n) + b)
  {
    hide Pow2;
    PowValues();
    PowAdds(32 - n, n);
    ReadMoreInts(x, b, Pow2(32 - n), Pow2(n));
  }

  lemma ReadMoreInts(x: nat, b: nat, m: nat, p: nat)
    requires b < p && m > 0 && m * p == WORD
    ensures (x % WORD * p) % WORD + b == (x * p + b) % WORD
  {
    NoCarryFor(x % WORD, m, p, b);
    DivMod(x, WORD);
    Distribute(x, x / WORD, x % WORD, p);
    LapsVanish(x * p + b, x % WORD * p + b, (x / WORD) * p, WORD);
  }

  lemma Distribute(x: nat, q: nat, r: nat, p: nat)
    requires x == q * WORD + r
    ensures x * p == (q * p) * WORD + r * p
  {
    assert (q * WORD + r) * p == (q * WORD) * p + r * p;
    assert (q * WORD) * p == (q * p) * WORD;
  }

  /** `get_field`: bytes at once where they are aligned, bits otherwise. */
  method GetField(d: seq<byte>, bits: nat, offset0: nat) returns (v: u32, offset: nat)
    requires offset0 + bits <= 8 * |d|
    ensures offset == offset0 + bits
    ensures v == U32(Number(BytesBits(d)[offset0..offset]))
  {
    hide Pow2, Bits, BytesBits, Number, ShiftLeft;
    v, offset := 0, offset0;
    ghost var all := BytesBits(d);
    NothingRead(all, offset);
    var i := 0;
    while i < bits
      invariant 0 <= i <= bits && offset == offset0 + i
      invariant v == U32(Number(all[offset0..offset]))
    {
      if bits - i >= 8 && offset % 8 == 0 {
        ReadByte(d, offset0, offset);
        v := ShiftLeft(v, 8) + d[offset / 8];
        i := i + 8;
        offset := offset + 8;
      } else {
        ReadBit(d, offset0, offset);
        v := ShiftLeft(v, 1) + BitAt(d[offset / 8], offset % 8);
        i := i + 1;
        offset := offset + 1;
      }
    }
  }

  /** `(b >> (7 - k)) & 1`. */
  function BitAt(b: byte, k: nat): nat
    requires k < 8
  {
    b / Pow2(7 - k) % 2
  }

  lemma NothingRead(all: seq<bool>, at: nat)
    requires at <= |all|
    ensures Number(all[at..at]) == 0
  {
  }

  lemma ReadByte(d: seq<byte>, from: nat, at: nat)
    requires from <= at && at % 8 == 0 && at + 8 <= 8 * |d|
    ensures ShiftLeft(U32(Number(BytesBits(d)[from..at])), 8) + d[at / 8] == U32(Number(BytesBits(d)[from..at + 8]))
  {
    hide Bits, BytesBits, Number, ShiftLeft, U32;
    var all := BytesBits(d);
    PowValues();
    BytesAt(d, at / 8);
    assert all[from..at + 8] == all[from..at] + all[at..at + 8];
    NumberJoin(all[from..at], all[at..at + 8]);
    NumberOfBits(d[at / 8], 8);
    ReadMore(Number(all[from..at]), d[at / 8], 8);
  }

  lemma ReadBit(d: seq<byte>, from: nat, at: nat)
    requires from <= at < 8 * |d|
    ensures BitAt(d[at / 8], at % 8) < 2
    ensures ShiftLeft(U32(Number(BytesBits(d)[from..at])), 1) + BitAt(d[at / 8], at % 8) == U32(Number(BytesBits(d)[from..at + 1]))
  {
    hide Bits, BytesBits, ShiftLeft, Number, BitAt, Pow2, U32;
    var all, b := BytesBits(d), d[at / 8];
    PowValues();
    BytesAt(d, at / 8);
    BitOfByte(b, at % 8);
    assert all[at] == all[8 * (at / 8)..8 * (at / 8) + 8][at % 8];
    SliceMore(all, from, at);
    NumberNext(all[from..at], all[at]);
    ReadMore(Number(all[from..at]), BitAt(b, at % 8), 1);
  }

  lemma SliceMore(all: seq<bool>, from: nat, at: nat)
    requires from <= at < |all|
    ensures all[from..at + 1] == all[from..at] + [all[at]]
  {
  }

  lemma NumberNext(s: seq<bool>, b: bool)
    ensures Number(s + [b]) == 2 * Number(s) + if b then 1 else 0
  {
    assert (s + [b])[..|s|] == s;
  }

  lemma BitOfByte(b: byte, k: nat)
    requires k < 8
    ensures BitAt(b, k) < 2 && Bits(b, 8)[k] == (BitAt(b, k) == 1)
  {
    BitOf(b, 8, k);
  }

  lemma {:induction false} BitOf(b: nat, n: nat, k: nat)
    requires k < n
    ensures Bits(b, n)[k] == (b / Pow2(n - 1 - k) % 2 == 1)
  {
    if k < n - 1 {
      BitOf(b / 2, n - 1, k);
      DivideTwice(b, Pow2(n - 2 - k));
    }
  }

  lemma DivideTwice(b: nat, p: nat)
    requires p > 0
    ensures b / 2 / p == b / (2 * p)
  {
    DivMod(b / 2, p);
    var q, r := b / 2 / p, b / 2 % p;
    assert q * (2 * p) == 2 * (q * p);
    DivModIs(b, 2 * p, q, 2 * r + b % 2);
  }

  // ---------------------------------------------------------------- fields written and read back

  datatype Field = Field(width: nat, value: nat)

  predicate Fits(f: Field) { f.width < 32 && f.value < Pow2(f.width) && f.value < WORD }

  function FieldBits(fs: seq<Field>): (b: seq<bool>) {
    if fs == [] then [] else FieldBits(fs[..|fs| - 1]) + Bits(fs[|fs| - 1].value, fs[|fs| - 1].width)
  }

  lemma FieldBitsNext(fs: seq<Field>, f: Field)
    ensures FieldBits(fs + [f]) == FieldBits(fs) + Bits(f.value, f.width)
  {
    assert (fs + [f])[..|fs|] == fs;
  }

  lemma {:induction false} FieldBitsJoin(s: seq<Field>, t: seq<Field>)
    ensures FieldBits(s + t) == FieldBits(s) + FieldBits(t)
  {
    if t == [] {
      assert s + t == s;
    } else {
      assert (s + t)[..|s + t| - 1] == s + t[..|t| - 1];
      FieldBitsJoin(s, t[..|t| - 1]);
    }
  }

  /** Whatever fields are written, reading the same widths gives the same values. */
  method WriteAndRead(fields: seq<Field>, buf: array<byte>) returns (values: seq<nat>)
    requires (forall f :: f in fields ==> Fits(f)) && |FieldBits(fields)| <= 8 * buf.Length
    modifies buf
    ensures |values| == |fields| && forall i :: 0 <= i < |fields| ==> values[i] == fields[i].value
  {
    hide Pow2, Bits, BytesBits, Number, FieldBits;
    var p := new PutBitContext(buf);
    NoFields(fields);
    for i := 0 to |fields|
      invariant fresh(p) && p.buf == buf && p.Valid() && p.View() == FieldBits(fields[..i])
    {
      FieldSplit(fields, i);
      p.PutBits(fields[i].width, fields[i].value);
    }
    assert fields[..|fields|] == fields;
    p.Flush();
    values := [];
    var offset := 0;
    var bytes := buf[..p.bufPtr];
    for i := 0 to |fields|
      invariant offset == |FieldBits(fields[..i])| && |values| == i
      invariant forall j :: 0 <= j < i ==> values[j] == fields[j].value
    {
      FieldSplit(fields, i);
      FieldBitsAt(BytesBits(bytes), FieldBits(fields), FieldBits(fields[..i]), Bits(fields[i].value, fields[i].width));
      var v;
      v, offset := GetField(bytes, fields[i].width, offset);
      values := values + [v];
    }
  }

  lemma FieldBitsAt(all: seq<bool>, written: seq<bool>, before: seq<bool>, bits: seq<bool>)
    requires written <= all && before + bits <= written
    ensures |before| + |bits| <= |all| && all[|before|..|before| + |bits|] == bits
  {
    assert all[..|before| + |bits|] == before + bits;
  }

  lemma Cut<T>(s: seq<T>, i: nat)
    requires i < |s|
    ensures s[..i + 1] == s[..i] + [s[i]] && s[..i + 1] + s[i + 1..] == s
  {
  }

  lemma NoFields(fields: seq<Field>)
    ensures FieldBits(fields[..0]) == []
  {
  }

  lemma FieldSplit(fields: seq<Field>, i: nat)
    requires i < |fields| && forall f :: f in fields ==> Fits(f)
    ensures Fits(fields[i]) && FieldBits(fields[..i + 1]) == FieldBits(fields[..i]) + Bits(fields[i].value, fields[i].width)
    ensures FieldBits(fields[..i + 1]) <= FieldBits(fields)
    ensures Number(Bits(fields[i].value, fields[i].width)) == fields[i].value
  {
    hide Pow2, Bits, Number, FieldBits;
    assert fields[i] in fields;
    Cut(fields, i);
    FieldBitsNext(fields[..i], fields[i]);
    FieldBitsJoin(fields[..i + 1], fields[i + 1..]);
    NumberOfBits(fields[i].value, fields[i].width);
  }
}
