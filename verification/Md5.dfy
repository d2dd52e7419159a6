/** Incremental MD5 (md5.c): however a message is cut up, the blocks that are hashed are those of the
    padded message (RFC 1321, sections 3.1 to 3.4). The transform of a block is a parameter. */
module Md5 {
  import opened Numbers

  /** The state after all blocks of `m`, from `s`. */
  function Hashed<S>(f: (S, seq<byte>) -> S, s: S, m: seq<byte>): S
    requires |m| % 64 == 0
  {
    if m == [] then s else f(Hashed(f, s, m[..|m| - 64]), m[|m| - 64..])
  }

  lemma HashedNext<S>(f: (S, seq<byte>) -> S, s: S, m: seq<byte>, b: seq<byte>)
    requires |m| % 64 == 0 && |b| == 64
    ensures |m + b| % 64 == 0 && Hashed(f, s, m + b) == f(Hashed(f, s, m), b)
  {
    assert (m + b)[..|m|] == m && (m + b)[|m|..] == b;
  }

  /** A 64-bit number, the low byte first. */
  function Bytes32(w: u32): seq<byte> { [w % 0x100, w / 0x100 % 0x100, w / 0x1_0000 % 0x100, w / 0x100_0000] }

  function Bytes64(n: nat): seq<byte> { Bytes32(n % WORD) + Bytes32(n / WORD % WORD) }

  function Zeros(n: nat): seq<byte> { seq(n, _ => 0) }

  /** Section 3.1: a 1 bit, then 0 bits up to 448 modulo 512. */
  function PadLength(n: nat): (k: nat)
    ensures (n + 1 + k) % 64 == 56 && k < 64
  {
    (119 - n % 64) % 64
  }

  /** Sections 3.1 and 3.2: the message, its padding and its length in bits modulo 2^64. */
  function Padded(m: seq<byte>): (p: seq<byte>)
    ensures |p| % 64 == 0
  {
    PaddedLength(|m|, PadLength(|m|));
    m + [0x80] + Zeros(PadLength(|m|)) + Bytes64(8 * |m|)
  }

  lemma PaddedLength(n: nat, k: nat)
    requires (n + 1 + k) % 64 == 56
    ensures (n + 1 + k + 8) % 64 == 0
  {
  }

  /** What bytes spell, the low byte first. */
  function LittleEndian(s: seq<byte>): nat {
    if s == [] then 0 else s[0] + 0x100 * LittleEndian(s[1..])
  }

  /** The padded message is the message, a byte 0x80, the fewest zeros that leave eight bytes of a block of 64, and in
      those the length in bits. */
  lemma PaddedIsRight(m: seq<byte>)
    ensures var p := Padded(m);
            && |p| % 64 == 0 && |m| + 9 <= |p| < |m| + 9 + 64
            && p[..|m|] == m && p[|m|] == 0x80 && (forall i :: |m| < i < |p| - 8 ==> p[i] == 0)
            && LittleEndian(p[|p| - 8..]) == 8 * |m| % 0x1_0000_0000_0000_0000
  {
    var p, n := Padded(m), 8 * |m|;
    assert p[|p| - 8..] == Bytes64(n);
    WordsSpelled(n % WORD, n / WORD % WORD);
    DivModIs(n, WORD * WORD, n / WORD / WORD, n / WORD % WORD * WORD + n % WORD);
  }

  lemma WordSpelled(w: u32, rest: seq<byte>)
    ensures LittleEndian(Bytes32(w) + rest) == w + WORD * LittleEndian(rest)
  {
    WordOfBytes(w);
    FourSpelled(w % 0x100, w / 0x100 % 0x100, w / 0x1_0000 % 0x100, w / 0x100_0000, rest);
  }

  lemma WordOfBytes(w: u32)
    ensures w == w % 0x100 + 0x100 * (w / 0x100 % 0x100) + 0x1_0000 * (w / 0x1_0000 % 0x100) + 0x100_0000 * (w / 0x100_0000)
  {
    assert w / 0x1_0000 == w / 0x100 / 0x100 && w / 0x100_0000 == w / 0x1_0000 / 0x100;
  }

  lemma FourSpelled(a: byte, b: byte, c: byte, d: byte, rest: seq<byte>)
    ensures LittleEndian([a, b, c, d] + rest) == a + 0x100 * b + 0x1_0000 * c + 0x100_0000 * d + WORD * LittleEndian(rest)
  {
    hide LittleEndian;
    assert [a, b, c, d] + rest == [a] + ([b] + ([c] + ([d] + rest)));
    ByteSpelled(a, [b] + ([c] + ([d] + rest)));
    ByteSpelled(b, [c] + ([d] + rest));
    ByteSpelled(c, [d] + rest);
    ByteSpelled(d, rest);
  }

  lemma ByteSpelled(a: byte, rest: seq<byte>)
    ensures LittleEndian([a] + rest) == a + 0x100 * LittleEndian(rest)
  {
    assert ([a] + rest)[1..] == rest;
  }

  lemma WordsSpelled(low: u32, high: u32)
    ensures LittleEndian(Bytes32(low) + Bytes32(high)) == low + WORD * high
  {
    hide Bytes32;
    WordSpelled(low, Bytes32(high));
    WordSpelled(high, []);
    assert Bytes32(high) + [] == Bytes32(high);
    assert LittleEndian([]) == 0;
  }

  /** The full blocks of a message, and what is left. */
  function Full(m: seq<byte>): (r: seq<byte>)
    ensures |r| % 64 == 0 && |r| <= |m|
  {
    m[..|m| - |m| % 64]
  }

  function Left(m: seq<byte>): (r: seq<byte>)
    ensures |r| == |m| % 64
  {
    m[|m| - |m| % 64..]
  }

  lemma FullAndLeft(m: seq<byte>, front: seq<byte>, back: seq<byte>)
    requires m == front + back && |front| % 64 == 0 && |back| < 64
    ensures Full(m) == front && Left(m) == back
  {
    assert |m| % 64 == |back|;
  }

  class MD5Context<S> {
    const transform: (S, seq<byte>) -> S
    const start: S
    var state: S
    var bits0: u32
    var bits1: u32
    const input: array<byte>

    /** The context after all of `m`. */
    ghost predicate Holds(m: seq<byte>)
      reads this, input
    {
      && input.Length == 64
      && state == Hashed(transform, start, Full(m))
      && input[..|m| % 64] == Left(m)
      && bits0 == 8 * |m| % WORD && bits1 == 8 * |m| / WORD % WORD
    }

    /** `MD5Init`. */
    constructor (transform: (S, seq<byte>) -> S, start: S)
      ensures Holds([]) && fresh(input) && this.transform == transform && this.start == start
    {
      this.transform, this.start, state := transform, start, start;
      bits0, bits1 := 0, 0;
      input := new byte[64];
    }

    /** The bit count is carried from the low word to the high word. */
    method CountBits(len: u32, ghost n: nat)
      requires bits0 == 8 * n % WORD && bits1 == 8 * n / WORD % WORD
      modifies this`bits0, this`bits1
      ensures bits0 == 8 * (n + len) % WORD && bits1 == 8 * (n + len) / WORD % WORD
    {
      hide U32;
      var t := bits0;
      CarryInWords(n, len, bits0, bits1);
      bits0 := U32(t + U32(len * 8));
      if bits0 < t { bits1 := U32(bits1 + 1); }
      bits1 := U32(bits1 + len / 0x2000_0000);
    }

    method Copy(at: nat, s: seq<byte>)
      requires at + |s| <= input.Length
      modifies input
      ensures input[..at + |s|] == old(input[..at]) + s
    {
      ghost var front := input[..at];
      for i := 0 to |s|
        invariant input[..at + i] == front + s[..i]
      {
        input[at + i] := s[i];
        assert input[..at + (i + 1)] == input[..at + i] + [s[i]];
      }
      assert s[..|s|] == s;
    }

    /** The buffer is filled up, and transformed. */
    method FillBlock(at: nat, s: seq<byte>, ghost done: seq<byte>, ghost front: seq<byte>)
      requires input.Length == 64 && at + |s| == 64 && |done| % 64 == 0
      requires input[..at] == front && state == Hashed(transform, start, done)
      modifies this`state, input
      ensures state == Hashed(transform, start, done + (front + s))
    {
      hide Hashed;
      Copy(at, s);
      assert input[..] == input[..64];
      HashedNext(transform, start, done, front + s);
      state := transform(state, input[..]);
    }

    /** Whole blocks, as long as there are any. */
    method TakeBlocks(buf: seq<byte>, ghost before: seq<byte>) returns (rest: seq<byte>, ghost done: seq<byte>)
      requires input.Length == 64 && |before| % 64 == 0 && state == Hashed(transform, start, before)
      modifies this`state, input
      ensures |rest| < 64 && |done| % 64 == 0 && done + rest == before + buf && state == Hashed(transform, start, done)
    {
      hide Hashed;
      rest, done := buf, before;
      while |rest| >= 64
        invariant |done| % 64 == 0 && done + rest == before + buf && state == Hashed(transform, start, done)
        decreases |rest|
      {
        FillBlock(0, rest[..64], done, []);
        assert [] + rest[..64] == rest[..64];
        assert done + rest == (done + rest[..64]) + rest[64..];
        done, rest := done + rest[..64], rest[64..];
      }
    }

    /** `MD5Update`. */
    method Update(buf: seq<byte>, ghost m: seq<byte>)
      requires Holds(m) && |buf| < WORD
      modifies this, input
      ensures Holds(m + buf)
    {
      hide Hashed, Full, Left, U32;
      var t := bits0;
      CountBits(|buf|, |m|);
      CountInBuffer(|m|);
      t := t / 8 % 64;
      ghost var done := Full(m);
      var rest := buf;
      SplitMessage(m);
      if t != 0 {
        var room := 64 - t;
        if |rest| < room {
          Copy(t, rest);
          Appended(m, buf);
          return;
        }
        FillBlock(t, rest[..room], done, Left(m));
        done := done + (Left(m) + rest[..room]);
        rest := rest[room..];
        Refilled(m, buf, done, room);
      } else {
        assert m + buf == done + rest;
      }
      rest, done := TakeBlocks(rest, done);
      Copy(0, rest);
      FullAndLeft(m + buf, done, rest);
    }

    /** `MD5Final`, up to the digest: the state after the padded message. */
    method Final(ghost m: seq<byte>) returns (digest: S)
      requires Holds(m)
      modifies this`state, input
      ensures digest == Hashed(transform, start, Padded(m))
    {
      hide Hashed, Padded, Full, Left;
      CountInBuffer(|m|);
      ghost var done, front := PadOut(bits0 / 8 % 64, m);
      LengthBytes(bits0, bits1, |m|);
      Copy(56, Bytes32(bits0));
      Copy(60, Bytes32(bits1));
      assert input[..] == input[..64];
      assert front + Bytes32(bits0) + Bytes32(bits1) == front + Bytes64(8 * |m|);
      HashedNext(transform, start, done, front + Bytes64(8 * |m|));
      state := transform(state, input[..]);
      digest := state;
    }

    /** The 1 bit and the 0 bits; when the length does not fit behind them, they fill a block of their own. */
    method PadOut(used: nat, ghost m: seq<byte>) returns (ghost done: seq<byte>, ghost front: seq<byte>)
      requires Holds(m) && used == |m| % 64
      modifies this`state, input
      ensures |done| % 64 == 0 && state == Hashed(transform, start, done)
      ensures |front| == 56 && input[..56] == front && Padded(m) == done + (front + Bytes64(8 * |m|))
    {
      hide Hashed, Padded, Full, Left;
      done := Full(m);
      Copy(used, [0x80]);
      var count := 63 - used;
      if count < 8 {
        ghost var block := Left(m) + [0x80] + Zeros(count);
        FillBlock(used + 1, Zeros(count), done, Left(m) + [0x80]);
        Copy(0, Zeros(56));
        PaddedInTwo(m, count);
        done, front := done + block, Zeros(56);
        assert input[..56] == Zeros(56);
      } else {
        Copy(used + 1, Zeros(count - 8));
        front := Left(m) + [0x80] + Zeros(count - 8);
        PaddedInOne(m, count);
      }
    }
  }

  lemma CarryInWords(n: nat, len: u32, bits0: u32, bits1: u32)
    requires bits0 == 8 * n % WORD && bits1 == 8 * n / WORD % WORD
    ensures var b := U32(bits0 + U32(len * 8));
            && b == 8 * (n + len) % WORD
            && U32((if b < bits0 then U32(bits1 + 1) else bits1) + len / 0x2000_0000) == 8 * (n + len) / WORD % WORD
  {
    CarryIsRight(n, len);
  }

  lemma CarryIsRight(n: nat, len: u32)
    ensures var t, x := 8 * n % WORD, len * 8 % WORD;
            && (t + x) % WORD == 8 * (n + len) % WORD
            && 8 * (n + len) / WORD % WORD
               == (((8 * n / WORD % WORD) + if (t + x) % WORD < t then 1 else 0) % WORD + len / 0x2000_0000) % WORD
  {
    var q, t, h, x := 8 * n / WORD, 8 * n % WORD, len / 0x2000_0000, len * 8 % WORD;
    assert len * 8 == WORD * h + x;
    var c := if t + x >= WORD then 1 else 0;
    DivModIs(t + x, WORD, c, t + x - WORD * c);
    DivModIs(8 * (n + len), WORD, q + h + c, t + x - WORD * c);
    SumModulo(q, c, h);
  }

  lemma SumModulo(q: nat, c: nat, h: nat)
    ensures ((q % WORD + c) % WORD + h) % WORD == (q + h + c) % WORD
  {
    var a := q % WORD + c;
    assert q + h + c == WORD * (q / WORD) + (a + h) && a == WORD * (a / WORD) + a % WORD;
    LapsVanish(q + h + c, a + h, q / WORD, WORD);
    LapsVanish(a + h, a % WORD + h, a / WORD, WORD);
  }

  lemma CountInBuffer(n: nat)
    ensures 8 * n % WORD / 8 % 64 == n % 64
  {
  }

  lemma SplitMessage(m: seq<byte>)
    ensures |Full(m)| % 64 == 0 && Full(m) + Left(m) == m && (|m| % 64 == 0 ==> Full(m) == m && Left(m) == [])
  {
  }

  lemma Appended(m: seq<byte>, buf: seq<byte>)
    requires |m| % 64 + |buf| < 64
    ensures Full(m + buf) == Full(m) && Left(m + buf) == Left(m) + buf && |m + buf| % 64 == |m| % 64 + |buf|
  {
    assert m + buf == Full(m) + (Left(m) + buf);
    FullAndLeft(m + buf, Full(m), Left(m) + buf);
  }

  lemma Refilled(m: seq<byte>, buf: seq<byte>, done: seq<byte>, room: nat)
    requires room <= |buf| && |m| % 64 + room == 64 && done == Full(m) + (Left(m) + buf[..room])
    ensures |done| % 64 == 0 && m + buf == done + buf[room..]
  {
    SplitMessage(m);
    OneBlockMore(|Full(m)|);
    assert buf == buf[..room] + buf[room..];
    assert Full(m) + Left(m) + (buf[..room] + buf[room..]) == Full(m) + (Left(m) + buf[..room]) + buf[room..];
  }

  lemma OneBlockMore(n: nat)
    requires n % 64 == 0
    ensures (n + 64) % 64 == 0
  {
  }

  lemma LengthBytes(bits0: u32, bits1: u32, n: nat)
    requires bits0 == 8 * n % WORD && bits1 == 8 * n / WORD % WORD
    ensures Bytes64(8 * n) == Bytes32(bits0) + Bytes32(bits1)
  {
  }

  /** The padding fits the last block. */
  lemma PaddedInOne(m: seq<byte>, count: nat)
    requires count == 63 - |m| % 64 && count >= 8
    ensures Padded(m) == Full(m) + (Left(m) + [0x80] + Zeros(count - 8) + Bytes64(8 * |m|))
  {
    assert PadLength(|m|) == count - 8;
    SplitMessage(m);
  }

  /** It takes one block more. */
  lemma PaddedInTwo(m: seq<byte>, count: nat)
    requires count == 63 - |m| % 64 && count < 8
    ensures Padded(m) == (Full(m) + (Left(m) + [0x80] + Zeros(count))) + (Zeros(56) + Bytes64(8 * |m|))
  {
    assert PadLength(|m|) == count + 56;
    assert Zeros(count + 56) == Zeros(count) + Zeros(56);
    SplitMessage(m);
  }

  /** Two ways to cut a message give the same digest: both are that of the padded message. */
  method DigestOfPieces<S>(transform: (S, seq<byte>) -> S, start: S, pieces: seq<seq<byte>>) returns (digest: S)
    requires forall p :: p in pieces ==> |p| < WORD
    ensures digest == Hashed(transform, start, Padded(Joined(pieces)))
  {
    hide Hashed, Padded, Joined, MD5Context.Holds;
    NothingJoined(pieces);
    var context := new MD5Context(transform, start);
    for i := 0 to |pieces|
      invariant context.Holds(Joined(pieces[..i])) && fresh(context) && fresh(context.input)
      invariant context.transform == transform && context.start == start
    {
      JoinedNext(pieces, i);
      context.Update(pieces[i], Joined(pieces[..i]));
    }
    assert pieces[..|pieces|] == pieces;
    digest := context.Final(Joined(pieces));
  }

  lemma NothingJoined(pieces: seq<seq<byte>>)
    ensures Joined(pieces[..0]) == []
  {
  }

  lemma JoinedNext(pieces: seq<seq<byte>>, i: nat)
    requires i < |pieces|
    ensures Joined(pieces[..i + 1]) == Joined(pieces[..i]) + pieces[i]
  {
    assert pieces[..i + 1][..i] == pieces[..i];
  }
}
