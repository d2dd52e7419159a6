/** Base64 requests that arrive in pieces (tcp.c): `unbase64` decodes in place, and the characters of an
    unfinished group stay in the buffer, as they came, until more arrive. */
module Base64 {
  import opened Numbers

  const PAD: byte := 0x3D    // '='

  /** The table `base64`: the value of a character, -1 for one that is skipped. */
  function Code(c: byte): (v: int)
    ensures -1 <= v < 64
  {
    if 0x41 <= c <= 0x5A then c - 0x41
    else if 0x61 <= c <= 0x7A then c - 0x61 + 26
    else if 0x30 <= c <= 0x39 then c - 0x30 + 52
    else if c == 0x2B then 62
    else if c == 0x2F then 63
    else if c == PAD then 0
    else -1
  }

  /** The characters that count. */
  function Filter(s: seq<byte>): (r: seq<byte>)
    ensures |r| <= |s|
  {
    if s == [] then [] else Filter(s[..|s| - 1]) + if Code(s[|s| - 1]) < 0 then [] else [s[|s| - 1]]
  }

  lemma {:induction false} FilterCounts(s: seq<byte>)
    ensures forall c :: c in Filter(s) ==> Code(c) >= 0
  {
    if s != [] { FilterCounts(s[..|s| - 1]); }
  }

  lemma {:induction false} FilterJoin(s: seq<byte>, t: seq<byte>)
    ensures Filter(s + t) == Filter(s) + Filter(t)
  {
    if t == [] {
      assert s + t == s;
    } else {
      assert (s + t)[..|s + t| - 1] == s + t[..|t| - 1];
      FilterJoin(s, t[..|t| - 1]);
    }
  }

  lemma {:induction false} FilterKeeps(s: seq<byte>)
    requires forall c :: c in s ==> Code(c) >= 0
    ensures Filter(s) == s
  {
    if s != [] {
      assert s[|s| - 1] in s;
      FilterKeeps(s[..|s| - 1]);
    }
  }

  function Value(c: byte): (v: nat)
    ensures v < 64
  {
    if Code(c) < 0 then 0 else Code(c)
  }

  /** The three bytes that four characters make. */
  function Bytes(e: seq<byte>): (b: (byte, byte, byte))
    requires |e| == 4
  {
    var v0, v1, v2, v3 := Value(e[0]), Value(e[1]), Value(e[2]), Value(e[3]);
    (v0 * 4 + v1 / 16, v1 % 16 * 16 + v2 / 4, v2 % 4 * 64 + v3)
  }

  /** What one group of four characters stands for. */
  function Decoded(e: seq<byte>): (r: seq<byte>)
    requires |e| == 4
    ensures 1 <= |r| <= 3
  {
    var b := Bytes(e);
    if e[3] != PAD then [b.0, b.1, b.2] else if e[2] != PAD then [b.0, b.1] else [b.0]
  }

  /** All full groups, in order. */
  function Decode(s: seq<byte>): seq<byte> {
    if |s| < 4 then [] else Decoded(s[..4]) + Decode(s[4..])
  }

  /** The characters of the last group, when it is not full. */
  function Rest(s: seq<byte>): (r: seq<byte>)
    ensures |r| < 4 && |r| <= |s|
  {
    s[|s| - |s| % 4..]
  }

  lemma {:induction false} DecodeJoin(s: seq<byte>, t: seq<byte>)
    requires |s| % 4 == 0
    ensures Decode(s + t) == Decode(s) + Decode(t)
    decreases |s|
  {
    hide Decoded;
    if s == [] {
      assert s + t == t;
    } else {
      DecodeJoin(s[4..], t);
      assert (s + t)[..4] == s[..4] && (s + t)[4..] == s[4..] + t;
    }
  }

  lemma RestJoin(s: seq<byte>, t: seq<byte>)
    requires |s| % 4 == 0
    ensures Rest(s + t) == Rest(t)
  {
    assert |s + t| % 4 == |t| % 4;
  }

  lemma ShortRest(t: seq<byte>)
    requires |t| < 4
    ensures Rest(t) == t && Decode(t) == []
  {
    hide Decode;
    SmallRemainder(|t|);
    assert t[0..] == t;
    assert Decode(t) == [] by { ShortDecode(t); }
  }

  lemma SmallRemainder(n: nat)
    requires n < 4
    ensures n % 4 == n
  {
  }

  lemma ShortDecode(t: seq<byte>)
    requires |t| < 4
    ensures Decode(t) == []
  {
  }

  function Whole(s: seq<byte>): (r: seq<byte>)
    ensures |r| % 4 == 0 && r + Rest(s) == s
  {
    s[..|s| - |s| % 4]
  }

  /** Decoding may stop after any character and go on with what was left over. */
  lemma DecodeInPieces(s: seq<byte>, t: seq<byte>)
    ensures Decode(s + t) == Decode(s) + Decode(Rest(s) + t)
    ensures Rest(s + t) == Rest(Rest(s) + t)
  {
    hide Decode, Rest, Whole;
    assert s + t == Whole(s) + (Rest(s) + t);
    DecodeJoin(Whole(s), Rest(s) + t);
    DecodeJoin(Whole(s), Rest(s));
    RestJoin(Whole(s), Rest(s) + t);
    ShortRest(Rest(s));
  }

  lemma DecodeNext(s: seq<byte>, e: seq<byte>)
    requires |s| % 4 == 0 && |e| == 4
    ensures Decode(s + e) == Decode(s) + Decoded(e)
  {
    DecodeJoin(s, e);
    assert e[..4] == e && e[4..] == [];
  }

  // ---------------------------------------------------------------- decoding in place

  /** `unbase64`, on `len` bytes from `d`: what is decoded, then the `remain` characters left over, replace
      them; nothing is written beyond what was read. */
  method Unbase64(buf: array<byte>, d: nat, len: nat) returns (n: nat, remain: nat)
    requires d + len <= buf.Length
    modifies buf
    ensures n <= len && remain < 4
    ensures var s := Filter(old(buf[d..d + len]));
            buf[d..d + n] == Decode(s) + Rest(s) && remain == |Rest(s)| && n == |Decode(s)| + remain
    ensures forall x :: 0 <= x < d || d + len <= x < buf.Length ==> buf[x] == old(buf[x])
  {
    hide Filter, Decode, Decoded, Rest;
    ghost var text := buf[d..d + len];
    ghost var done: seq<byte> := [];      // the characters of the groups decoded so far
    ghost var k := 0;
    var src, dest := 0, 0;
    NothingYet(text);
    while true
      invariant |done| == 4 * k <= src <= len && dest <= 3 * k
      invariant Filter(text[..src]) == done && dest == |Decode(done)|
      invariant buf[d..d + dest] == Decode(done)
      invariant forall x :: 0 <= x < d || d + src <= x < buf.Length ==> buf[x] == old(buf[x])
      decreases len - src
    {
      var enc, src' := ReadGroup(buf, d, src, len, text);
      if |enc| < 4 {
        Leftover(text, done, enc);
        CopyBehind(buf, d, dest, enc);
        return dest + |enc|, |enc|;
      }
      FullGroup(text, src', done, enc);
      dest := WriteGroup(buf, d, dest, enc);
      done, src, k := done + enc, src', k + 1;
    }
  }

  /** The next four characters that count, or as many as there are. */
  method ReadGroup(buf: array<byte>, d: nat, src: nat, len: nat, ghost text: seq<byte>) returns (enc: seq<byte>, src': nat)
    requires src <= len && d + len <= buf.Length && |text| == len
    requires forall x :: src <= x < len ==> buf[d + x] == text[x]
    ensures |enc| <= 4 && src + |enc| <= src' <= len && (|enc| < 4 ==> src' == len)
    ensures Filter(text[..src']) == Filter(text[..src]) + enc
  {
    hide Filter, Code;
    enc, src' := [], src;
    while |enc| < 4
      invariant |enc| <= 4 && src + |enc| <= src' <= len
      invariant Filter(text[..src']) == Filter(text[..src]) + enc
      decreases len - src'
    {
      if src' >= len { return; }
      NextCharacter(text, src');
      if Code(buf[d + src']) >= 0 { enc := enc + [buf[d + src']]; }
      src' := src' + 1;
    }
  }

  /** The characters left over, behind what is decoded. */
  method CopyBehind(buf: array<byte>, d: nat, dest: nat, enc: seq<byte>)
    requires d + dest + |enc| <= buf.Length
    modifies buf
    ensures buf[d..d + (dest + |enc|)] == old(buf[d..d + dest]) + enc
    ensures forall x :: 0 <= x < d || d + dest + |enc| <= x < buf.Length ==> buf[x] == old(buf[x])
  {
    ghost var front := buf[d..d + dest];
    CopyIn(buf, d + dest, enc);
    Beside(buf, d, dest, |enc|, front, enc);
  }

  /** A group is decoded behind what is there; of the three bytes written, those up to `dest'` count. */
  method WriteGroup(buf: array<byte>, d: nat, dest: nat, enc: seq<byte>) returns (dest': nat)
    requires |enc| == 4 && d + dest + 3 <= buf.Length
    modifies buf
    ensures dest' == dest + |Decoded(enc)| && buf[d..d + dest'] == old(buf[d..d + dest]) + Decoded(enc)
    ensures forall x :: 0 <= x < d || d + dest + 3 <= x < buf.Length ==> buf[x] == old(buf[x])
  {
    hide Value;
    ghost var front := buf[d..d + dest];
    var at := d + dest;
    var v0, v1, v2, v3 := Value(enc[0]), Value(enc[1]), Value(enc[2]), Value(enc[3]);
    buf[at], buf[at + 1], buf[at + 2] := v0 * 4 + v1 / 16, v1 % 16 * 16 + v2 / 4, v2 % 4 * 64 + v3;
    if enc[3] == PAD {
      if enc[2] == PAD { dest' := dest + 1; } else { dest' := dest + 2; }
    } else {
      dest' := dest + 3;
    }
    assert buf[at..d + dest'] == Decoded(enc);
    Beside(buf, d, dest, dest' - dest, front, Decoded(enc));
  }

  lemma Beside(buf: array<byte>, d: nat, n: nat, m: nat, front: seq<byte>, back: seq<byte>)
    requires d + n + m <= buf.Length && buf[d..d + n] == front && buf[d + n..d + n + m] == back
    ensures buf[d..d + (n + m)] == front + back
  {
  }

  /** `memcpy`. */
  method CopyIn(buf: array<byte>, at: nat, s: seq<byte>)
    requires at + |s| <= buf.Length
    modifies buf
    ensures buf[at..at + |s|] == s
    ensures forall x :: 0 <= x < at || at + |s| <= x < buf.Length ==> buf[x] == old(buf[x])
  {
    for i := 0 to |s|
      invariant forall k :: 0 <= k < i ==> buf[at + k] == s[k]
      invariant forall x :: 0 <= x < at || at + i <= x < buf.Length ==> buf[x] == old(buf[x])
    {
      buf[at + i] := s[i];
    }
  }

  lemma NothingYet(text: seq<byte>)
    ensures Filter(text[..0]) == [] && Decode([]) == []
  {
  }

  lemma NextCharacter(text: seq<byte>, i: nat)
    requires i < |text|
    ensures Filter(text[..i + 1]) == Filter(text[..i]) + if Code(text[i]) < 0 then [] else [text[i]]
  {
    assert text[..i + 1][..i] == text[..i];
  }

  lemma Leftover(text: seq<byte>, done: seq<byte>, enc: seq<byte>)
    requires |done| % 4 == 0 && |enc| < 4 && Filter(text[..|text|]) == done + enc
    ensures Filter(text) == done + enc && Rest(Filter(text)) == enc && Decode(Filter(text)) == Decode(done)
  {
    hide Decode, Rest, Filter;
    assert text[..|text|] == text;
    DecodeJoin(done, enc);
    RestJoin(done, enc);
    ShortRest(enc);
  }

  lemma FullGroup(text: seq<byte>, src: nat, done: seq<byte>, enc: seq<byte>)
    requires src <= |text| && |done| % 4 == 0 && |enc| == 4 && Filter(text[..src]) == done + enc
    ensures Decode(done + enc) == Decode(done) + Decoded(enc)
  {
    DecodeNext(done, enc);
  }

  // ---------------------------------------------------------------- a connection that sends base64

  /** What is decoded of a text, and the characters left over. */
  function Seen(text: seq<byte>): seq<byte> { Decode(Filter(text)) + Rest(Filter(text)) }

  class Connection {
    const reqBuf: array<byte>
    var reqLen: nat
    var base64Count: nat

    /** The buffer when all of `text` is received. */
    ghost predicate Received(text: seq<byte>)
      reads this, reqBuf
    {
      && base64Count == |Rest(Filter(text))| <= reqLen <= reqBuf.Length
      && reqBuf[..reqLen] == Seen(text)
    }

    constructor (size: nat)
      ensures Received([]) && fresh(reqBuf) && reqBuf.Length == size
    {
      reqBuf := new byte[size];
      reqLen, base64Count := 0, 0;
    }

    /** `do_read`: a piece is read behind what is there, and decoded with the characters left over. */
    method Receive(ghost text: seq<byte>, piece: seq<byte>)
      requires Received(text) && reqLen + |piece| <= reqBuf.Length
      modifies this, reqBuf
      ensures Received(text + piece)
    {
      hide Filter, Decode, Rest, Seen;
      ghost var bytes, rest := Decode(Filter(text)), Rest(Filter(text));
      SeenIs(text);
      ReadPiece(piece, bytes, rest);
      reqLen := reqLen - base64Count;
      var n;
      n, base64Count := Unbase64(reqBuf, reqLen, |piece| + base64Count);
      PieceDecoded(text, piece);
      Beside(reqBuf, 0, reqLen, n, bytes, reqBuf[reqLen..reqLen + n]);
      reqLen := reqLen + n;
    }

    /** `read`, behind what is there. */
    method ReadPiece(piece: seq<byte>, ghost bytes: seq<byte>, ghost rest: seq<byte>)
      requires reqLen + |piece| <= reqBuf.Length && reqBuf[..reqLen] == bytes + rest
      modifies reqBuf
      ensures reqBuf[0..|bytes|] == bytes && reqBuf[|bytes|..|bytes| + (|piece| + |rest|)] == rest + piece
    {
      ghost var before := reqBuf[..reqLen];
      CopyIn(reqBuf, reqLen, piece);
      assert reqBuf[..reqLen] == before;
      Pieces(reqBuf[..], bytes, rest, piece);
    }
  }

  lemma SeenIs(text: seq<byte>)
    ensures Seen(text) == Decode(Filter(text)) + Rest(Filter(text))
  {
  }

  lemma Pieces(all: seq<byte>, bytes: seq<byte>, rest: seq<byte>, piece: seq<byte>)
    requires var n := |bytes| + |rest|; n + |piece| <= |all| && all[..n] == bytes + rest && all[n..n + |piece|] == piece
    ensures all[..|bytes|] == bytes && all[|bytes|..|bytes| + (|piece| + |rest|)] == rest + piece
  {
    assert bytes == (bytes + rest)[..|bytes|];
    assert all[|bytes|..|bytes| + |rest|] == (bytes + rest)[|bytes|..];
  }

  lemma PieceDecoded(text: seq<byte>, piece: seq<byte>)
    ensures var s := Filter(Rest(Filter(text)) + piece);
            && Seen(text + piece) == Decode(Filter(text)) + (Decode(s) + Rest(s))
            && Rest(Filter(text + piece)) == Rest(s)
  {
    hide Filter, Decode, Rest, Code;
    var rest := Rest(Filter(text));
    FilterJoin(text, piece);
    FilterJoin(rest, piece);
    FilterCounts(text);
    RestCounts(Filter(text));
    FilterKeeps(rest);
    DecodeInPieces(Filter(text), Filter(piece));
  }

  lemma RestCounts(s: seq<byte>)
    requires forall c :: c in s ==> Code(c) >= 0
    ensures forall c :: c in Rest(s) ==> Code(c) >= 0
  {
  }

  // ---------------------------------------------------------------- the encoding it undoes

  /** The alphabet of section 4 of RFC 4648. */
  function Letter(v: nat): byte
    requires v < 64
  {
    if v < 26 then 0x41 + v else if v < 52 then 0x61 + v - 26 else if v < 62 then 0x30 + v - 52 else if v == 62 then 0x2B else 0x2F
  }

  lemma LetterHasValue(v: nat)
    requires v < 64
    ensures Value(Letter(v)) == v && Code(Letter(v)) >= 0 && Letter(v) != PAD
  {
  }

  function Encode(s: seq<byte>): seq<byte> {
    if s == [] then []
    else if |s| == 1 then [Letter(s[0] / 4), Letter(s[0] % 4 * 16), PAD, PAD]
    else if |s| == 2 then [Letter(s[0] / 4), Letter(s[0] % 4 * 16 + s[1] / 16), Letter(s[1] % 16 * 4), PAD]
    else [Letter(s[0] / 4), Letter(s[0] % 4 * 16 + s[1] / 16), Letter(s[1] % 16 * 4 + s[2] / 64), Letter(s[2] % 64)] + Encode(s[3..])
  }

  lemma GroupUndone(a: byte, b: byte, c: byte)
    ensures Decoded([Letter(a / 4), Letter(a % 4 * 16 + b / 16), Letter(b % 16 * 4 + c / 64), Letter(c % 64)]) == [a, b, c]
    ensures Decoded([Letter(a / 4), Letter(a % 4 * 16 + b / 16), Letter(b % 16 * 4), PAD]) == [a, b]
    ensures Decoded([Letter(a / 4), Letter(a % 4 * 16), PAD, PAD]) == [a]
  {
    LetterHasValue(a / 4);
    LetterHasValue(a % 4 * 16 + b / 16);
    LetterHasValue(b % 16 * 4 + c / 64);
    LetterHasValue(c % 64);
    LetterHasValue(b % 16 * 4);
    LetterHasValue(a % 4 * 16);
    assert Value(PAD) == 0;
    hide Letter, Value;
    SixesMakeEights(a, b, c);
    SixesMakeEights(a, b, 0);
    SixesMakeEights(a, 0, 0);
  }

  lemma SixesMakeEights(a: byte, b: byte, c: byte)
    ensures (a / 4) * 4 + (a % 4 * 16 + b / 16) / 16 == a
    ensures (a % 4 * 16 + b / 16) % 16 * 16 + (b % 16 * 4 + c / 64) / 4 == b
    ensures (b % 16 * 4 + c / 64) % 4 * 64 + c % 64 == c
  {
  }

  /** Whatever else stands between the characters of an encoding, decoding gives the bytes back, with
      nothing left over. */
  lemma {:induction false} DecodeUndoesEncode(s: seq<byte>, text: seq<byte>)
    requires Filter(text) == Encode(s)
    ensures Decode(Filter(text)) == s && Rest(Filter(text)) == []
  {
    EncodeUndone(s);
  }

  lemma {:induction false} EncodeUndone(s: seq<byte>)
    ensures Decode(Encode(s)) == s && |Encode(s)| % 4 == 0
  {
    hide Decoded, Letter, Decode;
    if |s| >= 3 {
      var g := [Letter(s[0] / 4), Letter(s[0] % 4 * 16 + s[1] / 16), Letter(s[1] % 16 * 4 + s[2] / 64), Letter(s[2] % 64)];
      assert Encode(s) == g + Encode(s[3..]);
      GroupUndone(s[0], s[1], s[2]);
      EncodeUndone(s[3..]);
      DecodeJoin(g, Encode(s[3..]));
      OneGroup(g);
      assert s == [s[0], s[1], s[2]] + s[3..];
    } else if |s| > 0 {
      GroupUndone(s[0], if |s| > 1 then s[1] else 0, 0);
      OneGroup(Encode(s));
    } else {
      ShortRest([]);
    }
  }

  lemma OneGroup(g: seq<byte>)
    requires |g| == 4
    ensures Decode(g) == Decoded(g)
  {
    hide Decoded;
    DecodeNext([], g);
    assert [] + g == g;
  }
}
