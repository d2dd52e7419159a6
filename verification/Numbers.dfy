/** Machine integers as ranges of `int`, and the arithmetic on numbers and bytes that several modules need. */
module Numbers {

  type byte = x: int | 0 <= x < 256
  type u16 = x: int | 0 <= x < 0x1_0000
  type u32 = x: int | 0 <= x < 0x1_0000_0000

  const WORD: int := 0x1_0000_0000  // 2^32

  function U16(x: int): u16 { x % 0x1_0000 }

  function U32(x: int): u32 { x % WORD }

  function Joined(pieces: seq<seq<byte>>): seq<byte> {
    if pieces == [] then [] else Joined(pieces[..|pieces| - 1]) + pieces[|pieces| - 1]
  }

  function Min(a: int, b: int): int { if a < b then a else b }

  function Max(a: int, b: int): int { if a > b then a else b }

  lemma MulMono(a: int, b: int, c: nat)
    requires a <= b
    ensures a * c <= b * c
  {
  }

  lemma Spread(a: int, x: int, y: int)
    ensures a * (x + y) == a * x + a * y
  {
  }

  lemma DivideBack(x: int, y: nat)
    requires y > 0
    ensures (x / y) * y <= x < (x / y) * y + y == (x / y + 1) * y
    ensures x >= 0 ==> 0 <= x / y && 0 <= (x / y) * y
  {
    assert x == y * (x / y) + x % y;
    assert y * (x / y) == (x / y) * y;
    if x >= 0 && x / y < 0 { MulMono(x / y, -1, y); }
  }

  /** A quotient and a remainder are known by what they add up to. */
  lemma DivModIs(x: int, y: nat, q: int, r: nat)
    requires x == q * y + r && r < y
    ensures x / y == q && x % y == r
  {
    var d := q - x / y;
    assert x == y * (x / y) + x % y;
    assert y * (x / y) == (x / y) * y && d * y == q * y - (x / y) * y;
    if d > 0 { MulMono(1, d, y); }
    if d < 0 { MulMono(d, -1, y); }
  }

  lemma LapsVanish(x: int, y: int, q: int, n: nat)
    requires n > 0 && x == q * n + y
    ensures x % n == y % n
  {
    assert y == n * (y / n) + y % n;
    Spread(n, q, y / n);
    DivModIs(x, n, q + y / n, y % n);
  }
}
