/** Which scale factors of a subband are sent, the end of `compute_scale_factors` (mpegaudio.c). */
module Mp2ScaleFactors {
  import opened Numbers

  /** `scale_diff_table`: how far one factor is from the next. */
  function DiffClass(d: int): nat {
    if d <= -3 then 0 else if d < 0 then 1 else if d == 0 then 2 else if d < 3 then 3 else 4
  }

  /** What `encode_frame` sends for a code. */
  function Sent(code: nat, s: seq<nat>): seq<nat>
    requires |s| == 3
  {
    if code == 0 then s else if code == 2 then [s[0]] else [s[0], s[2]]
  }

  /** What a decoder makes of it (scfsi, ISO/IEC 11172-3, 2.4.2.7): code 1 repeats the first factor, code 3
      the second one, code 2 has only one. */
  function Restored(code: nat, sent: seq<nat>): seq<nat> {
    if code == 0 && |sent| == 3 then sent
    else if code == 1 && |sent| == 2 then [sent[0], sent[0], sent[1]]
    else if code == 2 && |sent| == 1 then [sent[0], sent[0], sent[0]]
    else if code == 3 && |sent| == 2 then [sent[0], sent[1], sent[1]]
    else []
  }

  /** Two factors in a row that are far apart: three steps of a third of an octave or more. */
  predicate Far(x: int, y: int) { x - y <= -3 || x - y >= 3 }

  /** Which factors are sent, by how far each is from the next: all of them, the first two parts sharing one, all
      three sharing one, or the last two. */
  function CodeFor(a: int, b: int, c: int): nat {
    if Far(a, b) then if Far(b, c) then 0 else 3
    else if !Far(b, c) then 2
    else if b >= c + 3 then (if a <= b then 1 else 0)       // the third part is much louder
    else if a < b then 1 else 2                             // it is much softer
  }

  /** The loudest of the parts that share a factor: its index is the smallest. */
  function SharedFactor(code: nat, a: nat, b: nat, c: nat, k: nat): int {
    if code == 2 then Min(a, Min(b, c))
    else if code == 1 && k < 2 then Min(a, b)
    else if code == 3 && k > 0 then Min(b, c)
    else if k == 0 then a else if k == 1 then b else c
  }

  /** The factors are evened out in place until they are what a decoder restores. Parts that are close share
      the factor of the loudest of them, so no sample gets larger than its scale; an index never grows. */
  method SelectScaleCode(sf: array<nat>) returns (code: nat)
    requires sf.Length == 3
    modifies sf
    ensures code == CodeFor(old(sf[0]), old(sf[1]), old(sf[2])) < 4 && Restored(code, Sent(code, sf[..])) == sf[..]
    ensures forall k :: 0 <= k < 3 ==> sf[k] == SharedFactor(code, old(sf[0]), old(sf[1]), old(sf[2]), k) <= old(sf[k])
    ensures exists i :: 0 <= i < 3 && sf[i] == old(sf[i])
  {
    var a: int, b: int, c: int := sf[0], sf[1], sf[2];
    var d1, d2 := DiffClass(a - b), DiffClass(b - c);
    var pair := d1 * 5 + d2;
    if pair == 0 || pair == 4 || pair == 19 || pair == 20 || pair == 24 {
      code := 0;
    } else if pair == 1 || pair == 2 || pair == 21 || pair == 22 {
      code := 3;
      sf[2] := sf[1];
    } else if pair == 3 || pair == 23 {
      code := 3;
      sf[1] := sf[2];
    } else if pair == 5 || pair == 9 || pair == 14 {
      code := 1;
      sf[1] := sf[0];
    } else if pair == 6 || pair == 7 || pair == 10 || pair == 11 || pair == 12 {
      code := 2;
      sf[1], sf[2] := sf[0], sf[0];
    } else if pair == 13 || pair == 18 {
      code := 2;
      sf[0], sf[1] := sf[2], sf[2];
    } else if pair == 15 || pair == 16 || pair == 17 {
      code := 2;
      sf[0], sf[2] := sf[1], sf[1];
    } else {
      assert pair == 8;
      code := 2;
      if sf[0] > sf[2] { sf[0] := sf[2]; }
      sf[1], sf[2] := sf[0], sf[0];
    }
  }
}
