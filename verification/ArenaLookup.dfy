/** The decoding walk in the arena: given a code of the interval that a value was coded with, it does
    exactly what the encoding walk for that value does. */
module ArenaLookup {
  import opened Numbers
  import opened RangeCoder
  import opened SymbolTree
  import opened PpmModel
  import opened Arena
  import opened ArenaTrees
  import opened ArenaBooks

  /** The same walk, reported the way the decoder reports it. */
  function AsDig(w: Walk, x: byte): Dig {
    if w.Walk? then Dug(w.table, w.next, w.symbol, x, w.under, w.count) else Outside
  }

  ghost predicate CanLookUp(tab: Table, next: nat, loc: Places, p: Path, t: Tree, lo: int, hi: int,
                            x: byte, d: byte, code: nat, acc: nat, min: byte)
  {
    && Placed(loc, next) && Good(t, lo, hi) && lo <= x < hi && t.Node? && TreeRep(tab, loc, p, t)
    && min <= 1 && (Has(t, x) || min == 1) && CodeFor(t, x, code, acc, min)
    && acc + Sum(t) + 256 * min < 65536 && 0 < d && Sum(t) + d < 65536
    && (Has(t, x) || next < ARENA)
  }

  /** The numbers compared at one node do not overflow. */
  lemma NodeNumbers(t: Tree, lo: int, hi: int, x: byte, code: nat, acc: nat, min: byte)
    requires Good(t, lo, hi) && t.Node? && lo <= x < hi && min <= 1 && CodeFor(t, x, code, acc, min)
    requires acc + Sum(t) + 256 * min < 65536
    ensures acc + t.under + (t.value + 1) * min < 65536
    ensures x * min <= 255 && acc + t.under + x * min < 65536
    ensures code < 65536
  {
    BelowAndWeight(t, x);
    assert min == 0 || min == 1;
    assert t.value * min <= 255 && (t.value + 1) * min <= 256 * min;
    assert x * min <= 255 * min && (x + 1) * min <= 256 * min;
  }

  /** Which way the decoding walk turns at a node, without overflow. */
  lemma TurnIs(n: Symbol, code: nat, acc: u16, min: byte, after: int)
    requires after == acc + n.under + (n.value + 1) * min < 65536 && n.count + min <= 256
    ensures TurnAt(n, code, acc, min) ==
      if code >= after then GoRight(after)
      else if code < after - (n.count + min) then GoLeft(after - (n.count + min))
      else Here(after - (n.count + min))
  {
    assert U16(after) == after && U16(n.count + min) == n.count + min;
  }

  lemma DecodeGoesRight(t: Table, next: nat, i: nat, code: nat, d: byte, acc: u16, min: byte, after: int)
    requires i < ARENA && TurnAt(t[i], code, acc, min) == GoRight(after) && acc + t[i].under < 65536
    requires t[i].right != 0 && i + t[i].right < ARENA
    ensures DecodeWalk(t, next, i, code, d, acc, min)
         == DecodeWalk(t, next, i + t[i].right, code, d, acc + t[i].under, min)
  {
    hide TurnAt;
  }

  lemma DecodeGoesLeft(t: Table, next: nat, i: nat, code: nat, d: byte, acc: u16, min: byte, start: int)
    requires i < ARENA && TurnAt(t[i], code, acc, min) == GoLeft(start)
    requires t[i].left != 0 && i + t[i].left < ARENA
    ensures DecodeWalk(t, next, i, code, d, acc, min)
         == DecodeWalk(AddUnderAt(t, i, d), next, i + t[i].left, code, d, acc, min)
  {
    hide TurnAt;
  }

  lemma EncodeGoesRight(t: Table, next: nat, i: nat, x: byte, d: byte, under: u16, count: u16)
    requires i < ARENA && x > t[i].value && under + t[i].under < 65536 && t[i].right != 0 && i + t[i].right < ARENA
    ensures EncodeWalk(t, next, i, x, d, under, count)
         == EncodeWalk(t, next, i + t[i].right, x, d, under + t[i].under, count)
  {
  }

  lemma EncodeGoesLeft(t: Table, next: nat, i: nat, x: byte, d: byte, under: u16, count: u16)
    requires i < ARENA && x < t[i].value && t[i].left != 0 && i + t[i].left < ARENA
    ensures EncodeWalk(t, next, i, x, d, under, count)
         == EncodeWalk(AddUnderAt(t, i, d), next, i + t[i].left, x, d, under, count)
  {
  }

  lemma LookUpHits(tab: Table, next: nat, loc: Places, p: Path, t: Tree, lo: int, hi: int,
                   x: byte, d: byte, code: nat, acc: u16, min: byte)
    requires CanLookUp(tab, next, loc, p, t, lo, hi, x, d, code, acc, min) && x == t.value
    ensures x * min < 65536 && acc + x * min < 65536
    ensures DecodeWalk(tab, next, loc[Ext(p, t.value)], code, d, acc, min)
         == AsDig(EncodeWalk(tab, next, loc[Ext(p, t.value)], x, d, acc + x * min, min), x)
  {
    hide TurnAt;
    NodeNumbers(t, lo, hi, x, code, acc, min);
    CodeGoesWithValue(t, lo, hi, x, code, acc, min);
    var i := loc[Ext(p, t.value)];
    assert (x + 1) * min == x * min + min;
    assert t.count <= t.under;
    TurnIs(tab[i], code, acc, min, acc + t.under + (x + 1) * min);
  }

  lemma LookUpMakesLeft(tab: Table, next: nat, i: nat, x: byte, d: byte, code: u16, acc: u16, start: int)
    requires i < ARENA && next < ARENA && TurnAt(tab[i], code, acc, 1) == GoLeft(start) && tab[i].left == 0
    requires code == acc + x && x < tab[i].value && start == acc + tab[i].value
    ensures DecodeWalk(tab, next, i, code, d, acc, 1) == AsDig(EncodeWalk(tab, next, i, x, d, code, 1), x)
  {
    hide TurnAt;
    var k := start - code - 1;
    assert k / 1 == k && k % 1 == 0 && U16(code) == code;
    assert U8(tab[i].value - 1 - k) == x;
  }

  lemma LookUpMakesRight(tab: Table, next: nat, i: nat, x: byte, d: byte, code: u16, acc: u16, after: int)
    requires i < ARENA && next < ARENA && TurnAt(tab[i], code, acc, 1) == GoRight(after) && tab[i].right == 0
    requires code == acc + tab[i].under + x && x > tab[i].value && after == acc + tab[i].under + tab[i].value + 1
    ensures acc + x < 65536
    ensures DecodeWalk(tab, next, i, code, d, acc, 1) == AsDig(EncodeWalk(tab, next, i, x, d, acc + x, 1), x)
  {
    hide TurnAt;
    var k := code - after;
    assert k / 1 == k && k % 1 == 0 && U16(code) == code;
    assert U8(tab[i].value + 1 + k) == x;
    assert U16(acc + x + tab[i].under) == code;
  }

  lemma LookUpMakes(tab: Table, next: nat, loc: Places, p: Path, t: Tree, lo: int, hi: int,
                    x: byte, d: byte, code: nat, acc: u16)
    requires CanLookUp(tab, next, loc, p, t, lo, hi, x, d, code, acc, 1)
    requires (x < t.value && t.left.Leaf?) || (x > t.value && t.right.Leaf?)
    ensures acc + x < 65536
    ensures DecodeWalk(tab, next, loc[Ext(p, t.value)], code, d, acc, 1)
         == AsDig(EncodeWalk(tab, next, loc[Ext(p, t.value)], x, d, acc + x, 1), x)
  {
    hide DecodeWalk, EncodeWalk, AsDig;
    NodeNumbers(t, lo, hi, x, code, acc, 1);
    CodeGoesWithValue(t, lo, hi, x, code, acc, 1);
    AtNode(t, lo, hi, x);
    NotThere(t, lo, hi, x);
    assert code == acc + Below(t, x) + x;
    var i := loc[Ext(p, t.value)];
    TurnIs(tab[i], code, acc, 1, acc + t.under + t.value + 1);
    if x < t.value {
      LookUpMakesLeft(tab, next, i, x, d, code, acc, acc + t.value);
    } else {
      LookUpMakesRight(tab, next, i, x, d, code, acc, acc + t.under + t.value + 1);
    }
  }

  lemma {:induction false} LookUpFollows(tab: Table, next: nat, loc: Places, p: Path, t: Tree, lo: int, hi: int,
                                         x: byte, d: byte, code: nat, acc: u16, min: byte)
    requires CanLookUp(tab, next, loc, p, t, lo, hi, x, d, code, acc, min)
    ensures x * min < 65536 && acc + x * min < 65536
    ensures DecodeWalk(tab, next, loc[Ext(p, t.value)], code, d, acc, min)
         == AsDig(EncodeWalk(tab, next, loc[Ext(p, t.value)], x, d, acc + x * min, min), x)
    decreases t, 1
  {
    hide DecodeWalk, EncodeWalk, AsDig;
    NodeNumbers(t, lo, hi, x, code, acc, min);
    if x == t.value {
      LookUpHits(tab, next, loc, p, t, lo, hi, x, d, code, acc, min);
    } else if x < t.value && t.left.Node? {
      LookUpLeft(tab, next, loc, p, t, lo, hi, x, d, code, acc, min);
    } else if x > t.value && t.right.Node? {
      LookUpRight(tab, next, loc, p, t, lo, hi, x, d, code, acc, min);
    } else {
      NotThere(t, lo, hi, x);
      LookUpMakes(tab, next, loc, p, t, lo, hi, x, d, code, acc);
    }
  }

  lemma LookUpLeftReady(tab: Table, next: nat, loc: Places, p: Path, t: Tree, lo: int, hi: int,
                        x: byte, d: byte, code: nat, acc: u16, min: byte)
    requires CanLookUp(tab, next, loc, p, t, lo, hi, x, d, code, acc, min) && x < t.value && t.left.Node?
    ensures CanLookUp(AddUnderAt(tab, loc[Ext(p, t.value)], d), next, loc, p, t.left, lo, t.value, x, d, code, acc, min)
  {
    CodeGoesWithValue(t, lo, hi, x, code, acc, min);
    AtNode(t, lo, hi, x);
    var t1 := AddUnderAt(tab, loc[Ext(p, t.value)], d);
    NodesKeptByUnder(tab, t1, loc, p, t.value, lo, t.value);
    TreeFrame(tab, t1, loc, loc, p, t.left, lo, t.value);
  }

  lemma LookUpRightReady(tab: Table, next: nat, loc: Places, p: Path, t: Tree, lo: int, hi: int,
                         x: byte, d: byte, code: nat, acc: u16, min: byte)
    requires CanLookUp(tab, next, loc, p, t, lo, hi, x, d, code, acc, min) && x > t.value && t.right.Node?
    ensures CanLookUp(tab, next, loc, p, t.right, t.value + 1, hi, x, d, code, acc + t.under, min)
  {
    CodeGoesWithValue(t, lo, hi, x, code, acc, min);
    AtNode(t, lo, hi, x);
  }

  lemma {:induction false} LookUpLeft(tab: Table, next: nat, loc: Places, p: Path, t: Tree, lo: int, hi: int,
                                      x: byte, d: byte, code: nat, acc: u16, min: byte)
    requires CanLookUp(tab, next, loc, p, t, lo, hi, x, d, code, acc, min) && x < t.value && t.left.Node?
    ensures x * min < 65536 && acc + x * min < 65536
    ensures DecodeWalk(tab, next, loc[Ext(p, t.value)], code, d, acc, min)
         == AsDig(EncodeWalk(tab, next, loc[Ext(p, t.value)], x, d, acc + x * min, min), x)
    decreases t, 0
  {
    hide AsDig, TurnAt, DecodeWalk, EncodeWalk, CodeFor;
    NodeNumbers(t, lo, hi, x, code, acc, min);
    CodeGoesWithValue(t, lo, hi, x, code, acc, min);
    AtNode(t, lo, hi, x);
    var i, after := loc[Ext(p, t.value)], acc + t.under + (t.value + 1) * min;
    TurnIs(tab[i], code, acc, min, after);
    DecodeGoesLeft(tab, next, i, code, d, acc, min, after - (t.count + min));
    LookUpLeftReady(tab, next, loc, p, t, lo, hi, x, d, code, acc, min);
    LookUpFollows(AddUnderAt(tab, i, d), next, loc, p, t.left, lo, t.value, x, d, code, acc, min);
    EncodeGoesLeft(tab, next, i, x, d, acc + x * min, min);
  }

  lemma {:induction false} LookUpRight(tab: Table, next: nat, loc: Places, p: Path, t: Tree, lo: int, hi: int,
                                       x: byte, d: byte, code: nat, acc: u16, min: byte)
    requires CanLookUp(tab, next, loc, p, t, lo, hi, x, d, code, acc, min) && x > t.value && t.right.Node?
    ensures x * min < 65536 && acc + x * min < 65536
    ensures DecodeWalk(tab, next, loc[Ext(p, t.value)], code, d, acc, min)
         == AsDig(EncodeWalk(tab, next, loc[Ext(p, t.value)], x, d, acc + x * min, min), x)
    decreases t, 0
  {
    hide AsDig, TurnAt, DecodeWalk, EncodeWalk, CodeFor;
    NodeNumbers(t, lo, hi, x, code, acc, min);
    CodeGoesWithValue(t, lo, hi, x, code, acc, min);
    AtNode(t, lo, hi, x);
    var i, after := loc[Ext(p, t.value)], acc + t.under + (t.value + 1) * min;
    TurnIs(tab[i], code, acc, min, after);
    DecodeGoesRight(tab, next, i, code, d, acc, min, after);
    LookUpRightReady(tab, next, loc, p, t, lo, hi, x, d, code, acc, min);
    LookUpFollows(tab, next, loc, p, t.right, t.value + 1, hi, x, d, code, acc + t.under, min);
    EncodeGoesRight(tab, next, i, x, d, acc + x * min, min);
  }

  /** In a whole context: a code beyond the escapes, from the slot of `x`, makes the decoder do what
      the encoder did for `x`. */
  lemma ContextDecodeFollows(tab: Table, loc: Places, b: Book, p: Path, x: byte, code: nat)
    requires GoodBook(b) && p in b.ctxs && Placed(loc, b.used) && loc.Keys == b.ctxs.Keys && b.used < ARENA
    requires EntryRep(tab, loc, p, b.ctxs[p])
    requires p == Root || Has(b.ctxs[p].tree, x)
    requires CodeFor(b.ctxs[p].tree, x, code, 0, Minimum(p == Root))
    ensures var d, m := Delta(p == Root), Minimum(p == Root);
            ContextDecode(tab, b.used, loc[p], code, d, m) == AsDig(ContextEncode(tab, b.used, loc[p], x, d, m), x)
  {
    hide DecodeWalk, EncodeWalk;
    var c, d, m := b.ctxs[p], Delta(p == Root), Minimum(p == Root);
    assert GoodEntry(p, c);
    if c.tree.Node? {
      BelowAndWeight(c.tree, x);
      assert CanLookUp(tab, b.used, loc, p, c.tree, 0, 256, x, d, code, 0, m);
      LookUpFollows(tab, b.used, loc, p, c.tree, 0, 256, x, d, code, 0, m);
      EncodeIsWalk(tab, b.used, loc, p, c.tree, x, d, m);
    } else {
      assert p == Root && code == x;
      FirstDecoded(tab, b.used, loc[p], x);
    }
  }

  lemma FirstDecoded(tab: Table, next: nat, c: nat, x: byte)
    requires c < ARENA && next < ARENA && tab[c].symbols == 0
    ensures ContextDecode(tab, next, c, x, 3, 1) == AsDig(ContextEncode(tab, next, c, x, 3, 1), x)
  {
    assert x / 1 == x && x % 1 == 0 && U8(x) == x && U16(x * 1) == x && U16(x) == x;
  }
}
