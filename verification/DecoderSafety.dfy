/** The decompressor on any input whatever: its loops end, it divides by no zero and it stays inside the
    arena. Nodes of context `c` have keys between `c` and `c + 1`. */
module DecoderSafety {
  import opened Numbers
  import opened RangeCoder
  import opened PpmModel
  import opened Arena
  import opened KeyedTrees
  import opened Coders

  // ---------------------------------------------------------------- registers

  lemma NarrowedIsPositive(low: word, range: word)
    requires 0 < range && !(LeadDiffers(low, range) && range >= BOTTOM)
    ensures 0 < Narrowed(low, range) && 0 < Shift(Narrowed(low, range))
  {
    var r := Narrowed(low, range);
    ShiftIsTail(r);
    if LeadDiffers(low, range) {
      if low % BOTTOM == 0 { SmallStep(low, range); }
      assert 0 < r < BOTTOM;
    } else if range % TOP == 0 {
      WholeTops(low, range);
    }
  }

  lemma SmallStep(low: word, range: word)
    requires low % BOTTOM == 0 && range < BOTTOM
    ensures !LeadDiffers(low, range)
  {
    assert low == BOTTOM * (low / BOTTOM);
    assert low + range < WORD;
  }

  lemma WholeTops(low: word, range: word)
    requires range % TOP == 0 && 0 < range
    ensures LeadDiffers(low, range)
  {
    assert range == TOP * (range / TOP) && low == TOP * (low / TOP) + low % TOP;
    if low + range >= WORD { assert (low + range) % WORD == low + range - WORD; }
  }

  /** The normalisation loop ends for any registers but an empty range. */
  lemma {:induction false} RenormaliseEnds(rd: Reader)
    requires rd.iv.range > 0
    ensures Renormalise(rd).Renormal? && Renormalise(rd).rd.iv.range >= BOTTOM
    decreases 4 - ZeroBytes(rd.iv.low), if rd.iv.low == 0 then WORD - rd.iv.range else 0
  {
    var iv := rd.iv;
    if !(LeadDiffers(iv.low, iv.range) && iv.range >= BOTTOM) {
      NarrowedIsPositive(iv.low, iv.range);
      if iv.low != 0 { ShiftAddsZeroByte(iv.low); }
      RenormaliseEnds(ReadByte(rd, Interval(Shift(iv.low), Shift(Narrowed(iv.low, iv.range)))));
    }
  }

  lemma DecodeEnds(rd: Reader, under: nat, count: nat, total: nat)
    requires 0 < count <= total < BOTTOM <= rd.iv.range
    ensures Decode(rd, under, count, total).Renormal? && Decode(rd, under, count, total).rd.iv.range >= BOTTOM
  {
    hide Renormalise;
    DivBounds(rd.iv.range, total);
    var r := rd.iv.range / total;
    MulMono(count, total, r);
    MulMono(1, count, r);
    assert r * count == count * r && r * total == total * r;
    SmallMod(r * count);
    RenormaliseEnds(rd.(iv := Slice(rd.iv, under, count, total)));
  }

  // ---------------------------------------------------------------- contexts

  /** The tree of context `c` is in one piece, and the total counts it, up to `due` still to be added. */
  ghost predicate InOrder(t: Table, m: Marks, next: nat, c: nat, most: nat, due: nat)
    requires Marked(m) && next <= ARENA && c < ARENA
  {
    var n := t[c];
    && Grove(t, m, next, c, n.symbols, c as real, c as real + 1.0, m.level[c] + 1, most)
    && Size(t, c, n.symbols) <= next
    && n.total + due == Sum(t, c, n.symbols) + n.escapes + 256 * Minimum(c == 0)
    && n.escapes <= n.total <= TOTAL_LIMIT && (c == 0 ==> n.escapes == 1)
  }

  ghost predicate Tidy(t: Table, m: Marks, next: nat, c: nat)
    requires Marked(m) && next <= ARENA && c < ARENA
  {
    InOrder(t, m, next, c, MaxCount(c == 0), 0)
  }

  /** All contexts but `skip`. */
  ghost predicate AllInOrder(t: Table, m: Marks, next: nat, skip: int) {
    && Marked(m) && 0 < next <= ARENA && m.level[0] == 0
    && forall c :: 0 <= c < next && c != skip ==> Tidy(t, m, next, c)
  }

  ghost predicate SameCounters(a: Symbol, b: Symbol) { a.symbols == b.symbols && a.escapes == b.escapes && a.total == b.total }

  lemma ContextFrame(t: Table, t': Table, m: Marks, next: nat, m': Marks, next': nat, c: nat, most: nat, due: nat)
    requires Extends(m, next, m', next') && c < next && InOrder(t, m, next, c, most, due)
    requires SameCounters(t'[c], t[c]) && NodesKept(t, t', m, next, c as real, c as real + 1.0)
    ensures InOrder(t', m', next', c, most, due)
  {
    GroveFrame(t, t', m, next, m', next', c, t[c].symbols, c as real, c as real + 1.0, m.level[c] + 1, most, most);
  }

  /** Only nodes of context `c` changed. */
  ghost predicate OnlyIn(t: Table, t': Table, m: Marks, next: nat, c: nat)
    requires Marked(m) && next <= ARENA
  {
    forall k :: 0 <= k < next ==>
      && (k != c ==> SameCounters(t'[k], t[k]))
      && (!(c as real < m.key[k] < c as real + 1.0) ==> SameNode(t'[k], t[k]))
  }

  lemma OthersFrame(t: Table, t': Table, m: Marks, next: nat, m': Marks, next': nat, c: nat)
    requires Extends(m, next, m', next') && AllInOrder(t, m, next, c) && OnlyIn(t, t', m, next, c)
    requires next' == next || (next' == next + 1 && SameContext(t'[next], BLANK))
    ensures AllInOrder(t', m', next', c)
  {
    forall k | 0 <= k < next' && k != c ensures Tidy(t', m', next', k) {
      if k < next {
        assert Tidy(t, m, next, k);
        KeysApart(t, t', m, next, c, k);
        hide InOrder;
        ContextFrame(t, t', m, next, m', next', k, MaxCount(k == 0), 0);
      } else {
        NoTree(t', m', next', k, k as real, k as real + 1.0, m'.level[k] + 1, MaxCount(k == 0));
      }
    }
  }

  lemma KeysApart(t: Table, t': Table, m: Marks, next: nat, c: nat, k: nat)
    requires Marked(m) && next <= ARENA && OnlyIn(t, t', m, next, c) && k != c
    ensures NodesKept(t, t', m, next, k as real, k as real + 1.0)
  {
    assert k < c ==> k as real + 1.0 <= c as real;
    assert k > c ==> c as real + 1.0 <= k as real;
  }

  /** A context has counted a symbol, and its counters are still to be settled. */
  ghost predicate Grown(t: Table, t': Table, m: Marks, next: nat, m': Marks, next': nat, c: nat, symbol: nat, was: int) {
    && Extends(m, next, m', next') && next' <= next + 1 && c < next
    && AllInOrder(t', m', next', c)
    && InOrder(t', m', next', c, NewMost(if was < 0 then 0 else was, Delta(c == 0), MaxCount(c == 0)), Delta(c == 0))
    && symbol < next' && m'.level[symbol] == m.level[c] + 1
    && t'[c].escapes == t[c].escapes && t'[c].total == t[c].total
    && was + Minimum(c == 0) <= t[c].total
    && (forall k :: 0 <= k < next ==> t'[k].parent == t[k].parent)
    && (if next' == next then 0 < was else was == 0 && symbol == next && t'[next].parent == 0)
  }

  lemma FromTree(t: Table, t': Table, m: Marks, next: nat, m': Marks, next': nat, c: nat, symbol: nat, was: int)
    requires AllInOrder(t, m, next, -1) && c < next && t[c].symbols != 0
    requires CountsOne(t, t', m, next, m', next', symbol, was, Delta(c == 0), c, t[c].symbols, c as real, c as real + 1.0,
                      m.level[c] + 1, MaxCount(c == 0))
    ensures Grown(t, t', m, next, m', next', c, symbol, was)
  {
    hide Grove, Sum, Size;
    assert Tidy(t, m, next, c);
    assert AllInOrder(t, m, next, c);
    assert OnlyIn(t, t', m, next, c);
    OthersFrame(t, t', m, next, m', next', c);
  }

  lemma FromNothing(t: Table, t': Table, m: Marks, next: nat, c: nat, d: nat) returns (m': Marks)
    requires AllInOrder(t, m, next, -1) && c < next < ARENA && t[c].symbols == 0 && d == Delta(c == 0)
    requires t'[next].count == d && t'[next].left == 0 && t'[next].right == 0 && SameContext(t'[next], BLANK)
    requires t'[c] == t[c].(symbols := next - c) && forall k :: 0 <= k < next && k != c ==> t'[k] == t[k]
    ensures Grown(t, t', m, next, m', next + 1, c, next, 0)
  {
    var lo, hi, level := c as real, c as real + 1.0, m.level[c] + 1;
    m' := Mark(m, next, lo + 0.5, level);
    assert Tidy(t, m, next, c);
    assert AllInOrder(t, m, next, c);
    NewLeaf(t', m', next, c, d, lo, hi, level, MaxCount(c == 0));
    NoTree(t, m, next, c, lo, hi, level, MaxCount(c == 0));
    hide Grove, Sum, Size;
    assert OnlyIn(t, t', m, next, c);
    OthersFrame(t, t', m, next, m', next + 1, c);
  }

  lemma ContextEncodeCounts(t: Table, m: Marks, next: nat, c: nat, value: byte) returns (m': Marks)
    requires AllInOrder(t, m, next, -1) && c < next < ARENA
    ensures var w := ContextEncode(t, next, c, value, Delta(c == 0), Minimum(c == 0));
            && w.Walk? && Minimum(c == 0) <= w.count
            && Grown(t, w.table, m, next, m', w.next, c, w.symbol, w.count - Minimum(c == 0))
  {
    hide Grove, Sum, Size, EncodeWalk, Grown, CountsOne;
    var d, min := Delta(c == 0), Minimum(c == 0);
    var w := ContextEncode(t, next, c, value, d, min);
    assert Tidy(t, m, next, c);
    var lo, hi, level := c as real, c as real + 1.0, m.level[c] + 1;
    if t[c].symbols == 0 {
      m' := FromNothing(t, w.table, m, next, c, d);
    } else {
      RootExists(t, m, next, c, t[c].symbols, lo, hi, level, MaxCount(c == 0));
      m' := EncodeWalkCounts(t, m, next, c, t[c].symbols, lo, hi, level, MaxCount(c == 0), value, d, U16(value * min), min);
      FromTree(t, w.table, m, next, m', w.next, c, w.symbol, w.count - min);
    }
  }

  lemma ContextDecodeCounts(t: Table, m: Marks, next: nat, c: nat, code: nat) returns (m': Marks)
    requires AllInOrder(t, m, next, -1) && c < next && (c == 0 ==> next < ARENA)
    ensures var w := ContextDecode(t, next, c, code, Delta(c == 0), Minimum(c == 0));
            && !w.Outside? && (w.NoSuch? ==> c != 0)
            && (w.Dug? ==> Minimum(c == 0) <= w.count && 0 < w.count
                           && Grown(t, w.table, m, next, m', w.next, c, w.symbol, w.count - Minimum(c == 0))
                           && (c != 0 ==> w.next == next))
  {
    hide Grove, Sum, Size, DecodeWalk, CountsOne;
    var d, min := Delta(c == 0), Minimum(c == 0);
    var w := ContextDecode(t, next, c, code, d, min);
    assert Tidy(t, m, next, c);
    var lo, hi, level := c as real, c as real + 1.0, m.level[c] + 1;
    m' := m;
    if t[c].symbols == 0 {
      if min > 0 { m' := FromNothing(t, w.table, m, next, c, d); }
    } else {
      RootExists(t, m, next, c, t[c].symbols, lo, hi, level, MaxCount(c == 0));
      m' := DecodeWalkCounts(t, m, next, c, t[c].symbols, lo, hi, level, MaxCount(c == 0), code, d, 0, min);
      if w.Dug? { FromTree(t, w.table, m, next, m', w.next, c, w.symbol, w.count - min); }
    }
  }

  // ---------------------------------------------------------------- the counters

  lemma SettleTidies(t: Table, m: Marks, next: nat, c: nat, count: u16, missed: bool)
    requires AllInOrder(t, m, next, c) && c < next && Minimum(c == 0) <= count && (missed ==> c != 0)
    requires InOrder(t, m, next, c, NewMost(count - Minimum(c == 0), Delta(c == 0), MaxCount(c == 0)), Delta(c == 0))
    ensures var h := Settle(t, c, count, missed, c == 0);
            h.Halving? && AllInOrder(h.table, m, next, -1) && forall k :: 0 <= k < next ==> h.table[k].parent == t[k].parent
  {
    hide Grove, Sum, Size, Rescale;
    var root, n := c == 0, t[c];
    var e := if missed then ESCAPE_DELTA else 0;
    var t1 := Counted(t, c, missed, root);
    assert t1 == SetCounters(t, c, n.escapes + e, n.total + e + Delta(root)) by { CountersFit(t, c, missed); }
    OthersFrame(t, t1, m, next, m, next, c);
    var lo, hi, level, most := c as real, c as real + 1.0, m.level[c] + 1, NewMost(count - Minimum(root), Delta(root), MaxCount(root));
    GroveFrame(t, t1, m, next, m, next, c, n.symbols, lo, hi, level, most, 255);
    if count > CountLimit(root) || t1[c].total > TOTAL_LIMIT {
      var r := Rescale(t1, c, n.symbols);
      RescaleHalves(t1, m, next, c, n.symbols, lo, hi, level);
      RescaledTidy(t1, m, next, c, r);
      OthersFrame(t1, Recount(r.table, c, r.total, Minimum(root)), m, next, m, next, c);
    } else {
      GroveFrame(t, t1, m, next, m, next, c, n.symbols, lo, hi, level, most, most);
      assert Tidy(t1, m, next, c);
    }
  }

  lemma CountersFit(t: Table, c: nat, missed: bool)
    requires c < ARENA && t[c].escapes <= t[c].total <= TOTAL_LIMIT
    ensures var e := if missed then ESCAPE_DELTA else 0;
            Counted(t, c, missed, c == 0) == SetCounters(t, c, t[c].escapes + e, t[c].total + e + Delta(c == 0))
  {
  }

  lemma RescaledTidy(t: Table, m: Marks, next: nat, c: nat, r: Halving)
    requires Marked(m) && c < next <= ARENA && Size(t, c, t[c].symbols) <= next
    requires HalvesAll(r, t, m, next, c, t[c].symbols, c as real, c as real + 1.0, m.level[c] + 1)
    requires t[c].total == Sum(t, c, t[c].symbols) + t[c].escapes + 256 * Minimum(c == 0) <= TOTAL_LIMIT + 8 && (c == 0 ==> t[c].escapes == 1)
    ensures Tidy(Recount(r.table, c, r.total, Minimum(c == 0)), m, next, c)
  {
    hide Grove, Sum, Size, U16, Untouched, Recount;
    var lo, hi, level := c as real, c as real + 1.0, m.level[c] + 1;
    var t' := Recount(r.table, c, r.total, Minimum(c == 0));
    RecountChanges(r.table, c, r.total, Minimum(c == 0));
    GroveFrame(r.table, t', m, next, m, next, c, t[c].symbols, lo, hi, level, 128, MaxCount(c == 0));
    RecountFits(t[c].total, t[c].escapes, Sum(t, c, t[c].symbols), Size(t, c, t[c].symbols), r.total, Minimum(c == 0));
  }

  lemma RecountChanges(t: Table, c: nat, sum: u16, min: byte)
    requires c < ARENA
    ensures var t', esc := Recount(t, c, sum, min), t[c].escapes - t[c].escapes / 2;
            && (forall k :: 0 <= k < ARENA ==> SameNode(t'[k], t[k]))
            && t'[c].symbols == t[c].symbols && t'[c].escapes == esc && t'[c].total == U16(sum + esc + 256 * min)
  {
  }

  lemma RecountFits(total: nat, escapes: nat, sum: nat, size: nat, half: nat, min: nat)
    requires total == sum + escapes + 256 * min <= TOTAL_LIMIT + 8 && 2 * half <= sum + size && size <= ARENA && min <= 1
    ensures var esc := escapes - escapes / 2;
            half + esc + 256 * min <= TOTAL_LIMIT && U16(half + esc + 256 * min) == half + esc + 256 * min
    ensures escapes == 1 ==> escapes - escapes / 2 == 1
  {
  }

  // ---------------------------------------------------------------- parents

  /** The parent index of every node but `hole` leads one order lower. */
  ghost predicate Parents(t: Table, m: Marks, next: nat, hole: int) {
    && Marked(m) && next <= ARENA
    && forall k :: 0 < k < next ==>
         m.level[k] > 0 && (k != hole ==> t[k].parent < next && m.level[t[k].parent] == m.level[k] - 1)
  }

  /** Follow the parent index `n` times. */
  ghost function Up(t: Table, i: nat, n: nat): nat
    requires i < ARENA
    decreases n
  {
    if n == 0 then i else if t[i].parent >= ARENA then 0 else Up(t, t[i].parent, n - 1)
  }

  lemma {:induction false} UpFrame(t: Table, t': Table, m: Marks, next: nat, m': Marks, next': nat, hole: int, i: nat, n: nat)
    requires Extends(m, next, m', next') && Parents(t, m, next, hole) && i < next && n <= m.level[i]
    requires forall k :: 0 <= k < next && k != hole ==> t'[k].parent == t[k].parent
    requires 0 <= hole < next ==> m.level[hole] > m.level[i]
    requires m.level[0] == 0
    ensures Up(t', i, n) == Up(t, i, n)
    decreases n
  {
    if n > 0 { UpFrame(t, t', m, next, m', next', hole, t[i].parent, n - 1); }
  }

  // ---------------------------------------------------------------- decoding one byte

  lemma {:induction false} DecodeChainEnds(r: Receiver, m: Marks, sub: nat, fuel: nat) returns (m': Marks)
    requires AllInOrder(r.tab, m, r.next, -1) && Parents(r.tab, m, r.next, -1)
    requires sub < r.next < ARENA && m.level[sub] <= fuel && r.rd.iv.range >= BOTTOM
    ensures var d := DecodeChain(r, sub, fuel);
            && !d.Undefined?
            && (d.Byte? ==> Found(r, m, sub, d, m'))
    decreases fuel
  {
    hide Decode, Read, DecodeSymbol;
    var esc, total := r.tab[sub].escapes, r.tab[sub].total;
    assert Tidy(r.tab, m, r.next, sub);
    m' := m;
    if sub != 0 && (esc <= 0 || esc >= total) {
      m' := DecodeChainEnds(r, m, r.tab[sub].parent, fuel - 1);
      FoundBelow(r, r, m, sub, fuel, m');
    } else {
      var code := Read(r.rd, total);
      if code >= esc {
        m' := DecodeSymbolEnds(r, m, sub, code - esc);
      } else {
        DecodeEnds(r.rd, 0, esc, total);
        if sub != 0 {
          var r1 := r.(rd := Decode(r.rd, 0, esc, total).rd);
          m' := DecodeChainEnds(r1, m, r.tab[sub].parent, fuel - 1);
          FoundBelow(r, r1, m, sub, fuel, m');
        }
      }
    }
  }

  /** A byte was found in a context above `sub`, and the arena is in one piece. */
  ghost predicate Found(r: Receiver, m: Marks, sub: nat, d: Decoded, m': Marks)
    requires d.Byte? && sub < r.next < ARENA && Marked(m)
  {
    && Extends(m, r.next, m', d.r.next) && d.r.predicted == r.predicted && d.r.order == r.order
    && AllInOrder(d.r.tab, m', d.r.next, -1) && Parents(d.r.tab, m', d.r.next, -1)
    && d.r.rd.iv.range >= BOTTOM
    && d.r.next <= r.next + (if d.stop == 0 then 1 else 0)
    && d.stop < r.next && m.level[d.stop] <= m.level[sub] && Up(r.tab, sub, m.level[sub] - m.level[d.stop]) == d.stop
    && d.bottom < d.r.next && m'.level[d.bottom] == m.level[d.stop] + 1
    && forall k :: 0 <= k < r.next ==> d.r.tab[k].parent == r.tab[k].parent
  }

  lemma FoundBelow(r: Receiver, r1: Receiver, m: Marks, sub: nat, fuel: nat, m': Marks)
    requires AllInOrder(r.tab, m, r.next, -1) && Parents(r.tab, m, r.next, -1) && 0 < sub < r.next < ARENA && fuel > 0
    requires r1 == r.(rd := r1.rd) && r.tab[sub].parent < r.next
    requires DecodeChain(r, sub, fuel) == DecodeChain(r1, r.tab[sub].parent, fuel - 1)
    requires var d := DecodeChain(r1, r.tab[sub].parent, fuel - 1); d.Byte? ==> Found(r1, m, r.tab[sub].parent, d, m')
    ensures var d := DecodeChain(r, sub, fuel); d.Byte? ==> Found(r, m, sub, d, m')
  {
    hide DecodeChain;
  }

  lemma DecodeSymbolEnds(r: Receiver, m: Marks, sub: nat, code: nat) returns (m': Marks)
    requires AllInOrder(r.tab, m, r.next, -1) && Parents(r.tab, m, r.next, -1)
    requires sub < r.next < ARENA && r.rd.iv.range >= BOTTOM && 0 < r.tab[sub].total
    ensures var d := DecodeSymbol(r, sub, code);
            && !d.Undefined?
            && (d.Byte? ==> d.stop == sub && Found(r, m, sub, d, m'))
  {
    hide Decode, ContextDecode, Settle, InOrder;
    m' := ContextDecodeCounts(r.tab, m, r.next, sub, code);
    var w := ContextDecode(r.tab, r.next, sub, code, Delta(sub == 0), Minimum(sub == 0));
    if w.Dug? {
      DecodeEnds(r.rd, r.tab[sub].escapes + w.under, w.count, r.tab[sub].total);
      SettleTidies(w.table, m', w.next, sub, w.count, false);
      var h := Settle(w.table, sub, w.count, false, sub == 0);
      assert h.table[w.symbol].parent == w.table[w.symbol].parent;
      assert Parents(h.table, m', w.next, -1);
    }
  }

  // ---------------------------------------------------------------- patching

  ghost predicate LinkFits(m: Marks, next: nat, link: int, level: nat)
    requires Marked(m) && next <= ARENA
  {
    link < 0 || (0 < link < next && m.level[link] == level + 1)
  }

  /** One patched context: its symbol becomes the hole that the next one fills. */
  lemma PatchStep(r: Receiver, m: Marks, patch: nat, link: int, value: byte) returns (m': Marks)
    requires AllInOrder(r.tab, m, r.next, -1) && Parents(r.tab, m, r.next, link)
    requires 0 < patch < r.next < ARENA && LinkFits(m, r.next, link, m.level[patch] + 1)
    ensures var w := ContextEncode(r.tab, r.next, patch, value, Delta(false), Minimum(false));
            && w.Walk? && 0 < w.symbol < w.next <= r.next + 1 && w.next <= ARENA
            && var h := Settle(LinkTo(w.table, link, w.symbol), patch, w.count, w.count == 0, false);
            && h.Halving?
            && AllInOrder(h.table, m', w.next, -1) && Parents(h.table, m', w.next, w.symbol)
            && Extends(m, r.next, m', w.next) && m'.level[w.symbol] == m.level[patch] + 1
            && forall k :: 0 <= k < r.next && k != link ==> h.table[k].parent == r.tab[k].parent
  {
    hide Settle, ContextEncode, InOrder;
    m' := ContextEncodeCounts(r.tab, m, r.next, patch, value);
    var w := ContextEncode(r.tab, r.next, patch, value, Delta(false), Minimum(false));
    var t1 := LinkTo(w.table, link, w.symbol);
    LinkFrame(w.table, t1, m', w.next, patch, link, w.symbol, NewMost(w.count, Delta(false), MaxCount(false)), Delta(false));
    SettleTidies(t1, m', w.next, patch, w.count, w.count == 0);
    var h := Settle(t1, patch, w.count, w.count == 0, false);
    ParentsMove(r.tab, h.table, m, r.next, m', w.next, link, w.symbol);
  }

  lemma LinkFrame(t: Table, t1: Table, m: Marks, next: nat, c: nat, link: int, symbol: nat, most: nat, due: nat)
    requires AllInOrder(t, m, next, c) && c < next && InOrder(t, m, next, c, most, due)
    requires link < ARENA && symbol < ARENA && t1 == LinkTo(t, link, symbol)
    ensures AllInOrder(t1, m, next, c) && InOrder(t1, m, next, c, most, due)
  {
    hide InOrder;
    OthersFrame(t, t1, m, next, m, next, c);
    ContextFrame(t, t1, m, next, m, next, c, most, due);
  }

  lemma ParentsMove(t: Table, t': Table, m: Marks, next: nat, m': Marks, next': nat, link: int, symbol: nat)
    requires Parents(t, m, next, link) && Extends(m, next, m', next') && next' <= next + 1 && symbol < next'
    requires next' == next + 1 ==> symbol == next && m'.level[next] > 0
    requires 0 <= link < next ==> t'[link].parent == symbol && m.level[link] == m'.level[symbol] + 1
    requires forall k :: 0 <= k < next && k != link ==> t'[k].parent == t[k].parent
    ensures Parents(t', m', next', symbol)
  {
  }

  /** What patching leads to. */
  ghost predicate Patched(r: Receiver, m: Marks, r': Receiver, m': Marks, top: nat) {
    && AllInOrder(r'.tab, m', r'.next, -1) && Parents(r'.tab, m', r'.next, -1)
    && r'.order == r.order && r'.rd == r.rd && r'.predicted < r'.next && m'.level[r'.predicted] == top
  }

  lemma {:induction false} PatchChainEnds(r: Receiver, m: Marks, patch: nat, stop: nat, link: int, value: byte, bottom: nat, fuel: nat, top: nat)
      returns (m': Marks)
    requires AllInOrder(r.tab, m, r.next, -1) && Parents(r.tab, m, r.next, link)
    requires patch < r.next && stop < r.next && bottom < r.next && LinkFits(m, r.next, link, m.level[patch] + 1)
    requires m.level[stop] <= m.level[patch] <= fuel && Up(r.tab, patch, m.level[patch] - m.level[stop]) == stop
    requires r.next + (m.level[patch] - m.level[stop]) <= ARENA && m.level[bottom] == m.level[stop] + 1
    requires if link < 0 then top == m.level[patch] + 1 else r.predicted < r.next && m.level[r.predicted] == top
    ensures var o := PatchChain(r, patch, stop, link, value, bottom, fuel); o.Some? && Patched(r, m, o.value, m', top)
    decreases fuel
  {
    hide ContextEncode, Settle, InOrder;
    if patch == stop {
      m' := m;
      PatchEnds(r, m, link, bottom, top);
    } else {
      assert m.level[patch] > m.level[stop] && patch != 0;
      m' := PatchStep(r, m, patch, link, value);
      var w := ContextEncode(r.tab, r.next, patch, value, Delta(false), Minimum(false));
      var h := Settle(LinkTo(w.table, link, w.symbol), patch, w.count, w.count == 0, false);
      var r1 := r.(tab := h.table, next := w.next, predicted := if link < 0 then w.symbol else r.predicted);
      var up := r.tab[patch].parent;
      UpFrame(r.tab, h.table, m, r.next, m', w.next, link, up, m.level[patch] - m.level[stop] - 1);
      m' := PatchChainEnds(r1, m', up, stop, w.symbol, value, bottom, fuel - 1, top);
    }
  }

  lemma PatchEnds(r: Receiver, m: Marks, link: int, bottom: nat, top: nat)
    requires AllInOrder(r.tab, m, r.next, -1) && Parents(r.tab, m, r.next, link) && bottom < r.next
    requires LinkFits(m, r.next, link, m.level[bottom])
    requires if link < 0 then top == m.level[bottom] else r.predicted < r.next && m.level[r.predicted] == top
    ensures Patched(r, m, FollowR(r, link, bottom), m, top)
  {
    hide InOrder;
    var t1 := LinkTo(r.tab, link, bottom);
    forall c | 0 <= c < r.next ensures Tidy(t1, m, r.next, c) {
      assert Tidy(r.tab, m, r.next, c);
      ContextFrame(r.tab, t1, m, r.next, m, r.next, c, MaxCount(c == 0), 0);
    }
  }

  // ---------------------------------------------------------------- any input

  /** What holds between two bytes. */
  ghost predicate Sound(r: Receiver, m: Marks) {
    && AllInOrder(r.tab, m, r.next, -1) && Parents(r.tab, m, r.next, -1)
    && r.predicted < r.next < ARENA - MAX_ORDER && m.level[r.predicted] == r.order <= MAX_ORDER
    && r.rd.iv.range >= BOTTOM
  }

  lemma FreshIsSound(r: Receiver, t: Table)
    requires r.tab == FreshArena(t) && r.next == 1 && r.predicted == 0 && r.order == 0 && r.rd.iv.range >= BOTTOM
    ensures Sound(r, Marks(seq(ARENA, _ => 0.0), seq(ARENA, _ => 0)))
  {
    var m := Marks(seq(ARENA, _ => 0.0), seq(ARENA, _ => 0));
    NoTree(r.tab, m, 1, 0, 0.0, 1.0, 1, MaxCount(true));
    assert Tidy(r.tab, m, 1, 0);
  }

  lemma NextIsSound(r: Receiver, m: Marks) returns (m': Marks)
    requires AllInOrder(r.tab, m, r.next, -1) && Parents(r.tab, m, r.next, -1)
    requires r.predicted < r.next && m.level[r.predicted] == r.order + 1 && r.order <= MAX_ORDER && r.rd.iv.range >= BOTTOM
    ensures DecodeNext(r).Some? && Sound(DecodeNext(r).value, m')
  {
    hide InOrder;
    m' := m;
    if r.next >= ARENA - MAX_ORDER {
      var r' := DecodeNext(r).value;
      FreshIsSound(r', r.tab);
      m' := Marks(seq(ARENA, _ => 0.0), seq(ARENA, _ => 0));
    }
  }

  /** One byte, or the end. */
  lemma ByteEnds(r: Receiver, m: Marks) returns (m': Marks)
    requires Sound(r, m)
    ensures var d := DecodeChain(r, r.predicted, ARENA);
            && !d.Undefined?
            && (d.Byte? ==>
                  && d.bottom < ARENA
                  && var o := PatchChain(d.r, r.predicted, d.stop, -1, d.value, d.bottom, ARENA);
                  && o.Some?
                  && DecodeNext(o.value).Some? && Sound(DecodeNext(o.value).value, m'))
  {
    hide DecodeChain, PatchChain, DecodeNext, InOrder, AllInOrder, Parents;
    m' := DecodeChainEnds(r, m, r.predicted, ARENA);
    var d := DecodeChain(r, r.predicted, ARENA);
    if d.Byte? {
      StillUp(r, m, d, m');
      m' := PatchChainEnds(d.r, m', r.predicted, d.stop, -1, d.value, d.bottom, ARENA, r.order + 1);
      m' := NextIsSound(PatchChain(d.r, r.predicted, d.stop, -1, d.value, d.bottom, ARENA).value, m');
    }
  }

  lemma StillUp(r: Receiver, m: Marks, d: Decoded, m': Marks)
    requires Sound(r, m) && d.Byte? && Found(r, m, r.predicted, d, m')
    ensures Up(d.r.tab, r.predicted, m.level[r.predicted] - m.level[d.stop]) == d.stop
  {
    hide InOrder;
    UpFrame(r.tab, d.r.tab, m, r.next, m', d.r.next, -1, r.predicted, m.level[r.predicted] - m.level[d.stop]);
  }

  lemma {:induction false} DecodeAllEnds(r: Receiver, m: Marks, room: nat)
    requires Sound(r, m)
    ensures DecodeAll(r, room) != Stuck
    decreases room
  {
    hide DecodeChain, PatchChain, DecodeNext, Sound;
    var m' := ByteEnds(r, m);
    PredictedInside(r, m);
    var d := DecodeChain(r, r.predicted, ARENA);
    if d.Byte? && room > 0 {
      var o := PatchChain(d.r, r.predicted, d.stop, -1, d.value, d.bottom, ARENA);
      DecodeAllEnds(DecodeNext(o.value).value, m', room - 1);
    }
  }

  lemma PredictedInside(r: Receiver, m: Marks)
    requires Sound(r, m)
    ensures r.predicted < ARENA
  {
  }

  /** Whatever the stream, the arena and the room: the loops end, no division is by zero, and no index
      leaves the arena. */
  lemma DecompressorIsTotal(t: Table, data: seq<byte>, room: nat)
    ensures DecompressBytes(t, data, room) != Stuck
  {
    hide DecodeAll;
    if data != [] {
      var r := FirstReceiver(t, data);
      FreshIsSound(r, t);
      DecodeAllEnds(r, Marks(seq(ARENA, _ => 0.0), seq(ARENA, _ => 0)), room);
    }
  }
}
