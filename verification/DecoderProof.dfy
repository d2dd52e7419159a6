/** The decompressor, fed what the compressor wrote, follows the same model and delivers the input. */
module DecoderProof {
  import opened Numbers
  import opened RangeCoder
  import opened SymbolTree
  import opened PpmModel
  import opened Arena
  import opened ArenaTrees
  import opened ArenaBooks
  import opened ArenaLookup
  import opened Coders
  import opened EncoderProof

  ghost predicate StandsR(r: Receiver, loc: Places, b: Book, hole: Path) {
    BookRep(r.tab, loc, b, hole) && r.next == b.used
  }

  // ---------------------------------------------------------------- finding the byte

  /** Decoding found `x` in context `p`: the registers moved on, and only that context has learned. */
  ghost predicate FoundAt(d: Decoded, r: Receiver, loc: Places, b: Book, p: Path, x: byte, rest: seq<Slot>)
    requires p in b.ctxs
  {
    && d.Byte? && p in loc && d.stop == loc[p] && d.value == x
    && d.bottom < ARENA && d.bottom == NodeOf(loc, b, p, x)
    && StandsR(d.r, Grown(loc, p, x, Has(b.ctxs[p].tree, x), b.used), LearnAt(b, p, x), Root)
    && InStep(d.r.rd, rest)
    && d.r.predicted == r.predicted && d.r.order == r.order
  }

  lemma SymbolUnfolds(r: Receiver, sub: nat, code: nat, w: Walk, x: byte, rd: Reader, h: Halving)
    requires sub < ARENA && w.Walk? && h.Halving? && r.tab[sub].total > 0
    requires ContextDecode(r.tab, r.next, sub, code, Delta(sub == 0), Minimum(sub == 0)) == AsDig(w, x)
    requires Decode(r.rd, r.tab[sub].escapes + w.under, w.count, r.tab[sub].total) == Renormal(rd)
    requires h == Settle(w.table, sub, w.count, false, sub == 0)
    ensures DecodeSymbol(r, sub, code) == Byte(r.(tab := h.table, next := w.next, rd := rd), sub, x, w.symbol)
  {
    hide ContextDecode, Decode, Settle;
  }

  /** The arena side of decoding a symbol. */
  lemma FindInArena(tab: Table, loc: Places, b: Book, p: Path, x: byte, code: nat) returns (w: Walk, h: Halving)
    requires OnChain(b, p, Root, x) && BookRep(tab, loc, b, Root) && b.used < ARENA
    requires p == Root || Has(b.ctxs[p].tree, x)
    requires CodeFor(b.ctxs[p].tree, x, code, 0, Minimum(p == Root))
    ensures w.Walk? && h.Halving? && w.next == LearnAt(b, p, x).used
    ensures ContextDecode(tab, b.used, loc[p], code, Delta(p == Root), Minimum(p == Root)) == AsDig(w, x)
    ensures h == Settle(w.table, loc[p], w.count, false, p == Root)
    ensures w.symbol < ARENA && w.symbol == NodeOf(loc, b, p, x)
    ensures w.under == x * Minimum(p == Root) + Below(b.ctxs[p].tree, x)
    ensures w.count == Minimum(p == Root) + Weight(b.ctxs[p].tree, x)
    ensures BookRep(h.table, Grown(loc, p, x, Has(b.ctxs[p].tree, x), b.used), LearnAt(b, p, x), Root)
  {
    hide ContextDecode, ContextEncode, Settle, BookRep, GoodBook;
    PartsOfBook(tab, loc, b, Root, p);
    ContextDecodeFollows(tab, loc, b, p, x, code);
    var t1;
    w, t1, h := LearnInArena(tab, loc, b, p, Root, x, -1);
  }

  /** The register side of decoding one slot. */
  lemma TakeSlot(rd: Reader, s: Slot, rest: seq<Slot>) returns (rd': Reader)
    requires InStep(rd, [s] + rest)
    ensures 0 < s.total <= rd.iv.range && s.under <= Read(rd, s.total) < s.under + s.count
    ensures Decode(rd, s.under, s.count, s.total) == Renormal(rd') && InStep(rd', rest)
  {
    hide Decode, Encode, InStep, Read;
    StepRecoversSlot(rd, [s] + rest);
    assert ([s] + rest)[0] == s && ([s] + rest)[1..] == rest;
    rd' := Decode(rd, s.under, s.count, s.total).rd;
  }

  lemma DecodeSymbolRefines(r: Receiver, loc: Places, b: Book, p: Path, x: byte, code: nat, rest: seq<Slot>)
    requires OnChain(b, p, Root, x) && StandsR(r, loc, b, Root) && b.used < ARENA
    requires p == Root || Has(b.ctxs[p].tree, x)
    requires InStep(r.rd, [SymbolSlot(b.ctxs[p], x, p == Root)] + rest)
    requires var s := SymbolSlot(b.ctxs[p], x, p == Root); s.under <= b.ctxs[p].escapes + code < s.under + s.count
    ensures FoundAt(DecodeSymbol(r, loc[p], code), r, loc, b, p, x, rest)
  {
    hide ContextDecode, Decode, Settle, BookRep, Encode, DecodeSymbol, InStep, Grown, LearnAt, TreeRep, Good, Weight, Below, Halve, OnChain, GoodContext, Link;
    ChainFacts(b, p, Root, x);
    RootAtZero(r.tab, loc, b, Root, p);
    PartsOfBook(r.tab, loc, b, Root, p);
    CodeInSlot(b.ctxs[p], x, p == Root, code);
    var w, h := FindInArena(r.tab, loc, b, p, x, code);
    var rd := TakeSlot(r.rd, SymbolSlot(b.ctxs[p], x, p == Root), rest);
    SymbolUnfolds(r, loc[p], code, w, x, rd, h);
  }

  lemma ChainFacts(b: Book, p: Path, hole: Path, x: byte)
    requires OnChain(b, p, hole, x)
    ensures p in b.ctxs && GoodBook(b) && GoodContext(b.ctxs[p], p == Root) && Depth(p) <= MAX_ORDER
    ensures p != Root ==> Suffix(p) in b.ctxs && Depth(Suffix(p)) < Depth(p)
    ensures hole == Root && p != Root ==> OnChain(b, Suffix(p), Root, x)
  {
    assert GoodEntry(p, b.ctxs[p]);
    ChainStep(b, p, hole, x);
    SuffixDepth(p);
  }

  lemma PartsOfBook(tab: Table, loc: Places, b: Book, hole: Path, p: Path)
    requires BookRep(tab, loc, b, hole) && p in b.ctxs
    ensures Placed(loc, b.used) && loc.Keys == b.ctxs.Keys && EntryRep(tab, loc, p, b.ctxs[p])
    ensures p in loc && loc[p] < ARENA
    ensures p != hole ==> ParentRep(tab, loc, p)
  {
  }

  lemma CodeInSlot(c: Context, x: byte, root: bool, code: nat)
    requires GoodContext(c, root)
    requires var s := SymbolSlot(c, x, root); s.under <= c.escapes + code < s.under + s.count
    ensures CodeFor(c.tree, x, code, 0, Minimum(root))
    ensures SymbolSlot(c, x, root).total > 0
  {
    assert (x + 1) * Minimum(root) == x * Minimum(root) + Minimum(root);
    BelowAndWeight(c.tree, x);
  }

  // ---------------------------------------------------------------- the chain of contexts

  lemma ChainSkips(r: Receiver, sub: nat, fuel: nat)
    requires sub < ARENA && sub != 0 && fuel > 0 && r.tab[sub].parent < ARENA
    requires r.tab[sub].escapes == 0 || r.tab[sub].escapes >= r.tab[sub].total
    ensures DecodeChain(r, sub, fuel) == DecodeChain(r, r.tab[sub].parent, fuel - 1)
  {
    hide DecodeSymbol, Decode, Read;
  }

  lemma ChainEscapes(r: Receiver, sub: nat, fuel: nat, rd: Reader)
    requires sub < ARENA && sub != 0 && fuel > 0 && r.tab[sub].parent < ARENA
    requires 0 < r.tab[sub].escapes < r.tab[sub].total <= r.rd.iv.range
    requires Read(r.rd, r.tab[sub].total) < r.tab[sub].escapes
    requires Decode(r.rd, 0, r.tab[sub].escapes, r.tab[sub].total) == Renormal(rd)
    ensures DecodeChain(r, sub, fuel) == DecodeChain(r.(rd := rd), r.tab[sub].parent, fuel - 1)
  {
    hide DecodeSymbol, Decode, Read;
  }

  lemma ChainFinds(r: Receiver, sub: nat, fuel: nat)
    requires sub < ARENA && 0 < r.tab[sub].total <= r.rd.iv.range
    requires sub == 0 || 0 < r.tab[sub].escapes < r.tab[sub].total
    requires Read(r.rd, r.tab[sub].total) >= r.tab[sub].escapes
    ensures DecodeChain(r, sub, fuel)
         == DecodeSymbol(r, sub, Read(r.rd, r.tab[sub].total) - r.tab[sub].escapes)
  {
    hide DecodeSymbol, Decode, Read;
  }

  lemma ChainFinishes(r: Receiver, fuel: nat)
    requires 0 < r.tab[0].total <= r.rd.iv.range
    requires Read(r.rd, r.tab[0].total) < r.tab[0].escapes
    requires Decode(r.rd, 0, r.tab[0].escapes, r.tab[0].total).Renormal?
    ensures DecodeChain(r, 0, fuel) == Finished
  {
    hide DecodeSymbol, Decode, Read;
  }

  /** The escape count is worth coding exactly when the context knows some symbol. */
  lemma EscapesWhenKnown(c: Context)
    requires GoodContext(c, false)
    ensures if c.tree.Node? then EscapeSlot(c) == [Slot(0, c.escapes, c.total)] && 0 < c.escapes < c.total
            else c.escapes == 0 && EscapeSlot(c) == []
  {
  }

  lemma KnownIsNode(t: Tree, x: int)
    requires Has(t, x)
    ensures t.Node?
  {
  }

  /** The fields of one context, read from the arena. */
  lemma ContextAt(tab: Table, loc: Places, b: Book, p: Path)
    requires BookRep(tab, loc, b, Root) && p in b.ctxs
    ensures p in loc && loc[p] < ARENA && (p == Root <==> loc[p] == 0)
    ensures tab[loc[p]].escapes == b.ctxs[p].escapes && tab[loc[p]].total == b.ctxs[p].total
    ensures Suffix(p) in loc && tab[loc[p]].parent == loc[Suffix(p)] && loc[Suffix(p)] < ARENA
  {
    assert EntryRep(tab, loc, p, b.ctxs[p]) && ParentRep(tab, loc, p);
    assert EntryRep(tab, loc, Suffix(p), b.ctxs[Suffix(p)]);
  }

  /** A context that does not know the byte: the decoder goes on to the lower order, in step. */
  lemma DecodeStepsDown(r: Receiver, d: Decoded, loc: Places, b: Book, p: Path, fuel: nat, rest: seq<Slot>)
      returns (r1: Receiver)
    requires GoodBook(b) && StandsR(r, loc, b, Root) && p in b.ctxs && Suffix(p) in b.ctxs && p != Root
    requires GoodContext(b.ctxs[p], false) && fuel > 0
    requires InStep(r.rd, EscapeSlot(b.ctxs[p]) + rest)
    requires d == DecodeChain(r, loc[p], fuel)
    ensures InStep(r1.rd, rest) && r1 == r.(rd := r1.rd)
    ensures d == DecodeChain(r1, loc[Suffix(p)], fuel - 1)
  {
    hide DecodeChain, InStep, Decode, Read, BookRep, GoodContext, GoodBook;
    var c := b.ctxs[p];
    ContextAt(r.tab, loc, b, p);
    EscapesWhenKnown(c);
    if c.tree.Leaf? {
      assert EscapeSlot(c) + rest == rest;
      ChainSkips(r, loc[p], fuel);
      r1 := r;
    } else {
      var rd := TakeSlot(r.rd, Slot(0, c.escapes, c.total), rest);
      ChainEscapes(r, loc[p], fuel, rd);
      r1 := r.(rd := rd);
    }
  }

  lemma DecodeFinds(r: Receiver, d: Decoded, loc: Places, b: Book, p: Path, x: byte, fuel: nat, rest: seq<Slot>)
    requires OnChain(b, p, Root, x) && StandsR(r, loc, b, Root) && b.used < ARENA
    requires p == Root || Has(b.ctxs[p].tree, x)
    requires InStep(r.rd, [SymbolSlot(b.ctxs[p], x, p == Root)] + rest)
    requires d == DecodeChain(r, loc[p], fuel)
    ensures FoundAt(d, r, loc, b, p, x, rest)
  {
    hide DecodeChain, DecodeSymbol, InStep, Decode, Read, BookRep, OnChain, FoundAt, GoodContext, GoodBook;
    ChainFacts(b, p, Root, x);
    var c := b.ctxs[p];
    ContextAt(r.tab, loc, b, p);
    if p != Root {
      KnownIsNode(c.tree, x);
      EscapesWhenKnown(c);
    }
    var s := SymbolSlot(c, x, p == Root);
    var rd := TakeSlot(r.rd, s, rest);
    ChainFinds(r, loc[p], fuel);
    DecodeSymbolRefines(r, loc, b, p, x, Read(r.rd, s.total) - c.escapes, rest);
  }

  lemma {:induction false} DecodeChainRefines(r: Receiver, d: Decoded, loc: Places, b: Book, p: Path, x: byte,
                                              fuel: nat, rest: seq<Slot>)
    requires OnChain(b, p, Root, x) && StandsR(r, loc, b, Root) && b.used < ARENA && Depth(p) <= fuel
    requires InStep(r.rd, Slots(b, p, x) + rest)
    requires d == DecodeChain(r, loc[p], fuel)
    ensures Stop(b, p, x) in b.ctxs && OnChain(b, Stop(b, p, x), Root, x)
    ensures FoundAt(d, r, loc, b, Stop(b, p, x), x, rest)
    decreases Depth(p)
  {
    hide DecodeChain, InStep, BookRep, OnChain, FoundAt, GoodBook, GoodContext;
    ChainFacts(b, p, Root, x);
    if p == Root || Has(b.ctxs[p].tree, x) {
      DecodeFinds(r, d, loc, b, p, x, fuel, rest);
    } else {
      var more := Slots(b, Suffix(p), x) + rest;
      assert Slots(b, p, x) + rest == EscapeSlot(b.ctxs[p]) + more;
      var r1 := DecodeStepsDown(r, d, loc, b, p, fuel, more);
      DecodeChainRefines(r1, d, loc, b, Suffix(p), x, fuel - 1, rest);
      FoundFrom(d, r1, r, loc, b, Stop(b, p, x), x, rest);
    }
  }

  lemma FoundFrom(d: Decoded, r1: Receiver, r: Receiver, loc: Places, b: Book, p: Path, x: byte, rest: seq<Slot>)
    requires p in b.ctxs && FoundAt(d, r1, loc, b, p, x, rest) && r1.predicted == r.predicted && r1.order == r.order
    ensures FoundAt(d, r, loc, b, p, x, rest)
  {
  }

  /** At the end of the coded stream every context reads an escape, and the root ends it. */
  lemma {:induction false} EndIsFound(r: Receiver, loc: Places, b: Book, p: Path, fuel: nat)
    requires OnChain(b, p, Root, 0) && StandsR(r, loc, b, Root) && Depth(p) <= fuel
    requires AtEnd(r.rd)
    ensures p in loc && loc[p] < ARENA && DecodeChain(r, loc[p], fuel) == Finished
    decreases Depth(p)
  {
    hide DecodeChain, AtEnd, Decode, Read, BookRep, OnChain, DecodeSymbol, GoodContext, GoodBook;
    ChainFacts(b, p, Root, 0);
    var c := b.ctxs[p];
    ContextAt(r.tab, loc, b, p);
    EscapeBounds(c, p == Root);
    if p == Root {
      EndReadsZero(r.rd, c.escapes, c.total);
      ChainFinishes(r, fuel);
    } else if c.tree.Leaf? {
      ChainSkips(r, loc[p], fuel);
      EndIsFound(r, loc, b, Suffix(p), fuel - 1);
    } else {
      EndReadsZero(r.rd, c.escapes, c.total);
      var rd := Decode(r.rd, 0, c.escapes, c.total).rd;
      ChainEscapes(r, loc[p], fuel, rd);
      EndIsFound(r.(rd := rd), loc, b, Suffix(p), fuel - 1);
    }
  }

  lemma EscapeBounds(c: Context, root: bool)
    requires GoodContext(c, root)
    ensures c.total < BOTTOM
    ensures root || c.tree.Node? ==> 0 < c.escapes < c.total
    ensures !root && c.tree.Leaf? ==> c.escapes == 0
  {
  }

  // ---------------------------------------------------------------- patching the higher orders

  lemma PatchGoesOn(r: Receiver, patch: nat, stop: nat, link: int, x: byte, bottom: nat, fuel: nat, w: Walk, h: Halving)
    requires patch < ARENA && link < ARENA && bottom < ARENA && patch != stop && fuel > 0
    requires w == ContextEncode(r.tab, r.next, patch, x, Delta(false), Minimum(false)) && w.Walk? && w.symbol < ARENA
    requires h == Settle(LinkTo(w.table, link, w.symbol), patch, w.count, w.count == 0, false) && h.Halving?
    requires h.table[patch].parent < ARENA
    ensures PatchChain(r, patch, stop, link, x, bottom, fuel)
         == PatchChain(r.(tab := h.table, next := w.next, predicted := if link < 0 then w.symbol else r.predicted),
                       h.table[patch].parent, stop, w.symbol, x, bottom, fuel - 1)
  {
    hide ContextEncode, Settle;
  }

  lemma FillEntry(tab: Table, loc: Places, b: Book, hole: Path, link: int, symbol: nat, q: Path)
    requires GoodBook(b) && BookRep(tab, loc, b, hole) && LinkAt(link, loc, hole) && link < ARENA && symbol < ARENA && q in loc
    ensures EntryRep(LinkTo(tab, link, symbol), loc, q, b.ctxs[q])
  {
    hide LinkTo, TreeRep, Link, EntryRep;
    assert EntryRep(tab, loc, q, b.ctxs[q]) && GoodEntry(q, b.ctxs[q]);
    LinkFrame(tab, loc, loc, hole, link, symbol, q, b.ctxs[q]);
  }

  lemma FillParent(tab: Table, loc: Places, b: Book, hole: Path, link: int, symbol: nat, q: Path)
    requires BookRep(tab, loc, b, hole) && LinkAt(link, loc, hole) && link < ARENA && symbol < ARENA && q in loc
    requires hole != Root ==> Suffix(hole) in loc && symbol == loc[Suffix(hole)]
    ensures ParentRep(LinkTo(tab, link, symbol), loc, q)
  {
    hide EntryRep;
    if q != hole || hole == Root { assert ParentRep(tab, loc, q); }
  }

  lemma FillHole(tab: Table, loc: Places, b: Book, hole: Path, link: int, symbol: nat)
    requires GoodBook(b) && BookRep(tab, loc, b, hole) && LinkAt(link, loc, hole) && link < ARENA && symbol < ARENA
    requires hole != Root ==> Suffix(hole) in loc && symbol == loc[Suffix(hole)]
    ensures BookRep(LinkTo(tab, link, symbol), loc, b, Root)
  {
    hide LinkTo, EntryRep, ParentRep;
    forall q <- loc
      ensures EntryRep(LinkTo(tab, link, symbol), loc, q, b.ctxs[q])
      ensures ParentRep(LinkTo(tab, link, symbol), loc, q)
    {
      FillEntry(tab, loc, b, hole, link, symbol, q);
      FillParent(tab, loc, b, hole, link, symbol, q);
    }
  }

  ghost predicate BeforePatch(r: Receiver, loc: Places, b: Book, p: Path, q: Path, hole: Path, link: int, x: byte,
                              bottom: nat, fuel: nat)
  {
    && OnChain(b, p, hole, x) && StandsR(r, loc, b, hole) && b.used + Depth(p) <= ARENA + Depth(q)
    && LinkAt(link, loc, hole) && link < ARENA && Depth(p) <= fuel
    && Stop(b, p, x) == q && q in loc && Ext(q, x) in loc && bottom == loc[Ext(q, x)] && bottom < ARENA
  }

  ghost predicate Patched(o: Option<Receiver>, r: Receiver, loc: Places, loc': Places, b: Book, p: Path, q: Path, link: int, x: byte) {
    && o.Some? && StandsR(o.value, loc', Patch(b, p, q, x), Root)
    && o.value.rd == r.rd && o.value.order == r.order
    && Ext(p, x) in loc' && o.value.predicted == (if link < 0 then loc'[Ext(p, x)] else r.predicted)
    && Extends(loc, loc')
  }

  lemma PatchStepsDown(r: Receiver, o: Option<Receiver>, loc: Places, b: Book, p: Path, q: Path, hole: Path, link: int, x: byte,
                       bottom: nat, fuel: nat) returns (r1: Receiver, loc1: Places)
    requires BeforePatch(r, loc, b, p, q, hole, link, x, bottom, fuel) && p != q
    requires o == PatchChain(r, loc[p], loc[q], link, x, bottom, fuel)
    ensures p != Root && !Has(b.ctxs[p].tree, x) && fuel > 0 && Depth(Suffix(p)) < Depth(p)
    ensures loc1 == loc[Ext(p, x) := b.used] && Extends(loc, loc1) && Suffix(p) in loc1
    ensures StandsR(r1, loc1, LearnAt(b, p, x), Ext(p, x)) && b.used < ARENA
    ensures o == PatchChain(r1, loc1[Suffix(p)], loc1[q], b.used, x, bottom, fuel - 1)
    ensures r1.rd == r.rd && r1.order == r.order && r1.predicted == (if link < 0 then b.used else r.predicted)
  {
    hide PatchChain, ContextEncode, Settle, BookRep, GoodBook, Learn, Has, Stop, EntryRep, LinkTo, Pending, Depth, U16;
    StepDownFacts(b, p, hole, x);
    var w, t1, h := LearnInArena(r.tab, loc, b, p, hole, x, link);
    loc1 := loc[Ext(p, x) := b.used];
    PartsOfBook(r.tab, loc, b, hole, p);
    NotOwnChild(p, x, x);
    PartsOfBook(h.table, loc1, LearnAt(b, p, x), Ext(p, x), p);
    PatchGoesOn(r, loc[p], loc[q], link, x, bottom, fuel, w, h);
    r1 := r.(tab := h.table, next := w.next, predicted := if link < 0 then w.symbol else r.predicted);
  }

  lemma StepDownFacts(b: Book, p: Path, hole: Path, x: byte)
    requires OnChain(b, p, hole, x) && Stop(b, p, x) != p
    ensures p in b.ctxs && p != Root && !Has(b.ctxs[p].tree, x) && Ext(p, x) !in b.ctxs && Depth(Suffix(p)) < Depth(p)
    ensures Suffix(p) in b.ctxs && Stop(LearnAt(b, p, x), Suffix(p), x) == Stop(b, p, x)
    ensures Depth(Stop(b, p, x)) < Depth(p)
    ensures OnChain(LearnAt(b, p, x), Suffix(p), Ext(p, x), x)
    ensures LearnAt(b, p, x).used == b.used + 1 && b.ctxs.Keys <= LearnAt(b, p, x).ctxs.Keys
  {
    ChainStep(b, p, hole, x);
    SuffixDepth(p);
    SlotsUnaffected(b, p, hole, Suffix(p), x);
    StopBelow(b, Suffix(p), x);
    assert Rooted(b.ctxs, p, x);
  }

  lemma PatchEnds(r: Receiver, o: Option<Receiver>, loc: Places, b: Book, q: Path, hole: Path, link: int, x: byte, bottom: nat, fuel: nat)
    requires BeforePatch(r, loc, b, q, q, hole, link, x, bottom, fuel)
    requires o == PatchChain(r, loc[q], loc[q], link, x, bottom, fuel)
    ensures Patched(o, r, loc, loc, b, q, q, link, x)
  {
    FillHole(r.tab, loc, b, hole, link, bottom);
  }

  lemma {:induction false} PatchRefines(r: Receiver, o: Option<Receiver>, loc: Places, b: Book, p: Path, q: Path, hole: Path,
                                        link: int, x: byte, bottom: nat, fuel: nat) returns (loc': Places)
    requires BeforePatch(r, loc, b, p, q, hole, link, x, bottom, fuel)
    requires o == PatchChain(r, loc[p], loc[q], link, x, bottom, fuel)
    ensures Patched(o, r, loc, loc', b, p, q, link, x)
    decreases Depth(p)
  {
    hide PatchChain, BookRep, GoodBook;
    if p == q {
      PatchEnds(r, o, loc, b, q, hole, link, x, bottom, fuel);
      loc' := loc;
    } else {
      StepDownFacts(b, p, hole, x);
      var r1, loc1 := PatchStepsDown(r, o, loc, b, p, q, hole, link, x, bottom, fuel);
      loc' := PatchRefines(r1, o, loc1, LearnAt(b, p, x), Suffix(p), q, Ext(p, x), b.used, x, bottom, fuel - 1);
      PatchJoins(r, r1, o, loc, loc1, loc', b, p, q, link, x);
    }
  }

  lemma PatchJoins(r: Receiver, r1: Receiver, o: Option<Receiver>, loc: Places, loc1: Places, loc': Places, b: Book, p: Path, q: Path,
                   link: int, x: byte)
    requires p in b.ctxs && p != q && p != Root
    requires loc1 == loc[Ext(p, x) := b.used] && Extends(loc, loc1)
    requires r1.rd == r.rd && r1.order == r.order && r1.predicted == (if link < 0 then b.used else r.predicted)
    requires Patched(o, r1, loc1, loc', LearnAt(b, p, x), Suffix(p), q, b.used, x)
    ensures Patched(o, r, loc, loc', b, p, q, link, x)
  {
    hide BookRep, LearnAt;
    SuffixDepth(p);
  }

  // ---------------------------------------------------------------- whole bytes and streams

  ghost predicate ReceiverRep(r: Receiver, loc: Places, m: Model) {
    && GoodModel(m) && StandsR(r, loc, m.book, Root)
    && m.at in loc && r.predicted == loc[m.at] && r.order == Depth(m.at)
  }

  lemma DecodeNextRefines(r: Receiver, loc: Places, b: Book, at: Path, x: byte) returns (n: Receiver, loc': Places)
    requires StandsR(r, loc, b, Root) && Ext(at, x) in loc && r.predicted == loc[Ext(at, x)] && r.order == Depth(at)
    requires GoodModel(Advance(b, at, x)) && Depth(at) <= MAX_ORDER
    ensures DecodeNext(r) == Some(n) && n.rd == r.rd
    ensures ReceiverRep(n, loc', Advance(b, at, x))
  {
    hide EntryRep, GoodModel;
    SuffixDepth(Ext(at, x));
    FreshStands(r.tab);
    assert ParentRep(r.tab, loc, Ext(at, x));
    loc' := if b.used >= ARENA - MAX_ORDER then map[Root := 0] else loc;
    n := DecodeNext(r).value;
  }

  /** Learning at the coding context does not move the place where the chain stops. */
  lemma {:induction false} StopKept(b: Book, p: Path, x: byte)
    requires GoodBook(b) && p in b.ctxs
    requires Stop(b, p, x) in b.ctxs && (Stop(b, p, x) == Root || Has(b.ctxs[Stop(b, p, x)].tree, x))
    ensures p in LearnAt(b, Stop(b, p, x), x).ctxs
    ensures Stop(LearnAt(b, Stop(b, p, x), x), p, x) == Stop(b, p, x)
    decreases Depth(p)
  {
    var q := Stop(b, p, x);
    SuffixDepth(p);
    assert Rooted(b.ctxs, q, x);
    if p == q {
      if p != Root { LearnKeepsGood(b.ctxs[p], x, false) by { assert GoodEntry(p, b.ctxs[p]); } }
    } else {
      assert LearnAt(b, q, x).ctxs[p] == b.ctxs[p];
      StopKept(b, Suffix(p), x);
    }
  }

  lemma PatchReady(d: Decoded, r: Receiver, loc: Places, b: Book, p: Path, x: byte, rest: seq<Slot>)
    requires OnChain(b, p, Root, x) && b.used + Depth(p) < ARENA && Placed(loc, b.used) && loc.Keys == b.ctxs.Keys
    requires OnChain(b, Stop(b, p, x), Root, x)
    requires Stop(b, p, x) == Root || Has(b.ctxs[Stop(b, p, x)].tree, x)
    requires FoundAt(d, r, loc, b, Stop(b, p, x), x, rest)
    ensures var q := Stop(b, p, x);
            BeforePatch(d.r, Grown(loc, q, x, Has(b.ctxs[q].tree, x), b.used), LearnAt(b, q, x), p, q, Root, -1, x, d.bottom, ARENA)
  {
    hide BookRep, InStep, GoodBook;
    var q := Stop(b, p, x);
    ChainFacts(b, p, Root, x);
    ChainStep(b, q, Root, x);
    StopKept(b, p, x);
    GrownPlaced(loc, b, q, x);
    LearnAtKeepsGood(b, q, x);
  }

  /** Decoding found the byte; patching brings the contexts where the encoder's are. */
  lemma PatchAfterFind(d: Decoded, r: Receiver, loc: Places, b: Book, p: Path, x: byte, rest: seq<Slot>, o: Option<Receiver>)
      returns (loc': Places)
    requires OnChain(b, p, Root, x) && b.used + Depth(p) < ARENA && p in loc && loc[p] < ARENA
    requires OnChain(b, Stop(b, p, x), Root, x) && StandsR(r, loc, b, Root)
    requires FoundAt(d, r, loc, b, Stop(b, p, x), x, rest)
    requires o == PatchChain(d.r, loc[p], d.stop, -1, x, d.bottom, ARENA)
    ensures o.Some? && StandsR(o.value, loc', Train(b, p, x), Root) && InStep(o.value.rd, rest)
    ensures Ext(p, x) in loc' && o.value.predicted == loc'[Ext(p, x)] && o.value.order == r.order
  {
    hide PatchChain, InStep, Learn, Has, Stop, EntryRep, ParentRep, Placed;
    var q := Stop(b, p, x);
    PatchEqualsTrain(b, p, Root, x);
    var b1 := LearnAt(b, q, x);
    var loc1 := Grown(loc, q, x, Has(b.ctxs[q].tree, x), b.used);
    PatchReady(d, r, loc, b, p, x, rest);
    loc' := PatchRefines(d.r, o, loc1, b1, p, q, Root, -1, x, d.bottom, ARENA);
  }

  lemma ByteUnfolds(r: Receiver, room: nat, d: Decoded, o: Option<Receiver>, n: Receiver)
    requires r.predicted < ARENA
    requires d == DecodeChain(r, r.predicted, ARENA) && d.Byte? && d.bottom < ARENA
    requires o == PatchChain(d.r, r.predicted, d.stop, -1, d.value, d.bottom, ARENA) && o.Some?
    requires DecodeNext(o.value) == Some(n)
    ensures DecodeAll(r, room) == if room == 0 then Zero else Prepend(d.value, DecodeAll(n, room - 1))
  {
    hide DecodeChain, PatchChain, DecodeNext;
  }

  /** One byte of the stream: it is the next input byte, and the decoder stays in step. */
  lemma DecodeByteRefines(r: Receiver, loc: Places, m: Model, x: byte, rest: seq<Slot>, room: nat)
      returns (n: Receiver, loc': Places)
    requires ReceiverRep(r, loc, m)
    requires InStep(r.rd, Slots(m.book, m.at, x) + rest)
    ensures DecodeAll(r, room) == if room == 0 then Zero else Prepend(x, DecodeAll(n, room - 1))
    ensures ReceiverRep(n, loc', Step(m, x)) && InStep(n.rd, rest)
  {
    hide DecodeChain, PatchChain, DecodeNext, DecodeAll, InStep, BookRep, GoodBook;
    StepKeepsGood(m, x);
    var b, p := m.book, m.at;
    ByteStart(r, loc, m);
    var d := DecodeChain(r, r.predicted, ARENA);
    DecodeChainRefines(r, d, loc, b, p, x, ARENA, rest);
    var o := PatchChain(d.r, r.predicted, d.stop, -1, x, d.bottom, ARENA);
    var loc1 := PatchAfterFind(d, r, loc, b, p, x, rest, o);
    n, loc' := DecodeNextRefines(o.value, loc1, Train(b, p, x), p, x);
    ByteUnfolds(r, room, d, o, n);
  }

  lemma ByteStart(r: Receiver, loc: Places, m: Model)
    requires ReceiverRep(r, loc, m)
    ensures r.predicted < ARENA && m.book.used < ARENA && m.book.used + Depth(m.at) < ARENA
  {
  }

  function WithRoom(input: seq<byte>, room: nat): Outcome {
    if |input| <= room then Delivered(input) else Zero
  }

  lemma {:induction false} DecodeAllRefines(r: Receiver, loc: Places, m: Model, input: seq<byte>, room: nat)
    requires ReceiverRep(r, loc, m) && InStep(r.rd, AllSlots(m, input))
    ensures DecodeAll(r, room) == WithRoom(input, room)
    decreases |input|
  {
    hide DecodeChain, PatchChain, DecodeNext, InStep, BookRep, GoodBook, Slots, Step;
    if input == [] {
      EndIsFound(r, loc, m.book, m.at, ARENA);
    } else {
      var x := input[0];
      StepKeepsGood(m, x);
      var n, loc' := DecodeByteRefines(r, loc, m, x, AllSlots(Step(m, x), input[1..]), room);
      if room > 0 {
        DecodeAllRefines(n, loc', Step(m, x), input[1..], room - 1);
        assert [x] + input[1..] == input;
      }
    }
  }

  /** Compression never shrinks a non-empty input to nothing: the first escape unit is never coded. */
  lemma OutputIsNotEmpty(input: seq<byte>)
    ensures Compressed(input) == [] <==> input == []
  {
    EmptyIsGood();
    AllSlotsValid(EMPTY, input);
    SeedIsInStep([]);
    if input != [] {
      StepKeepsGood(EMPTY, input[0]);
      var slots := AllSlots(EMPTY, input);
      var s := slots[0];
      assert s == SymbolSlot(FRESH_ROOT, input[0], true) && s.under >= 1;
      LowerEndCounts(slots);
    }
  }

  lemma LowerEndCounts(slots: seq<Slot>)
    requires slots != [] && (forall s <- slots :: ValidSlot(s)) && slots[0].under > 0 && Ready(START)
    ensures Encode(slots, START) != []
  {
    var s := slots[0];
    SliceStaysInside(START, s);
    var cut := Slice(START, s.under, s.count, s.total);
    NormaliseKeepsInterval(cut);
    var n := Normalise(cut);
    OutputPointsInside(slots[1..], n.iv);
    WordBeforeNormalise(cut, Encode(slots[1..], n.iv));
    MulMono(1, s.under, START.range / s.total);
    assert Word([]) == 0;
  }

  /** The decompressor inverts the coded form, whatever its arena held before; without room for the
      whole input it returns 0. */
  lemma DecompressorInverts(t: Table, input: seq<byte>, room: nat)
    requires input != []
    ensures DecompressBytes(t, Compressed(input), room) == WithRoom(input, room)
  {
    hide DecodeAll, AllSlots, BookRep;
    EmptyIsGood();
    FreshStands(t);
    AllSlotsValid(EMPTY, input);
    SeedIsInStep(AllSlots(EMPTY, input));
    OutputIsNotEmpty(input);
    DecodeAllRefines(FirstReceiver(t, Compressed(input)), map[Root := 0], EMPTY, input, room);
  }

  /** Compression round trip, over two arenas with unrelated old contents. */
  lemma CompressionRoundTrip(t1: Table, t2: Table, input: seq<byte>, room: nat)
    requires input != [] && |input| <= room
    ensures var c := CompressBytes(t1, input);
            c.Some? && c.value != [] && DecompressBytes(t2, c.value, room) == Delivered(input)
  {
    hide CompressBytes, DecompressBytes, Compressed;
    CompressorWritesCodedForm(t1, input);
    OutputIsNotEmpty(input);
    DecompressorInverts(t2, input, room);
  }
}
