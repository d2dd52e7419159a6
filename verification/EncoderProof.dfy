/** The compressor never breaks, and writes exactly the coded form of its input. */
module EncoderProof {
  import opened Numbers
  import opened RangeCoder
  import opened SymbolTree
  import opened PpmModel
  import opened Arena
  import opened ArenaTrees
  import opened ArenaBooks
  import opened Coders

  lemma EmitWrites(s: Sender, slot: Slot, rest: seq<Slot>)
    requires s.Sender? && Ready(s.iv) && ValidSlot(slot) && forall r <- rest :: ValidSlot(r)
    ensures var e := Emit(s, slot.under, slot.count, slot.total);
            && e.Sender? && Ready(e.iv) && e == s.(iv := e.iv, out := e.out)
            && s.out + Encode([slot] + rest, s.iv) == e.out + Encode(rest, e.iv)
  {
    SliceStaysInside(s.iv, slot);
    NormaliseKeepsInterval(Slice(s.iv, slot.under, slot.count, slot.total));
    var n := Normalise(Slice(s.iv, slot.under, slot.count, slot.total));
    assert ([slot] + rest)[1..] == rest;
    assert Encode([slot] + rest, s.iv) == n.out + Encode(rest, n.iv);
    assert s.out + (n.out + Encode(rest, n.iv)) == (s.out + n.out) + Encode(rest, n.iv);
  }

  /** The slots that one context of the chain contributes. */
  function SlotsHere(c: Context, x: byte, root: bool): seq<Slot> {
    if root || Has(c.tree, x) then [SymbolSlot(c, x, root)] else EscapeSlot(c)
  }

  /** The encoder's registers and arena stand for model contexts `b`. */
  ghost predicate Stands(s: Sender, loc: Places, b: Book, hole: Path) {
    s.Sender? && BookRep(s.tab, loc, b, hole) && s.next == b.used && Ready(s.iv)
  }

  /** Going from `s` to `e` has written `slots`, whatever is still to come. */
  ghost predicate Writes(s: Sender, e: Sender, slots: seq<Slot>, rest: seq<Slot>) {
    && s.Sender? && e.Sender? && Ready(s.iv) && Ready(e.iv)
    && (forall r <- slots + rest :: ValidSlot(r)) && (forall r <- rest :: ValidSlot(r))
    && s.out + Encode(slots + rest, s.iv) == e.out + Encode(rest, e.iv)
  }

  lemma EmitAtWrites(s: Sender, sub: nat, c: Context, x: byte, under: u16, count: u16, rest: seq<Slot>)
    requires s.Sender? && sub < ARENA && Ready(s.iv) && GoodContext(c, sub == 0)
    requires s.tab[sub].escapes == c.escapes && s.tab[sub].total == c.total
    requires under == x * Minimum(sub == 0) + Below(c.tree, x) && count == Minimum(sub == 0) + Weight(c.tree, x)
    requires forall r <- rest :: ValidSlot(r)
    ensures var e := EmitAt(s, sub, under, count);
            Writes(s, e, SlotsHere(c, x, sub == 0), rest) && e == s.(iv := e.iv, out := e.out)
  {
    hide Slice, Normalise, Ready, GoodContext, Encode;
    if sub == 0 || Has(c.tree, x) {
      SymbolSlotValid(c, x, sub == 0);
      EmitWrites(s, SymbolSlot(c, x, sub == 0), rest);
    } else if 0 < c.escapes < c.total {
      EmitWrites(s, Slot(0, c.escapes, c.total), rest);
    } else {
      assert EscapeSlot(c) + rest == rest;
    }
  }

  lemma EncodeAtUnfolds(s: Sender, sub: nat, link: int, x: byte, w: Walk, e: Sender, h: Halving)
    requires s.Sender? && sub < ARENA && link < ARENA
    requires w == ContextEncode(s.tab, s.next, sub, x, Delta(sub == 0), Minimum(sub == 0)) && w.Walk? && w.symbol < ARENA
    requires e == EmitAt(Follow(s.(tab := w.table, next := w.next), link, w.symbol), sub, w.under, w.count) && e.Sender?
    requires h == Settle(e.tab, sub, w.count, sub != 0 && w.count == 0, sub == 0) && h.Halving?
    ensures EncodeAt(s, sub, link, x) == (e.(tab := h.table), w.symbol, w.count)
  {
  }

  lemma RootAtZero(tab: Table, loc: Places, b: Book, hole: Path, p: Path)
    requires BookRep(tab, loc, b, hole) && p in b.ctxs
    ensures p == Root <==> loc[p] == 0
  {
  }

  /** One context of the chain: it codes its slots, learns the byte, and fills the pending link. */
  lemma EncodeAtRefines(s: Sender, loc: Places, b: Book, p: Path, hole: Path, link: int, x: byte, rest: seq<Slot>)
      returns (e: Sender, symbol: nat, count: u16)
    requires OnChain(b, p, hole, x) && Stands(s, loc, b, hole) && b.used < ARENA
    requires LinkAt(link, loc, hole) && link < ARENA
    requires forall r <- rest :: ValidSlot(r)
    ensures EncodeAt(s, loc[p], link, x) == (e, symbol, count)
    ensures Stands(e, Grown(loc, p, x, Has(b.ctxs[p].tree, x), b.used), LearnAt(b, p, x), NextHole(b, p, x))
    ensures symbol < ARENA && symbol == NodeOf(loc, b, p, x)
    ensures count > 0 <==> p == Root || Has(b.ctxs[p].tree, x)
    ensures e.order == s.order && e.predicted == (if link < 0 then symbol else s.predicted)
    ensures Writes(s, e, SlotsHere(b.ctxs[p], x, p == Root), rest)
  {
    RootAtZero(s.tab, loc, b, hole, p);
    assert GoodContext(b.ctxs[p], p == Root) by { assert GoodEntry(p, b.ctxs[p]); }
    var w, t1, h := LearnInArena(s.tab, loc, b, p, hole, x, link);
    e := EncodeAtWith(s, loc[p], link, x, b.ctxs[p], rest, w, t1, h);
    symbol, count := w.symbol, w.count;
  }

  lemma EncodeAtWith(s: Sender, sub: nat, link: int, x: byte, c: Context, rest: seq<Slot>, w: Walk, t1: Table, h: Halving)
      returns (e: Sender)
    requires s.Sender? && sub < ARENA && link < ARENA && Ready(s.iv)
    requires w == ContextEncode(s.tab, s.next, sub, x, Delta(sub == 0), Minimum(sub == 0)) && w.Walk? && w.symbol < ARENA
    requires t1 == LinkTo(w.table, link, w.symbol)
    requires h == Settle(t1, sub, w.count, sub != 0 && w.count == 0, sub == 0) && h.Halving?
    requires GoodContext(c, sub == 0) && t1[sub].escapes == c.escapes && t1[sub].total == c.total
    requires w.under == x * Minimum(sub == 0) + Below(c.tree, x) && w.count == Minimum(sub == 0) + Weight(c.tree, x)
    requires forall r <- rest :: ValidSlot(r)
    ensures EncodeAt(s, sub, link, x) == (e, w.symbol, w.count)
    ensures Writes(s, e, SlotsHere(c, x, sub == 0), rest)
    ensures e.tab == h.table && e.next == w.next && e.order == s.order
    ensures e.predicted == (if link < 0 then w.symbol else s.predicted)
  {
    var f := Follow(s.(tab := w.table, next := w.next), link, w.symbol);
    EmitAtWrites(f, sub, c, x, w.under, w.count, rest);
    var g := EmitAt(f, sub, w.under, w.count);
    EncodeAtUnfolds(s, sub, link, x, w, g, h);
    e := g.(tab := h.table);
  }

  lemma WritesBoth(s: Sender, e1: Sender, e2: Sender, first: seq<Slot>, second: seq<Slot>, rest: seq<Slot>)
    requires Writes(s, e1, first, second + rest) && Writes(e1, e2, second, rest)
    ensures Writes(s, e2, first + second, rest)
  {
    assert (first + second) + rest == first + (second + rest);
  }

  lemma ChainUnfolds(s: Sender, sub: nat, link: int, x: byte, fuel: nat, e1: Sender, symbol: nat, count: u16)
    requires s.Sender? && sub < ARENA && link < ARENA && EncodeAt(s, sub, link, x) == (e1, symbol, count) && e1.Sender?
    ensures sub == 0 || count > 0 ==> EncodeChain(s, sub, link, x, fuel) == e1
    ensures sub != 0 && count == 0 && fuel > 0 && e1.tab[sub].parent < ARENA && symbol < ARENA ==>
            EncodeChain(s, sub, link, x, fuel) == EncodeChain(e1, e1.tab[sub].parent, symbol, x, fuel - 1)
  {
  }

  /** What a walk down the chain has achieved. */
  ghost predicate Chained(s: Sender, e: Sender, loc': Places, b: Book, p: Path, link: int, x: byte, rest: seq<Slot>)
    requires p in b.ctxs
  {
    && Stands(e, loc', Train(b, p, x), Root)
    && s.Sender? && e.order == s.order
    && Ext(p, x) in loc' && e.predicted == (if link < 0 then loc'[Ext(p, x)] else s.predicted)
    && Writes(s, e, Slots(b, p, x), rest)
  }

  ghost predicate Extends(loc: Places, loc': Places) {
    forall q <- loc :: q in loc' && loc'[q] == loc[q]
  }

  /** The last context of the chain. */
  lemma ChainEnds(s: Sender, e: Sender, loc: Places, b: Book, p: Path, hole: Path, link: int, x: byte, fuel: nat, rest: seq<Slot>)
      returns (loc': Places)
    requires OnChain(b, p, hole, x) && Stands(s, loc, b, hole) && b.used < ARENA
    requires LinkAt(link, loc, hole) && link < ARENA
    requires forall r <- rest :: ValidSlot(r)
    requires p == Root || Has(b.ctxs[p].tree, x)
    requires e == EncodeChain(s, loc[p], link, x, fuel)
    ensures Chained(s, e, loc', b, p, link, x, rest) && Extends(loc, loc')
  {
    hide EncodeAt, Encode, Writes, EntryRep, GoodBook, BookRep;
    RootAtZero(s.tab, loc, b, hole, p);
    KnownIsPlaced(loc, b, p, hole, s.tab, x);
    var e1, symbol, count := EncodeAtRefines(s, loc, b, p, hole, link, x, rest);
    ChainUnfolds(s, loc[p], link, x, fuel, e1, symbol, count);
    loc' := Grown(loc, p, x, Has(b.ctxs[p].tree, x), b.used);
  }

  lemma KnownIsPlaced(loc: Places, b: Book, p: Path, hole: Path, tab: Table, x: byte)
    requires GoodBook(b) && p in b.ctxs && BookRep(tab, loc, b, hole)
    ensures p in loc && loc[p] < ARENA && (Has(b.ctxs[p].tree, x) <==> Ext(p, x) in loc)
  {
    assert EntryRep(tab, loc, p, b.ctxs[p]);
    assert Rooted(b.ctxs, p, x);
  }

  /** A context that does not have the byte: the chain goes on at its lower order. */
  lemma ChainStepsDown(s: Sender, e: Sender, loc: Places, b: Book, p: Path, hole: Path, link: int, x: byte, fuel: nat, rest: seq<Slot>)
      returns (e1: Sender, loc1: Places, symbol: nat)
    requires OnChain(b, p, hole, x) && Stands(s, loc, b, hole) && b.used < ARENA
    requires LinkAt(link, loc, hole) && link < ARENA && fuel > 0
    requires forall r <- rest :: ValidSlot(r)
    requires p != Root && !Has(b.ctxs[p].tree, x)
    requires e == EncodeChain(s, loc[p], link, x, fuel)
    ensures loc1 == loc[Ext(p, x) := b.used] && Extends(loc, loc1) && Suffix(p) in loc1 && loc1[Suffix(p)] < ARENA
    ensures symbol == b.used < ARENA && LinkAt(symbol, loc1, Ext(p, x))
    ensures Stands(e1, loc1, LearnAt(b, p, x), Ext(p, x))
    ensures e == EncodeChain(e1, loc1[Suffix(p)], symbol, x, fuel - 1)
    ensures e1.order == s.order && e1.predicted == (if link < 0 then symbol else s.predicted)
    ensures Writes(s, e1, EscapeSlot(b.ctxs[p]), rest)
  {
    hide EncodeAt, Encode, Writes, EntryRep;
    RootAtZero(s.tab, loc, b, hole, p);
    KnownIsPlaced(loc, b, p, hole, s.tab, x);
    hide GoodBook;
    var count;
    e1, symbol, count := EncodeAtRefines(s, loc, b, p, hole, link, x, rest);
    loc1 := loc[Ext(p, x) := b.used];
    NotOwnChild(p, x, x);
    assert ParentRep(e1.tab, loc1, p);
    ChainUnfolds(s, loc[p], link, x, fuel, e1, symbol, count);
  }

  /** Everything the chain needs before context `p`. */
  ghost predicate BeforeChain(s: Sender, loc: Places, b: Book, p: Path, hole: Path, link: int, x: byte, fuel: nat) {
    && OnChain(b, p, hole, x) && Stands(s, loc, b, hole) && b.used + Depth(p) < ARENA
    && LinkAt(link, loc, hole) && link < ARENA && Depth(p) <= fuel
  }

  lemma NextBefore(s: Sender, e1: Sender, loc: Places, loc1: Places, b: Book, p: Path, hole: Path, link: int, symbol: nat, x: byte, fuel: nat)
    requires BeforeChain(s, loc, b, p, hole, link, x, fuel)
    requires p != Root && !Has(b.ctxs[p].tree, x)
    requires Stands(e1, loc1, LearnAt(b, p, x), Ext(p, x)) && LinkAt(symbol, loc1, Ext(p, x)) && symbol < ARENA
    ensures fuel > 0 && Suffix(p) in b.ctxs
    ensures BeforeChain(e1, loc1, LearnAt(b, p, x), Suffix(p), Ext(p, x), symbol, x, fuel - 1)
    ensures Depth(Suffix(p)) < Depth(p)
  {
    ChainStep(b, p, hole, x);
    SuffixDepth(p);
  }

  lemma {:induction false} EncodeChainRefines(s: Sender, e: Sender, loc: Places, b: Book, p: Path, hole: Path, link: int, x: byte,
                                              fuel: nat, rest: seq<Slot>) returns (loc': Places)
    requires BeforeChain(s, loc, b, p, hole, link, x, fuel)
    requires forall r <- rest :: ValidSlot(r)
    requires e == EncodeChain(s, loc[p], link, x, fuel)
    ensures Chained(s, e, loc', b, p, link, x, rest) && Extends(loc, loc')
    decreases Depth(p)
  {
    hide EncodeChain, EncodeAt, BookRep, Encode, Writes, LinkAt, GoodBook;
    if p == Root || Has(b.ctxs[p].tree, x) {
      loc' := ChainEnds(s, e, loc, b, p, hole, link, x, fuel, rest);
    } else {
      assert Suffix(p) in b.ctxs && fuel > 0 by { ChainStep(b, p, hole, x); }
      SlotsValid(b, Suffix(p), x);
      var e1, loc1, symbol := ChainStepsDown(s, e, loc, b, p, hole, link, x, fuel, Slots(b, Suffix(p), x) + rest);
      NextBefore(s, e1, loc, loc1, b, p, hole, link, symbol, x, fuel);
      loc' := EncodeChainRefines(e1, e, loc1, LearnAt(b, p, x), Suffix(p), Ext(p, x), symbol, x, fuel - 1, rest);
      ChainJoins(s, e1, e, loc1, loc', b, p, hole, link, symbol, x, rest);
    }
  }

  lemma ChainJoins(s: Sender, e1: Sender, e: Sender, loc1: Places, loc': Places, b: Book, p: Path, hole: Path,
                   link: int, symbol: nat, x: byte, rest: seq<Slot>)
    requires OnChain(b, p, hole, x) && p != Root && !Has(b.ctxs[p].tree, x) && Suffix(p) in b.ctxs
    requires s.Sender? && e1.Sender? && e1.order == s.order && e1.predicted == (if link < 0 then symbol else s.predicted)
    requires Writes(s, e1, EscapeSlot(b.ctxs[p]), Slots(b, Suffix(p), x) + rest)
    requires Ext(p, x) in loc1 && loc1[Ext(p, x)] == symbol && Extends(loc1, loc')
    requires Suffix(p) in LearnAt(b, p, x).ctxs
    requires Chained(e1, e, loc', LearnAt(b, p, x), Suffix(p), symbol, x, rest)
    ensures Chained(s, e, loc', b, p, link, x, rest)
  {
    SuffixDepth(p);
    SlotsUnaffected(b, p, hole, Suffix(p), x);
    WritesBoth(s, e1, e, EscapeSlot(b.ctxs[p]), Slots(b, Suffix(p), x), rest);
  }

  // ---------------------------------------------------------------- whole bytes and inputs

  /** A freshly reset arena stands for the empty model. */
  lemma FreshStands(t: Table)
    ensures BookRep(FreshArena(t), map[Root := 0], FIRST_BOOK, Root)
  {
    var tab, loc := FreshArena(t), map[Root := 0];
    assert EntryRep(tab, loc, Root, FRESH_ROOT);
    assert ParentRep(tab, loc, Root);
  }

  ghost predicate SenderRep(s: Sender, loc: Places, m: Model) {
    && GoodModel(m) && Stands(s, loc, m.book, Root)
    && m.at in loc && s.predicted == loc[m.at] && s.order == Depth(m.at)
  }

  lemma EncodeNextRefines(s: Sender, loc: Places, b: Book, at: Path, x: byte) returns (loc': Places)
    requires Stands(s, loc, b, Root) && Ext(at, x) in loc && s.predicted == loc[Ext(at, x)] && s.order == Depth(at)
    requires GoodModel(Advance(b, at, x)) && Depth(at) <= MAX_ORDER
    ensures SenderRep(EncodeNext(s), loc', Advance(b, at, x))
    ensures EncodeNext(s) == s.(tab := EncodeNext(s).tab, next := EncodeNext(s).next, predicted := EncodeNext(s).predicted,
                                order := EncodeNext(s).order)
  {
    hide Encode, EntryRep, GoodModel;
    SuffixDepth(Ext(at, x));
    FreshStands(s.tab);
    assert ParentRep(s.tab, loc, Ext(at, x));
    loc' := if b.used >= ARENA - MAX_ORDER then map[Root := 0] else loc;
  }

  /** One input byte: the arena follows the model, and the byte's slots are written. */
  lemma EncodeByteRefines(s: Sender, loc: Places, m: Model, x: byte, rest: seq<Slot>) returns (loc': Places)
    requires SenderRep(s, loc, m)
    requires forall r <- rest :: ValidSlot(r)
    ensures SenderRep(EncodeByte(s, x), loc', Step(m, x))
    ensures Writes(s, EncodeByte(s, x), Slots(m.book, m.at, x), rest)
  {
    hide EncodeChain, Encode, BookRep, GoodBook;
    StepKeepsGood(m, x);
    ByteBefore(s, loc, m, x);
    var e := EncodeChain(s, s.predicted, -1, x, ARENA);
    var loc1 := EncodeChainRefines(s, e, loc, m.book, m.at, Root, -1, x, ARENA, rest);
    loc' := EncodeNextRefines(e, loc1, Train(m.book, m.at, x), m.at, x);
    SameWrites(s, e, EncodeNext(e), Slots(m.book, m.at, x), rest);
  }

  lemma ByteBefore(s: Sender, loc: Places, m: Model, x: byte)
    requires SenderRep(s, loc, m) && OnChain(m.book, m.at, Root, x)
    ensures BeforeChain(s, loc, m.book, m.at, Root, -1, x, ARENA) && s.predicted < ARENA
  {
  }

  lemma SameWrites(s: Sender, e: Sender, n: Sender, slots: seq<Slot>, rest: seq<Slot>)
    requires Writes(s, e, slots, rest) && n.Sender? && n.iv == e.iv && n.out == e.out
    ensures Writes(s, n, slots, rest)
  {
  }

  lemma WritesNothing(s: Sender)
    requires s.Sender? && Ready(s.iv)
    ensures Writes(s, s, [], [])
  {
    var none: seq<Slot> := [];
    assert none + none == none;
  }

  lemma {:induction false} EncodeAllRefines(s: Sender, loc: Places, m: Model, input: seq<byte>)
    requires SenderRep(s, loc, m)
    ensures Writes(s, EncodeAll(s, input), AllSlots(m, input), [])
    decreases |input|
  {
    hide EncodeByte, Slots, BookRep, GoodBook, Encode, Step;
    if input == [] {
      WritesNothing(s);
    } else {
      var x := input[0];
      StepKeepsGood(m, x);
      var more := AllSlots(Step(m, x), input[1..]);
      AllSlotsValid(Step(m, x), input[1..]);
      var loc' := EncodeByteRefines(s, loc, m, x, more);
      EncodeAllRefines(EncodeByte(s, x), loc', Step(m, x), input[1..]);
      assert more == more + [];
      WritesBoth(s, EncodeByte(s, x), EncodeAll(s, input), Slots(m.book, m.at, x), more, []);
    }
  }

  /** The compressor never leaves its arena, never divides by zero and never spins: whatever the
      arena held before, it writes the coded form of its input. */
  lemma CompressorWritesCodedForm(t: Table, input: seq<byte>)
    ensures CompressBytes(t, input) == Some(Compressed(input))
  {
    hide EncodeAll, AllSlots;
    EmptyIsGood();
    FreshStands(t);
    SeedIsInStep([]);
    var s := FirstSender(t);
    EncodeAllRefines(s, map[Root := 0], EMPTY, input);
    var e := EncodeAll(s, input);
    assert AllSlots(EMPTY, input) + [] == AllSlots(EMPTY, input);
    assert [] + Encode(AllSlots(EMPTY, input), START) == Encode(AllSlots(EMPTY, input), START);
  }
}
