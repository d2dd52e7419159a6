/** What the model of enet-1.3.3/compress.c is, said of the input alone: which context a byte is coded in,
    which contexts learn it and by how much, and when everything starts afresh. */
module PpmMeaning {
  import opened Numbers
  import opened RangeCoder
  import opened SymbolTree
  import opened PpmModel

  // ---------------------------------------------------------------- which context

  /** The model after an input. */
  function Run(m: Model, input: seq<byte>): Model
    requires m.at in m.book.ctxs
    decreases |input|
  {
    if input == [] || Step(m, input[0]).at !in Step(m, input[0]).book.ctxs then m
    else Run(Step(m, input[0]), input[1..])
  }

  /** The context of the last two bytes, the older one first, or of the last one when there is no other. */
  function LastBytes(s: seq<byte>): Path {
    if |s| == 0 then Root
    else if |s| == 1 then Ext(Root, s[0])
    else Ext(Ext(Root, s[|s| - 2]), s[|s| - 1])
  }

  /** The nodes that are used when the byte has been learned. */
  function NodesAfter(m: Model, x: byte): nat {
    if m.at in m.book.ctxs then |Train(m.book, m.at, x).ctxs| else 0
  }

  /** The bytes since everything last started afresh. */
  function SinceReset(input: seq<byte>): seq<byte> {
    if input == [] then []
    else
      var front, x := input[..|input| - 1], input[|input| - 1];
      RunIsGood(EMPTY, front);
      if NodesAfter(Run(EMPTY, front), x) >= 4094 then [] else SinceReset(front) + [x]
  }

  ghost predicate Exact(m: Model) {
    GoodModel(m) && m.book.used == |m.book.ctxs|
  }

  lemma {:induction false} TrainCounts(b: Book, p: Path, hole: Path, x: byte)
    requires OnChain(b, p, hole, x) && b.used == |b.ctxs|
    ensures Train(b, p, x).used == |Train(b, p, x).ctxs|
    decreases Depth(p)
  {
    ChainStep(b, p, hole, x);
    SuffixDepth(p);
    LearnAtCounts(b, p, x);
    if p != Root && !Has(b.ctxs[p].tree, x) { TrainCounts(LearnAt(b, p, x), Suffix(p), Ext(p, x), x); }
  }

  lemma LearnAtCounts(b: Book, p: Path, x: byte)
    requires GoodBook(b) && p in b.ctxs && b.used == |b.ctxs|
    ensures LearnAt(b, p, x).used == |LearnAt(b, p, x).ctxs|
  {
    hide Learn;
    assert Rooted(b.ctxs, p, x);
    var m := b.ctxs[p := Learn(b.ctxs[p], x, p == Root)];
    assert m.Keys == b.ctxs.Keys;
    assert |m| == |m.Keys| == |b.ctxs.Keys| == |b.ctxs|;
    if !Has(b.ctxs[p].tree, x) {
      var n := m[Ext(p, x) := FRESH];
      assert n.Keys == m.Keys + {Ext(p, x)};
      assert |n| == |n.Keys|;
    }
  }

  lemma EmptyIsExact()
    ensures Exact(EMPTY)
  {
    EmptyIsGood();
    assert FIRST_BOOK.ctxs.Keys == {Root};
    assert |FIRST_BOOK.ctxs| == |FIRST_BOOK.ctxs.Keys|;
  }

  /** A step starts afresh exactly when less than two of the 4096 nodes are left. */
  lemma ResetsExactly(m: Model, x: byte)
    requires Exact(m)
    ensures Exact(Step(m, x))
    ensures Step(m, x) == EMPTY <==> NodesAfter(m, x) >= 4094
  {
    StepKeepsGood(m, x);
    TrainCounts(m.book, m.at, Root, x);
    EmptyIsExact();
    SuffixDepth(Ext(m.at, x));
    hide Train;
  }

  /** Otherwise the byte joins the context, and from the third one on the oldest is forgotten. */
  lemma StepMoves(m: Model, x: byte)
    requires Exact(m) && NodesAfter(m, x) < 4094
    ensures m.at == Root ==> Step(m, x).at == Ext(Root, x)
    ensures m.at != Root ==> Step(m, x).at == Ext(Ext(Root, m.at.value), x)
  {
    hide Train;
    StepKeepsGood(m, x);
    TrainCounts(m.book, m.at, Root, x);
    if m.at != Root && m.at.ctx != Root {
      assert Depth(m.at) == 1 + Depth(m.at.ctx) == 2 + Depth(m.at.ctx.ctx);
      assert Suffix(m.at.ctx) == Root && Suffix(m.at) == Ext(Root, m.at.value);
      assert Suffix(Ext(m.at, x)) == Ext(Suffix(m.at), x);
    }
  }

  /** Two bytes without a reset: the next one is coded in their context. */
  lemma TwoBytesLater(m: Model, a: byte, b: byte)
    requires Exact(m) && NodesAfter(m, a) < 4094 && NodesAfter(Step(m, a), b) < 4094
    ensures Exact(Step(m, a)) && Step(Step(m, a), b).at == Ext(Ext(Root, a), b)
  {
    ResetsExactly(m, a);
    StepMoves(m, a);
    StepMoves(Step(m, a), b);
  }

  lemma {:induction false} RunIsGood(m: Model, input: seq<byte>)
    requires GoodModel(m)
    ensures GoodModel(Run(m, input))
    decreases |input|
  {
    if input != [] {
      StepKeepsGood(m, input[0]);
      RunIsGood(Step(m, input[0]), input[1..]);
    }
  }

  lemma {:induction false} RunIsExact(m: Model, input: seq<byte>)
    requires Exact(m)
    ensures Exact(Run(m, input))
    decreases |input|
  {
    if input != [] {
      ResetsExactly(m, input[0]);
      hide Step;
      RunIsExact(Step(m, input[0]), input[1..]);
    }
  }

  lemma {:induction false} RunMore(m: Model, input: seq<byte>, x: byte)
    requires GoodModel(m)
    ensures GoodModel(Run(m, input)) && Run(m, input + [x]) == Step(Run(m, input), x)
    ensures AllSlots(m, input + [x]) == AllSlots(m, input) + Slots(Run(m, input).book, Run(m, input).at, x)
    decreases |input|
  {
    hide Step, Slots;
    if input == [] {
      StepKeepsGood(m, x);
      assert [] + [x] == [x] && [x][1..] == [];
      assert Run(Step(m, x), []) == Step(m, x) && AllSlots(Step(m, x), []) == [];
    } else {
      StepKeepsGood(m, input[0]);
      RunMore(Step(m, input[0]), input[1..], x);
      assert (input + [x])[0] == input[0] && (input + [x])[1..] == input[1..] + [x];
    }
  }

  /** The model depends on the bytes since the reset alone, and stands in the context of the last two. */
  lemma {:induction false} ContextIsLastBytes(input: seq<byte>)
    ensures Run(EMPTY, input).at == LastBytes(SinceReset(input))
    ensures Run(EMPTY, SinceReset(input)) == Run(EMPTY, input)
    decreases |input|
  {
    hide Step, Run, NodesAfter;
    NothingRun();
    if input != [] {
      var front, x := input[..|input| - 1], input[|input| - 1];
      assert input == front + [x];
      ContextIsLastBytes(front);
      EmptyIsExact();
      RunIsExact(EMPTY, front);
      RunMore(EMPTY, front, x);
      RunMore(EMPTY, SinceReset(front), x);
      var m := Run(EMPTY, front);
      ResetsExactly(m, x);
      if NodesAfter(m, x) < 4094 { StepMoves(m, x); }
    }
  }

  lemma NothingRun()
    ensures EMPTY.at in EMPTY.book.ctxs && Run(EMPTY, []) == EMPTY
  {
  }

  /** What is coded for one more byte: its slots in the context of the last two bytes. */
  lemma SlotsOfNext(input: seq<byte>, x: byte)
    ensures var m := Run(EMPTY, SinceReset(input));
            && LastBytes(SinceReset(input)) in m.book.ctxs
            && AllSlots(EMPTY, input + [x]) == AllSlots(EMPTY, input) + Slots(m.book, LastBytes(SinceReset(input)), x)
  {
    EmptyIsGood();
    ContextIsLastBytes(input);
    RunMore(EMPTY, input, x);
  }

  // ---------------------------------------------------------------- what a byte is coded as

  /** `q` is `p` without some of its oldest bytes. */
  predicate IsSuffix(q: Path, p: Path)
    decreases Depth(p)
  {
    SuffixDepth(p);
    q == p || (p != Root && IsSuffix(q, Suffix(p)))
  }

  /** The byte itself is coded in the longest context that knows it, or in the root. */
  lemma {:induction false} CodedInLongest(b: Book, p: Path, x: byte)
    requires GoodBook(b) && SuffixClosed(b, Root) && p in b.ctxs
    ensures var q := Stop(b, p, x);
            && q in b.ctxs && IsSuffix(q, p) && (q == Root || Has(b.ctxs[q].tree, x))
            && forall r: Path :: r in b.ctxs && IsSuffix(r, p) && (r == Root || Has(b.ctxs[r].tree, x)) ==> Depth(r) <= Depth(q)
    decreases Depth(p)
  {
    SuffixDepth(p);
    if p != Root && !Has(b.ctxs[p].tree, x) {
      CodedInLongest(b, Suffix(p), x);
    } else {
      forall r: Path | IsSuffix(r, p) ensures Depth(r) <= Depth(p) { SuffixIsShorter(r, p); }
    }
  }

  lemma {:induction false} SuffixIsShorter(q: Path, p: Path)
    requires IsSuffix(q, p)
    ensures Depth(q) <= Depth(p)
    decreases Depth(p)
  {
    SuffixDepth(p);
    if q != p { SuffixIsShorter(q, Suffix(p)); }
  }

  /** A byte is learned by the contexts it was looked for in, from the longest to the one it is coded in, and
      by no other; each of them that did not know it has a new context under it. */
  lemma {:induction false} WhoLearns(b: Book, p: Path, hole: Path, x: byte, q: Path)
    requires OnChain(b, p, hole, x)
    ensures var t, learns := Train(b, p, x), (r: Path) => IsSuffix(r, p) && Depth(r) >= Depth(Stop(b, p, x));
            && (q in b.ctxs ==> q in t.ctxs && t.ctxs[q] == if learns(q) then Learn(b.ctxs[q], x, q == Root) else b.ctxs[q])
            && (q !in b.ctxs ==> (q in t.ctxs <==> q.Ext? && q.value == x && learns(q.ctx)))
            && (q !in b.ctxs && q in t.ctxs ==> t.ctxs[q] == FRESH)
    decreases Depth(p)
  {
    hide Learn, Weight, Bump, GoodContext;
    ChainStep(b, p, hole, x);
    SuffixDepth(p);
    NotOwnChild(p, x, x);
    assert Rooted(b.ctxs, p, x);
    var learner := if q in b.ctxs || q == Root then q else q.ctx;
    if IsSuffix(learner, p) && learner != p { SuffixIsShorter(learner, Suffix(p)); }
    if p != Root && !Has(b.ctxs[p].tree, x) {
      var b' := LearnAt(b, p, x);
      SlotsUnaffected(b, p, hole, Suffix(p), x);
      StopBelow(b, Suffix(p), x);
      WhoLearns(b', Suffix(p), Ext(p, x), x, q);
      if IsSuffix(p, Suffix(p)) { SuffixIsShorter(p, Suffix(p)); }
    }
  }

  /** The slots of a context lie side by side from 0 to its total: the escape, then the values in order. */
  lemma SlotsTile(c: Context, x: byte, root: bool)
    requires GoodContext(c, root)
    ensures SymbolSlot(c, 0, root).under == c.escapes
    ensures x < 255 ==> SymbolSlot(c, x + 1, root).under == SymbolSlot(c, x, root).under + SymbolSlot(c, x, root).count
    ensures SymbolSlot(c, 255, root).under + SymbolSlot(c, 255, root).count == c.total
    ensures SymbolSlot(c, x, root).count > 0 <==> root || Has(c.tree, x)
    ensures c.escapes > 0 && c.tree.Node? ==> EscapeSlot(c) == [Slot(0, c.escapes, c.total)]
  {
    OutsideRange(c.tree, 0, 256, 0);
    OutsideRange(c.tree, 0, 256, 256);
    BelowAndWeight(c.tree, x);
    BelowAndWeight(c.tree, 255);
    if c.tree.Node? { assert Sum(c.tree) > 0; }
  }

  /** A context that learns a byte counts it 2 more, the root 3 more; a context that did not know it counts 5
      more escapes; then, when the byte's count was above 251 (in the root 250 with its own 1) or the total is
      above 65280, every count and the escapes are halved, rounding up. */
  lemma LearnsExactly(c: Context, x: byte, root: bool, y: byte)
    requires GoodContext(c, root)
    ensures var d, known := Learn(c, x, root), root || Has(c.tree, x);
            var weight := Weight(c.tree, y) + if x == y then (if root then 3 else 2) else 0;
            var escapes := c.escapes + if known then 0 else 5;
            var total := c.total + (if known then 0 else 5) + if root then 3 else 2;
            if Weight(c.tree, x) > (if root then 249 else 251) || total > 65280
            then Weight(d.tree, y) == weight - weight / 2 && d.escapes == escapes - escapes / 2
            else Weight(d.tree, y) == weight && d.escapes == escapes && d.total == total
  {
    BumpCounts(c.tree, x, Delta(root), 0, 256);
    HalveKeepsSymbols(Bump(c.tree, x, Delta(root)), 0, 256);
  }

  // ---------------------------------------------------------------- one input to the end

  lemma AllSlotsOf(m: Model, input: seq<byte>)
    requires GoodModel(m) && input != []
    ensures GoodModel(Step(m, input[0]))
    ensures AllSlots(m, input) == Slots(m.book, m.at, input[0]) + AllSlots(Step(m, input[0]), input[1..])
  {
    StepKeepsGood(m, input[0]);
  }

  /** The contexts after one byte, and after the same byte again. */
  function OnceBook(x: byte): Book { LearnAt(FIRST_BOOK, Root, x) }

  function TwiceBook(x: byte): Book {
    LearnAt(LearnAt(OnceBook(x), Ext(Root, x), x), Root, x)
  }

  lemma OnceBookIs(x: byte)
    ensures var b := OnceBook(x);
            && b.used == 2 && Root in b.ctxs && b.ctxs[Root] == Context(Node(x, 3, 3, Leaf, Leaf), 1, 260)
            && Ext(Root, x) in b.ctxs && b.ctxs[Ext(Root, x)] == FRESH
    ensures Step(EMPTY, x) == Model(OnceBook(x), Ext(Root, x))
  {
  }

  lemma TwiceBookIs(x: byte)
    ensures var b, one := TwiceBook(x), Ext(Root, x);
            && one in b.ctxs && b.ctxs[one] == Context(Node(x, 2, 2, Leaf, Leaf), 5, 7)
            && Ext(one, x) in b.ctxs && b.ctxs[Ext(one, x)] == FRESH
    ensures Step(Model(OnceBook(x), Ext(Root, x)), x) == Model(TwiceBook(x), Ext(Ext(Root, x), x))
  {
    OnceBookIs(x);
    NotOwnChild(Root, x, x);
    hide OnceBook;
    var one := Ext(Root, x);
    var b := LearnAt(OnceBook(x), one, x);
    assert Learn(FRESH, x, false) == Context(Node(x, 2, 2, Leaf, Leaf), 5, 7);
    hide Learn, Bump;
    assert Suffix(one) == Root && Suffix(one) in b.ctxs;
    assert b.used == 3;
    assert b.ctxs[Root] == Context(Node(x, 3, 3, Leaf, Leaf), 1, 260);
    assert Train(b, Root, x) == LearnAt(b, Root, x);
    assert Train(OnceBook(x), one, x) == TwiceBook(x);
  }

  lemma SlotsHere(b: Book, p: Path, x: byte)
    requires p in b.ctxs && (p == Root || Has(b.ctxs[p].tree, x))
    ensures Slots(b, p, x) == [SymbolSlot(b.ctxs[p], x, p == Root)]
  {
  }

  /** A context that knows nothing yet has no escape to code. */
  lemma SlotsPassOn(b: Book, p: Path, x: byte)
    requires p in b.ctxs && p != Root && b.ctxs[p] == FRESH && Suffix(p) in b.ctxs
    ensures Slots(b, p, x) == Slots(b, Suffix(p), x)
  {
  }

  lemma SlotsOfThree(x: byte)
    ensures Slots(FIRST_BOOK, Root, x) == [Slot(x + 1, 1, 257)]
    ensures Ext(Root, x) in OnceBook(x).ctxs && Slots(OnceBook(x), Ext(Root, x), x) == [Slot(x + 1, 4, 260)]
    ensures Ext(Ext(Root, x), x) in TwiceBook(x).ctxs && Slots(TwiceBook(x), Ext(Ext(Root, x), x), x) == [Slot(5, 2, 7)]
  {
    OnceBookIs(x);
    TwiceBookIs(x);
    hide OnceBook, TwiceBook, Step, Slots;
    var b1, b2, one, two := OnceBook(x), TwiceBook(x), Ext(Root, x), Ext(Ext(Root, x), x);
    assert Suffix(one) == Root && Suffix(two) == one;
    SlotsHere(FIRST_BOOK, Root, x);
    SlotsPassOn(b1, one, x);
    SlotsHere(b1, Root, x);
    SlotsPassOn(b2, two, x);
    SlotsHere(b2, one, x);
  }

  /** Three equal bytes: coded in the root, in the root again, then in the context of one byte. */
  lemma ThreeBytes(x: byte)
    ensures AllSlots(EMPTY, [x, x, x]) == [Slot(x + 1, 1, 257), Slot(x + 1, 4, 260), Slot(5, 2, 7)]
  {
    OnceBookIs(x);
    TwiceBookIs(x);
    SlotsOfThree(x);
    EmptyIsGood();
    hide Step, Slots, OnceBook, TwiceBook, AllSlots, GoodModel;
    var m1 := Step(EMPTY, x);
    var m2 := Step(m1, x);
    AllSlotsOf(EMPTY, [x, x, x]);
    assert [x, x, x][1..] == [x, x] && [x, x][1..] == [x] && [x][1..] == [];
    AllSlotsOf(m1, [x, x]);
    AllSlotsOf(m2, [x]);
    NoSlots(Step(m2, x));
  }

  lemma NoSlots(m: Model)
    requires GoodModel(m)
    ensures m.at in m.book.ctxs && AllSlots(m, []) == []
  {
  }

  lemma EncodesOne(slots: seq<Slot>, iv: Interval, n: Normal)
    requires slots != [] && (forall s <- slots :: ValidSlot(s)) && Ready(iv) && slots[0].total > 0
    requires Normalise(Slice(iv, slots[0].under, slots[0].count, slots[0].total)) == n
    ensures n.Normal? && Ready(n.iv) && Encode(slots, iv) == n.out + Encode(slots[1..], n.iv)
  {
    SliceStaysInside(iv, slots[0]);
    NormaliseKeepsInterval(Slice(iv, slots[0].under, slots[0].count, slots[0].total));
  }

  lemma EncodesAll(a: Slot, b: Slot, c: Slot, n1: Normal, n2: Normal, n3: Normal)
    requires ValidSlot(a) && ValidSlot(b) && ValidSlot(c) && n1.Normal? && n2.Normal? && n3.Normal? && Ready(START)
    requires Normalise(Slice(START, a.under, a.count, a.total)) == n1
    requires Normalise(Slice(n1.iv, b.under, b.count, b.total)) == n2
    requires Normalise(Slice(n2.iv, c.under, c.count, c.total)) == n3
    ensures Encode([a, b, c], START) == n1.out + (n2.out + (n3.out + Flush(n3.iv.low)))
  {
    hide Normalise, Slice, Flush, Encode, Ready;
    assert [a, b, c][1..] == [b, c] && [b, c][1..] == [c] && [c][1..] == [];
    EncodesOne([a, b, c], START, n1);
    EncodesOne([b, c], n1.iv, n2);
    EncodesOne([c], n2.iv, n3);
    NothingToEncode(n3.iv);
  }

  /** And the bytes that come out for "aaa". */
  lemma KnownAnswer()
    ensures Compressed([97, 97, 97]) == [0x62, 0x01, 0x4C, 0xA3]
  {
    FirstSlice();
    SecondSlice();
    ThirdSlice();
    FlushesThree();
    ThreeBytes(97);
    SeedIsInStep([]);
    hide Normalise, Slice, Flush, Encode, AllSlots, Ready;
    EncodesAll(Slot(98, 1, 257), Slot(98, 4, 260), Slot(5, 2, 7), Normal([], Interval(1637769630, 16711935)),
               Normal([], Interval(1644068678, 257104)), Normal([0x62], Interval(21799680, 18805248)));
  }

  lemma NothingToEncode(iv: Interval)
    requires Ready(iv)
    ensures Encode([], iv) == Flush(iv.low)
  {
  }

  lemma FirstSlice()
    ensures Normalise(Slice(START, 98, 1, 257)) == Normal([], Interval(1637769630, 16711935))
  {
    assert Slice(START, 98, 1, 257) == Interval(1637769630, 16711935);
  }

  lemma SecondSlice()
    ensures Normalise(Slice(Interval(1637769630, 16711935), 98, 4, 260)) == Normal([], Interval(1644068678, 257104))
  {
    assert Slice(Interval(1637769630, 16711935), 98, 4, 260) == Interval(1644068678, 257104);
  }

  lemma ThirdSlice()
    ensures Normalise(Slice(Interval(1644068678, 257104), 5, 2, 7)) == Normal([0x62], Interval(21799680, 18805248))
  {
    assert Slice(Interval(1644068678, 257104), 5, 2, 7) == Interval(1644252323, 73458);
    hide Slice;
    assert !LeadDiffers(1644252323, 73458) && LeadDiffers(21799680, 18805248);
    hide LeadDiffers;
    assert Shift(1644252323) == 21799680 && Shift(73458) == 18805248;
    hide Shift;
    assert Normalise(Interval(21799680, 18805248)) == Normal([], Interval(21799680, 18805248));
  }

  lemma FlushesThree()
    ensures Flush(21799680) == [0x01, 0x4C, 0xA3]
  {
    assert Flush(0) == [];
    assert Flush(0xA300_0000) == [0xA3] + Flush(0);
    assert Flush(0x4CA3_0000) == [0x4C] + Flush(0xA300_0000);
    assert Flush(0x014C_A300) == [0x01] + Flush(0x4CA3_0000);
  }
}
