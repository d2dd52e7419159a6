/** The adaptive order-2 model of enet-1.3.3/compress.c without its arena: named contexts, the
    slots a symbol is coded with, and how coding a symbol changes the contexts. Both coders keep
    an arena of their own; this is what the two arenas have in common. */
module PpmModel {
  import opened Numbers
  import opened RangeCoder
  import opened SymbolTree

  const ARENA: nat := 4096                // the symbols array
  const MAX_ORDER: nat := 2               // ENET_SUBCONTEXT_ORDER
  const TOTAL_LIMIT: nat := BOTTOM - 0x100
  const ESCAPE_DELTA: nat := 5            // ENET_SUBCONTEXT_ESCAPE_DELTA

  /** A symbol node is also the context that follows it: `Ext(c, v)` is the node of value `v` in
      context `c`, and the context "v seen in c". */
  datatype Path = Root | Ext(ctx: Path, value: byte)

  function Depth(p: Path): nat { if p.Root? then 0 else 1 + Depth(p.ctx) }

  /** The context one order lower: the oldest symbol is forgotten. The C `parent` index. */
  function Suffix(p: Path): Path {
    if p.Root? || p.ctx.Root? then Root else Ext(Suffix(p.ctx), p.value)
  }

  lemma {:induction false} SuffixDepth(p: Path)
    ensures Depth(Suffix(p)) == if p.Root? then 0 else Depth(p) - 1
  {
    if p.Ext? && p.ctx.Ext? { SuffixDepth(p.ctx); }
  }

  datatype Context = Context(tree: Tree, escapes: nat, total: nat)

  const FRESH := Context(Leaf, 0, 0)
  const FRESH_ROOT := Context(Leaf, 1, 257)

  /** The adaptation constants, which differ for the root. */
  function Delta(root: bool): nat { if root then 3 else 2 }
  function Minimum(root: bool): nat { if root then 1 else 0 }
  function CountLimit(root: bool): nat { if root then 250 else 251 }
  function MaxCount(root: bool): nat { if root then 252 else 253 }

  ghost predicate GoodContext(c: Context, root: bool) {
    && Good(c.tree, 0, 256)
    && CountsAtMost(c.tree, MaxCount(root))
    && c.total == c.escapes + Sum(c.tree) + 256 * Minimum(root)
    && c.total <= TOTAL_LIMIT
    && (if root then c.escapes == 1 else (c.escapes > 0 <==> c.tree.Node?))
  }

  function Halved(c: Context, root: bool): Context {
    var t := Halve(c.tree);
    var e := c.escapes - c.escapes / 2;
    Context(t, e, Sum(t) + e + 256 * Minimum(root))
  }

  /** What coding `x` in a context does to it, as encoder and decoder both do. */
  function Learn(c: Context, x: byte, root: bool): Context {
    var esc := if root || Has(c.tree, x) then 0 else ESCAPE_DELTA;
    var c' := Context(Bump(c.tree, x, Delta(root)), c.escapes + esc, c.total + esc + Delta(root));
    if Weight(c.tree, x) + Minimum(root) > CountLimit(root) || c'.total > TOTAL_LIMIT
    then Halved(c', root) else c'
  }

  lemma LearnKeepsGood(c: Context, x: byte, root: bool)
    requires GoodContext(c, root)
    ensures GoodContext(Learn(c, x, root), root)
    ensures forall y: int :: Has(Learn(c, x, root).tree, y) <==> y == x || Has(c.tree, y)
    ensures Sum(Bump(c.tree, x, Delta(root))) + c.escapes + ESCAPE_DELTA + 256 * Minimum(root) < BOTTOM
    ensures CountsAtMost(Bump(c.tree, x, Delta(root)), 255)
  {
    var d := Delta(root);
    var t := Bump(c.tree, x, d);
    WeightAtMost(c.tree, MaxCount(root), 0, 256, x);
    BumpCounts(c.tree, x, d, 0, 256);
    CountsWeaken(c.tree, MaxCount(root), 255);
    BumpBound(c.tree, x, d, 255, 0, 256);
    if Weight(c.tree, x) + Minimum(root) > CountLimit(root) || Learned(c, x, root).total > TOTAL_LIMIT {
      CountsWeaken(t, 255, 256);
      HalveBound(t, 128);
      CountsWeaken(Halve(t), 128, MaxCount(root));
      HalveKeepsSymbols(t, 0, 256);
      SizeBound(t, 0, 256);
    } else {
      CountsWithin(c.tree, x, d, MaxCount(root));
    }
  }

  ghost function Learned(c: Context, x: byte, root: bool): Context {
    var esc := if root || Has(c.tree, x) then 0 else ESCAPE_DELTA;
    Context(Bump(c.tree, x, Delta(root)), c.escapes + esc, c.total + esc + Delta(root))
  }

  lemma {:induction false} CountsWeaken(t: Tree, m: nat, n: nat)
    requires CountsAtMost(t, m) && m <= n
    ensures CountsAtMost(t, n)
  {
    if t.Node? { CountsWeaken(t.left, m, n); CountsWeaken(t.right, m, n); }
  }

  lemma CountsWithin(t: Tree, x: byte, d: nat, m: nat)
    requires Good(t, 0, 256) && CountsAtMost(t, m) && Weight(t, x) + d <= m
    ensures CountsAtMost(Bump(t, x, d), m)
  {
    BumpBound(t, x, d, m, 0, 256);
  }

  // ---------------------------------------------------------------- all contexts

  /** All contexts that exist, and the number of arena nodes they use. */
  datatype Book = Book(ctxs: map<Path, Context>, used: nat)

  /** Depth and content of one entry. */
  ghost predicate GoodEntry(p: Path, c: Context) {
    GoodContext(c, p == Root) && Depth(p) <= MAX_ORDER + 1 && (Depth(p) == MAX_ORDER + 1 ==> c == FRESH)
  }

  /** Nodes and tree entries are the same thing. */
  ghost predicate Rooted(ctxs: map<Path, Context>, p: Path, v: byte) {
    Ext(p, v) in ctxs <==> p in ctxs && Has(ctxs[p].tree, v)
  }

  ghost predicate GoodBook(b: Book) {
    && Root in b.ctxs
    && (forall p <- b.ctxs :: GoodEntry(p, b.ctxs[p]))
    && (forall p, v: byte :: Rooted(b.ctxs, p, v))
  }

  /** Every context's lower-order context exists, except possibly that of `hole`. */
  ghost predicate SuffixClosed(b: Book, hole: Path) {
    forall p <- b.ctxs :: p != hole ==> Suffix(p) in b.ctxs
  }

  const FIRST_BOOK := Book(map[Root := FRESH_ROOT], 1)

  lemma StartIsGood()
    ensures GoodBook(FIRST_BOOK) && SuffixClosed(FIRST_BOOK, Root)
  {
  }

  /** Coding `x` in context `p`: the context learns, and a node for `x` appears if there was none. */
  function LearnAt(b: Book, p: Path, x: byte): Book
    requires p in b.ctxs
  {
    var c := b.ctxs[p];
    var m := b.ctxs[p := Learn(c, x, p == Root)];
    if Has(c.tree, x) then Book(m, b.used) else Book(m[Ext(p, x) := FRESH], b.used + 1)
  }

  lemma NotOwnChild(p: Path, x: byte, y: byte)
    ensures Ext(p, x) != p && Ext(Ext(p, x), y) != p
  {
    assert Depth(Ext(p, x)) == 1 + Depth(p) && Depth(Ext(Ext(p, x), y)) == 2 + Depth(p);
  }

  lemma LearnAtKeepsGood(b: Book, p: Path, x: byte)
    requires GoodBook(b) && p in b.ctxs && Depth(p) <= MAX_ORDER
    ensures GoodBook(LearnAt(b, p, x))
    ensures Ext(p, x) in LearnAt(b, p, x).ctxs
    ensures Has(b.ctxs[p].tree, x) <==> Ext(p, x) in b.ctxs
  {
    var b' := LearnAt(b, p, x);
    assert Rooted(b.ctxs, p, x);
    forall q <- b'.ctxs
      ensures GoodEntry(q, b'.ctxs[q])
    {
      LearnAtKeepsEntry(b, p, x, q);
    }
    forall q, v: byte
      ensures Rooted(b'.ctxs, q, v)
    {
      LearnAtKeepsRooted(b, p, x, q, v);
    }
  }

  lemma LearnAtKeepsEntry(b: Book, p: Path, x: byte, q: Path)
    requires p in b.ctxs && Depth(p) <= MAX_ORDER && q in LearnAt(b, p, x).ctxs
    requires GoodEntry(p, b.ctxs[p]) && (q in b.ctxs ==> GoodEntry(q, b.ctxs[q]))
    ensures GoodEntry(q, LearnAt(b, p, x).ctxs[q])
  {
    NotOwnChild(p, x, 0);
    if q == p {
      LearnKeepsGood(b.ctxs[p], x, p == Root);
    } else if q == Ext(p, x) && !Has(b.ctxs[p].tree, x) {
      assert GoodEntry(q, FRESH);
    }
  }

  lemma LearnKnows(c: Context, x: byte, root: bool, v: byte)
    requires GoodContext(c, root)
    ensures Has(Learn(c, x, root).tree, v) <==> v == x || Has(c.tree, v)
  {
    LearnKeepsGood(c, x, root);
  }

  lemma LearnAtKeepsRooted(b: Book, p: Path, x: byte, q: Path, v: byte)
    requires GoodBook(b) && p in b.ctxs
    ensures Rooted(LearnAt(b, p, x).ctxs, q, v)
  {
    hide Learn, GoodContext, Bump;
    assert GoodEntry(p, b.ctxs[p]);
    LearnKnows(b.ctxs[p], x, p == Root, v);
    NotOwnChild(p, x, v);
    assert Rooted(b.ctxs, q, v) && Rooted(b.ctxs, p, x) && Rooted(b.ctxs, Ext(p, x), v);
    hide GoodBook;
  }

  /** The update of one input byte, from context `p` down the chain of lower orders until a context
      already knows the byte, or through the root. */
  function Train(b: Book, p: Path, x: byte): Book
    requires p in b.ctxs
    decreases Depth(p)
  {
    var b' := LearnAt(b, p, x);
    SuffixDepth(p);
    if p == Root || Has(b.ctxs[p].tree, x) || Suffix(p) !in b'.ctxs then b'
    else Train(b', Suffix(p), x)
  }

  /** Halfway down a chain: the node made in the previous context still lacks its lower-order node,
      which is the one for `x` in `p`. */
  ghost predicate Pending(b: Book, hole: Path, p: Path, x: byte) {
    SuffixClosed(b, hole) && (hole == Root || (hole in b.ctxs && Suffix(hole) == Ext(p, x)))
  }

  ghost predicate OnChain(b: Book, p: Path, hole: Path, x: byte) {
    GoodBook(b) && p in b.ctxs && Depth(p) <= MAX_ORDER && Pending(b, hole, p, x)
  }

  /** The hole of the next link of the chain. */
  function NextHole(b: Book, p: Path, x: byte): Path
    requires p in b.ctxs
  {
    if p == Root || Has(b.ctxs[p].tree, x) then Root else Ext(p, x)
  }

  lemma ChainStep(b: Book, p: Path, hole: Path, x: byte)
    requires OnChain(b, p, hole, x)
    ensures var b' := LearnAt(b, p, x);
            && GoodBook(b') && Ext(p, x) in b'.ctxs && SuffixClosed(b', NextHole(b, p, x))
            && b'.used <= b.used + 1 && b.ctxs.Keys <= b'.ctxs.Keys
            && (p != Root ==> Suffix(p) in b.ctxs && Suffix(p) != p && b'.ctxs[Suffix(p)] == b.ctxs[Suffix(p)])
            && (p != Root && !Has(b.ctxs[p].tree, x) ==> OnChain(b', Suffix(p), Ext(p, x), x))
  {
    LearnAtKeepsGood(b, p, x);
    SuffixDepth(p);
    SuffixDepth(hole);
    assert p != Root ==> p != hole;
    var b' := LearnAt(b, p, x);
    assert forall q <- b'.ctxs :: q in b.ctxs || q == Ext(p, x);
    if p == Root { assert Suffix(Ext(p, x)) == Root; }
    else { assert Suffix(Ext(p, x)) == Ext(Suffix(p), x); }
    forall q <- b'.ctxs | q != NextHole(b, p, x)
      ensures Suffix(q) in b'.ctxs
    {
      if q == hole { } else if q in b.ctxs { assert Suffix(q) in b.ctxs; }
    }
  }

  lemma {:induction false} TrainKeepsGood(b: Book, p: Path, hole: Path, x: byte)
    requires OnChain(b, p, hole, x)
    ensures var t := Train(b, p, x);
            && GoodBook(t) && SuffixClosed(t, Root) && Ext(p, x) in t.ctxs
            && t.used <= b.used + 1 + Depth(p) && b.ctxs.Keys <= t.ctxs.Keys
    decreases Depth(p)
  {
    ChainStep(b, p, hole, x);
    SuffixDepth(p);
    if p != Root && !Has(b.ctxs[p].tree, x) {
      TrainKeepsGood(LearnAt(b, p, x), Suffix(p), Ext(p, x), x);
    }
  }

  // ---------------------------------------------------------------- the slots of one symbol

  function EscapeSlot(c: Context): seq<Slot> {
    if 0 < c.escapes < c.total then [Slot(0, c.escapes, c.total)] else []
  }

  function SymbolSlot(c: Context, x: byte, root: bool): Slot {
    Slot(c.escapes + Below(c.tree, x) + x * Minimum(root), Weight(c.tree, x) + Minimum(root), c.total)
  }

  /** The coding decisions for byte `x` from context `p` on: escapes, then the symbol itself. */
  function Slots(b: Book, p: Path, x: byte): seq<Slot>
    requires p in b.ctxs
    decreases Depth(p)
  {
    var c := b.ctxs[p];
    SuffixDepth(p);
    if p == Root || Has(c.tree, x) then [SymbolSlot(c, x, p == Root)]
    else if Suffix(p) !in b.ctxs then EscapeSlot(c)
    else EscapeSlot(c) + Slots(b, Suffix(p), x)
  }

  lemma SymbolSlotValid(c: Context, x: byte, root: bool)
    requires GoodContext(c, root) && (root || Has(c.tree, x))
    ensures ValidSlot(SymbolSlot(c, x, root))
  {
    BelowAndWeight(c.tree, x);
  }

  lemma {:induction false} SlotsValid(b: Book, p: Path, x: byte)
    requires GoodBook(b) && p in b.ctxs
    ensures forall s <- Slots(b, p, x) :: ValidSlot(s)
    decreases Depth(p)
  {
    var c := b.ctxs[p];
    assert GoodEntry(p, c);
    SuffixDepth(p);
    if p == Root || Has(c.tree, x) {
      SymbolSlotValid(c, x, p == Root);
    } else {
      assert forall s <- EscapeSlot(c) :: ValidSlot(s);
      if Suffix(p) in b.ctxs { SlotsValid(b, Suffix(p), x); }
    }
  }

  /** Coding in a context does not disturb the contexts further down the chain. */
  lemma {:induction false} SlotsUnaffected(b: Book, p: Path, hole: Path, q: Path, x: byte)
    requires OnChain(b, p, hole, x) && q in b.ctxs && Depth(q) < Depth(p)
    ensures Slots(LearnAt(b, p, x), q, x) == Slots(b, q, x)
    ensures Stop(LearnAt(b, p, x), q, x) == Stop(b, q, x)
    decreases Depth(q)
  {
    ChainStep(b, p, hole, x);
    SuffixDepth(q);
    SuffixDepth(hole);
    assert LearnAt(b, p, x).ctxs[q] == b.ctxs[q] by { assert Rooted(b.ctxs, p, x); }
    if q != Root {
      assert q != hole;
      SlotsUnaffected(b, p, hole, Suffix(q), x);
    }
  }

  // ---------------------------------------------------------------- the decoder's update order

  /** The context where the byte itself is coded. */
  function Stop(b: Book, p: Path, x: byte): Path
    requires p in b.ctxs
    decreases Depth(p)
  {
    SuffixDepth(p);
    if p == Root || Has(b.ctxs[p].tree, x) || Suffix(p) !in b.ctxs then p
    else Stop(b, Suffix(p), x)
  }

  /** `patchContexts`: the contexts from `p` down to, but not including, `stop` learn `x`. */
  function Patch(b: Book, p: Path, stop: Path, x: byte): Book
    decreases Depth(p)
  {
    SuffixDepth(p);
    if p == stop || p !in b.ctxs then b
    else if p == Root then LearnAt(b, p, x)
    else Patch(LearnAt(b, p, x), Suffix(p), stop, x)
  }

  lemma LearningCommutes(b: Book, p: Path, q: Path, x: byte)
    requires GoodBook(b) && p in b.ctxs && q in b.ctxs && p != q
    ensures p in LearnAt(b, q, x).ctxs && q in LearnAt(b, p, x).ctxs
    ensures LearnAt(LearnAt(b, p, x), q, x) == LearnAt(LearnAt(b, q, x), p, x)
  {
    hide Learn, Weight, GoodEntry;
    assert Rooted(b.ctxs, p, x) && Rooted(b.ctxs, q, x);
    OtherContextKept(b, p, q, x);
    OtherContextKept(b, q, p, x);
    var l := LearnAt(LearnAt(b, p, x), q, x);
    var r := LearnAt(LearnAt(b, q, x), p, x);
    assert l.ctxs == r.ctxs;
  }

  lemma OtherContextKept(b: Book, p: Path, q: Path, x: byte)
    requires GoodBook(b) && p in b.ctxs && q in b.ctxs && p != q
    ensures q in LearnAt(b, p, x).ctxs && LearnAt(b, p, x).ctxs[q] == b.ctxs[q]
  {
    hide Learn, Weight, GoodEntry;
    assert Rooted(b.ctxs, p, x);
  }

  /** The decoder learns at the coding context first and patches the higher orders afterwards; the
      encoder goes down the chain. Both end with the same contexts. */
  lemma {:induction false} PatchEqualsTrain(b: Book, p: Path, hole: Path, x: byte)
    requires OnChain(b, p, hole, x)
    ensures var q := Stop(b, p, x);
            && q in b.ctxs && Depth(q) <= Depth(p) && (q == Root || Has(b.ctxs[q].tree, x))
            && Patch(LearnAt(b, q, x), p, q, x) == Train(b, p, x)
    decreases Depth(p)
  {
    ChainStep(b, p, hole, x);
    SuffixDepth(p);
    if p != Root && !Has(b.ctxs[p].tree, x) {
      var b' := LearnAt(b, p, x);
      SlotsUnaffected(b, p, hole, Suffix(p), x);
      PatchEqualsTrain(b', Suffix(p), Ext(p, x), x);
      var q := Stop(b, Suffix(p), x);
      StopBelow(b, Suffix(p), x);
      LearningCommutes(b, p, q, x);
      assert p in LearnAt(b, q, x).ctxs;
    }
  }

  lemma {:induction false} StopBelow(b: Book, p: Path, x: byte)
    requires p in b.ctxs
    ensures Stop(b, p, x) in b.ctxs && Depth(Stop(b, p, x)) <= Depth(p)
    decreases Depth(p)
  {
    SuffixDepth(p);
    if p != Root && !Has(b.ctxs[p].tree, x) && Suffix(p) in b.ctxs { StopBelow(b, Suffix(p), x); }
  }

  // ---------------------------------------------------------------- whole inputs

  /** The model between two bytes: the contexts, and the current context of the highest order. */
  datatype Model = Model(book: Book, at: Path)

  const EMPTY := Model(FIRST_BOOK, Root)

  ghost predicate GoodModel(m: Model) {
    && OnChain(m.book, m.at, Root, 0)
    && m.book.used < ARENA - MAX_ORDER
  }

  /** `ENET_RANGE_CODER_FREE_SYMBOLS`: start afresh when the arena may not hold another byte. */
  function Advance(b: Book, at: Path, x: byte): Model {
    var next := if Depth(at) >= MAX_ORDER then Suffix(Ext(at, x)) else Ext(at, x);
    if b.used >= ARENA - MAX_ORDER then EMPTY else Model(b, next)
  }

  function Step(m: Model, x: byte): Model
    requires m.at in m.book.ctxs
  {
    Advance(Train(m.book, m.at, x), m.at, x)
  }

  /** No pending node: the chain invariant does not depend on the byte. */
  lemma AnyByte(b: Book, p: Path, x: byte, y: byte)
    requires OnChain(b, p, Root, x)
    ensures OnChain(b, p, Root, y)
  {
  }

  lemma AdvanceKeepsGood(b: Book, at: Path, x: byte)
    requires GoodBook(b) && SuffixClosed(b, Root) && Ext(at, x) in b.ctxs && Depth(at) <= MAX_ORDER
    ensures GoodModel(Advance(b, at, x))
  {
    SuffixDepth(Ext(at, x));
    StartIsGood();
    assert Suffix(Ext(at, x)) in b.ctxs;
  }

  lemma StepKeepsGood(m: Model, x: byte)
    requires GoodModel(m)
    ensures GoodModel(Step(m, x))
    ensures OnChain(m.book, m.at, Root, x)
    ensures Train(m.book, m.at, x).used <= ARENA
  {
    AnyByte(m.book, m.at, 0, x);
    TrainKeepsGood(m.book, m.at, Root, x);
    AdvanceKeepsGood(Train(m.book, m.at, x), m.at, x);
  }

  function AllSlots(m: Model, input: seq<byte>): seq<Slot>
    requires m.at in m.book.ctxs
    decreases |input|
  {
    if input == [] || Step(m, input[0]).at !in Step(m, input[0]).book.ctxs then []
    else Slots(m.book, m.at, input[0]) + AllSlots(Step(m, input[0]), input[1..])
  }

  lemma {:induction false} AllSlotsValid(m: Model, input: seq<byte>)
    requires GoodModel(m)
    ensures forall s <- AllSlots(m, input) :: ValidSlot(s)
    decreases |input|
  {
    if input != [] {
      StepKeepsGood(m, input[0]);
      SlotsValid(m.book, m.at, input[0]);
      AllSlotsValid(Step(m, input[0]), input[1..]);
    }
  }

  lemma EmptyIsGood()
    ensures GoodModel(EMPTY)
  {
    StartIsGood();
  }

  /** The compressed form of an input. */
  function Compressed(input: seq<byte>): seq<byte> {
    EmptyIsGood();
    AllSlotsValid(EMPTY, input);
    SeedIsInStep([]);
    Encode(AllSlots(EMPTY, input), START)
  }
}
