/** A whole arena as a representation of all named contexts, and the effect of one context's
    update (`ENET_CONTEXT_ENCODE`, the `parent` link, the counters) on what is represented. */
module ArenaBooks {
  import opened Numbers
  import opened RangeCoder
  import opened SymbolTree
  import opened PpmModel
  import opened Arena
  import opened ArenaTrees

  ghost predicate EntryRep(tab: Table, loc: Places, p: Path, c: Context) {
    && p in loc && loc[p] < ARENA
    && var s := tab[loc[p]];
    && s.escapes == c.escapes && s.total == c.total
    && Link(s.symbols, loc[p], loc, p, c.tree)
    && TreeRep(tab, loc, p, c.tree)
  }

  ghost predicate ParentRep(tab: Table, loc: Places, p: Path) {
    p in loc && loc[p] < ARENA && Suffix(p) in loc && tab[loc[p]].parent == loc[Suffix(p)]
  }

  /** The arena holds exactly the nodes of the book, below index `b.used`; the parent index of every
      node but `hole` leads to its lower-order node. */
  ghost predicate BookRep(tab: Table, loc: Places, b: Book, hole: Path) {
    && Placed(loc, b.used)
    && loc.Keys == b.ctxs.Keys
    && Root in loc && loc[Root] == 0
    && (forall p <- loc :: EntryRep(tab, loc, p, b.ctxs[p]))
    && ParentRep(tab, loc, Root)
    && (forall p <- loc :: p != hole ==> ParentRep(tab, loc, p))
  }

  ghost predicate Away(a: Symbol, b: Symbol, self: bool, child: bool) {
    && (self || (a.symbols == b.symbols && a.escapes == b.escapes && a.total == b.total))
    && (child || SameNode(b, a))
  }

  /** Only context `p` and the tree fields of its nodes may have changed (and parent indices). */
  ghost predicate OnlyContext(tab: Table, tab': Table, loc: Places, p: Path) {
    forall q <- loc :: loc[q] < ARENA ==> Away(tab[loc[q]], tab'[loc[q]], q == p, q.Ext? && q.ctx == p)
  }

  ghost predicate ParentsKept(tab: Table, tab': Table, loc: Places) {
    forall q <- loc :: loc[q] < ARENA ==> tab'[loc[q]].parent == tab[loc[q]].parent
  }

  lemma EntryFrame(tab: Table, tab': Table, loc: Places, loc': Places, p: Path, q: Path, c: Context)
    requires EntryRep(tab, loc, q, c) && q != p && Good(c.tree, 0, 256)
    requires OnlyContext(tab, tab', loc, p)
    requires forall r <- loc :: r in loc' && loc'[r] == loc[r]
    ensures EntryRep(tab', loc', q, c)
  {
    assert NodesKept(tab, tab', loc, loc', q, 0, 256) by {
      forall v: byte | 0 <= v < 256 && Ext(q, v) in loc && loc[Ext(q, v)] < ARENA
        ensures SameNode(tab'[loc[Ext(q, v)]], tab[loc[Ext(q, v)]])
      {
      }
    }
    TreeFrame(tab, tab', loc, loc', q, c.tree, 0, 256);
  }

  // ---------------------------------------------------------------- counting in one context

  ghost predicate Encoded(w: Walk, tab: Table, loc: Places, b: Book, p: Path, x: byte)
    requires p in b.ctxs
  {
    var c := b.ctxs[p];
    var loc' := Grown(loc, p, x, Has(c.tree, x), b.used);
    && w.Walk?
    && w.next == LearnAt(b, p, x).used
    && Ext(p, x) in loc' && w.symbol == loc'[Ext(p, x)] && w.symbol < ARENA
    && w.under == x * Minimum(p == Root) + Below(c.tree, x)
    && w.count == Minimum(p == Root) + Weight(c.tree, x)
    && EntryRep(w.table, loc', p, c.(tree := Bump(c.tree, x, Delta(p == Root))))
    && OnlyContext(tab, w.table, loc, p) && ParentsKept(tab, w.table, loc)
    && (!Has(c.tree, x) ==> b.used < ARENA && SameContext(w.table[b.used], BLANK))
  }

  lemma ContextEncodeRefines(tab: Table, loc: Places, b: Book, p: Path, x: byte)
    requires GoodBook(b) && p in b.ctxs && Placed(loc, b.used) && loc.Keys == b.ctxs.Keys && b.used < ARENA
    requires EntryRep(tab, loc, p, b.ctxs[p])
    ensures Encoded(ContextEncode(tab, b.used, loc[p], x, Delta(p == Root), Minimum(p == Root)), tab, loc, b, p, x)
  {
    var c := b.ctxs[p];
    if c.tree.Node? {
      var d, m := Delta(p == Root), Minimum(p == Root);
      WalkPossible(tab, loc, b, p, x);
      WalkRefines(tab, b.used, loc, p, c.tree, 0, 256, x, d, x * m, m);
      TreeEncoded(tab, loc, b, p, x, EncodeWalk(tab, b.used, loc[Ext(p, c.tree.value)], x, d, x * m, m));
      EncodeIsWalk(tab, b.used, loc, p, c.tree, x, d, m);
    } else {
      assert Rooted(b.ctxs, p, x);
      FirstEncoded(tab, loc, b, p, x);
    }
  }

  lemma EncodeIsWalk(tab: Table, next: nat, loc: Places, p: Path, t: Tree, x: byte, d: byte, m: byte)
    requires t.Node? && p in loc && loc[p] < ARENA && m <= 1
    requires Link(tab[loc[p]].symbols, loc[p], loc, p, t) && loc[Ext(p, t.value)] < ARENA
    ensures x * m < 65536
    ensures ContextEncode(tab, next, loc[p], x, d, m) == EncodeWalk(tab, next, loc[Ext(p, t.value)], x, d, x * m, m)
  {
  }

  lemma WalkPossible(tab: Table, loc: Places, b: Book, p: Path, x: byte)
    requires GoodBook(b) && p in b.ctxs && Placed(loc, b.used) && loc.Keys == b.ctxs.Keys && b.used < ARENA
    requires EntryRep(tab, loc, p, b.ctxs[p]) && b.ctxs[p].tree.Node?
    ensures CanWalk(tab, b.used, loc, p, b.ctxs[p].tree, 0, 256, x, Delta(p == Root), x * Minimum(p == Root), Minimum(p == Root))
  {
    var c := b.ctxs[p];
    assert GoodEntry(p, c) && Rooted(b.ctxs, p, x);
    LearnKeepsGood(c, x, p == Root);
    BumpCounts(c.tree, x, Delta(p == Root), 0, 256);
  }

  lemma TreeEncoded(tab: Table, loc: Places, b: Book, p: Path, x: byte, w: Walk)
    requires GoodBook(b) && p in b.ctxs && Placed(loc, b.used) && p in loc
    requires EntryRep(tab, loc, p, b.ctxs[p]) && b.ctxs[p].tree.Node?
    requires Walked(w, tab, b.used, loc, p, b.ctxs[p].tree, 0, 256, x, Delta(p == Root), x * Minimum(p == Root), Minimum(p == Root))
    ensures Encoded(w, tab, loc, b, p, x)
  {
    NotOwnChild(p, x, x);
    assert SameContext(w.table[loc[p]], tab[loc[p]]);
    var t := b.ctxs[p].tree;
    assert Bump(t, x, Delta(p == Root)).Node? && Bump(t, x, Delta(p == Root)).value == t.value;
    assert Ext(p, t.value) in loc;
  }

  lemma FirstEncoded(tab: Table, loc: Places, b: Book, p: Path, x: byte)
    requires GoodBook(b) && p in b.ctxs && Placed(loc, b.used) && p in loc
    requires EntryRep(tab, loc, p, b.ctxs[p]) && b.ctxs[p].tree.Leaf? && Ext(p, x) !in loc && b.used < ARENA
    ensures Encoded(ContextEncode(tab, b.used, loc[p], x, Delta(p == Root), Minimum(p == Root)), tab, loc, b, p, x)
  {
    var d, m, i := Delta(p == Root), Minimum(p == Root), loc[p];
    var t1 := Create(tab, b.used, x, d);
    var t2 := t1[i := t1[i].(symbols := b.used - i)];
    assert ContextEncode(tab, b.used, i, x, d, m) == Walk(t2, b.used + 1, b.used, x * m, m);
    var loc' := Grown(loc, p, x, false, b.used);
    assert TreeRep(t2, loc', p, Node(x, d, d, Leaf, Leaf));
  }

  // ---------------------------------------------------------------- the parent link and the counters

  /** `link` is where the C pointer `parent` points: to `predicted`, or into the node of `hole`. */
  ghost predicate LinkAt(link: int, loc: Places, hole: Path) {
    if hole == Root then link < 0 else hole in loc && loc[hole] < ARENA && link == loc[hole]
  }

  lemma LinkFrame(tab: Table, loc: Places, loc': Places, hole: Path, link: int, symbol: nat, p: Path, c: Context)
    requires LinkAt(link, loc, hole) && symbol < ARENA && link < ARENA && EntryRep(tab, loc', p, c) && Good(c.tree, 0, 256)
    ensures EntryRep(LinkTo(tab, link, symbol), loc', p, c)
    ensures OnlyContext(tab, LinkTo(tab, link, symbol), loc', p)
  {
    var t := LinkTo(tab, link, symbol);
    assert NodesKept(tab, t, loc', loc', p, 0, 256);
    TreeFrame(tab, t, loc', loc', p, c.tree, 0, 256);
  }

  ghost predicate Settled(h: Halving, tab: Table, loc: Places, p: Path, c: Context) {
    && h.Halving?
    && EntryRep(h.table, loc, p, c)
    && OnlyContext(tab, h.table, loc, p) && ParentsKept(tab, h.table, loc)
  }

  /** The counters of a context whose tree already counts the symbol. */
  lemma SettleRefines(tab: Table, loc: Places, p: Path, c: Context, x: byte, count: u16, root: bool)
    requires GoodContext(c, root) && Placed(loc, ARENA)
    requires EntryRep(tab, loc, p, c.(tree := Bump(c.tree, x, Delta(root))))
    requires count == Weight(c.tree, x) + Minimum(root)
    ensures Settled(Settle(tab, loc[p], count, !root && count == 0, root), tab, loc, p, Learn(c, x, root))
  {
    var i := loc[p];
    var l := Learned(c, x, root);
    LearnedFits(c, x, root);
    var missed := !root && count == 0;
    CountedIs(tab, i, missed, root, if missed then ESCAPE_DELTA else 0, l.escapes, l.total);
    var t1 := Counted(tab, i, missed, root);
    CountersFrame(tab, t1, loc, p, l);
    if count > CountLimit(root) || l.total > TOTAL_LIMIT {
      ContextRescaleRefines(t1, loc, p, l, root);
      SettledVia(tab, t1, ContextRescale(t1, i, Minimum(root)), loc, p, Halved(l, root));
    }
  }

  lemma LearnedFits(c: Context, x: byte, root: bool)
    requires GoodContext(c, root)
    ensures var l := Learned(c, x, root);
            && l.escapes < 65536 && l.total < 65536 && Good(l.tree, 0, 256)
            && Sum(l.tree) + l.escapes + 256 * Minimum(root) < 65536
            && Learn(c, x, root) == (if Weight(c.tree, x) + Minimum(root) > CountLimit(root) || l.total > TOTAL_LIMIT
                                     then Halved(l, root) else l)
  {
    BumpCounts(c.tree, x, Delta(root), 0, 256);
  }

  lemma CountedIs(tab: Table, i: nat, missed: bool, root: bool, esc: nat, escapes: u16, total: u16)
    requires i < ARENA && esc == (if missed then ESCAPE_DELTA else 0)
    requires escapes == tab[i].escapes + esc
    requires total == tab[i].total + esc + Delta(root)
    ensures Counted(tab, i, missed, root) == SetCounters(tab, i, escapes, total)
  {
    assert U16(tab[i].escapes + esc) == escapes;
    assert U16(tab[i].total + esc) == tab[i].total + esc;
  }

  lemma SettledVia(tab: Table, t1: Table, h: Halving, loc: Places, p: Path, c: Context)
    requires OnlyContext(tab, t1, loc, p) && ParentsKept(tab, t1, loc) && Settled(h, t1, loc, p, c)
    ensures Settled(h, tab, loc, p, c)
  {
  }

  lemma CountersFrame(tab: Table, t1: Table, loc: Places, p: Path, c: Context)
    requires Placed(loc, ARENA) && p in loc && loc[p] < ARENA
    requires c.escapes < 65536 && c.total < 65536 && t1 == SetCounters(tab, loc[p], c.escapes, c.total)
    requires Good(c.tree, 0, 256) && Link(tab[loc[p]].symbols, loc[p], loc, p, c.tree) && TreeRep(tab, loc, p, c.tree)
    ensures Settled(Halving(t1, 0), tab, loc, p, c)
  {
    assert NodesKept(tab, t1, loc, loc, p, 0, 256);
    TreeFrame(tab, t1, loc, loc, p, c.tree, 0, 256);
  }

  lemma ContextRescaleRefines(tab: Table, loc: Places, p: Path, c: Context, root: bool)
    requires Placed(loc, ARENA) && EntryRep(tab, loc, p, c) && Good(c.tree, 0, 256)
    requires Sum(c.tree) + c.escapes + 256 * Minimum(root) < 65536
    ensures Settled(ContextRescale(tab, loc[p], Minimum(root)), tab, loc, p, Halved(c, root))
  {
    var i := loc[p];
    RescaleRefines(tab, loc, i, tab[i].symbols, p, c.tree, 0, 256);
    var r := Rescale(tab, i, tab[i].symbols);
    var h := Halved(c, root);
    HalvedSum(c.tree);
    HalveKeepsSymbols(c.tree, 0, 256);
    RescaleFrame(tab, r.table, loc, p, c);
    var t1 := SetCounters(r.table, i, h.escapes, h.total);
    CountersFrame(r.table, t1, loc, p, h);
    SettledVia(tab, r.table, Halving(t1, 0), loc, p, h);
    RecountIs(r.table, i, r.total, Minimum(root), h.escapes, h.total);
  }

  lemma RecountIs(t: Table, i: nat, sum: u16, min: byte, escapes: u16, total: u16)
    requires i < ARENA && escapes == t[i].escapes - t[i].escapes / 2 && total == sum + escapes + 256 * min
    ensures Recount(t, i, sum, min) == SetCounters(t, i, escapes, total)
  {
    assert U16(sum + escapes + 256 * min) == total;
  }

  lemma RescaleFrame(tab: Table, t1: Table, loc: Places, p: Path, c: Context)
    requires OnlyTree(tab, t1, loc, p, 0, 256) && EntryRep(tab, loc, p, c) && TreeRep(t1, loc, p, Halve(c.tree))
    ensures OnlyContext(tab, t1, loc, p) && ParentsKept(tab, t1, loc)
    ensures SameContext(t1[loc[p]], tab[loc[p]]) && Link(t1[loc[p]].symbols, loc[p], loc, p, Halve(c.tree))
  {
  }

  // ---------------------------------------------------------------- one context learns a byte

  lemma OnlyContextTrans(t1: Table, t2: Table, t3: Table, loc: Places, p: Path)
    requires OnlyContext(t1, t2, loc, p) && OnlyContext(t2, t3, loc, p)
    ensures OnlyContext(t1, t3, loc, p)
  {
    forall q <- loc | loc[q] < ARENA
      ensures Away(t1[loc[q]], t3[loc[q]], q == p, q.Ext? && q.ctx == p)
    {
      assert Away(t1[loc[q]], t2[loc[q]], q == p, q.Ext? && q.ctx == p);
      assert Away(t2[loc[q]], t3[loc[q]], q == p, q.Ext? && q.ctx == p);
    }
  }

  lemma OnlyContextSub(t1: Table, t2: Table, loc: Places, loc': Places, p: Path)
    requires OnlyContext(t1, t2, loc', p) && forall q <- loc :: q in loc' && loc'[q] == loc[q]
    ensures OnlyContext(t1, t2, loc, p)
  {
  }

  /** The arena after a context has learned `x`: the tables after the walk, the link and the counters. */
  ghost predicate Learns(w: Walk, h: Halving, tab: Table, loc: Places, b: Book, p: Path, x: byte, link: int)
    requires p in b.ctxs && loc.Keys == b.ctxs.Keys && link < ARENA
  {
    && Encoded(w, tab, loc, b, p, x)
    && var loc' := Grown(loc, p, x, Has(b.ctxs[p].tree, x), b.used);
    && Settled(h, LinkTo(w.table, link, w.symbol), loc', p, Learn(b.ctxs[p], x, p == Root))
  }

  lemma LearnSteps(tab: Table, loc: Places, b: Book, p: Path, hole: Path, x: byte, link: int)
    requires OnChain(b, p, hole, x) && BookRep(tab, loc, b, hole) && b.used < ARENA
    requires LinkAt(link, loc, hole) && link < ARENA
    ensures var w := ContextEncode(tab, b.used, loc[p], x, Delta(p == Root), Minimum(p == Root));
            && w.Walk? && w.symbol < ARENA
            && var t1 := LinkTo(w.table, link, w.symbol);
            && t1[loc[p]].escapes == b.ctxs[p].escapes && t1[loc[p]].total == b.ctxs[p].total
            && Learns(w, Settle(t1, loc[p], w.count, p != Root && w.count == 0, p == Root), tab, loc, b, p, x, link)
  {
    assert EntryRep(tab, loc, p, b.ctxs[p]) && GoodEntry(p, b.ctxs[p]);
    ContextEncodeRefines(tab, loc, b, p, x);
    var w := ContextEncode(tab, b.used, loc[p], x, Delta(p == Root), Minimum(p == Root));
    var loc' := Grown(loc, p, x, Has(b.ctxs[p].tree, x), b.used);
    GrownPlaced(loc, b, p, x);
    SettleAfterLink(w, loc, loc', p, hole, b.ctxs[p], x, link);
  }

  lemma GrownPlaced(loc: Places, b: Book, p: Path, x: byte)
    requires GoodBook(b) && p in b.ctxs && Placed(loc, b.used) && loc.Keys == b.ctxs.Keys && b.used < ARENA
    ensures Placed(Grown(loc, p, x, Has(b.ctxs[p].tree, x), b.used), LearnAt(b, p, x).used)
    ensures Grown(loc, p, x, Has(b.ctxs[p].tree, x), b.used).Keys == LearnAt(b, p, x).ctxs.Keys
    ensures forall q <- loc :: q in Grown(loc, p, x, Has(b.ctxs[p].tree, x), b.used)
                               && Grown(loc, p, x, Has(b.ctxs[p].tree, x), b.used)[q] == loc[q]
  {
    assert Rooted(b.ctxs, p, x);
  }

  lemma SettleAfterLink(w: Walk, loc: Places, loc': Places, p: Path, hole: Path, c: Context, x: byte, link: int)
    requires w.Walk? && w.symbol < ARENA && LinkAt(link, loc, hole) && link < ARENA && Placed(loc', ARENA)
    requires GoodContext(c, p == Root) && w.count == Minimum(p == Root) + Weight(c.tree, x)
    requires EntryRep(w.table, loc', p, c.(tree := Bump(c.tree, x, Delta(p == Root))))
    ensures var t1 := LinkTo(w.table, link, w.symbol);
            && t1[loc'[p]].escapes == c.escapes && t1[loc'[p]].total == c.total
            && Settled(Settle(t1, loc'[p], w.count, p != Root && w.count == 0, p == Root), t1, loc', p, Learn(c, x, p == Root))
  {
    BumpCounts(c.tree, x, Delta(p == Root), 0, 256);
    LinkFrame(w.table, loc, loc', hole, link, w.symbol, p, c.(tree := Bump(c.tree, x, Delta(p == Root))));
    SettleRefines(LinkTo(w.table, link, w.symbol), loc', p, c, x, w.count, p == Root);
  }

  /** What the three steps leave alone, seen from the nodes that existed before. */
  lemma LearnFrame(w: Walk, h: Halving, tab: Table, loc: Places, b: Book, p: Path, hole: Path, x: byte, link: int)
    requires GoodBook(b) && p in b.ctxs && Placed(loc, b.used) && loc.Keys == b.ctxs.Keys && b.used < ARENA
    requires LinkAt(link, loc, hole) && link < ARENA
    requires Learns(w, h, tab, loc, b, p, x, link)
    ensures OnlyContext(tab, h.table, loc, p)
    ensures forall q <- loc :: q == hole != Root || h.table[loc[q]].parent == tab[loc[q]].parent
    ensures hole != Root ==> h.table[loc[hole]].parent == w.symbol
    ensures !Has(b.ctxs[p].tree, x) ==> SameContext(h.table[b.used], BLANK)
  {
    hide Learns, GoodBook, LearnAt, Learn, Bump, Has, Away, SameNode;
    GrownPlaced(loc, b, p, x);
    LearnsParts(w, h, tab, loc, b, p, x, link);
    var loc' := Grown(loc, p, x, Has(b.ctxs[p].tree, x), b.used);
    var t1 := LinkTo(w.table, link, w.symbol);
    LinkChanges(w.table, t1, loc, p, link, w.symbol);
    OnlyContextSub(t1, h.table, loc, loc', p);
    OnlyContextTrans(tab, w.table, t1, loc, p);
    OnlyContextTrans(tab, t1, h.table, loc, p);
    ParentsAfter(w, h, tab, loc, loc', hole, link);
    if !Has(b.ctxs[p].tree, x) { BlankAfter(w.table, t1, h.table, loc', p, x, b.used, link, w.symbol); }
  }

  lemma LearnsParts(w: Walk, h: Halving, tab: Table, loc: Places, b: Book, p: Path, x: byte, link: int)
    requires p in b.ctxs && loc.Keys == b.ctxs.Keys && link < ARENA && Learns(w, h, tab, loc, b, p, x, link)
    ensures w.Walk? && w.symbol < ARENA && h.Halving?
    ensures OnlyContext(tab, w.table, loc, p) && ParentsKept(tab, w.table, loc)
    ensures var loc' := Grown(loc, p, x, Has(b.ctxs[p].tree, x), b.used);
            OnlyContext(LinkTo(w.table, link, w.symbol), h.table, loc', p) && ParentsKept(LinkTo(w.table, link, w.symbol), h.table, loc')
    ensures !Has(b.ctxs[p].tree, x) ==> b.used < ARENA && SameContext(w.table[b.used], BLANK)
  {
    hide EntryRep, OnlyContext, ParentsKept;
  }

  lemma LinkChanges(t: Table, t1: Table, loc: Places, p: Path, link: int, symbol: nat)
    requires link < ARENA && symbol < ARENA && t1 == LinkTo(t, link, symbol)
    ensures OnlyContext(t, t1, loc, p)
  {
  }

  lemma ParentsAfter(w: Walk, h: Halving, tab: Table, loc: Places, loc': Places, hole: Path, link: int)
    requires w.Walk? && w.symbol < ARENA && h.Halving? && Placed(loc, ARENA) && LinkAt(link, loc, hole) && link < ARENA
    requires ParentsKept(tab, w.table, loc) && ParentsKept(LinkTo(w.table, link, w.symbol), h.table, loc')
    requires forall q <- loc :: q in loc' && loc'[q] == loc[q]
    ensures forall q <- loc :: q == hole != Root || h.table[loc[q]].parent == tab[loc[q]].parent
    ensures hole != Root ==> h.table[loc[hole]].parent == w.symbol
  {
    forall q <- loc
      ensures q == hole != Root || h.table[loc[q]].parent == tab[loc[q]].parent
    {
      assert loc'[q] == loc[q];
      assert h.table[loc'[q]].parent == LinkTo(w.table, link, w.symbol)[loc'[q]].parent;
      assert w.table[loc[q]].parent == tab[loc[q]].parent;
    }
    if hole != Root { assert loc'[hole] == loc[hole]; }
  }

  lemma BlankAfter(t: Table, t1: Table, t2: Table, loc: Places, p: Path, x: byte, at: nat, link: int, symbol: nat)
    requires at < ARENA && SameContext(t[at], BLANK) && Ext(p, x) in loc && loc[Ext(p, x)] == at
    requires link < ARENA && symbol < ARENA && t1 == LinkTo(t, link, symbol) && link != at
    requires OnlyContext(t1, t2, loc, p) && ParentsKept(t1, t2, loc)
    ensures SameContext(t2[at], BLANK)
  {
    NotOwnChild(p, x, x);
    assert Away(t1[at], t2[at], false, true);
  }

  lemma EntriesAfter(tab: Table, tab': Table, loc: Places, loc': Places, b: Book, p: Path, x: byte, q: Path)
    requires GoodBook(b) && p in b.ctxs && loc.Keys == b.ctxs.Keys
    requires forall r <- loc :: EntryRep(tab, loc, r, b.ctxs[r])
    requires OnlyContext(tab, tab', loc, p)
    requires forall r <- loc :: r in loc' && loc'[r] == loc[r]
    requires EntryRep(tab', loc', p, Learn(b.ctxs[p], x, p == Root))
    requires !Has(b.ctxs[p].tree, x) ==> FreshAt(tab', loc', Ext(p, x))
    requires q in LearnAt(b, p, x).ctxs
    ensures EntryRep(tab', loc', q, LearnAt(b, p, x).ctxs[q])
  {
    NotOwnChild(p, x, x);
    assert Rooted(b.ctxs, p, x);
    if q != p && q in b.ctxs {
      assert GoodEntry(q, b.ctxs[q]);
      OtherEntry(tab, tab', loc, loc', b, p, q);
    } else if q != p {
      FreshEntry(tab', loc', q);
    }
  }

  ghost predicate FreshAt(tab: Table, loc: Places, q: Path) {
    q in loc && loc[q] < ARENA && SameContext(tab[loc[q]], BLANK)
  }

  lemma OtherEntry(tab: Table, tab': Table, loc: Places, loc': Places, b: Book, p: Path, q: Path)
    requires q in b.ctxs && EntryRep(tab, loc, q, b.ctxs[q]) && GoodEntry(q, b.ctxs[q]) && q != p
    requires OnlyContext(tab, tab', loc, p)
    requires forall r <- loc :: r in loc' && loc'[r] == loc[r]
    ensures EntryRep(tab', loc', q, b.ctxs[q])
  {
    EntryFrame(tab, tab', loc, loc', p, q, b.ctxs[q]);
  }

  lemma FreshEntry(tab: Table, loc: Places, q: Path)
    requires FreshAt(tab, loc, q)
    ensures EntryRep(tab, loc, q, FRESH)
  {
  }

  lemma LearnKeepsParents(w: Walk, h: Halving, tab: Table, loc: Places, b: Book, p: Path, hole: Path, x: byte, link: int, q: Path)
    requires OnChain(b, p, hole, x) && BookRep(tab, loc, b, hole) && LinkAt(link, loc, hole) && link < ARENA && b.used < ARENA
    requires Learns(w, h, tab, loc, b, p, x, link)
    requires q in LearnAt(b, p, x).ctxs && (q == Root || q != NextHole(b, p, x))
    ensures ParentRep(h.table, Grown(loc, p, x, Has(b.ctxs[p].tree, x), b.used), q)
  {
    assert Rooted(b.ctxs, p, x);
    LearnFrame(w, h, tab, loc, b, p, hole, x, link);
    GrownPlaced(loc, b, p, x);
    if q in b.ctxs {
      if q != hole { assert ParentRep(tab, loc, q); }
    } else {
      assert q == Ext(p, x) && p == Root && Suffix(q) == Root;
    }
  }

  /** The arena after one context has learned the byte represents the book after it. */
  lemma LearnRefines(w: Walk, h: Halving, tab: Table, loc: Places, b: Book, p: Path, hole: Path, x: byte, link: int)
    requires OnChain(b, p, hole, x) && BookRep(tab, loc, b, hole) && LinkAt(link, loc, hole) && link < ARENA && b.used < ARENA
    requires Learns(w, h, tab, loc, b, p, x, link)
    ensures BookRep(h.table, Grown(loc, p, x, Has(b.ctxs[p].tree, x), b.used), LearnAt(b, p, x), NextHole(b, p, x))
  {
    var loc' := Grown(loc, p, x, Has(b.ctxs[p].tree, x), b.used);
    var b' := LearnAt(b, p, x);
    GrownPlaced(loc, b, p, x);
    LearnFrame(w, h, tab, loc, b, p, hole, x, link);
    forall q <- loc' ensures EntryRep(h.table, loc', q, b'.ctxs[q]) {
      EntriesAfter(tab, h.table, loc, loc', b, p, x, q);
    }
    forall q <- loc' | q == Root || q != NextHole(b, p, x) ensures ParentRep(h.table, loc', q) {
      LearnKeepsParents(w, h, tab, loc, b, p, hole, x, link, q);
    }
  }

  /** The arena node of `x` in context `p`: the existing one, or the next free one. */
  ghost function NodeOf(loc: Places, b: Book, p: Path, x: byte): nat {
    if Ext(p, x) in loc then loc[Ext(p, x)] else b.used
  }

  /** The walk, the link and the counters of one context, as both coders perform them, and the book
      they lead to. */
  lemma LearnInArena(tab: Table, loc: Places, b: Book, p: Path, hole: Path, x: byte, link: int)
      returns (w: Walk, t1: Table, h: Halving)
    requires OnChain(b, p, hole, x) && BookRep(tab, loc, b, hole) && b.used < ARENA
    requires LinkAt(link, loc, hole) && link < ARENA
    ensures w == ContextEncode(tab, b.used, loc[p], x, Delta(p == Root), Minimum(p == Root)) && w.Walk?
    ensures w.symbol < ARENA && w.symbol == NodeOf(loc, b, p, x)
    ensures w.next == LearnAt(b, p, x).used
    ensures w.under == x * Minimum(p == Root) + Below(b.ctxs[p].tree, x)
    ensures w.count == Minimum(p == Root) + Weight(b.ctxs[p].tree, x)
    ensures t1 == LinkTo(w.table, link, w.symbol)
    ensures t1[loc[p]].escapes == b.ctxs[p].escapes && t1[loc[p]].total == b.ctxs[p].total
    ensures h == Settle(t1, loc[p], w.count, p != Root && w.count == 0, p == Root) && h.Halving?
    ensures BookRep(h.table, Grown(loc, p, x, Has(b.ctxs[p].tree, x), b.used), LearnAt(b, p, x), NextHole(b, p, x))
  {
    LearnSteps(tab, loc, b, p, hole, x, link);
    assert Rooted(b.ctxs, p, x);
    w := ContextEncode(tab, b.used, loc[p], x, Delta(p == Root), Minimum(p == Root));
    t1 := LinkTo(w.table, link, w.symbol);
    h := Settle(t1, loc[p], w.count, p != Root && w.count == 0, p == Root);
    LearnRefines(w, h, tab, loc, b, p, hole, x, link);
  }
}
