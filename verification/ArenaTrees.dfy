/** How arena indices represent the named contexts of `PpmModel`: the walks of `Arena` do to the
    represented trees what `SymbolTree` says, and no field overflows. */
module ArenaTrees {
  import opened Numbers
  import opened RangeCoder
  import opened SymbolTree
  import opened PpmModel
  import opened Arena

  /** Where each existing node lies in the arena. */
  type Places = map<Path, nat>

  ghost predicate Injective(loc: Places) {
    forall p <- loc, q <- loc :: loc[p] == loc[q] ==> p == q
  }

  ghost predicate Placed(loc: Places, next: nat) {
    Injective(loc) && next <= ARENA && forall p <- loc :: loc[p] < next
  }

  /** The offset stored at index `i` leads to the root of tree `t` of context `p`, or is zero. */
  ghost predicate Link(offset: int, i: int, loc: Places, p: Path, t: Tree) {
    if t.Leaf? then offset == 0
    else offset > 0 && Ext(p, t.value) in loc && loc[Ext(p, t.value)] == i + offset
  }

  ghost predicate NodeRep(s: Symbol, i: int, loc: Places, p: Path, t: Tree)
    requires t.Node?
  {
    && s.value == t.value && s.count == t.count && s.under == t.under
    && Link(s.left, i, loc, p, t.left) && Link(s.right, i, loc, p, t.right)
  }

  ghost predicate TreeRep(tab: Table, loc: Places, p: Path, t: Tree) {
    t.Node? ==>
      && Ext(p, t.value) in loc
      && var i := loc[Ext(p, t.value)];
      && i < ARENA
      && NodeRep(tab[i], i, loc, p, t)
      && TreeRep(tab, loc, p, t.left)
      && TreeRep(tab, loc, p, t.right)
  }

  /** The fields that make a symbol a tree node are the same. */
  ghost predicate SameNode(a: Symbol, b: Symbol) {
    a.value == b.value && a.count == b.count && a.under == b.under && a.left == b.left && a.right == b.right
  }

  ghost predicate NodesKept(tab: Table, tab': Table, loc: Places, loc': Places, p: Path, lo: int, hi: int) {
    forall v: byte | lo <= v < hi && Ext(p, v) in loc ::
      Ext(p, v) in loc' && loc'[Ext(p, v)] == loc[Ext(p, v)]
      && (loc[Ext(p, v)] < ARENA ==> SameNode(tab'[loc[Ext(p, v)]], tab[loc[Ext(p, v)]]))
  }

  lemma {:induction false} TreeFrame(tab: Table, tab': Table, loc: Places, loc': Places, p: Path, t: Tree, lo: int, hi: int)
    requires TreeRep(tab, loc, p, t) && Good(t, lo, hi)
    requires NodesKept(tab, tab', loc, loc', p, lo, hi)
    ensures TreeRep(tab', loc', p, t)
  {
    if t.Node? {
      TreeFrame(tab, tab', loc, loc', p, t.left, lo, t.value);
      TreeFrame(tab, tab', loc, loc', p, t.right, t.value + 1, hi);
      assert Ext(p, t.value) in loc;
      assert t.left.Node? ==> Ext(p, t.left.value) in loc;
      assert t.right.Node? ==> Ext(p, t.right.value) in loc;
    }
  }

  /** Among the named nodes, at most those of context `p` with a value in the range were changed, and
      no context field at all. */
  ghost predicate OnlyTree(tab: Table, tab': Table, loc: Places, p: Path, lo: int, hi: int) {
    forall q <- loc :: loc[q] < ARENA ==>
      SameContext(tab'[loc[q]], tab[loc[q]])
      && (!(q.Ext? && q.ctx == p && lo <= q.value < hi) ==> tab'[loc[q]] == tab[loc[q]])
  }

  /** The places after a walk for `x`: a node that did not exist lies at the old `next`. */
  function Grown(loc: Places, p: Path, x: byte, known: bool, next: nat): Places {
    if known then loc else loc[Ext(p, x) := next]
  }

  // ---------------------------------------------------------------- the encoding walk

  ghost predicate WalkFits(t: Tree, x: byte, d: byte, under: int, count: int) {
    0 < d && Sum(t) + d + under < 65536 && count + 255 < 65536 && CountsAtMost(Bump(t, x, d), 255)
  }

  ghost predicate Walked(w: Walk, tab: Table, next: nat, loc: Places, p: Path, t: Tree, lo: int, hi: int,
                         x: byte, d: byte, under: int, count: int)
  {
    var known := Has(t, x);
    var loc' := Grown(loc, p, x, known, next);
    && w.Walk?
    && w.next == (if known then next else next + 1)
    && Ext(p, x) in loc' && w.symbol == loc'[Ext(p, x)] && w.symbol < ARENA
    && w.under == under + Below(t, x) && w.count == count + Weight(t, x)
    && TreeRep(w.table, loc', p, Bump(t, x, d))
    && OnlyTree(tab, w.table, loc, p, lo, hi)
    && (!known ==> next < ARENA && SameContext(w.table[next], BLANK))
  }

  lemma KeptOutside(tab: Table, tab': Table, loc: Places, loc': Places, p: Path, lo: int, hi: int, from: int, to: int)
    requires OnlyTree(tab, tab', loc, p, lo, hi) && (hi <= from || to <= lo)
    requires forall q <- loc :: q in loc' && loc'[q] == loc[q]
    ensures NodesKept(tab, tab', loc, loc', p, from, to)
  {
  }

  lemma OnlyTreeComposes(tab: Table, t1: Table, t2: Table, loc: Places, p: Path, v: byte, lo: int, hi: int, from: int, to: int)
    requires OnlyTree(t1, t2, loc, p, from, to) && lo <= from && to <= hi && lo <= v < hi
    requires Ext(p, v) in loc && loc[Ext(p, v)] < ARENA && Injective(loc)
    requires t1 == tab[loc[Ext(p, v)] := t1[loc[Ext(p, v)]]]
    requires SameContext(t1[loc[Ext(p, v)]], tab[loc[Ext(p, v)]])
    ensures OnlyTree(tab, t2, loc, p, lo, hi)
  {
    forall q <- loc | loc[q] < ARENA
      ensures SameContext(t2[loc[q]], tab[loc[q]])
      ensures !(q.Ext? && q.ctx == p && lo <= q.value < hi) ==> t2[loc[q]] == tab[loc[q]]
    {
      if q != Ext(p, v) { assert t1[loc[q]] == tab[loc[q]]; }
    }
  }

  lemma WalkHits(tab: Table, next: nat, loc: Places, p: Path, t: Tree, lo: int, hi: int, d: byte, under: u16, count: u16)
    requires Placed(loc, next) && Good(t, lo, hi) && t.Node? && TreeRep(tab, loc, p, t)
    requires WalkFits(t, t.value, d, under, count)
    ensures Walked(EncodeWalk(tab, next, loc[Ext(p, t.value)], t.value, d, under, count),
                   tab, next, loc, p, t, lo, hi, t.value, d, under, count)
  {
    var i := loc[Ext(p, t.value)];
    var n := tab[i];
    AtNode(t, lo, hi, t.value);
    GoodParts(tab, loc, p, t, lo, hi);
    var tab' := tab[i := n.(under := n.under + d, count := n.count + d)];
    HitIs(tab, next, i, t.value, d, under, count);
    hide EncodeWalk;
    NodeReplaced(tab, tab', loc, loc, p, t, lo, hi);
    assert NodeRep(tab'[i], i, loc, p, Bump(t, t.value, d));
  }

  lemma HitIs(tab: Table, next: nat, i: nat, x: byte, d: byte, under: u16, count: u16)
    requires i < ARENA && tab[i].value == x && tab[i].under + d < 65536 && tab[i].count + d < 256
    requires tab[i].count <= tab[i].under && under + tab[i].under < 65536 && count + tab[i].count < 65536
    ensures EncodeWalk(tab, next, i, x, d, under, count)
         == Walk(tab[i := tab[i].(under := tab[i].under + d, count := tab[i].count + d)], next, i,
                 under + (tab[i].under - tab[i].count), count + tab[i].count)
  {
  }

  /** Replacing one node keeps both of its subtrees. */
  lemma NodeReplaced(tab: Table, tab': Table, loc: Places, loc': Places, p: Path, t: Tree, lo: int, hi: int)
    requires Injective(loc) && Good(t, lo, hi) && t.Node? && TreeRep(tab, loc, p, t)
    requires forall q <- loc :: q in loc' && loc'[q] == loc[q]
    requires forall q <- loc :: loc[q] < ARENA && q != Ext(p, t.value) ==> tab'[loc[q]] == tab[loc[q]]
    requires SameContext(tab'[loc[Ext(p, t.value)]], tab[loc[Ext(p, t.value)]])
    ensures TreeRep(tab', loc', p, t.left) && TreeRep(tab', loc', p, t.right)
    ensures OnlyTree(tab, tab', loc, p, lo, hi)
  {
    hide NodeRep;
    assert NodesKept(tab, tab', loc, loc', p, lo, t.value);
    assert NodesKept(tab, tab', loc, loc', p, t.value + 1, hi);
    TreeFrame(tab, tab', loc, loc', p, t.left, lo, t.value);
    TreeFrame(tab, tab', loc, loc', p, t.right, t.value + 1, hi);
  }

  /** A new leaf at `next`, linked from node `i` by its left or right offset. */
  lemma WalkMakesLeaf(tab: Table, next: nat, loc: Places, p: Path, t: Tree, lo: int, hi: int,
                      x: byte, d: byte, under: u16, count: u16)
    requires Placed(loc, next) && Good(t, lo, hi) && lo <= x < hi && t.Node? && TreeRep(tab, loc, p, t)
    requires WalkFits(t, x, d, under, count)
    requires Ext(p, x) !in loc && next < ARENA
    requires (x < t.value && t.left.Leaf?) || (x > t.value && t.right.Leaf?)
    ensures Walked(EncodeWalk(tab, next, loc[Ext(p, t.value)], x, d, under, count),
                   tab, next, loc, p, t, lo, hi, x, d, under, count)
  {
    hide EncodeWalk, Sum, CountsAtMost, TreeRep, NodeRep, Bump, Good;
    var tab' := LeafMade(tab, next, loc, p, t, lo, hi, x, d, under, count);
    var loc' := Grown(loc, p, x, false, next);
    NodeReplaced(tab, tab', loc, loc', p, t, lo, hi);
    LeafHangs(tab, tab', loc, loc', p, t, x, d, next);
  }

  /** What the walk itself does. */
  lemma LeafMade(tab: Table, next: nat, loc: Places, p: Path, t: Tree, lo: int, hi: int,
                 x: byte, d: byte, under: u16, count: u16) returns (tab': Table)
    requires Placed(loc, next) && Good(t, lo, hi) && lo <= x < hi && t.Node? && TreeRep(tab, loc, p, t)
    requires WalkFits(t, x, d, under, count) && next < ARENA
    requires (x < t.value && t.left.Leaf?) || (x > t.value && t.right.Leaf?)
    ensures !Has(t, x) && Weight(t, x) == 0 && t.under + d < 65536
    ensures Ext(p, t.value) in loc
    ensures var i := loc[Ext(p, t.value)];
            && i < next
            && under + Below(t, x) < 65536
            && EncodeWalk(tab, next, i, x, d, under, count) == Walk(tab', next + 1, next, under + Below(t, x), count)
            && tab'[i] == (if x < t.value then tab[i].(under := t.under + d, left := next - i) else tab[i].(right := next - i))
            && tab' == tab[next := Symbol(x, d, d, 0, 0, 0, 0, 0, 0)][i := tab'[i]]
  {
    var i := loc[Ext(p, t.value)];
    AtNode(t, lo, hi, x);
    GoodParts(tab, loc, p, t, lo, hi);
    hide TreeRep;
    var n := tab[i];
    tab' := Create(tab, next, x, d)[i := if x < t.value then n.(under := n.under + d, left := next - i) else n.(right := next - i)];
    MakeIs(tab, next, i, x, d, under, count, tab');
  }

  lemma LeafHangs(tab: Table, tab': Table, loc: Places, loc': Places, p: Path, t: Tree, x: byte, d: byte, next: nat)
    requires t.Node? && TreeRep(tab, loc, p, t) && TreeRep(tab', loc', p, t.left) && TreeRep(tab', loc', p, t.right)
    requires (x < t.value && t.left.Leaf?) || (x > t.value && t.right.Leaf?)
    requires next < ARENA && loc' == loc[Ext(p, x) := next] && Ext(p, x) !in loc && t.under + d < 65536 && d > 0
    requires var i := loc[Ext(p, t.value)];
             && i < next
             && tab'[i] == if x < t.value then tab[i].(under := t.under + d, left := next - i) else tab[i].(right := next - i)
    requires tab'[next] == Symbol(x, d, d, 0, 0, 0, 0, 0, 0)
    ensures TreeRep(tab', loc', p, Bump(t, x, d))
  {
    var i := loc[Ext(p, t.value)];
    var leaf := Node(x, d, d, Leaf, Leaf);
    var b := if x < t.value then t.(under := t.under + d, left := leaf) else t.(right := leaf);
    assert Bump(t, x, d) == b;
    assert TreeRep(tab', loc', p, leaf);
    assert NodeRep(tab'[i], i, loc', p, b);
  }

  lemma MakeIs(tab: Table, next: nat, i: nat, x: byte, d: byte, under: u16, count: u16, tab': Table)
    requires i < next < ARENA
    requires (x < tab[i].value && tab[i].left == 0) || (x > tab[i].value && tab[i].right == 0)
    requires tab[i].under + d < 65536 && under + tab[i].under < 65536
    requires tab' == Create(tab, next, x, d)[i := if x < tab[i].value then tab[i].(under := tab[i].under + d, left := next - i)
                                                  else tab[i].(right := next - i)]
    ensures EncodeWalk(tab, next, i, x, d, under, count)
         == Walk(tab', next + 1, next, if x < tab[i].value then under else under + tab[i].under, count)
  {
    if x < tab[i].value {
      assert Create(tab[i := tab[i].(under := tab[i].under + d)], next, x, d)[i := tab'[i]] == tab';
    }
  }

  lemma WalkGoesLeft(tab: Table, next: nat, loc: Places, p: Path, t: Tree, lo: int, hi: int,
                     x: byte, d: byte, under: u16, count: u16, t1: Table, w: Walk)
    requires Placed(loc, next) && Good(t, lo, hi) && t.Node? && lo <= x < t.value && TreeRep(tab, loc, p, t)
    requires Sum(t) + d < 65536 && (Has(t, x) || Ext(p, x) !in loc)
    requires t.left.Node?
    requires var i := loc[Ext(p, t.value)]; t1 == tab[i := tab[i].(under := tab[i].under + d)]
    requires Walked(w, t1, next, loc, p, t.left, lo, t.value, x, d, under, count)
    ensures Walked(w, tab, next, loc, p, t, lo, hi, x, d, under, count)
  {
    var loc' := Grown(loc, p, x, Has(t, x), next);
    assert Has(t, x) == Has(t.left, x) && Below(t, x) == Below(t.left, x) && Weight(t, x) == Weight(t.left, x) by {
      AtNode(t, lo, hi, x);
    }
    assert OnlyTree(tab, w.table, loc, p, lo, hi) by {
      OnlyTreeComposes(tab, t1, w.table, loc, p, t.value, lo, hi, lo, t.value);
    }
    LeftRep(tab, loc, loc', p, t, lo, hi, x, d, t1, w.table);
  }

  lemma LeftRep(tab: Table, loc: Places, loc': Places, p: Path, t: Tree, lo: int, hi: int, x: byte, d: byte, t1: Table, t2: Table)
    requires Injective(loc) && Good(t, lo, hi) && t.Node? && lo <= x < t.value && TreeRep(tab, loc, p, t)
    requires forall q <- loc :: q in loc' && loc'[q] == loc[q]
    requires t.left.Node?
    requires var i := loc[Ext(p, t.value)]; t.under + d < 65536 && t1 == tab[i := tab[i].(under := tab[i].under + d)]
    requires OnlyTree(t1, t2, loc, p, lo, t.value)
    requires TreeRep(t2, loc', p, Bump(t.left, x, d))
    ensures TreeRep(t2, loc', p, Bump(t, x, d))
  {
    var i := loc[Ext(p, t.value)];
    assert t2[i] == t1[i];
    RightRep(tab, loc, loc', p, t, lo, hi, t1, t2);
    hide OnlyTree, Good, Sum, NodeRep;
    var b := Bump(t.left, x, d);
    assert b.Node? && b.value == t.left.value;
    LeftReplaced(tab, t2, loc, loc', p, t, b, d);
    assert Bump(t, x, d) == t.(under := t.under + d, left := b);
  }

  lemma RightRep(tab: Table, loc: Places, loc': Places, p: Path, t: Tree, lo: int, hi: int, t1: Table, t2: Table)
    requires Injective(loc) && Good(t, lo, hi) && t.Node? && TreeRep(tab, loc, p, t)
    requires forall q <- loc :: q in loc' && loc'[q] == loc[q]
    requires var i := loc[Ext(p, t.value)]; t1 == tab[i := t1[i]]
    requires OnlyTree(t1, t2, loc, p, lo, t.value)
    ensures TreeRep(t2, loc', p, t.right)
  {
    hide TreeRep, NodeRep, OnlyTree, Sum;
    GoodParts(tab, loc, p, t, lo, hi);
    NodesKeptVia(tab, t1, t2, loc, loc', p, loc[Ext(p, t.value)], lo, t.value, t.value + 1, hi);
    TreeFrame(tab, t2, loc, loc', p, t.right, t.value + 1, hi);
  }

  lemma LeftReplaced(tab: Table, t2: Table, loc: Places, loc': Places, p: Path, t: Tree, b: Tree, d: nat)
    requires t.Node? && t.left.Node? && b.Node? && b.value == t.left.value && TreeRep(tab, loc, p, t)
    requires forall v: byte :: Ext(p, v) in loc ==> Ext(p, v) in loc' && loc'[Ext(p, v)] == loc[Ext(p, v)]
    requires var i := loc[Ext(p, t.value)]; t.under + d < 65536 && t2[i] == tab[i].(under := t.under + d)
    requires TreeRep(t2, loc', p, b) && TreeRep(t2, loc', p, t.right)
    ensures TreeRep(t2, loc', p, t.(under := t.under + d, left := b))
  {
    var i := loc[Ext(p, t.value)];
    var u := t.(under := t.under + d, left := b);
    assert NodeRep(t2[i], i, loc', p, u) by {
      assert NodeRep(tab[i], i, loc, p, t);
    }
  }

  lemma NodesKeptVia(tab: Table, t1: Table, t2: Table, loc: Places, loc': Places, p: Path, i: nat, lo: int, hi: int, from: int, to: int)
    requires i < ARENA && t1 == tab[i := t1[i]]
    requires OnlyTree(t1, t2, loc, p, lo, hi) && (hi <= from || to <= lo)
    requires forall v: byte | from <= v < to && Ext(p, v) in loc :: loc[Ext(p, v)] != i
    requires forall q <- loc :: q in loc' && loc'[q] == loc[q]
    ensures NodesKept(tab, t2, loc, loc', p, from, to)
  {
  }

  lemma WalkGoesRight(tab: Table, next: nat, loc: Places, p: Path, t: Tree, lo: int, hi: int,
                      x: byte, d: byte, under: u16, count: u16, w: Walk)
    requires Placed(loc, next) && Good(t, lo, hi) && t.Node? && t.value < x < hi && TreeRep(tab, loc, p, t)
    requires t.right.Node? && (Has(t, x) || Ext(p, x) !in loc)
    requires Walked(w, tab, next, loc, p, t.right, t.value + 1, hi, x, d, under + t.under, count)
    ensures Walked(w, tab, next, loc, p, t, lo, hi, x, d, under, count)
  {
    var i := loc[Ext(p, t.value)];
    AtNode(t, lo, hi, x);
    var loc' := Grown(loc, p, x, Has(t, x), next);
    assert w.table[i] == tab[i];
    KeptOutside(tab, w.table, loc, loc', p, t.value + 1, hi, lo, t.value);
    TreeFrame(tab, w.table, loc, loc', p, t.left, lo, t.value);
    assert Bump(t.right, x, d).value == t.right.value;
    assert NodeRep(w.table[i], i, loc', p, Bump(t, x, d));
  }

  /** The recursive step to the left, as the C loop takes it. */
  lemma WalkStepLeft(tab: Table, next: nat, loc: Places, p: Path, t: Tree, x: byte, d: byte, under: u16, count: u16)
    requires Injective(loc) && t.Node? && t.left.Node? && x < t.value && t.under + d < 65536
    requires TreeRep(tab, loc, p, t) && TreeRep(tab, loc, p, t.left)
    ensures var i := loc[Ext(p, t.value)];
            EncodeWalk(tab, next, i, x, d, under, count)
            == EncodeWalk(tab[i := tab[i].(under := tab[i].under + d)], next, loc[Ext(p, t.left.value)], x, d, under, count)
  {
  }

  lemma FitsBelow(t: Tree, lo: int, hi: int, x: byte, d: byte, under: u16, count: u16)
    requires Good(t, lo, hi) && t.Node? && lo <= x < hi && WalkFits(t, x, d, under, count)
    ensures x < t.value ==> WalkFits(t.left, x, d, under, count) && Has(t.left, x) == Has(t, x)
    ensures x > t.value ==> WalkFits(t.right, x, d, under + t.under, count) && Has(t.right, x) == Has(t, x)
  {
    AtNode(t, lo, hi, x);
  }

  /** What the walk may assume about the tree below it. */
  ghost predicate CanWalk(tab: Table, next: nat, loc: Places, p: Path, t: Tree, lo: int, hi: int,
                          x: byte, d: byte, under: int, count: int)
  {
    && Placed(loc, next) && Good(t, lo, hi) && lo <= x < hi && t.Node? && TreeRep(tab, loc, p, t)
    && WalkFits(t, x, d, under, count)
    && (Has(t, x) || (Ext(p, x) !in loc && next < ARENA))
  }

  lemma {:induction false} WalkRefines(tab: Table, next: nat, loc: Places, p: Path, t: Tree, lo: int, hi: int,
                                       x: byte, d: byte, under: u16, count: u16)
    requires CanWalk(tab, next, loc, p, t, lo, hi, x, d, under, count)
    ensures Walked(EncodeWalk(tab, next, loc[Ext(p, t.value)], x, d, under, count),
                   tab, next, loc, p, t, lo, hi, x, d, under, count)
    decreases t, 1
  {
    if x == t.value {
      WalkHits(tab, next, loc, p, t, lo, hi, d, under, count);
    } else if x < t.value && t.left.Node? {
      WalkRefinesLeft(tab, next, loc, p, t, lo, hi, x, d, under, count);
    } else if x > t.value && t.right.Node? {
      WalkRefinesRight(tab, next, loc, p, t, lo, hi, x, d, under, count);
    } else {
      NotThere(t, lo, hi, x);
      WalkMakesLeaf(tab, next, loc, p, t, lo, hi, x, d, under, count);
    }
  }

  lemma {:induction false} WalkRefinesLeft(tab: Table, next: nat, loc: Places, p: Path, t: Tree, lo: int, hi: int,
                                           x: byte, d: byte, under: u16, count: u16)
    requires CanWalk(tab, next, loc, p, t, lo, hi, x, d, under, count) && x < t.value && t.left.Node?
    ensures Walked(EncodeWalk(tab, next, loc[Ext(p, t.value)], x, d, under, count),
                   tab, next, loc, p, t, lo, hi, x, d, under, count)
    decreases t, 0
  {
    var i := loc[Ext(p, t.value)];
    var t1 := tab[i := tab[i].(under := tab[i].under + d)];
    assert CanWalk(t1, next, loc, p, t.left, lo, t.value, x, d, under, count) by {
      FitsBelow(t, lo, hi, x, d, under, count);
      NodesKeptByUnder(tab, t1, loc, p, t.value, lo, t.value);
      TreeFrame(tab, t1, loc, loc, p, t.left, lo, t.value);
    }
    WalkRefines(t1, next, loc, p, t.left, lo, t.value, x, d, under, count);
    WalkStepLeft(tab, next, loc, p, t, x, d, under, count);
    WalkGoesLeft(tab, next, loc, p, t, lo, hi, x, d, under, count, t1, EncodeWalk(tab, next, i, x, d, under, count));
  }

  lemma {:induction false} WalkRefinesRight(tab: Table, next: nat, loc: Places, p: Path, t: Tree, lo: int, hi: int,
                                            x: byte, d: byte, under: u16, count: u16)
    requires CanWalk(tab, next, loc, p, t, lo, hi, x, d, under, count) && x > t.value && t.right.Node?
    ensures Walked(EncodeWalk(tab, next, loc[Ext(p, t.value)], x, d, under, count),
                   tab, next, loc, p, t, lo, hi, x, d, under, count)
    decreases t, 0
  {
    var i := loc[Ext(p, t.value)];
    FitsBelow(t, lo, hi, x, d, under, count);
    WalkRefines(tab, next, loc, p, t.right, t.value + 1, hi, x, d, under + t.under, count);
    WalkGoesRight(tab, next, loc, p, t, lo, hi, x, d, under, count, EncodeWalk(tab, next, i, x, d, under, count));
  }

  lemma NotThere(t: Tree, lo: int, hi: int, x: byte)
    requires Good(t, lo, hi) && t.Node?
    requires (x < t.value && t.left.Leaf?) || (x > t.value && t.right.Leaf?)
    ensures !Has(t, x)
  {
    AtNode(t, lo, hi, x);
  }

  lemma NodesKeptByUnder(tab: Table, tab': Table, loc: Places, p: Path, v: byte, lo: int, hi: int)
    requires Injective(loc) && Ext(p, v) in loc && loc[Ext(p, v)] < ARENA && !(lo <= v < hi)
    requires tab' == tab[loc[Ext(p, v)] := tab'[loc[Ext(p, v)]]]
    ensures NodesKept(tab, tab', loc, loc, p, lo, hi)
  {
  }

  // ---------------------------------------------------------------- rescaling

  ghost predicate Rescaled(r: Halving, tab: Table, loc: Places, p: Path, t: Tree, lo: int, hi: int) {
    && r.Halving?
    && r.total == Sum(Halve(t))
    && TreeRep(r.table, loc, p, Halve(t))
    && OnlyTree(tab, r.table, loc, p, lo, hi)
  }

  lemma {:induction false} HalvedSum(t: Tree)
    ensures Sum(Halve(t)) <= Sum(t)
  {
    if t.Node? { HalvedSum(t.left); HalvedSum(t.right); }
  }

  lemma {:induction false} RescaleRefines(tab: Table, loc: Places, i: nat, offset: u16, p: Path, t: Tree, lo: int, hi: int)
    requires Placed(loc, ARENA) && Good(t, lo, hi) && TreeRep(tab, loc, p, t) && Sum(t) < 65536
    requires i < ARENA && Link(offset, i, loc, p, t)
    ensures Rescaled(Rescale(tab, i, offset), tab, loc, p, t, lo, hi)
    decreases t, 2
  {
    if t.Node? {
      var j := loc[Ext(p, t.value)];
      var left := RescaleLeft(tab, loc, p, t, lo, hi);
      var right := RescaleRight(tab, left, loc, p, t, lo, hi);
      RescaleJoins(tab, loc, i, offset, p, t, lo, hi, left, right);
    }
  }

  lemma RescaleJoins(tab: Table, loc: Places, i: nat, offset: u16, p: Path, t: Tree, lo: int, hi: int, left: Halving, right: Halving)
    requires Placed(loc, ARENA) && Good(t, lo, hi) && t.Node? && TreeRep(tab, loc, p, t) && Sum(t) < 65536
    requires i < ARENA && Link(offset, i, loc, p, t)
    requires var j := loc[Ext(p, t.value)];
             && left == Rescale(HalveNode(tab, j), j, tab[j].left)
             && Rescaled(left, HalveNode(tab, j), loc, p, t.left, lo, t.value)
             && var t3 := AddUnder(left.table, j, left.total);
             && right == Rescale(t3, j, t3[j].right)
             && HalvedNode(t3[j], tab[j], t)
             && TreeRep(t3, loc, p, Halve(t.left))
             && Rescaled(right, t3, loc, p, t.right, t.value + 1, hi)
    ensures Rescaled(Rescale(tab, i, offset), tab, loc, p, t, lo, hi)
  {
    hide Rescale, TreeRep, Good, OnlyTree, NodeRep, Sum, Halve, U16, Placed, Injective, HalveNode, AddUnder, SameContext;
    GoodParts(tab, loc, p, t, lo, hi);
    var j := loc[Ext(p, t.value)];
    var t3 := AddUnder(left.table, j, left.total);
    assert i + offset == j;
    RescaleUnfolds(tab, i, offset, left, right);
    HalvedSum(t);
    HalvedSum(t.left);
    RescaleAssembles(tab, left.table, right.table, loc, p, t, lo, hi);
    HalvedTotal(t3[j].under, right.total, t);
  }

  lemma HalvedTotal(under: u16, right: u16, t: Tree)
    requires t.Node? && Sum(t) < 65536 && under == Halve(t).under && right == Sum(Halve(t.right))
    ensures U16(under + right) == Sum(Halve(t))
  {
    hide Sum, Halve, U16;
    HalvedParts(t);
    HalvedSum(t);
    FitsU16(Sum(Halve(t)));
    assert under + right == Sum(Halve(t));
  }

  lemma HalvedParts(t: Tree)
    requires t.Node?
    ensures Halve(t).under + Sum(Halve(t.right)) == Sum(Halve(t))
  {
    assert Halve(t).right == Halve(t.right);
  }

  lemma RescaleUnfolds(tab: Table, i: nat, offset: u16, left: Halving, right: Halving)
    requires i < ARENA && 0 < offset && i + offset < ARENA && left.Halving? && right.Halving?
    requires var j := i + offset;
             left == Rescale(HalveNode(tab, j), j, tab[j].left)
             && right == Rescale(AddUnder(left.table, j, left.total), j, AddUnder(left.table, j, left.total)[j].right)
    ensures Rescale(tab, i, offset)
         == Halving(right.table, U16(AddUnder(left.table, i + offset, left.total)[i + offset].under + right.total))
  {
  }

  lemma {:induction false} RescaleLeft(tab: Table, loc: Places, p: Path, t: Tree, lo: int, hi: int) returns (left: Halving)
    requires Placed(loc, ARENA) && Good(t, lo, hi) && t.Node? && TreeRep(tab, loc, p, t) && Sum(t) < 65536
    ensures var j := loc[Ext(p, t.value)];
            left == Rescale(HalveNode(tab, j), j, tab[j].left)
            && Rescaled(left, HalveNode(tab, j), loc, p, t.left, lo, t.value)
    decreases t, 1
  {
    var j := loc[Ext(p, t.value)];
    var t1 := HalveNode(tab, j);
    NodesKeptByUnder(tab, t1, loc, p, t.value, lo, t.value);
    TreeFrame(tab, t1, loc, loc, p, t.left, lo, t.value);
    RescaleRefines(t1, loc, j, tab[j].left, p, t.left, lo, t.value);
    left := Rescale(t1, j, tab[j].left);
  }

  lemma {:induction false} RescaleRight(tab: Table, left: Halving, loc: Places, p: Path, t: Tree, lo: int, hi: int) returns (right: Halving)
    requires Placed(loc, ARENA) && Good(t, lo, hi) && t.Node? && TreeRep(tab, loc, p, t) && Sum(t) < 65536
    requires Rescaled(left, HalveNode(tab, loc[Ext(p, t.value)]), loc, p, t.left, lo, t.value)
    ensures var j := loc[Ext(p, t.value)];
            var t3 := AddUnder(left.table, j, left.total);
            && right == Rescale(t3, j, t3[j].right)
            && HalvedNode(t3[j], tab[j], t)
            && TreeRep(t3, loc, p, Halve(t.left))
            && Rescaled(right, t3, loc, p, t.right, t.value + 1, hi)
    decreases t, 1
  {
    var j := loc[Ext(p, t.value)];
    RescaleMiddle(tab, left.table, loc, p, t, lo, hi);
    var t3 := AddUnder(left.table, j, left.total);
    RescaleRefines(t3, loc, j, t3[j].right, p, t.right, t.value + 1, hi);
    right := Rescale(t3, j, t3[j].right);
  }

  ghost predicate HalvedNode(s: Symbol, n: Symbol, t: Tree)
    requires t.Node?
  {
    && s.value == n.value && s.left == n.left && s.right == n.right && SameContext(s, n)
    && s.count == Halve(t).count && s.under == Halve(t).under
  }

  lemma RescaleMiddle(tab: Table, t2: Table, loc: Places, p: Path, t: Tree, lo: int, hi: int)
    requires Placed(loc, ARENA) && Good(t, lo, hi) && t.Node? && TreeRep(tab, loc, p, t) && Sum(t) < 65536
    requires Sum(Halve(t.left)) < 65536
    requires OnlyTree(HalveNode(tab, loc[Ext(p, t.value)]), t2, loc, p, lo, t.value) && TreeRep(t2, loc, p, Halve(t.left))
    ensures var j := loc[Ext(p, t.value)]; var t3 := AddUnder(t2, j, Sum(Halve(t.left)));
            && HalvedNode(t3[j], tab[j], t)
            && TreeRep(t3, loc, p, Halve(t.left))
            && TreeRep(t3, loc, p, t.right)
  {
    hide Sum, TreeRep, Good;
    GoodParts(tab, loc, p, t, lo, hi);
    var j, v: int := loc[Ext(p, t.value)], t.value;
    var t1 := HalveNode(tab, j);
    assert t2[j] == t1[j];
    HalvedFits(t, lo, hi);
    var t3 := AddUnder(t2, j, Sum(Halve(t.left)));
    assert TreeRep(t3, loc, p, Halve(t.left)) by {
      HalveKeepsSymbols(t.left, lo, v);
      NodesKeptByUnder(t2, t3, loc, p, t.value, lo, v);
      TreeFrame(t2, t3, loc, loc, p, Halve(t.left), lo, v);
    }
    assert TreeRep(t3, loc, p, t.right) by {
      NodesKeptVia(tab, t1, t2, loc, loc, p, j, lo, v, v + 1, hi);
      TreeFrame(tab, t2, loc, loc, p, t.right, v + 1, hi);
      NodesKeptByUnder(t2, t3, loc, p, t.value, v + 1, hi);
      TreeFrame(t2, t3, loc, loc, p, t.right, v + 1, hi);
    }
  }

  lemma GoodParts(tab: Table, loc: Places, p: Path, t: Tree, lo: int, hi: int)
    requires Good(t, lo, hi) && t.Node? && TreeRep(tab, loc, p, t)
    ensures Ext(p, t.value) in loc && loc[Ext(p, t.value)] < ARENA && NodeRep(tab[loc[Ext(p, t.value)]], loc[Ext(p, t.value)], loc, p, t)
    ensures TreeRep(tab, loc, p, t.left) && TreeRep(tab, loc, p, t.right)
    ensures lo <= t.value < hi && Good(t.left, lo, t.value) && Good(t.right, t.value + 1, hi)
    ensures t.count > 0 && t.under == t.count + Sum(t.left)
  {
  }

  lemma HalvedFits(t: Tree, lo: int, hi: int)
    requires Good(t, lo, hi) && t.Node? && Sum(t) < 65536
    ensures t.count - t.count / 2 + Sum(Halve(t.left)) < 65536
    ensures Halve(t).count == t.count - t.count / 2 && Halve(t).under == t.count - t.count / 2 + Sum(Halve(t.left))
  {
    HalvedSum(t);
  }

  lemma RescaleAssembles(tab: Table, t2: Table, t4: Table, loc: Places, p: Path, t: Tree, lo: int, hi: int)
    requires Placed(loc, ARENA) && Good(t, lo, hi) && t.Node? && TreeRep(tab, loc, p, t)
    requires Sum(Halve(t.left)) < 65536
    requires var j := loc[Ext(p, t.value)];
             && OnlyTree(HalveNode(tab, j), t2, loc, p, lo, t.value)
             && var t3 := AddUnder(t2, j, Sum(Halve(t.left)));
             && HalvedNode(t3[j], tab[j], t)
             && OnlyTree(t3, t4, loc, p, t.value + 1, hi)
             && TreeRep(t3, loc, p, Halve(t.left)) && TreeRep(t4, loc, p, Halve(t.right))
    ensures TreeRep(t4, loc, p, Halve(t)) && OnlyTree(tab, t4, loc, p, lo, hi)
  {
    var j := loc[Ext(p, t.value)];
    var t3 := AddUnder(t2, j, Sum(Halve(t.left)));
    OnlyTreeComposes(tab, HalveNode(tab, j), t2, loc, p, t.value, lo, hi, lo, t.value);
    assert t4[j] == t3[j];
    forall q <- loc | loc[q] < ARENA
      ensures SameContext(t4[loc[q]], tab[loc[q]])
      ensures !(q.Ext? && q.ctx == p && lo <= q.value < hi) ==> t4[loc[q]] == tab[loc[q]]
    {
      if q != Ext(p, t.value) { assert t3[loc[q]] == t2[loc[q]]; }
    }
    HalveKeepsSymbols(t.left, lo, t.value);
    KeptOutside(t3, t4, loc, loc, p, t.value + 1, hi, lo, t.value);
    TreeFrame(t3, t4, loc, loc, p, Halve(t.left), lo, t.value);
    assert NodeRep(t4[j], j, loc, p, Halve(t));
  }
}
