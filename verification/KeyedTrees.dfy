/** The trees in the arena when nothing is known about the values in them. A hostile code can give a new
    symbol of the root a value that is out of order, so the decompressor's trees need not be search trees;
    what keeps the arena in one piece does not depend on the values. Every node has a key instead, and the
    keys are in the order of the tree. */
module KeyedTrees {
  import opened Numbers
  import opened RangeCoder
  import opened PpmModel
  import opened Arena

  // ---------------------------------------------------------------- trees by key

  /** Keys, and the order of the context that a node is. */
  datatype Marks = Marks(key: seq<real>, level: seq<nat>)

  ghost predicate Marked(m: Marks) { |m.key| == ARENA && |m.level| == ARENA }

  function Mark(m: Marks, i: nat, x: real, level: nat): Marks
    requires i < |m.key| && i < |m.level|
  {
    Marks(m.key[i := x], m.level[i := level])
  }

  /** The offset at index `i` leads to a tree of existing nodes with keys in order and counts that are
      neither zero nor over `most`. */
  ghost predicate Grove(t: Table, m: Marks, next: nat, i: nat, offset: u16, lo: real, hi: real, level: nat, most: nat)
    requires Marked(m) && next <= ARENA
    decreases ARENA - i
  {
    offset == 0 || (
      && i + offset < next
      && var j := i + offset;
      && lo < m.key[j] < hi && m.level[j] == level && 0 < t[j].count <= most
      && Grove(t, m, next, j, t[j].left, lo, m.key[j], level, most)
      && Grove(t, m, next, j, t[j].right, m.key[j], hi, level, most))
  }

  ghost function Sum(t: Table, i: nat, offset: u16): nat
    decreases ARENA - i
  {
    if offset == 0 || i + offset >= ARENA then 0
    else
      var j := i + offset;
      t[j].count + Sum(t, j, t[j].left) + Sum(t, j, t[j].right)
  }

  ghost function Size(t: Table, i: nat, offset: u16): nat
    decreases ARENA - i
  {
    if offset == 0 || i + offset >= ARENA then 0
    else
      var j := i + offset;
      1 + Size(t, j, t[j].left) + Size(t, j, t[j].right)
  }

  ghost predicate SameNode(a: Symbol, b: Symbol) { a.left == b.left && a.right == b.right && a.count == b.count }

  /** Old nodes keep their marks. */
  ghost predicate Extends(m: Marks, next: nat, m': Marks, next': nat) {
    && Marked(m) && Marked(m') && next <= next' <= ARENA
    && forall k :: 0 <= k < next ==> m'.key[k] == m.key[k] && m'.level[k] == m.level[k]
  }

  ghost predicate NodesKept(t: Table, t': Table, m: Marks, next: nat, lo: real, hi: real)
    requires Marked(m) && next <= ARENA
  {
    forall k :: 0 <= k < next && lo < m.key[k] < hi ==> SameNode(t'[k], t[k])
  }

  lemma {:induction false} GroveFrame(t: Table, t': Table, m: Marks, next: nat, m': Marks, next': nat,
                                      i: nat, offset: u16, lo: real, hi: real, level: nat, most: nat, most': nat)
    requires Extends(m, next, m', next') && Grove(t, m, next, i, offset, lo, hi, level, most) && most <= most'
    requires NodesKept(t, t', m, next, lo, hi)
    ensures Grove(t', m', next', i, offset, lo, hi, level, most')
    ensures Sum(t', i, offset) == Sum(t, i, offset) && Size(t', i, offset) == Size(t, i, offset)
    decreases ARENA - i
  {
    if offset != 0 {
      var j := i + offset;
      GroveFrame(t, t', m, next, m', next', j, t[j].left, lo, m.key[j], level, most, most');
      GroveFrame(t, t', m, next, m', next', j, t[j].right, m.key[j], hi, level, most, most');
    }
  }

  lemma {:induction false} NoMoreThanCounted(t: Table, m: Marks, next: nat, i: nat, offset: u16, lo: real, hi: real, level: nat, most: nat)
    requires Marked(m) && next <= ARENA && Grove(t, m, next, i, offset, lo, hi, level, most)
    ensures Size(t, i, offset) <= Sum(t, i, offset)
    decreases ARENA - i
  {
    if offset != 0 {
      var j := i + offset;
      NoMoreThanCounted(t, m, next, j, t[j].left, lo, m.key[j], level, most);
      NoMoreThanCounted(t, m, next, j, t[j].right, m.key[j], hi, level, most);
    }
  }

  // ---------------------------------------------------------------- a walk that counts one symbol

  /** One node of a tree. */
  ghost predicate Fits(t: Table, m: Marks, next: nat, j: nat, lo: real, hi: real, level: nat, most: nat)
    requires Marked(m) && next <= ARENA
  {
    j < next && lo < m.key[j] < hi && m.level[j] == level && 0 < t[j].count <= most
  }

  lemma Parts(t: Table, m: Marks, next: nat, i: nat, offset: u16, lo: real, hi: real, level: nat, most: nat)
    requires Marked(m) && next <= ARENA && offset != 0
    requires i + offset < ARENA
    ensures var j := i + offset;
            Grove(t, m, next, i, offset, lo, hi, level, most) <==>
              && Fits(t, m, next, j, lo, hi, level, most)
              && Grove(t, m, next, j, t[j].left, lo, m.key[j], level, most)
              && Grove(t, m, next, j, t[j].right, m.key[j], hi, level, most)
    ensures var j := i + offset;
            && Sum(t, i, offset) == t[j].count + Sum(t, j, t[j].left) + Sum(t, j, t[j].right)
            && Size(t, i, offset) == 1 + Size(t, j, t[j].left) + Size(t, j, t[j].right)
  {
  }

  lemma RootExists(t: Table, m: Marks, next: nat, i: nat, offset: u16, lo: real, hi: real, level: nat, most: nat)
    requires Marked(m) && next <= ARENA && offset != 0 && Grove(t, m, next, i, offset, lo, hi, level, most)
    ensures i + offset < next
  {
  }

  lemma NoTree(t: Table, m: Marks, next: nat, i: nat, lo: real, hi: real, level: nat, most: nat)
    requires Marked(m) && next <= ARENA
    ensures Grove(t, m, next, i, 0, lo, hi, level, most) && Sum(t, i, 0) == 0 && Size(t, i, 0) == 0
  {
  }

  // ---------------------------------------------------------------- a walk that counts one symbol

  /** The symbol that was counted `d` more: one of the tree, or a new one at `next`. */
  ghost predicate Picked(t: Table, t': Table, m: Marks, next: nat, m': Marks, next': nat, symbol: nat, was: int, lo: real, hi: real, level: nat)
  {
    && Extends(m, next, m', next') && next' <= next + 1
    && symbol < next' && lo < m'.key[symbol] < hi && m'.level[symbol] == level
    && (if next' == next then 0 < was else was == 0 && symbol == next && SameContext(t'[next], BLANK))
  }

  ghost predicate OnlyTree(t: Table, t': Table, m: Marks, next: nat, lo: real, hi: real)
    requires Marked(m) && next <= ARENA
  {
    forall k :: 0 <= k < next ==> SameContext(t'[k], t[k]) && (!(lo < m.key[k] < hi) ==> SameNode(t'[k], t[k]))
  }

  /** What any walk does to the tree at (`i`, `offset`). */
  ghost predicate CountsOne(t: Table, t': Table, m: Marks, next: nat, m': Marks, next': nat, symbol: nat, was: int, d: nat,
                           i: nat, offset: u16, lo: real, hi: real, level: nat, most: nat)
  {
    && Picked(t, t', m, next, m', next', symbol, was, lo, hi, level)
    && OnlyTree(t, t', m, next, lo, hi)
    && Grove(t', m', next', i, offset, lo, hi, level, NewMost(was, d, most))
    && Sum(t', i, offset) == Sum(t, i, offset) + d && Size(t', i, offset) == Size(t, i, offset) + (next' - next)
    && was <= Sum(t, i, offset)
  }

  function NewMost(was: int, d: nat, most: nat): nat { if was + d <= most then most else 255 }

  lemma CountHere(t: Table, t': Table, m: Marks, next: nat, d: nat, i: nat, offset: u16, lo: real, hi: real, level: nat, most: nat)
    requires Marked(m) && next <= ARENA && Grove(t, m, next, i, offset, lo, hi, level, most) && offset != 0
    requires 0 < d && most + d <= 255 && i + offset < ARENA
    requires var j := i + offset;
             && t' == t[j := t'[j]] && SameContext(t'[j], t[j])
             && t'[j].left == t[j].left && t'[j].right == t[j].right && t'[j].count == t[j].count + d
    ensures CountsOne(t, t', m, next, m, next, i + offset, t[i + offset].count, d, i, offset, lo, hi, level, most)
  {
    hide Grove, Sum, Size;
    var j := i + offset;
    var most' := NewMost(t[j].count, d, most);
    Parts(t, m, next, i, offset, lo, hi, level, most);
    GroveFrame(t, t', m, next, m, next, j, t[j].left, lo, m.key[j], level, most, most');
    GroveFrame(t, t', m, next, m, next, j, t[j].right, m.key[j], hi, level, most, most');
    Parts(t', m, next, i, offset, lo, hi, level, most');
  }

  /** A new leaf left or right of the node at `i + offset`. */
  ghost predicate Hung(t: Table, t': Table, next: nat, j: nat, d: nat, left: bool)
    requires j < next < ARENA
  {
    && SameContext(t'[j], t[j]) && t'[j].count == t[j].count
    && (if left then t[j].left == 0 && t'[j].left == next - j && t'[j].right == t[j].right
        else t[j].right == 0 && t'[j].right == next - j && t'[j].left == t[j].left)
    && (forall k :: 0 <= k < next && k != j ==> t'[k] == t[k])
    && t'[next].count == d && t'[next].left == 0 && t'[next].right == 0 && SameContext(t'[next], BLANK)
  }

  lemma CountNew(t: Table, t': Table, m: Marks, next: nat, d: nat, i: nat, offset: u16, lo: real, hi: real, level: nat, most: nat,
                 left: bool) returns (m': Marks)
    requires Marked(m) && next < ARENA && Grove(t, m, next, i, offset, lo, hi, level, most) && offset != 0
    requires 0 < d <= most && i + offset < next && Hung(t, t', next, i + offset, d, left)
    ensures CountsOne(t, t', m, next, m', next + 1, next, 0, d, i, offset, lo, hi, level, most)
  {
    hide Grove, Sum, Size;
    var j := i + offset;
    Parts(t, m, next, i, offset, lo, hi, level, most);
    var from, to := if left then lo else m.key[j], if left then m.key[j] else hi;
    m' := Mark(m, next, (from + to) / 2.0, level);
    NewLeaf(t', m', next, j, d, from, to, level, most);
    NoTree(t, m, next, j, from, to, level, most);
    if left {
      GroveFrame(t, t', m, next, m', next + 1, j, t[j].right, m.key[j], hi, level, most, most);
    } else {
      GroveFrame(t, t', m, next, m', next + 1, j, t[j].left, lo, m.key[j], level, most, most);
    }
    Parts(t', m', next + 1, i, offset, lo, hi, level, most);
  }

  lemma NewLeaf(t: Table, m: Marks, next: nat, j: nat, d: nat, lo: real, hi: real, level: nat, most: nat)
    requires Marked(m) && j < next < ARENA && t[next].count == d && t[next].left == 0 && t[next].right == 0
    requires lo < m.key[next] < hi && m.level[next] == level && 0 < d <= most
    ensures Grove(t, m, next + 1, j, next - j, lo, hi, level, most)
    ensures Sum(t, j, next - j) == d && Size(t, j, next - j) == 1
  {
    NoTree(t, m, next + 1, next, lo, m.key[next], level, most);
    NoTree(t, m, next + 1, next, m.key[next], hi, level, most);
    Parts(t, m, next + 1, j, next - j, lo, hi, level, most);
  }

  /** The node of the tree has passed the walk on to one side. */
  lemma CountBelow(t: Table, t1: Table, t': Table, m: Marks, next: nat, m': Marks, next': nat, symbol: nat, was: int, d: nat,
                   i: nat, offset: u16, lo: real, hi: real, level: nat, most: nat, left: bool)
    requires Marked(m) && next <= ARENA && Grove(t, m, next, i, offset, lo, hi, level, most) && offset != 0
    requires most <= 255 && i + offset < ARENA
    requires forall k :: 0 <= k < next ==> SameNode(t1[k], t[k]) && SameContext(t1[k], t[k])
    requires var j := i + offset;
             if left then CountsOne(t1, t', m, next, m', next', symbol, was, d, j, t[j].left, lo, m.key[j], level, most)
             else CountsOne(t1, t', m, next, m', next', symbol, was, d, j, t[j].right, m.key[j], hi, level, most)
    ensures CountsOne(t, t', m, next, m', next', symbol, was, d, i, offset, lo, hi, level, most)
  {
    hide Grove, Sum, Size;
    var j := i + offset;
    var most' := NewMost(was, d, most);
    Parts(t, m, next, i, offset, lo, hi, level, most);
    GroveFrame(t, t1, m, next, m, next, j, t[j].left, lo, m.key[j], level, most, most);
    GroveFrame(t, t1, m, next, m, next, j, t[j].right, m.key[j], hi, level, most, most);
    if left {
      GroveFrame(t1, t', m, next, m', next', j, t[j].right, m.key[j], hi, level, most, most');
    } else {
      GroveFrame(t1, t', m, next, m', next', j, t[j].left, lo, m.key[j], level, most, most');
    }
    Parts(t', m', next', i, offset, lo, hi, level, most');
  }

  /** The walk ends at this node. */
  lemma EncodeEnds(t: Table, m: Marks, next: nat, i: nat, offset: u16, lo: real, hi: real, level: nat, most: nat,
                   value: byte, d: byte, under: u16, count: u16) returns (m': Marks)
    requires Marked(m) && next < ARENA && offset != 0 && i + offset < next && Grove(t, m, next, i, offset, lo, hi, level, most)
    requires 0 < d <= most && most + d <= 255 && count <= 1
    requires var n := t[i + offset]; (value < n.value ==> n.left == 0) && (value > n.value ==> n.right == 0)
    ensures var w := EncodeWalk(t, next, i + offset, value, d, under, count);
            && w.Walk? && count <= w.count
            && CountsOne(t, w.table, m, next, m', w.next, w.symbol, w.count - count, d, i, offset, lo, hi, level, most)
  {
    hide Grove, Sum, Size, CountsOne, SameContext;
    var j := i + offset;
    Parts(t, m, next, i, offset, lo, hi, level, most);
    var n := t[j];
    var w := EncodeWalk(t, next, j, value, d, under, count);
    if value == n.value {
      m' := m;
      SameSelf(t[j], w.table[j]);
      CountHere(t, w.table, m, next, d, i, offset, lo, hi, level, most);
    } else {
      HungBy(t, w.table, next, j, value, d, value < n.value);
      m' := CountNew(t, w.table, m, next, d, i, offset, lo, hi, level, most, value < n.value);
    }
  }

  lemma EncodePasses(t: Table, next: nat, j: nat, value: byte, d: byte, under: u16, count: u16)
    requires j < ARENA
    ensures var n := t[j];
            && (value < n.value && n.left != 0 && j + n.left < ARENA ==>
                  EncodeWalk(t, next, j, value, d, under, count) == EncodeWalk(AddUnderAt(t, j, d), next, j + n.left, value, d, under, count))
            && (value > n.value && n.right != 0 && j + n.right < ARENA ==>
                  EncodeWalk(t, next, j, value, d, under, count) == EncodeWalk(t, next, j + n.right, value, d, U16(under + n.under), count))
  {
  }

  lemma {:induction false} EncodeWalkCounts(t: Table, m: Marks, next: nat, i: nat, offset: u16, lo: real, hi: real, level: nat, most: nat,
                                            value: byte, d: byte, under: u16, count: u16) returns (m': Marks)
    requires Marked(m) && next < ARENA && offset != 0 && i + offset < next && Grove(t, m, next, i, offset, lo, hi, level, most)
    requires 0 < d <= most && most + d <= 255 && count <= 1
    ensures var w := EncodeWalk(t, next, i + offset, value, d, under, count);
            && w.Walk? && count <= w.count
            && CountsOne(t, w.table, m, next, m', w.next, w.symbol, w.count - count, d, i, offset, lo, hi, level, most)
    decreases ARENA - i
  {
    hide Grove, Sum, Size, CountsOne, SameContext, SameNode, EncodeWalk;
    var j := i + offset;
    Parts(t, m, next, i, offset, lo, hi, level, most);
    EncodePasses(t, next, j, value, d, under, count);
    var n := t[j];
    if value < n.value && n.left != 0 {
      var t1 := AddUnderAt(t, j, d);
      Same(t, t1, j);
      GroveFrame(t, t1, m, next, m, next, j, n.left, lo, m.key[j], level, most, most);
      RootExists(t, m, next, j, n.left, lo, m.key[j], level, most);
      m' := EncodeWalkCounts(t1, m, next, j, n.left, lo, m.key[j], level, most, value, d, under, count);
      var w := EncodeWalk(t1, next, j + n.left, value, d, under, count);
      CountBelow(t, t1, w.table, m, next, m', w.next, w.symbol, w.count - count, d, i, offset, lo, hi, level, most, true);
    } else if value > n.value && n.right != 0 {
      RootExists(t, m, next, j, n.right, m.key[j], hi, level, most);
      m' := EncodeWalkCounts(t, m, next, j, n.right, m.key[j], hi, level, most, value, d, U16(under + n.under), count);
      var w := EncodeWalk(t, next, j + n.right, value, d, U16(under + n.under), count);
      Same(t, t, j);
      CountBelow(t, t, w.table, m, next, m', w.next, w.symbol, w.count - count, d, i, offset, lo, hi, level, most, false);
    } else {
      m' := EncodeEnds(t, m, next, i, offset, lo, hi, level, most, value, d, under, count);
    }
  }

  // The same for the decoding walk.

  lemma DecodeWalkEnds(t: Table, m: Marks, next: nat, i: nat, offset: u16, lo: real, hi: real, level: nat, most: nat,
                       code: nat, d: byte, under: u16, min: byte) returns (m': Marks)
    requires Marked(m) && next <= ARENA && offset != 0 && i + offset < next && Grove(t, m, next, i, offset, lo, hi, level, most)
    requires 0 < d <= most && most + d <= 255 && min <= 1 && (min == 0 || next < ARENA)
    requires var n := t[i + offset];
             match TurnAt(n, code, under, min)
             case GoRight(_) => n.right == 0
             case GoLeft(_) => n.left == 0
             case Here(_) => true
    ensures var w := DecodeWalk(t, next, i + offset, code, d, under, min);
            && !w.Outside? && (w.NoSuch? ==> min == 0)
            && (w.Dug? ==>
                  && min <= w.count && (min == 0 ==> w.next == next)
                  && CountsOne(t, w.table, m, next, m', w.next, w.symbol, w.count - min, d, i, offset, lo, hi, level, most))
  {
    hide Grove, Sum, Size, CountsOne, SameContext, TurnAt;
    var j := i + offset;
    Parts(t, m, next, i, offset, lo, hi, level, most);
    m' := m;
    var turn := TurnAt(t[j], code, under, min);
    hide DecodeWalk, Hung;
    if turn.Here? {
      DecodeHits(t, next, j, code, d, under, min);
      var w := DecodeWalk(t, next, j, code, d, under, min);
      SameSelf(t[j], w.table[j]);
      CountHere(t, w.table, m, next, d, i, offset, lo, hi, level, most);
    } else {
      DecodeMakes(t, next, j, code, d, under, min);
      var w := DecodeWalk(t, next, j, code, d, under, min);
      if min > 0 { m' := CountNew(t, w.table, m, next, d, i, offset, lo, hi, level, most, turn.GoLeft?); }
    }
  }

  lemma DecodeHits(t: Table, next: nat, j: nat, code: nat, d: byte, under: u16, min: byte)
    requires j < ARENA && TurnAt(t[j], code, under, min).Here? && t[j].count + d <= 255 && min <= 1
    ensures var w := DecodeWalk(t, next, j, code, d, under, min);
            && w.Dug? && w.next == next && w.symbol == j && w.count == min + t[j].count
            && w.table == t[j := t[j].(under := w.table[j].under, count := t[j].count + d)]
  {
    hide TurnAt;
  }

  /** A code that no symbol of this side has. */
  lemma DecodeMakes(t: Table, next: nat, j: nat, code: nat, d: byte, under: u16, min: byte)
    requires j < next <= ARENA && min <= 1 && (min == 0 || next < ARENA)
    requires var n := t[j];
             match TurnAt(n, code, under, min)
             case GoRight(_) => n.right == 0
             case GoLeft(_) => n.left == 0
             case Here(_) => false
    ensures var w := DecodeWalk(t, next, j, code, d, under, min);
            if min == 0 then w == NoSuch
            else w.Dug? && w.next == next + 1 && w.symbol == next && w.count == min
                 && Hung(t, w.table, next, j, d, TurnAt(t[j], code, under, min).GoLeft?)
  {
    hide Hung, TurnAt;
    var w := DecodeWalk(t, next, j, code, d, under, min);
    if min > 0 { HungBy(t, w.table, next, j, w.value, d, TurnAt(t[j], code, under, min).GoLeft?); }
  }

  lemma {:induction false} DecodeWalkCounts(t: Table, m: Marks, next: nat, i: nat, offset: u16, lo: real, hi: real, level: nat, most: nat,
                                            code: nat, d: byte, under: u16, min: byte) returns (m': Marks)
    requires Marked(m) && next <= ARENA && offset != 0 && i + offset < next && Grove(t, m, next, i, offset, lo, hi, level, most)
    requires 0 < d <= most && most + d <= 255 && min <= 1 && (min == 0 || next < ARENA)
    ensures var w := DecodeWalk(t, next, i + offset, code, d, under, min);
            && !w.Outside? && (w.NoSuch? ==> min == 0)
            && (w.Dug? ==>
                  && min <= w.count && (min == 0 ==> w.next == next)
                  && CountsOne(t, w.table, m, next, m', w.next, w.symbol, w.count - min, d, i, offset, lo, hi, level, most))
    decreases ARENA - i
  {
    hide Grove, Sum, Size, CountsOne, SameContext, SameNode, DecodeWalk, TurnAt;
    var j := i + offset;
    Parts(t, m, next, i, offset, lo, hi, level, most);
    DecodePasses(t, next, j, code, d, under, min);
    var n, turn := t[j], TurnAt(t[j], code, under, min);
    if turn.GoLeft? && n.left != 0 {
      var t1 := AddUnderAt(t, j, d);
      Same(t, t1, j);
      GroveFrame(t, t1, m, next, m, next, j, n.left, lo, m.key[j], level, most, most);
      RootExists(t, m, next, j, n.left, lo, m.key[j], level, most);
      m' := DecodeWalkCounts(t1, m, next, j, n.left, lo, m.key[j], level, most, code, d, under, min);
      var w := DecodeWalk(t1, next, j + n.left, code, d, under, min);
      if w.Dug? {
        CountBelow(t, t1, w.table, m, next, m', w.next, w.symbol, w.count - min, d, i, offset, lo, hi, level, most, true);
      }
    } else if turn.GoRight? && n.right != 0 {
      RootExists(t, m, next, j, n.right, m.key[j], hi, level, most);
      m' := DecodeWalkCounts(t, m, next, j, n.right, m.key[j], hi, level, most, code, d, U16(under + n.under), min);
      var w := DecodeWalk(t, next, j + n.right, code, d, U16(under + n.under), min);
      Same(t, t, j);
      if w.Dug? {
        CountBelow(t, t, w.table, m, next, m', w.next, w.symbol, w.count - min, d, i, offset, lo, hi, level, most, false);
      }
    } else {
      m' := DecodeWalkEnds(t, m, next, i, offset, lo, hi, level, most, code, d, under, min);
    }
  }

  lemma DecodePasses(t: Table, next: nat, j: nat, code: nat, d: byte, under: u16, min: byte)
    requires j < ARENA
    ensures var n, turn := t[j], TurnAt(t[j], code, under, min);
            && (turn.GoLeft? && n.left != 0 && j + n.left < ARENA ==>
                  DecodeWalk(t, next, j, code, d, under, min) == DecodeWalk(AddUnderAt(t, j, d), next, j + n.left, code, d, under, min))
            && (turn.GoRight? && n.right != 0 && j + n.right < ARENA ==>
                  DecodeWalk(t, next, j, code, d, under, min) == DecodeWalk(t, next, j + n.right, code, d, U16(under + n.under), min))
  {
    hide TurnAt;
  }

  lemma SameSelf(a: Symbol, b: Symbol)
    requires b == a.(under := b.under, count := b.count)
    ensures SameContext(b, a) && b.left == a.left && b.right == a.right
  {
  }

  lemma Same(t: Table, t1: Table, j: nat)
    requires j < ARENA && t1 == t[j := t[j].(under := t1[j].under)]
    ensures forall k :: 0 <= k < ARENA ==> SameNode(t1[k], t[k]) && SameContext(t1[k], t[k])
  {
  }

  lemma HungBy(t: Table, t': Table, next: nat, j: nat, value: byte, d: byte, left: bool)
    requires j < next < ARENA && (if left then t[j].left == 0 else t[j].right == 0)
    requires t'[next] == Symbol(value, d, d, 0, 0, 0, 0, 0, 0)
    requires if left then t'[j] == t[j].(under := t'[j].under, left := next - j) else t'[j] == t[j].(right := next - j)
    requires forall k :: 0 <= k < next && k != j ==> t'[k] == t[k]
    ensures Hung(t, t', next, j, d, left)
  {
  }

  // ---------------------------------------------------------------- rescaling

  ghost predicate Untouched(t: Table, t': Table, m: Marks, next: nat, lo: real, hi: real)
    requires Marked(m) && next <= ARENA
  {
    forall k :: 0 <= k < next && !(lo < m.key[k] < hi) ==> t'[k] == t[k]
  }

  /** What rescaling does to the tree at (`i`, `offset`). */
  ghost predicate HalvesAll(r: Halving, t: Table, m: Marks, next: nat, i: nat, offset: u16, lo: real, hi: real, level: nat)
    requires Marked(m) && next <= ARENA
  {
    && r.Halving?
    && OnlyTree(t, r.table, m, next, lo, hi) && Untouched(t, r.table, m, next, lo, hi)
    && Grove(r.table, m, next, i, offset, lo, hi, level, 128)
    && r.total == Sum(r.table, i, offset) && Size(r.table, i, offset) == Size(t, i, offset)
    && 2 * Sum(r.table, i, offset) <= Sum(t, i, offset) + Size(t, i, offset)
  }

  lemma {:induction false} RescaleHalves(t: Table, m: Marks, next: nat, i: nat, offset: u16, lo: real, hi: real, level: nat)
    requires Marked(m) && i < next <= ARENA && Grove(t, m, next, i, offset, lo, hi, level, 255) && Sum(t, i, offset) < 65536
    ensures HalvesAll(Rescale(t, i, offset), t, m, next, i, offset, lo, hi, level)
    decreases ARENA - i
  {
    hide Sum, Size;
    if offset == 0 {
      NoTree(t, m, next, i, lo, hi, level, 128);
    } else {
      hide Grove, HalvesAll, Rescale;
      RootExists(t, m, next, i, offset, lo, hi, level, 255);
      var j := i + offset;
      Parts(t, m, next, i, offset, lo, hi, level, 255);
      var t1 := HalveNode(t, j);
      GroveFrame(t, t1, m, next, m, next, j, t[j].left, lo, m.key[j], level, 255, 255);
      RescaleHalves(t1, m, next, j, t[j].left, lo, m.key[j], level);
      var left := Rescale(t1, j, t[j].left);
      var t3 := MiddleOf(t, m, next, i, offset, lo, hi, level, left);
      RescaleHalves(t3, m, next, j, t[j].right, m.key[j], hi, level);
      HalvesJoin(t, m, next, i, offset, lo, hi, level, left, t3, Rescale(t3, j, t[j].right));
    }
  }

  lemma MiddleOf(t: Table, m: Marks, next: nat, i: nat, offset: u16, lo: real, hi: real, level: nat, left: Halving) returns (t3: Table)
    requires Marked(m) && next <= ARENA && Grove(t, m, next, i, offset, lo, hi, level, 255) && Sum(t, i, offset) < 65536
    requires offset != 0 && i + offset < next
    requires HalvesAll(left, HalveNode(t, i + offset), m, next, i + offset, t[i + offset].left, lo, m.key[i + offset], level)
    ensures var j := i + offset;
            && t3 == AddUnder(left.table, j, left.total)
            && t3[j].right == t[j].right
            && Grove(t3, m, next, j, t[j].right, m.key[j], hi, level, 255)
            && Sum(t3, j, t[j].right) == Sum(t, j, t[j].right) && Size(t3, j, t[j].right) == Size(t, j, t[j].right)
            && Sum(t3, j, t[j].right) < 65536
  {
    hide Sum, Size, Grove;
    var j := i + offset;
    Parts(t, m, next, i, offset, lo, hi, level, 255);
    t3 := AddUnder(left.table, j, left.total);
    GroveFrame(t, t3, m, next, m, next, j, t[j].right, m.key[j], hi, level, 255, 255);
  }

  lemma HalvesJoin(t: Table, m: Marks, next: nat, i: nat, offset: u16, lo: real, hi: real, level: nat, left: Halving, t3: Table, right: Halving)
    requires Marked(m) && next <= ARENA && Grove(t, m, next, i, offset, lo, hi, level, 255) && Sum(t, i, offset) < 65536
    requires offset != 0 && i + offset < next
    requires var j := i + offset;
             && left == Rescale(HalveNode(t, j), j, t[j].left)
             && HalvesAll(left, HalveNode(t, j), m, next, j, t[j].left, lo, m.key[j], level)
             && t3 == AddUnder(left.table, j, left.total) && t3[j].right == t[j].right
             && Sum(t3, j, t[j].right) == Sum(t, j, t[j].right) && Size(t3, j, t[j].right) == Size(t, j, t[j].right)
             && right == Rescale(t3, j, t[j].right)
             && HalvesAll(right, t3, m, next, j, t[j].right, m.key[j], hi, level)
    ensures HalvesAll(Rescale(t, i, offset), t, m, next, i, offset, lo, hi, level)
  {
    hide Sum, Size, Grove, OnlyTree, Untouched, NodesKept, SameContext, SameNode, U16, HalveNode, AddUnder;
    var j := i + offset;
    var t1 := HalveNode(t, j);
    RescaleOpens(t, i, offset, left, t3, right);
    hide Rescale;
    HalvingKeeps(t, m, next, j, lo);
    Parts(t, m, next, i, offset, lo, hi, level, 255);
    GroveFrame(t, t1, m, next, m, next, j, t[j].left, lo, m.key[j], level, 255, 255);
    NoMoreThanCounted(t, m, next, j, t[j].left, lo, m.key[j], level, 255);
    NoMoreThanCounted(t, m, next, j, t[j].right, m.key[j], hi, level, 255);
    Parts(right.table, m, next, i, offset, lo, hi, level, 128);
    OnlyNode(t, m, next, j, lo, hi, left, t3, right.table);
    GroveFrame(left.table, right.table, m, next, m, next, j, t[j].left, lo, m.key[j], level, 128, 128);
    HalfSums(t[j].count, left.total, right.total, Sum(t, j, t[j].left), Sum(t, j, t[j].right),
             Size(t, j, t[j].left), Size(t, j, t[j].right));
  }

  lemma HalfSums(count: byte, l: u16, r: u16, a: nat, b: nat, m: nat, n: nat)
    requires 0 < count && count + a + b < 65536 && 2 * l <= a + m && 2 * r <= b + n && m <= a && n <= b
    ensures var c := count - count / 2;
            && 0 < c <= 128 && U16(c + l) == c + l && U16(c + l + r) == c + l + r
            && 2 * (c + l + r) <= count + a + b + 1 + m + n
  {
  }

  lemma HalvingKeeps(t: Table, m: Marks, next: nat, j: nat, lo: real)
    requires Marked(m) && j < next <= ARENA
    ensures NodesKept(t, HalveNode(t, j), m, next, lo, m.key[j])
  {
  }

  /** Halving at a node, then left of it, then right of it. */
  lemma OnlyNode(t: Table, m: Marks, next: nat, j: nat, lo: real, hi: real, left: Halving, t3: Table, t4: Table)
    requires Marked(m) && j < next <= ARENA && lo < m.key[j] < hi && left.Halving?
    requires OnlyTree(HalveNode(t, j), left.table, m, next, lo, m.key[j]) && Untouched(HalveNode(t, j), left.table, m, next, lo, m.key[j])
    requires t3 == AddUnder(left.table, j, left.total)
    requires OnlyTree(t3, t4, m, next, m.key[j], hi) && Untouched(t3, t4, m, next, m.key[j], hi)
    ensures OnlyTree(t, t4, m, next, lo, hi) && Untouched(t, t4, m, next, lo, hi)
    ensures NodesKept(left.table, t4, m, next, lo, m.key[j])
    ensures var c := t[j].count - t[j].count / 2;
            && t4[j] == t3[j] && t4[j].left == t[j].left && t4[j].right == t[j].right && t4[j].count == c
            && t4[j].under == U16(c + left.total)
  {
    var t1 := HalveNode(t, j);
    assert left.table[j] == t1[j];
    forall k | 0 <= k < next ensures SameContext(t4[k], t[k]) && (!(lo < m.key[k] < hi) ==> t4[k] == t[k]) {
      if k != j { assert t1[k] == t[k] && t3[k] == left.table[k]; }
    }
  }

  lemma RescaleOpens(t: Table, i: nat, offset: u16, left: Halving, t3: Table, right: Halving)
    requires i < ARENA && offset != 0 && i + offset < ARENA && left.Halving? && right.Halving?
    requires var j := i + offset;
             && left == Rescale(HalveNode(t, j), j, t[j].left) && t3 == AddUnder(left.table, j, left.total)
             && t3[j].right == t[j].right && right == Rescale(t3, j, t[j].right)
    ensures Rescale(t, i, offset) == Halving(right.table, U16(t3[i + offset].under + right.total))
  {
  }
}
