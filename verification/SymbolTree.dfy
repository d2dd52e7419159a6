/** One context's search tree of symbol counts (enet-1.3.3/compress.c), as a value: what the
    encoding walk adds up, what the decoding walk finds, and what rescaling keeps. */
module SymbolTree {
  import opened Numbers
  import opened RangeCoder

  /** `under` is the node's own count plus all counts to its left. */
  datatype Tree = Leaf | Node(value: byte, count: nat, under: nat, left: Tree, right: Tree)

  function Sum(t: Tree): nat {
    if t.Leaf? then 0 else t.count + Sum(t.left) + Sum(t.right)
  }

  function Size(t: Tree): nat {
    if t.Leaf? then 0 else 1 + Size(t.left) + Size(t.right)
  }

  /** Reference meaning, independent of the shape: the count of one value, and of all smaller ones. */
  function Weight(t: Tree, x: int): nat {
    if t.Leaf? then 0
    else (if t.value == x then t.count else 0) + Weight(t.left, x) + Weight(t.right, x)
  }

  function Below(t: Tree, x: int): nat {
    if t.Leaf? then 0
    else (if t.value < x then t.count else 0) + Below(t.left, x) + Below(t.right, x)
  }

  predicate Has(t: Tree, x: int) { Weight(t, x) > 0 }

  /** A search tree over `lo <= value < hi` with positive counts and correct `under` fields. */
  ghost predicate Good(t: Tree, lo: int, hi: int) {
    t.Leaf? || (
      && lo <= t.value < hi
      && t.count > 0
      && t.under == t.count + Sum(t.left)
      && Good(t.left, lo, t.value)
      && Good(t.right, t.value + 1, hi))
  }

  ghost predicate CountsAtMost(t: Tree, m: nat) {
    t.Leaf? || (t.count <= m && CountsAtMost(t.left, m) && CountsAtMost(t.right, m))
  }

  // ---------------------------------------------------------------- facts about good trees

  lemma {:induction false} OutsideRange(t: Tree, lo: int, hi: int, x: int)
    requires Good(t, lo, hi)
    ensures x < lo || hi <= x ==> Weight(t, x) == 0
    ensures x <= lo ==> Below(t, x) == 0
    ensures hi <= x ==> Below(t, x) == Sum(t)
  {
    if t.Node? {
      OutsideRange(t.left, lo, t.value, x);
      OutsideRange(t.right, t.value + 1, hi, x);
    }
  }

  lemma {:induction false} BelowAndWeight(t: Tree, x: int)
    ensures Below(t, x) + Weight(t, x) == Below(t, x + 1)
    ensures Below(t, x) + Weight(t, x) <= Sum(t)
  {
    if t.Node? {
      BelowAndWeight(t.left, x);
      BelowAndWeight(t.right, x);
    }
  }

  /** What one node decides about the sums for `x`. */
  lemma AtNode(t: Tree, lo: int, hi: int, x: int)
    requires Good(t, lo, hi) && t.Node?
    ensures x < t.value ==> Weight(t, x) == Weight(t.left, x) && Below(t, x) == Below(t.left, x)
    ensures x > t.value ==> Weight(t, x) == Weight(t.right, x) && Below(t, x) == t.under + Below(t.right, x)
    ensures x == t.value ==> Weight(t, x) == t.count && Below(t, x) == t.under - t.count
  {
    OutsideRange(t.left, lo, t.value, x);
    OutsideRange(t.right, t.value + 1, hi, x);
  }

  lemma {:induction false} SizeBound(t: Tree, lo: int, hi: int)
    requires Good(t, lo, hi) && lo <= hi
    ensures Size(t) <= hi - lo
  {
    if t.Node? {
      SizeBound(t.left, lo, t.value);
      SizeBound(t.right, t.value + 1, hi);
    }
  }

  lemma {:induction false} WeightAtMost(t: Tree, m: nat, lo: int, hi: int, x: int)
    requires Good(t, lo, hi) && CountsAtMost(t, m)
    ensures Weight(t, x) <= m
  {
    if t.Node? {
      AtNode(t, lo, hi, x);
      WeightAtMost(t.left, m, lo, t.value, x);
      WeightAtMost(t.right, m, t.value + 1, hi, x);
    }
  }

  // ---------------------------------------------------------------- counting a symbol

  /** The effect of `ENET_CONTEXT_ENCODE` on the tree: count `x` by `d`, adding a node if needed. */
  function Bump(t: Tree, x: byte, d: nat): Tree {
    if t.Leaf? then Node(x, d, d, Leaf, Leaf)
    else if x < t.value then t.(under := t.under + d, left := Bump(t.left, x, d))
    else if x > t.value then t.(right := Bump(t.right, x, d))
    else t.(under := t.under + d, count := t.count + d)
  }

  lemma {:induction false} BumpCounts(t: Tree, x: byte, d: nat, lo: int, hi: int)
    requires Good(t, lo, hi) && lo <= x < hi && d > 0
    ensures Good(Bump(t, x, d), lo, hi)
    ensures Sum(Bump(t, x, d)) == Sum(t) + d
    ensures forall y: int :: Weight(Bump(t, x, d), y) == Weight(t, y) + (if x == y then d else 0)
    ensures forall y: int :: Below(Bump(t, x, d), y) == Below(t, y) + (if x < y then d else 0)
  {
    if t.Node? {
      if x < t.value {
        BumpCounts(t.left, x, d, lo, t.value);
      } else if x > t.value {
        BumpCounts(t.right, x, d, t.value + 1, hi);
      }
    } else {
      var b := Node(x, d, d, Leaf, Leaf);
      assert Bump(t, x, d) == b;
      assert Good(b.left, lo, x) && Good(b.right, x + 1, hi) && Sum(b.left) == 0;
      assert Good(b, lo, hi);
    }
  }

  lemma {:induction false} BumpBound(t: Tree, x: byte, d: nat, m: nat, lo: int, hi: int)
    requires Good(t, lo, hi) && lo <= x < hi && CountsAtMost(t, m) && Weight(t, x) + d <= m
    ensures CountsAtMost(Bump(t, x, d), m)
  {
    if t.Node? {
      AtNode(t, lo, hi, x);
      if x < t.value {
        BumpBound(t.left, x, d, m, lo, t.value);
      } else if x > t.value {
        BumpBound(t.right, x, d, m, t.value + 1, hi);
      }
    }
  }

  // ---------------------------------------------------------------- rescaling

  /** `enet_symbol_rescale`: every count is halved, rounding up. */
  function Halve(t: Tree): Tree {
    if t.Leaf? then Leaf
    else
      var c := t.count - t.count / 2;
      Node(t.value, c, c + Sum(Halve(t.left)), Halve(t.left), Halve(t.right))
  }

  lemma {:induction false} HalveKeepsSymbols(t: Tree, lo: int, hi: int)
    requires Good(t, lo, hi)
    ensures Good(Halve(t), lo, hi)
    ensures forall y: int :: Weight(Halve(t), y) == Weight(t, y) - Weight(t, y) / 2
    ensures forall y: int :: Has(Halve(t), y) <==> Has(t, y)
    ensures 2 * Sum(Halve(t)) <= Sum(t) + Size(t)
  {
    if t.Node? {
      HalveKeepsSymbols(t.left, lo, t.value);
      HalveKeepsSymbols(t.right, t.value + 1, hi);
      var h := Halve(t);
      forall y: int
        ensures Weight(h, y) == Weight(t, y) - Weight(t, y) / 2
        ensures Has(h, y) <==> Has(t, y)
      {
        AtNode(t, lo, hi, y);
        AtNode(h, lo, hi, y);
        assert Weight(h.left, y) == Weight(t.left, y) - Weight(t.left, y) / 2;
        assert Weight(h.right, y) == Weight(t.right, y) - Weight(t.right, y) / 2;
      }
    }
  }

  lemma {:induction false} HalveBound(t: Tree, m: nat)
    requires CountsAtMost(t, 2 * m)
    ensures CountsAtMost(Halve(t), m)
  {
    if t.Node? {
      HalveBound(t.left, m);
      HalveBound(t.right, m);
    }
  }

  // ---------------------------------------------------------------- looking a code up

  /** Where the code of a decoding walk ends: on a counted symbol, or in a gap between symbols. */
  datatype Found = Hit(value: int, under: int, count: nat) | Gap(value: int, under: int)

  /** The walk of `ENET_CONTEXT_DECODE`: `acc` is the count sum left behind so far, `min` the
      width every value has even without a count. */
  function Look(t: Tree, code: int, acc: nat, min: nat): Found
    requires t.Node?
  {
    var after := acc + t.under + (t.value + 1) * min;
    var before := t.count + min;
    if code >= after then
      if t.right.Node? then Look(t.right, code, acc + t.under, min)
      else if min == 0 then Gap(0, 0)
      else Gap(t.value + 1 + (code - after) / min, code - (code - after) % min)
    else if code < after - before then
      if t.left.Node? then Look(t.left, code, acc, min)
      else if min == 0 then Gap(0, 0)
      else Gap(t.value - 1 - (after - before - code - 1) / min, code - (after - before - code - 1) % min)
    else if after < before then Gap(0, 0)
    else Hit(t.value, after - before, t.count + min)
  }

  /** The code interval that encoding `x` uses, in units of the context's total. */
  ghost predicate CodeFor(t: Tree, x: int, code: int, acc: nat, min: nat) {
    acc + Below(t, x) + x * min <= code < acc + Below(t, x) + Weight(t, x) + (x + 1) * min
  }

  /** The comparisons at one node send a code for `x` the way `x` itself would go. */
  lemma CodeGoesWithValue(t: Tree, lo: int, hi: int, x: int, code: int, acc: nat, min: nat)
    requires Good(t, lo, hi) && t.Node? && lo <= x < hi
    requires min <= 1
    requires CodeFor(t, x, code, acc, min)
    ensures var after := acc + t.under + (t.value + 1) * min;
            var before := t.count + min;
            && (code >= after <==> x > t.value)
            && (code < after - before <==> x < t.value)
            && (x > t.value ==> CodeFor(t.right, x, code, acc + t.under, min))
            && (x < t.value ==> CodeFor(t.left, x, code, acc, min))
            && (x == t.value ==> after - before == acc + Below(t, x) + x * min)
  {
    hide Good, Weight, Below, Sum;
    NodeSums(t, lo, hi, x);
    MulMin(x, min);
    MulMin(x + 1, min);
    MulMin(t.value + 1, min);
  }

  lemma MulMin(a: int, min: nat)
    requires min <= 1
    ensures a * min == if min == 0 then 0 else a
  {
  }

  /** The sums for `x` at one node, by the side on which `x` lies. */
  lemma NodeSums(t: Tree, lo: int, hi: int, x: int)
    requires Good(t, lo, hi) && t.Node? && lo <= x < hi
    ensures 0 < t.count <= t.under
    ensures x < t.value ==> Weight(t, x) == Weight(t.left, x) && Below(t, x) == Below(t.left, x)
    ensures x < t.value ==> Below(t, x) + Weight(t, x) <= t.under - t.count
    ensures x > t.value ==> Weight(t, x) == Weight(t.right, x) && Below(t, x) == t.under + Below(t.right, x)
    ensures x == t.value ==> Weight(t, x) == t.count && Below(t, x) == t.under - t.count
  {
    AtNode(t, lo, hi, x);
    BelowAndWeight(t.left, x);
  }

  /** The decoding walk inverts the encoding walk: a code from the interval of a counted symbol
      finds that symbol with the same `under` and `count`, and (when every value has width one)
      a code from the interval of an uncounted symbol finds the gap where it belongs. */
  lemma {:induction false} LookInverts(t: Tree, lo: int, hi: int, x: byte, code: int, acc: nat, min: nat)
    requires Good(t, lo, hi) && t.Node? && lo <= x < hi
    requires min <= 1
    requires CodeFor(t, x, code, acc, min)
    ensures Has(t, x) ==> Look(t, code, acc, min) == Hit(x, acc + Below(t, x) + x * min, Weight(t, x) + min)
    ensures !Has(t, x) ==> min == 1 && Look(t, code, acc, min) == Gap(x, code) && code == acc + Below(t, x) + x
  {
    hide Weight, Below, Sum, Has;
    CodeGoesWithValue(t, lo, hi, x, code, acc, min);
    NodeSums(t, lo, hi, x);
    HasSides(t, lo, hi, x);
    MulMin(x, min);
    MulMin(x + 1, min);
    MulMin(t.value + 1, min);
    if x > t.value && t.right.Node? {
      LookInverts(t.right, t.value + 1, hi, x, code, acc + t.under, min);
    } else if x < t.value && t.left.Node? {
      LookInverts(t.left, lo, t.value, x, code, acc, min);
    }
  }

  lemma HasSides(t: Tree, lo: int, hi: int, x: int)
    requires Good(t, lo, hi) && t.Node? && lo <= x < hi
    ensures Has(t, x) <==> Weight(t, x) > 0
    ensures x < t.value ==> Has(t, x) == Has(t.left, x)
    ensures x > t.value ==> Has(t, x) == Has(t.right, x)
    ensures x < t.value && t.left.Leaf? ==> Weight(t, x) == 0 && Below(t, x) == 0 && t.under == t.count
    ensures x > t.value && t.right.Leaf? ==> Weight(t, x) == 0 && Below(t, x) == t.under
  {
    AtNode(t, lo, hi, x);
  }

  /** The code intervals of different values do not overlap. */
  lemma CodesAreDisjoint(t: Tree, x: nat, y: nat, code: int, acc: nat, min: nat)
    requires CodeFor(t, x, code, acc, min) && CodeFor(t, y, code, acc, min)
    ensures x == y
  {
    if x < y {
      IntervalsInOrder(t, x, y, acc, min);
    } else if y < x {
      IntervalsInOrder(t, y, x, acc, min);
    }
  }

  lemma IntervalsInOrder(t: Tree, x: nat, y: nat, acc: nat, min: nat)
    requires x < y
    ensures acc + Below(t, x) + Weight(t, x) + (x + 1) * min <= acc + Below(t, y) + y * min
  {
    BelowAndWeight(t, x);
    BelowMonotone(t, x + 1, y);
    MulMono(x + 1, y, min);
  }

  lemma {:induction false} BelowMonotone(t: Tree, x: int, y: int)
    requires x <= y
    ensures Below(t, x) <= Below(t, y)
  {
    if t.Node? {
      BelowMonotone(t.left, x, y);
      BelowMonotone(t.right, x, y);
    }
  }
}
