/** The intrusive circular lists that hold every queue (list.c). A list is its sentinel; what it holds is the
    sequence of nodes met from the sentinel back to the sentinel. */
module IntrusiveList {

  /** The two pointers in front of a command, and the command; a sentinel's own item means nothing. */
  class Node<T> {
    var next: Node<T>
    var previous: Node<T>
    var item: T

    constructor (item: T)
      ensures next == this && previous == this && this.item == item
    {
      next, previous, this.item := this, this, item;
    }
  }

  /** The node met after `k` steps from the sentinel, when the nodes are `c`. */
  ghost function At<T>(s: Node<T>, c: seq<Node<T>>, k: nat): Node<T> {
    if 0 < k <= |c| then c[k - 1] else s
  }

  ghost predicate Distinct<T>(s: Node<T>, c: seq<Node<T>>) {
    s !in c && forall k, l :: 0 <= k < l < |c| ==> c[k] != c[l]
  }

  /** The list of `s` holds just `c`: both chains of pointers go through it, and no node is there twice. */
  ghost predicate Holds<T>(s: Node<T>, c: seq<Node<T>>)
    reads s, c
  {
    Distinct(s, c) && forall k: nat :: k <= |c| ==> Linked(s, c, k)
  }

  ghost predicate Linked<T>(s: Node<T>, c: seq<Node<T>>, k: nat)
    reads s, c
  {
    At(s, c, k).next == At(s, c, k + 1) && At(s, c, k + 1).previous == At(s, c, k)
  }

  /** No node of one list is in the other. */
  ghost predicate Apart<T>(s: Node<T>, c: seq<Node<T>>, t: Node<T>, d: seq<Node<T>>) {
    s != t && s !in d && t !in c && forall x :: x in c ==> x !in d
  }

  ghost function Members<T>(c: seq<Node<T>>): set<Node<T>> {
    set x | x in c
  }

  ghost predicate Carry<T>(c: seq<Node<T>>, items: seq<T>)
    reads c
  {
    |c| == |items| && forall k :: 0 <= k < |c| ==> c[k].item == items[k]
  }

  lemma ApartBothWays<T>(s: Node<T>, c: seq<Node<T>>, t: Node<T>, d: seq<Node<T>>)
    requires Apart(s, c, t, d)
    ensures Apart(t, d, s, c)
  {
  }

  lemma PlacesDiffer<T>(s: Node<T>, c: seq<Node<T>>, k: nat, l: nat)
    requires Distinct(s, c) && k <= |c| && l <= |c| && k != l
    ensures At(s, c, k) != At(s, c, l) && At(s, c, k + 1) != At(s, c, l + 1)
  {
  }

  /** Only the front is where the sentinel points to. */
  lemma AtFront<T>(s: Node<T>, c: seq<Node<T>>, k: nat)
    requires Holds(s, c) && k <= |c|
    ensures At(s, c, k + 1) == s.next <==> k == 0
  {
    assert Linked(s, c, 0);
    if 0 < k < |c| { PlacesDiffer(s, c, k + 1, 1); }
  }

  lemma PlacesApart<T>(s: Node<T>, c: seq<Node<T>>, t: Node<T>, d: seq<Node<T>>)
    requires Apart(s, c, t, d)
    ensures forall k: nat, l: nat :: At(s, c, k) != At(t, d, l)
  {
    forall k: nat, l: nat ensures At(s, c, k) != At(t, d, l) {
      if 0 < k <= |c| { assert c[k - 1] in c; }
    }
  }

  lemma StillDistinct<T>(s: Node<T>, c: seq<Node<T>>, i: nat, j: nat, t: Node<T>, d: seq<Node<T>>, p: nat)
    requires Distinct(s, c) && Distinct(t, d) && Apart(s, c, t, d) && i <= j < |c| && p <= |d|
    ensures Distinct(t, d[..p] + c[i..j + 1] + d[p..])
  {
    var n := j + 1 - i;
    var f := d[..p] + c[i..j + 1] + d[p..];
    assert forall k :: 0 <= k < |f| ==> f[k] == if k < p then d[k] else if k < p + n then c[i + (k - p)] else d[k - n];
    forall k, l | 0 <= k < l < |f| ensures f[k] != f[l] {
      if p <= k < p + n { assert f[k] in c; }
      if p <= l < p + n { assert f[l] in c; }
    }
  }

  /** The front of one list moves to the end of another. */
  lemma StillApart<T>(s: Node<T>, front: seq<Node<T>>, back: seq<Node<T>>, t: Node<T>, d: seq<Node<T>>)
    requires Distinct(s, front + back) && Apart(s, front + back, t, d)
    ensures Apart(s, back, t, d + front)
  {
    var c := front + back;
    assert forall x :: x in c <==> x in front || x in back;
    forall x | x in back ensures x !in front {
      var l :| 0 <= l < |back| && back[l] == x;
      assert c[|front| + l] == x;
      forall k | 0 <= k < |front| ensures front[k] != x { assert c[k] == front[k]; }
    }
  }

  /** The pointers alone say what a list holds. */
  lemma {:induction false} HoldsOneThing<T>(s: Node<T>, c: seq<Node<T>>, d: seq<Node<T>>)
    requires Holds(s, c) && Holds(s, d)
    ensures c == d
  {
    if |c| <= |d| { OneIsShorter(s, c, d); } else { OneIsShorter(s, d, c); }
  }

  lemma OneIsShorter<T>(s: Node<T>, c: seq<Node<T>>, d: seq<Node<T>>)
    requires Holds(s, c) && Holds(s, d) && |c| <= |d|
    ensures c == d
  {
    SameSoFar(s, c, d, |c|);
    assert Linked(s, c, |c|) && Linked(s, d, |c|);
    assert forall k :: 0 <= k < |c| ==> c[k] == At(s, c, k + 1) == At(s, d, k + 1) == d[k];
  }

  lemma {:induction false} SameSoFar<T>(s: Node<T>, c: seq<Node<T>>, d: seq<Node<T>>, n: nat)
    requires Holds(s, c) && Holds(s, d) && n <= |c| <= |d|
    ensures forall k: nat :: k <= n ==> At(s, c, k) == At(s, d, k)
  {
    if n > 0 {
      SameSoFar(s, c, d, n - 1);
      assert Linked(s, c, n - 1) && Linked(s, d, n - 1);
    }
  }

  method Clear<T>(s: Node<T>)
    modifies s`next, s`previous
    ensures Holds(s, [])
  {
    s.next, s.previous := s, s;
  }

  /** Before the node at `position`, which is the sentinel for the end of the list. */
  method Insert<T>(position: Node<T>, data: Node<T>, ghost s: Node<T>, ghost c: seq<Node<T>>, ghost i: nat) returns (result: Node<T>)
    requires Holds(s, c) && i <= |c| && position == At(s, c, i + 1) && data != s && data !in c
    modifies data`next, data`previous, position`previous, position.previous`next
    ensures result == data && Holds(s, c[..i] + [data] + c[i..])
  {
    assert Linked(s, c, i);
    result := data;
    result.previous := position.previous;
    result.next := position;
    result.previous.next := result;
    position.previous := result;
    ghost var e := c[..i] + [data] + c[i..];
    forall k: nat | k <= |e| ensures Linked(s, e, k) {
      if k < i {
        assert old(Linked(s, c, k));
        PlacesDiffer(s, c, k, i);
      } else if k > i + 1 {
        assert old(Linked(s, c, k - 1));
        PlacesDiffer(s, c, k - 1, i);
      }
    }
  }

  method Remove<T>(position: Node<T>, ghost s: Node<T>, ghost c: seq<Node<T>>, ghost i: nat) returns (data: Node<T>)
    requires Holds(s, c) && i < |c| && position == c[i]
    modifies position.previous`next, position.next`previous
    ensures data == position && Holds(s, c[..i] + c[i + 1..])
  {
    assert Linked(s, c, i) && Linked(s, c, i + 1);
    position.previous.next := position.next;
    position.next.previous := position.previous;
    data := position;
    ghost var e := c[..i] + c[i + 1..];
    forall k: nat | k <= |e| ensures Linked(s, e, k) {
      if k < i {
        assert old(Linked(s, c, k));
        PlacesDiffer(s, c, k, i);
      } else if k > i {
        assert old(Linked(s, c, k + 1));
        PlacesDiffer(s, c, k + 1, i);
      }
    }
  }

  lemma CutOut<T>(s: Node<T>, c: seq<Node<T>>, i: nat, j: nat)
    requires Distinct(s, c) && i <= j < |c|
    requires At(s, c, i).next == At(s, c, j + 2) && At(s, c, j + 2).previous == At(s, c, i)
    requires forall k: nat :: k < i || j + 1 < k <= |c| ==> Linked(s, c, k)
    ensures Holds(s, c[..i] + c[j + 1..])
  {
    var e := c[..i] + c[j + 1..];
    forall k: nat | k <= |e| ensures Linked(s, e, k) {
      var l := if k < i then k else k + (j + 1 - i);
      assert k != i ==> Linked(s, c, l);
    }
  }

  lemma PutIn<T>(s: Node<T>, c: seq<Node<T>>, i: nat, j: nat, t: Node<T>, d: seq<Node<T>>, p: nat)
    requires i <= j < |c| && p <= |d| && Distinct(s, c) && Distinct(t, d) && Apart(s, c, t, d)
    requires At(t, d, p).next == c[i] && c[i].previous == At(t, d, p)
    requires c[j].next == At(t, d, p + 1) && At(t, d, p + 1).previous == c[j]
    requires forall k: nat :: i < k <= j ==> Linked(s, c, k)
    requires forall k: nat :: k < p || p < k <= |d| ==> Linked(t, d, k)
    ensures Holds(t, d[..p] + c[i..j + 1] + d[p..])
  {
    StillDistinct(s, c, i, j, t, d, p);
    hide Distinct, Apart;
    var n := j + 1 - i;
    var f := d[..p] + c[i..j + 1] + d[p..];
    forall k: nat | k <= |f| ensures Linked(t, f, k) {
      if k < p {
        assert Linked(t, d, k);
      } else if p < k < p + n {
        assert Linked(s, c, i + (k - p));
      } else if k > p + n {
        assert Linked(t, d, k - n);
      }
    }
  }

  /** From `first` up to `last`, out of one list and into another. */
  method Move<T>(position: Node<T>, first: Node<T>, last: Node<T>,
              ghost s: Node<T>, ghost c: seq<Node<T>>, ghost i: nat, ghost j: nat, ghost t: Node<T>, ghost d: seq<Node<T>>, ghost p: nat)
    returns (result: Node<T>)
    requires Holds(s, c) && Holds(t, d) && Apart(s, c, t, d)
    requires i <= j < |c| && first == c[i] && last == c[j] && p <= |d| && position == At(t, d, p + 1)
    modifies first`previous, first.previous`next, last`next, last.next`previous, position`previous, position.previous`next
    ensures result == first
    ensures Holds(s, c[..i] + c[j + 1..])
    ensures Holds(t, d[..p] + c[i..j + 1] + d[p..])
  {
    assert Linked(s, c, i) && Linked(s, c, j + 1) && Linked(t, d, p);
    PlacesApart(s, c, t, d);
    PlacesDiffer(s, c, i, j + 1);
    hide Apart, Distinct;
    first.previous.next := last.next;
    last.next.previous := first.previous;
    first.previous := position.previous;
    last.next := position;
    first.previous.next := first;
    position.previous := last;
    result := first;
    forall k: nat | k < i || i < k <= j || j + 1 < k <= |c| ensures Linked(s, c, k) {
      assert old(Linked(s, c, k));
      PlacesDiffer(s, c, k, i);
      PlacesDiffer(s, c, k, j + 1);
    }
    forall k: nat | k < p || p < k <= |d| ensures Linked(t, d, k) {
      assert old(Linked(t, d, k));
      PlacesDiffer(t, d, k, p);
    }
    CutOut(s, c, i, j);
    PutIn(s, c, i, j, t, d, p);
  }

  /** Behind `current`, which is the sentinel for the front of the list; another list stays as it is. */
  method InsertAfter<T>(s: Node<T>, current: Node<T>, data: Node<T>, ghost c: seq<Node<T>>, ghost i: nat, ghost t: Node<T>, ghost d: seq<Node<T>>)
    requires Holds(s, c) && Holds(t, d) && Apart(s, c, t, d) && i <= |c| && current == At(s, c, i)
    requires data !in {s, t} + Members(c) + Members(d)
    modifies data`next, data`previous, ({s} + Members(c))`next, ({s} + Members(c))`previous
    ensures Holds(s, c[..i] + [data] + c[i..]) && Holds(t, d) && Apart(s, c[..i] + [data] + c[i..], t, d)
    ensures Members(c[..i] + [data] + c[i..]) == Members(c) + {data}
  {
    assert Linked(s, c, i);
    assert c == c[..i] + c[i..];
    PlacesApart(s, c, t, d);
    var _ := Insert(current.next, data, s, c, i);
    forall k: nat | k <= |d| ensures Linked(t, d, k) { assert old(Linked(t, d, k)); }
  }

  /** The front of a list that is not empty is taken; another list stays as it is. */
  method RemoveFront<T>(s: Node<T>, ghost c: seq<Node<T>>, ghost t: Node<T>, ghost d: seq<Node<T>>) returns (data: Node<T>)
    requires Holds(s, c) && Holds(t, d) && Apart(s, c, t, d) && c != []
    modifies ({s} + Members(c))`next, ({s} + Members(c))`previous
    ensures data == c[0] && Holds(s, c[1..]) && Holds(t, d) && Apart(s, c[1..], t, d)
  {
    assert Linked(s, c, 0) && Linked(s, c, 1);
    assert c[..0] + c[0 + 1..] == c[1..];
    PlacesApart(s, c, t, d);
    data := Remove(s.next, s, c, 0);
    forall k: nat | k <= |d| ensures Linked(t, d, k) { assert old(Linked(t, d, k)); }
  }

  /** What a command in a list carries changes; the lists do not. */
  method SetItem<T>(node: Node<T>, item: T, ghost s: Node<T>, ghost c: seq<Node<T>>, ghost items: seq<T>, ghost i: nat,
                    ghost t: Node<T>, ghost d: seq<Node<T>>)
    requires Holds(s, c) && Holds(t, d) && Apart(s, c, t, d) && Carry(c, items) && i < |c| && node == c[i]
    modifies node`item
    ensures Holds(s, c) && Holds(t, d) && Carry(c, items[i := item])
  {
    node.item := item;
    assert forall k: nat :: k <= |c| ==> old(Linked(s, c, k)) ==> Linked(s, c, k);
    assert forall k: nat :: k <= |d| ==> old(Linked(t, d, k)) ==> Linked(t, d, k);
  }

  /** What is in front of `current`, at least one command, goes to the end of another list. */
  method MoveFront<T>(s: Node<T>, t: Node<T>, current: Node<T>, ghost c: seq<Node<T>>, ghost d: seq<Node<T>>, ghost k: nat)
    requires Holds(s, c) && Holds(t, d) && Apart(s, c, t, d) && 0 < k <= |c| && current == At(s, c, k + 1)
    modifies ({s, t} + Members(c) + Members(d))`next, ({s, t} + Members(c) + Members(d))`previous
    ensures Holds(s, c[k..]) && Holds(t, d + c[..k]) && Apart(s, c[k..], t, d + c[..k])
    ensures Members(c[k..]) + Members(d + c[..k]) == Members(c) + Members(d)
  {
    assert Linked(s, c, 0) && Linked(s, c, k) && Linked(t, d, |d|);
    assert s.next == c[0] && current.previous == c[k - 1] && t.previous == At(t, d, |d|);
    assert c == c[..k] + c[k..] && c[0..k] == c[..k] && c[..0] + c[k..] == c[k..] && d[..|d|] + c[..k] + d[|d|..] == d + c[..k];
    StillApart(s, c[..k], c[k..], t, d);
    var _ := Move(t, s.next, current.previous, s, c, 0, k - 1, t, d, |d|);
  }

  method Size<T>(s: Node<T>, ghost c: seq<Node<T>>) returns (size: nat)
    requires Holds(s, c)
    ensures size == |c|
  {
    size := 0;
    assert Linked(s, c, 0);
    var position := s.next;
    while position != s
      invariant size <= |c| && position == At(s, c, size + 1)
      decreases |c| - size
    {
      assert Linked(s, c, size + 1);
      size := size + 1;
      position := position.next;
    }
  }
}
