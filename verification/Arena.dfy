/** The symbols array of enet-1.3.3/compress.c: records linked by unsigned 16-bit offsets, and what
    the coder's walks do to it. A walk that would leave the array is `Lost`. */
module Arena {
  import opened Numbers
  import opened RangeCoder
  import opened PpmModel

  datatype Symbol = Symbol(value: byte, count: byte, under: u16, left: u16, right: u16,
                           symbols: u16, escapes: u16, total: u16, parent: u16)

  const BLANK := Symbol(0, 0, 0, 0, 0, 0, 0, 0, 0)

  type Table = s: seq<Symbol> | |s| == ARENA witness seq(ARENA, _ => BLANK)

  function U8(x: int): byte { x % 256 }

  /** The fields that make a symbol a context are the same. */
  ghost predicate SameContext(a: Symbol, b: Symbol) {
    a.symbols == b.symbols && a.escapes == b.escapes && a.total == b.total && a.parent == b.parent
  }

  lemma FitsU16(x: nat)
    requires x < 65536
    ensures U16(x) == x
  {
  }

  /** `ENET_SYMBOL_CREATE` at index `next`. */
  function Create(t: Table, next: nat, value: byte, count: byte): Table
    requires next < ARENA
  {
    t[next := Symbol(value, count, count, 0, 0, 0, 0, 0, 0)]
  }

  /** The result of a walk that counts a symbol: where it is, and what was added up on the way. */
  datatype Walk = Walk(table: Table, next: nat, symbol: nat, under: u16, count: u16) | Lost

  /** The loop of `ENET_CONTEXT_ENCODE`, from node `i` on. */
  function EncodeWalk(t: Table, next: nat, i: nat, value: byte, update: byte, under: u16, count: u16): Walk
    requires i < ARENA
    decreases ARENA - i
  {
    var n := t[i];
    if value < n.value then
      var t1 := t[i := n.(under := U16(n.under + update))];
      if n.left != 0 then
        if i + n.left < ARENA then EncodeWalk(t1, next, i + n.left, value, update, under, count) else Lost
      else if next < ARENA then
        var t2 := Create(t1, next, value, update);
        Walk(t2[i := t2[i].(left := U16(next - i))], next + 1, next, under, count)
      else Lost
    else if value > n.value then
      if n.right != 0 then
        if i + n.right < ARENA then EncodeWalk(t, next, i + n.right, value, update, U16(under + n.under), count) else Lost
      else if next < ARENA then
        var t2 := Create(t, next, value, update);
        Walk(t2[i := t2[i].(right := U16(next - i))], next + 1, next, U16(under + n.under), count)
      else Lost
    else
      Walk(t[i := n.(under := U16(n.under + update), count := U8(n.count + update))], next, i,
           U16(under + (n.under - n.count)), U16(count + n.count))
  }

  /** `ENET_CONTEXT_ENCODE` in the context at index `c`. */
  function ContextEncode(t: Table, next: nat, c: nat, value: byte, update: byte, min: byte): Walk
    requires c < ARENA
  {
    if t[c].symbols == 0 then
      if next < ARENA then
        var t1 := Create(t, next, value, update);
        Walk(t1[c := t1[c].(symbols := U16(next - c))], next + 1, next, U16(value * min), min)
      else Lost
    else if c + t[c].symbols < ARENA then
      EncodeWalk(t, next, c + t[c].symbols, value, update, U16(value * min), min)
    else Lost
  }

  datatype Halving = Halving(table: Table, total: u16) | Astray

  /** The count of node `j` is halved and its left part is counted anew. */
  function HalveNode(t: Table, j: nat): Table
    requires j < ARENA
  {
    var c := t[j].count - t[j].count / 2;
    t[j := t[j].(count := c, under := c)]
  }

  function AddUnder(t: Table, j: nat, s: u16): Table
    requires j < ARENA
  {
    t[j := t[j].(under := U16(t[j].under + s))]
  }

  /** `enet_symbol_rescale` on the node that the offset leads to, if any. */
  function Rescale(t: Table, i: nat, offset: u16): Halving
    requires i < ARENA
    decreases ARENA - i
  {
    if offset == 0 then Halving(t, 0)
    else if i + offset >= ARENA then Astray
    else
      var j := i + offset;
      var left := Rescale(HalveNode(t, j), j, t[j].left);
      if left.Astray? then Astray
      else
        var t3 := AddUnder(left.table, j, left.total);
        var right := Rescale(t3, j, t3[j].right);
        if right.Astray? then Astray
        else Halving(right.table, U16(t3[j].under + right.total))
  }

  function SetCounters(t: Table, c: nat, escapes: u16, total: u16): Table
    requires c < ARENA
  {
    t[c := t[c].(escapes := escapes, total := total)]
  }

  /** `ENET_CONTEXT_RESCALE`. */
  function ContextRescale(t: Table, c: nat, min: byte): Halving
    requires c < ARENA
  {
    match Rescale(t, c, t[c].symbols)
    case Astray => Astray
    case Halving(t1, total) => Halving(Recount(t1, c, total, min), 0)
  }

  /** Halved escapes, and the total summed up anew. */
  function Recount(t: Table, c: nat, sum: u16, min: byte): Table
    requires c < ARENA
  {
    var esc := t[c].escapes - t[c].escapes / 2;
    SetCounters(t, c, esc, U16(sum + esc + 256 * min))
  }

  /** `* parent = symbol - rangeCoder->symbols`; a negative `link` stands for `& predicted`. */
  function LinkTo(t: Table, link: int, symbol: nat): Table
    requires link < ARENA && symbol < ARENA
  {
    if link < 0 then t else t[link := t[link].(parent := symbol)]
  }

  /** Escapes and total of a context after a symbol, before any rescaling. */
  function Counted(t: Table, c: nat, missed: bool, root: bool): Table
    requires c < ARENA
  {
    var e := if missed then ESCAPE_DELTA else 0;
    SetCounters(t, c, U16(t[c].escapes + e), U16(U16(t[c].total + e) + Delta(root)))
  }

  /** The counters of a context after a symbol, new to it if `missed`, with rescaling when they are high. */
  function Settle(t: Table, c: nat, count: u16, missed: bool, root: bool): Halving
    requires c < ARENA
  {
    var t1 := Counted(t, c, missed, root);
    if count > CountLimit(root) || t1[c].total > TOTAL_LIMIT then ContextRescale(t1, c, Minimum(root))
    else Halving(t1, 0)
  }

  // ---------------------------------------------------------------- the decoding walk

  /** The result of a decoding walk; `NoSuch` is the early `return 0` for a code that no counted
      symbol has. */
  datatype Dig = Dug(table: Table, next: nat, symbol: nat, value: byte, under: u16, count: u16) | NoSuch | Outside

  function DigNew(t: Table, next: nat, value: byte, update: byte, under: u16, min: byte): Dig {
    if next < ARENA then Dug(Create(t, next, value, update), next + 1, next, value, under, min) else Outside
  }

  function LinkLeft(d: Dig, i: nat): Dig
    requires i < ARENA
  {
    if d.Dug? then d.(table := d.table[i := d.table[i].(left := U16(d.symbol - i))]) else d
  }

  function LinkRight(d: Dig, i: nat): Dig
    requires i < ARENA
  {
    if d.Dug? then d.(table := d.table[i := d.table[i].(right := U16(d.symbol - i))]) else d
  }

  /** Where a code goes at a node, with the node's `after` and `after - before`. */
  datatype Turn = GoRight(after: int) | GoLeft(start: int) | Here(start: int)

  function TurnAt(n: Symbol, code: nat, under: u16, min: byte): Turn {
    var after := U16(under + n.under + (n.value + 1) * min);
    var before := U16(n.count + min);
    if code >= after then GoRight(after)
    else if code < after - before then GoLeft(after - before)
    else Here(after - before)
  }

  function AddUnderAt(t: Table, i: nat, update: byte): Table
    requires i < ARENA
  {
    t[i := t[i].(under := U16(t[i].under + update))]
  }

  /** The new node right of node `i`, for a code beyond all counted symbols on that side. */
  function MakeRight(t: Table, next: nat, i: nat, code: nat, update: byte, min: byte, after: int): Dig
    requires i < ARENA
  {
    if min == 0 then NoSuch
    else LinkRight(DigNew(t, next, U8(t[i].value + 1 + (code - after) / min), update, U16(code - (code - after) % min), min), i)
  }

  function MakeLeft(t: Table, next: nat, i: nat, code: nat, update: byte, min: byte, start: int): Dig
    requires i < ARENA
  {
    if min == 0 then NoSuch
    else LinkLeft(DigNew(t, next, U8(t[i].value - 1 - (start - code - 1) / min), update, U16(code - (start - code - 1) % min), min), i)
  }

  /** The loop of `ENET_CONTEXT_DECODE`, from node `i` on; only the root (`min > 0`) makes new nodes. */
  function DecodeWalk(t: Table, next: nat, i: nat, code: nat, update: byte, under: u16, min: byte): Dig
    requires i < ARENA
    decreases ARENA - i
  {
    match TurnAt(t[i], code, under, min)
    case GoRight(after) =>
      if t[i].right == 0 then MakeRight(t, next, i, code, update, min, after)
      else if i + t[i].right < ARENA then DecodeWalk(t, next, i + t[i].right, code, update, U16(under + t[i].under), min)
      else Outside
    case GoLeft(start) =>
      if t[i].left == 0 then MakeLeft(AddUnderAt(t, i, update), next, i, code, update, min, start)
      else if i + t[i].left < ARENA then DecodeWalk(AddUnderAt(t, i, update), next, i + t[i].left, code, update, under, min)
      else Outside
    case Here(start) =>
      Dug(t[i := t[i].(under := U16(t[i].under + update), count := U8(t[i].count + update))], next, i, t[i].value,
          U16(start), U16(min + t[i].count))
  }

  /** `ENET_CONTEXT_TRY_DECODE` and `ENET_CONTEXT_ROOT_DECODE` in the context at index `c`. */
  function ContextDecode(t: Table, next: nat, c: nat, code: nat, update: byte, min: byte): Dig
    requires c < ARENA
  {
    if t[c].symbols == 0 then
      if min == 0 then NoSuch
      else
        match DigNew(t, next, U8(code / min), update, U16(code - code % min), min)
        case Dug(t1, next', symbol, value, under, count) =>
          Dug(t1[c := t1[c].(symbols := U16(symbol - c))], next', symbol, value, under, count)
        case NoSuch => NoSuch
        case Outside => Outside
    else if c + t[c].symbols < ARENA then
      DecodeWalk(t, next, c + t[c].symbols, code, update, 0, min)
    else Outside
  }
}
