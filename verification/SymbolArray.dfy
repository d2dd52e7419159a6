/** The walks over the symbols array as the C code performs them, in place. Each method is proved
    against the function of `Arena` that describes it; it may be called only where that function
    does not leave the array. */
module SymbolArray {
  import opened Numbers
  import opened RangeCoder
  import opened PpmModel
  import opened Arena

  /** `ENET_SYMBOL_CREATE`. */
  method CreateSymbol(symbols: array<Symbol>, next: nat, value: byte, count: byte)
    requires symbols.Length == ARENA && next < ARENA
    modifies symbols
    ensures symbols[..] == Create(old(symbols[..]), next, value, count)
  {
    symbols[next] := Symbol(value, count, count, 0, 0, 0, 0, 0, 0);
  }

  lemma SameNodeRescaled(t: Table, i: nat, offset: u16)
    requires i < ARENA && 0 < offset && i + offset < ARENA
    ensures Rescale(t, i, offset) == Rescale(t, i + offset - 1, 1)
  {
  }

  lemma SumWraps(a: int, b: int, c: int)
    ensures U16(U16(a + b) + c) == U16(a + U16(b + c))
  {
  }

  /** One round of the rescaling loop at node `j`. */
  lemma RescaleRound(t: Table, j: nat) returns (left: Halving, t3: Table, right: Halving)
    requires 0 < j < ARENA && Rescale(t, j - 1, 1).Halving?
    ensures left == Rescale(HalveNode(t, j), j, t[j].left) && left.Halving?
    ensures t3 == AddUnder(left.table, j, left.total)
    ensures right == Rescale(t3, j, t3[j].right) && right.Halving?
    ensures Rescale(t, j - 1, 1).table == right.table
    ensures Rescale(t, j - 1, 1).total == U16(t3[j].under + right.total)
  {
    left := Rescale(HalveNode(t, j), j, t[j].left);
    t3 := AddUnder(left.table, j, left.total);
    right := Rescale(t3, j, t3[j].right);
  }

  lemma RescaleNone(t: Table, i: nat)
    requires i < ARENA
    ensures Rescale(t, i, 0) == Halving(t, 0)
  {
  }

  lemma RescaleInside(t: Table, i: nat, offset: u16)
    requires i < ARENA && Rescale(t, i, offset).Halving?
    ensures i + offset < ARENA
  {
  }

  /** `enet_symbol_rescale`, from the node at index `i`. */
  method RescaleSymbols(symbols: array<Symbol>, i: nat) returns (total: u16)
    requires symbols.Length == ARENA && 0 < i < ARENA
    requires Rescale(symbols[..], i - 1, 1).Halving?
    modifies symbols
    ensures Rescale(old(symbols[..]), i - 1, 1) == Halving(symbols[..], total)
    decreases ARENA - i
  {
    hide Rescale, U16;
    ghost var all := Rescale(symbols[..], i - 1, 1);
    total := 0;
    FitsU16(all.total);
    var j := i;
    while true
      invariant i <= j < ARENA
      invariant Rescale(symbols[..], j - 1, 1).Halving?
      invariant all.table == Rescale(symbols[..], j - 1, 1).table
      invariant all.total == U16(total + Rescale(symbols[..], j - 1, 1).total)
      decreases ARENA - j
    {
      ghost var t := symbols[..];
      ghost var left, t3, right := RescaleRound(t, j);
      var count := symbols[j].count - symbols[j].count / 2;
      symbols[j] := symbols[j].(count := count, under := count);
      assert symbols[..] == HalveNode(t, j);
      RescaleInside(symbols[..], j, symbols[j].left);
      var sum: u16 := 0;
      if symbols[j].left != 0 {
        SameNodeRescaled(symbols[..], j, symbols[j].left);
        sum := RescaleSymbols(symbols, j + symbols[j].left);
      } else {
        RescaleNone(symbols[..], j);
      }
      assert left == Halving(symbols[..], sum);
      symbols[j] := symbols[j].(under := U16(symbols[j].under + sum));
      assert t3 == symbols[..];
      SumWraps(total, symbols[j].under, right.total);
      total := U16(total + symbols[j].under);
      RescaleInside(symbols[..], j, symbols[j].right);
      if symbols[j].right == 0 {
        RescaleNone(symbols[..], j);
        FitsU16(total);
        break;
      }
      SameNodeRescaled(symbols[..], j, symbols[j].right);
      j := j + symbols[j].right;
    }
  }

  /** `ENET_CONTEXT_RESCALE`. */
  method RescaleContext(symbols: array<Symbol>, c: nat, min: byte)
    requires symbols.Length == ARENA && c < ARENA
    requires ContextRescale(symbols[..], c, min).Halving?
    modifies symbols
    ensures ContextRescale(old(symbols[..]), c, min).table == symbols[..]
  {
    var sum: u16 := 0;
    if symbols[c].symbols != 0 {
      SameNodeRescaled(symbols[..], c, symbols[c].symbols);
      sum := RescaleSymbols(symbols, c + symbols[c].symbols);
    }
    var escapes := symbols[c].escapes - symbols[c].escapes / 2;
    symbols[c] := symbols[c].(escapes := escapes, total := U16(sum + escapes + 256 * min));
  }

  /** The counters of a context after a symbol. */
  method SettleContext(symbols: array<Symbol>, c: nat, count: u16, missed: bool, root: bool)
    requires symbols.Length == ARENA && c < ARENA
    requires Settle(symbols[..], c, count, missed, root).Halving?
    modifies symbols
    ensures Settle(old(symbols[..]), c, count, missed, root).table == symbols[..]
  {
    ghost var t := symbols[..];
    if missed {
      symbols[c] := symbols[c].(escapes := U16(symbols[c].escapes + ESCAPE_DELTA), total := U16(symbols[c].total + ESCAPE_DELTA));
    }
    symbols[c] := symbols[c].(total := U16(symbols[c].total + Delta(root)));
    assert symbols[..] == Counted(t, c, missed, root);
    if count > CountLimit(root) || symbols[c].total > TOTAL_LIMIT {
      RescaleContext(symbols, c, Minimum(root));
    }
  }

  /** `ENET_CONTEXT_ENCODE`. */
  method EncodeInContext(symbols: array<Symbol>, next: nat, c: nat, value: byte, update: byte, min: byte)
      returns (next': nat, symbol: nat, under: u16, count: u16)
    requires symbols.Length == ARENA && c < ARENA
    requires ContextEncode(symbols[..], next, c, value, update, min).Walk?
    modifies symbols
    ensures ContextEncode(old(symbols[..]), next, c, value, update, min) == Walk(symbols[..], next', symbol, under, count)
  {
    hide U16, U8;
    ghost var all := ContextEncode(symbols[..], next, c, value, update, min);
    under, count := U16(value * min), min;
    if symbols[c].symbols == 0 {
      CreateSymbol(symbols, next, value, update);
      symbol, next' := next, next + 1;
      symbols[c] := symbols[c].(symbols := U16(symbol - c));
      return;
    }
    var node := c + symbols[c].symbols;
    while true
      invariant node < ARENA
      invariant all == EncodeWalk(symbols[..], next, node, value, update, under, count)
      decreases ARENA - node
    {
      ghost var t := symbols[..];
      if value < symbols[node].value {
        symbols[node] := symbols[node].(under := U16(symbols[node].under + update));
        assert symbols[..] == t[node := t[node].(under := U16(t[node].under + update))];
        if symbols[node].left != 0 {
          node := node + symbols[node].left;
          continue;
        }
        CreateSymbol(symbols, next, value, update);
        symbol, next' := next, next + 1;
        symbols[node] := symbols[node].(left := U16(symbol - node));
      } else if value > symbols[node].value {
        under := U16(under + symbols[node].under);
        if symbols[node].right != 0 {
          node := node + symbols[node].right;
          continue;
        }
        CreateSymbol(symbols, next, value, update);
        symbol, next' := next, next + 1;
        symbols[node] := symbols[node].(right := U16(symbol - node));
      } else {
        count := U16(count + symbols[node].count);
        under := U16(under + (symbols[node].under - symbols[node].count));
        symbols[node] := symbols[node].(under := U16(symbols[node].under + update), count := U8(symbols[node].count + update));
        symbol, next' := node, next;
      }
      return;
    }
  }

  // Single rounds of the decoding loop.

  lemma RoundRight(t: Table, next: nat, i: nat, code: nat, update: byte, under: u16, min: byte, after: int)
    requires i < ARENA && TurnAt(t[i], code, under, min) == GoRight(after)
    ensures DecodeWalk(t, next, i, code, update, under, min) ==
      if t[i].right == 0 then MakeRight(t, next, i, code, update, min, after)
      else if i + t[i].right < ARENA then DecodeWalk(t, next, i + t[i].right, code, update, U16(under + t[i].under), min)
      else Outside
  {
    hide TurnAt, MakeRight;
  }

  lemma RoundLeft(t: Table, next: nat, i: nat, code: nat, update: byte, under: u16, min: byte, start: int)
    requires i < ARENA && TurnAt(t[i], code, under, min) == GoLeft(start)
    ensures DecodeWalk(t, next, i, code, update, under, min) ==
      if t[i].left == 0 then MakeLeft(AddUnderAt(t, i, update), next, i, code, update, min, start)
      else if i + t[i].left < ARENA then DecodeWalk(AddUnderAt(t, i, update), next, i + t[i].left, code, update, under, min)
      else Outside
  {
    hide TurnAt, MakeLeft;
  }

  lemma RoundHere(t: Table, next: nat, i: nat, code: nat, update: byte, under: u16, min: byte, start: int)
    requires i < ARENA && TurnAt(t[i], code, under, min) == Here(start)
    ensures DecodeWalk(t, next, i, code, update, under, min) ==
      Dug(t[i := t[i].(under := U16(t[i].under + update), count := U8(t[i].count + update))], next, i, t[i].value,
          U16(start), U16(min + t[i].count))
  {
    hide TurnAt;
  }

  /** `createRight` of the root: a new node right of `node`. */
  method CreateRight(symbols: array<Symbol>, next: nat, node: nat, code: nat, update: byte, min: byte, after: int)
      returns (value: byte, under: u16)
    requires symbols.Length == ARENA && node < ARENA && min > 0 && !MakeRight(symbols[..], next, node, code, update, min, after).Outside?
    modifies symbols
    ensures MakeRight(old(symbols[..]), next, node, code, update, min, after) == Dug(symbols[..], next + 1, next, value, under, min)
  {
    value := U8(symbols[node].value + 1 + (code - after) / min);
    under := U16(code - (code - after) % min);
    CreateSymbol(symbols, next, value, update);
    symbols[node] := symbols[node].(right := U16(next - node));
  }

  /** `createLeft` of the root: a new node left of `node`. */
  method CreateLeft(symbols: array<Symbol>, next: nat, node: nat, code: nat, update: byte, min: byte, start: int)
      returns (value: byte, under: u16)
    requires symbols.Length == ARENA && node < ARENA && min > 0 && !MakeLeft(symbols[..], next, node, code, update, min, start).Outside?
    modifies symbols
    ensures MakeLeft(old(symbols[..]), next, node, code, update, min, start) == Dug(symbols[..], next + 1, next, value, under, min)
  {
    value := U8(symbols[node].value - 1 - (start - code - 1) / min);
    under := U16(code - (start - code - 1) % min);
    CreateSymbol(symbols, next, value, update);
    symbols[node] := symbols[node].(left := U16(next - node));
  }

  /** `ENET_CONTEXT_TRY_DECODE` and `ENET_CONTEXT_ROOT_DECODE`; not `found` is the early `return 0`. */
  method DecodeInContext(symbols: array<Symbol>, next: nat, c: nat, code: nat, update: byte, min: byte)
      returns (found: bool, next': nat, symbol: nat, value: byte, under: u16, count: u16)
    requires symbols.Length == ARENA && c < ARENA
    requires !ContextDecode(symbols[..], next, c, code, update, min).Outside?
    modifies symbols
    ensures var d := ContextDecode(old(symbols[..]), next, c, code, update, min);
            if found then d == Dug(symbols[..], next', symbol, value, under, count) else d == NoSuch
  {
    hide DecodeWalk, MakeRight, MakeLeft;
    ghost var all := ContextDecode(symbols[..], next, c, code, update, min);
    found, next', symbol, value, under, count := true, next, 0, 0, 0, min;
    if symbols[c].symbols == 0 {
      if min == 0 { found := false; return; }
      value := U8(code / min);
      under := U16(code - code % min);
      CreateSymbol(symbols, next, value, update);
      symbol, next' := next, next + 1;
      symbols[c] := symbols[c].(symbols := U16(symbol - c));
      return;
    }
    var node := c + symbols[c].symbols;
    while true
      invariant node < ARENA && count == min && next' == next && found && !all.Outside?
      invariant all == DecodeWalk(symbols[..], next, node, code, update, under, min)
      decreases ARENA - node
    {
      ghost var t := symbols[..];
      var turn := TurnAt(symbols[node], code, under, min);
      if turn.GoRight? {
        RoundRight(t, next, node, code, update, under, min, turn.after);
        if symbols[node].right != 0 {
          under := U16(under + symbols[node].under);
          node := node + symbols[node].right;
          continue;
        }
        if min == 0 { NoneWithoutWidth(t, next, node, code, update, turn.after); found := false; return; }
        value, under := CreateRight(symbols, next, node, code, update, min, turn.after);
        symbol, next' := next, next + 1;
      } else if turn.GoLeft? {
        RoundLeft(t, next, node, code, update, under, min, turn.start);
        symbols[node] := symbols[node].(under := U16(symbols[node].under + update));
        assert symbols[..] == AddUnderAt(t, node, update);
        if symbols[node].left != 0 {
          node := node + symbols[node].left;
          continue;
        }
        if min == 0 { NoneWithoutWidth(symbols[..], next, node, code, update, turn.start); found := false; return; }
        value, under := CreateLeft(symbols, next, node, code, update, min, turn.start);
        symbol, next' := next, next + 1;
      } else {
        RoundHere(t, next, node, code, update, under, min, turn.start);
        value := symbols[node].value;
        count := U16(count + symbols[node].count);
        under := U16(turn.start);
        symbols[node] := symbols[node].(under := U16(symbols[node].under + update), count := U8(symbols[node].count + update));
        symbol := node;
      }
      return;
    }
  }

  lemma NoneWithoutWidth(t: Table, next: nat, i: nat, code: nat, update: byte, edge: int)
    requires i < ARENA
    ensures MakeRight(t, next, i, code, update, 0, edge) == NoSuch && MakeLeft(t, next, i, code, update, 0, edge) == NoSuch
  {
  }
}
