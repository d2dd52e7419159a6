/** `enet_range_coder_compress` and `enet_range_coder_decompress` as they run: registers and the
    output cursor are fields, the symbols array and the output buffer are changed in place. */
module Compression {
  import opened Numbers
  import opened RangeCoder
  import opened SymbolTree
  import opened PpmModel
  import opened Arena
  import opened SymbolArray
  import opened Coders
  import opened EncoderProof
  import opened DecoderProof
  import DecoderSafety

  // ---------------------------------------------------------------- output only grows

  lemma EmitAtGrows(s: Sender, sub: nat, under: u16, count: u16)
    requires s.Sender? && sub < ARENA
    ensures var e := EmitAt(s, sub, under, count); e.Sender? ==> |s.out| <= |e.out|
  {
  }

  lemma EncodeAtGrows(s: Sender, sub: nat, link: int, value: byte)
    requires s.Sender? && sub < ARENA && link < ARENA
    ensures var e := EncodeAt(s, sub, link, value).0; e.Sender? ==> |s.out| <= |e.out|
  {
    hide ContextEncode, Settle, EmitAt;
    var root := sub == 0;
    var w := ContextEncode(s.tab, s.next, sub, value, Delta(root), Minimum(root));
    if w.Walk? && w.symbol < ARENA {
      EmitAtGrows(Follow(s.(tab := w.table, next := w.next), link, w.symbol), sub, w.under, w.count);
    }
  }

  lemma {:induction false} EncodeChainGrows(s: Sender, e: Sender, sub: nat, link: int, value: byte, fuel: nat)
    requires s.Sender? && sub < ARENA && link < ARENA && e == EncodeChain(s, sub, link, value, fuel)
    ensures e.Sender? ==> |s.out| <= |e.out|
    decreases fuel
  {
    hide EncodeAt;
    EncodeAtGrows(s, sub, link, value);
    var (s1, symbol, count) := EncodeAt(s, sub, link, value);
    if !(s1.Broken? || sub == 0 || count > 0) && fuel > 0 && s1.tab[sub].parent < ARENA && symbol < ARENA {
      EncodeChainGrows(s1, e, s1.tab[sub].parent, symbol, value, fuel - 1);
    }
  }

  lemma {:induction false} EncodeAllGrows(s: Sender, input: seq<byte>)
    requires s.Sender?
    ensures EncodeAll(s, input).Sender? ==> |s.out| <= |EncodeAll(s, input).out|
    decreases |input|
  {
    hide EncodeChain;
    if input != [] && s.predicted < ARENA {
      EncodeChainGrows(s, EncodeChain(s, s.predicted, -1, input[0], ARENA), s.predicted, -1, input[0], ARENA);
      if EncodeByte(s, input[0]).Sender? { EncodeAllGrows(EncodeByte(s, input[0]), input[1..]); }
    }
  }

  // ---------------------------------------------------------------- single rounds

  lemma NormaliseRound(iv: Interval)
    requires Normalise(iv).Normal? && !(LeadDiffers(iv.low, iv.range) && iv.range >= BOTTOM)
    ensures var n := Interval(Shift(iv.low), Shift(Narrowed(iv.low, iv.range)));
            Normalise(n).Normal? && Normalise(iv) == Normal([iv.low / TOP] + Normalise(n).out, Normalise(n).iv)
  {
  }

  lemma NormaliseStops(iv: Interval)
    requires LeadDiffers(iv.low, iv.range) && iv.range >= BOTTOM
    ensures Normalise(iv) == Normal([], iv)
  {
  }

  /** The steps of coding in one context, when none of them fails. */
  lemma EncodeAtParts(s: Sender, sub: nat, link: int, value: byte) returns (w: Walk, f: Sender, e: Sender, h: Halving)
    requires s.Sender? && sub < ARENA && link < ARENA && EncodeAt(s, sub, link, value).0.Sender?
    ensures w == ContextEncode(s.tab, s.next, sub, value, Delta(sub == 0), Minimum(sub == 0)) && w.Walk? && w.symbol < ARENA
    ensures f == Follow(s.(tab := w.table, next := w.next), link, w.symbol)
    ensures e == EmitAt(f, sub, w.under, w.count) && e.Sender?
    ensures h == Settle(e.tab, sub, w.count, sub != 0 && w.count == 0, sub == 0) && h.Halving?
    ensures EncodeAt(s, sub, link, value) == (e.(tab := h.table), w.symbol, w.count)
  {
    hide ContextEncode, EmitAt, Settle;
    w := ContextEncode(s.tab, s.next, sub, value, Delta(sub == 0), Minimum(sub == 0));
    f := Follow(s.(tab := w.table, next := w.next), link, w.symbol);
    e := EmitAt(f, sub, w.under, w.count);
    h := Settle(e.tab, sub, w.count, sub != 0 && w.count == 0, sub == 0);
  }

  lemma EmitKeepsTable(s: Sender, under: nat, count: nat, total: nat)
    requires s.Sender? && Emit(s, under, count, total).Sender?
    ensures var e := Emit(s, under, count, total); e == s.(iv := e.iv, out := e.out)
  {
  }

  // ---------------------------------------------------------------- compressing

  /** The local variables of one call of `enet_range_coder_compress`. */
  class Compressor {
    const symbols: array<Symbol>
    const outData: array<byte>
    var next: nat
    var predicted: nat
    var order: nat
    var low: word
    var range: word
    var outPos: nat

    ghost predicate Valid()
      reads this
    {
      symbols.Length == ARENA && outPos <= outData.Length
    }

    ghost function State(): Sender
      reads this, symbols, outData
      requires Valid()
    {
      Sender(symbols[..], next, predicted, order, Interval(low, range), outData[..outPos])
    }

    constructor (symbols: array<Symbol>, outData: array<byte>)
      requires symbols.Length == ARENA
      modifies symbols
      ensures Valid() && this.symbols == symbols && this.outData == outData
      ensures State() == FirstSender(old(symbols[..]))
    {
      this.symbols, this.outData := symbols, outData;
      next, predicted, order, low, range, outPos := 1, 0, 0, 0, 0xFFFF_FFFF, 0;
      new;
      symbols[0] := Symbol(0, 0, 0, 0, 0, 0, 1, 257, 0);
      assert outData[..0] == [];
    }

    /** The normalisation loop: emit the bytes that no later step can change. */
    method EmitSettledBytes() returns (ok: bool)
      requires Valid() && Normalise(Interval(low, range)).Normal?
      modifies `low, `range, `outPos, outData
      ensures Valid()
      ensures var n := Normalise(old(Interval(low, range)));
              if ok then Interval(low, range) == n.iv && outData[..outPos] == old(outData[..outPos]) + n.out
              else old(outPos) + |n.out| > outData.Length
    {
      hide Normalise, LeadDiffers, Shift;
      ghost var all := old(outData[..outPos]) + Normalise(Interval(low, range)).out;
      while true
        invariant outPos <= outData.Length
        invariant Normalise(Interval(low, range)).Normal?
        invariant old(Normalise(Interval(low, range))).iv == Normalise(Interval(low, range)).iv
        invariant outData[..outPos] + Normalise(Interval(low, range)).out == all
        decreases outData.Length - outPos
      {
        ghost var iv := Interval(low, range);
        if LeadDiffers(low, range) {
          if range >= BOTTOM {
            NormaliseStops(iv);
            assert outData[..outPos] + [] == outData[..outPos];
            break;
          }
          range := (WORD - low) % BOTTOM;
        }
        NormaliseRound(iv);
        if outPos >= outData.Length { return false; }
        outData[outPos] := low / TOP;
        outPos := outPos + 1;
        range := Shift(range);
        low := Shift(low);
        AppendByte(outData[..outPos], iv.low / TOP, Normalise(Interval(low, range)).out);
      }
      return true;
    }

    lemma AppendByte(s: seq<byte>, b: byte, t: seq<byte>)
      requires s != [] && s[|s| - 1] == b
      ensures s + t == s[..|s| - 1] + ([b] + t)
    {
    }

    /** `ENET_RANGE_CODER_ENCODE`; not `ok` when the output buffer is full. */
    method Encode(under: nat, count: nat, total: nat) returns (ok: bool)
      requires Valid() && Emit(State(), under, count, total).Sender?
      modifies `low, `range, `outPos, outData
      ensures Valid()
      ensures ok ==> State() == Emit(old(State()), under, count, total)
      ensures !ok ==> |Emit(old(State()), under, count, total).out| > outData.Length
    {
      hide Normalise;
      range := range / total;
      low := (low + under * range) % WORD;
      range := (range * count) % WORD;
      ok := EmitSettledBytes();
    }

    /** `ENET_RANGE_CODER_FLUSH`. */
    method FlushLow() returns (ok: bool)
      requires Valid()
      modifies `low, `outPos, outData
      ensures Valid()
      ensures ok ==> outData[..outPos] == old(outData[..outPos]) + Flush(old(low))
      ensures !ok ==> |old(outData[..outPos]) + Flush(old(low))| > outData.Length
    {
      hide Flush, Shift;
      ghost var start := outPos;
      while low != 0
        invariant start <= outPos <= outData.Length
        invariant outData[..start] == old(outData[..outPos])
        invariant Flush(old(low)) == outData[start..outPos] + Flush(low)
        decreases outData.Length - outPos
      {
        FlushStep(low);
        if outPos >= outData.Length { return false; }
        ghost var done := outData[start..outPos];
        outData[outPos] := low / TOP;
        outPos := outPos + 1;
        assert outData[start..outPos] == done + [low / TOP];
        assert done + ([low / TOP] + Flush(Shift(low))) == (done + [low / TOP]) + Flush(Shift(low));
        low := Shift(low);
      }
      FlushStep(low);
      assert outData[..outPos] == outData[..start] + outData[start..outPos];
      return true;
    }

    lemma FlushStep(low: u32)
      ensures if low == 0 then Flush(low) == [] else Flush(low) == [low / TOP] + Flush(Shift(low))
    {
    }

    /** One context of the chain. */
    method EncodeIn(sub: nat, link: int, value: byte) returns (ok: bool, symbol: nat, count: u16)
      requires Valid() && sub < ARENA && link < ARENA
      requires EncodeAt(State(), sub, link, value).0.Sender?
      modifies this, symbols, outData
      ensures Valid()
      ensures ok ==> EncodeAt(old(State()), sub, link, value) == (State(), symbol, count)
      ensures !ok ==> |EncodeAt(old(State()), sub, link, value).0.out| > outData.Length
    {
      hide ContextEncode, Emit, Settle, EncodeAt;
      ghost var w, f, e, h := EncodeAtParts(State(), sub, link, value);
      var root := sub == 0;
      var under;
      next, symbol, under, count := EncodeInContext(symbols, next, sub, value, Delta(root), Minimum(root));
      if link < 0 {
        predicted := symbol;
      } else {
        symbols[link] := symbols[link].(parent := symbol);
      }
      assert State() == f;
      var escapes: nat, total: nat := symbols[sub].escapes, symbols[sub].total;
      ok := true;
      if root || count > 0 {
        var start := escapes + under;
        EmitKeepsTable(f, start, count, total);
        ok := Encode(start, count, total);
      } else if 0 < escapes < total {
        EmitKeepsTable(f, 0, escapes, total);
        ok := Encode(0, escapes, total);
      }
      if !ok { return; }
      assert State() == e;
      SettleContext(symbols, sub, count, !root && count == 0, root);
    }

    /** The next context of the chain, seen from the function that describes the whole chain. */
    lemma ChainRound(s: Sender, all: Sender, sub: nat, link: int, value: byte, fuel: nat)
      requires s.Sender? && sub < ARENA && link < ARENA && all == EncodeChain(s, sub, link, value, fuel) && all.Sender?
      ensures var (s1, symbol, count) := EncodeAt(s, sub, link, value);
              && s1.Sender? && |s1.out| <= |all.out|
              && (if sub == 0 || count > 0 then all == s1
                  else fuel > 0 && symbol < ARENA && s1.tab[sub].parent < ARENA
                       && all == EncodeChain(s1, s1.tab[sub].parent, symbol, value, fuel - 1))
    {
      hide EncodeAt;
      var (s1, symbol, count) := EncodeAt(s, sub, link, value);
      if !(sub == 0 || count > 0) {
        EncodeChainGrows(s1, all, s1.tab[sub].parent, symbol, value, fuel - 1);
      }
    }

    /** One input byte: the contexts from the highest order down, then the root. */
    method EncodeValue(value: byte) returns (ok: bool)
      requires Valid() && predicted < ARENA
      requires EncodeChain(State(), predicted, -1, value, ARENA).Sender?
      modifies this, symbols, outData
      ensures Valid()
      ensures ok ==> State() == EncodeChain(old(State()), old(predicted), -1, value, ARENA)
      ensures !ok ==> |EncodeChain(old(State()), old(predicted), -1, value, ARENA).out| > outData.Length
    {
      hide EncodeAt, EncodeChain;
      ghost var all := EncodeChain(State(), predicted, -1, value, ARENA);
      ghost var fuel := ARENA;
      var sub: nat := predicted;
      var link: int := -1;
      while sub != 0
        invariant Valid() && sub < ARENA && link < ARENA
        invariant all == EncodeChain(State(), sub, link, value, fuel)
        decreases fuel
      {
        ChainRound(State(), all, sub, link, value, fuel);
        var symbol, count;
        ok, symbol, count := EncodeIn(sub, link, value);
        if !ok || count > 0 { return; }
        link := symbol;
        sub := symbols[sub].parent;
        fuel := fuel - 1;
      }
      ChainRound(State(), all, sub, link, value, fuel);
      var symbol, count;
      ok, symbol, count := EncodeIn(0, link, value);
    }

    /** `nextInput`. */
    method NextContext()
      requires Valid() && predicted < ARENA
      modifies this, symbols
      ensures Valid() && State() == EncodeNext(old(State()))
    {
      if order >= MAX_ORDER {
        predicted := symbols[predicted].parent;
      } else {
        order := order + 1;
      }
      if next >= ARENA - MAX_ORDER {
        symbols[0] := Symbol(0, 0, 0, 0, 0, 0, 1, 257, 0);
        next, predicted, order := 1, 0, 0;
      }
    }
  }

  // ---------------------------------------------------------------- decompressing

  lemma RenormaliseRound(rd: Reader)
    requires Renormalise(rd).Renormal? && !(LeadDiffers(rd.iv.low, rd.iv.range) && rd.iv.range >= BOTTOM)
    ensures var r := Narrowed(rd.iv.low, rd.iv.range);
            && r != 0
            && Renormalise(rd) == Renormalise(ReadByte(rd, Interval(Shift(rd.iv.low), Shift(r))))
  {
  }

  lemma RoundDecreases(low: word, range: word)
    requires !(LeadDiffers(low, range) && range >= BOTTOM) && Narrowed(low, range) != 0
    ensures low != 0 ==> ZeroBytes(low) < ZeroBytes(Shift(low)) <= 4
    ensures low == 0 ==> Shift(low) == 0 && Shift(Narrowed(low, range)) > range
  {
    if low != 0 { ShiftAddsZeroByte(low); }
  }

  /** How the search for the next byte ended. */
  datatype Verdict = FoundByte | EndOfStream | Refused

  /** The local variables of one call of `enet_range_coder_decompress`. */
  class Decompressor {
    const symbols: array<Symbol>
    const inData: seq<byte>
    var inPos: nat
    var next: nat
    var predicted: nat
    var order: nat
    var low: word
    var range: word
    var code: word

    ghost predicate Valid()
      reads this
    {
      symbols.Length == ARENA && inPos <= |inData|
    }

    ghost function Registers(): Reader
      reads this
      requires Valid()
    {
      Reader(Interval(low, range), code, inData[inPos..])
    }

    ghost function State(): Receiver
      reads this, symbols
      requires Valid()
    {
      Receiver(symbols[..], next, predicted, order, Registers())
    }

    /** The arena is reset and `ENET_RANGE_CODER_SEED` reads the first code word. */
    constructor (symbols: array<Symbol>, inData: seq<byte>)
      requires symbols.Length == ARENA
      modifies symbols
      ensures Valid() && this.symbols == symbols && this.inData == inData
      ensures State() == FirstReceiver(old(symbols[..]), inData)
    {
      this.symbols, this.inData := symbols, inData;
      next, predicted, order, low, range, code, inPos := 1, 0, 0, 0, 0xFFFF_FFFF, 0, 0;
      new;
      symbols[0] := Symbol(0, 0, 0, 0, 0, 0, 1, 257, 0);
      if inPos < |inData| { code := inData[inPos] * TOP; inPos := inPos + 1; }
      if inPos < |inData| { code := code + inData[inPos] * BOTTOM; inPos := inPos + 1; }
      if inPos < |inData| { code := code + 0x100 * (inData[inPos] as int); inPos := inPos + 1; }
      if inPos < |inData| { code := code + inData[inPos]; inPos := inPos + 1; }
    }

    /** `ENET_RANGE_CODER_READ`: also divides the range. */
    method ReadCode(total: nat) returns (scaled: nat)
      requires Valid() && 0 < total <= range
      modifies `range
      ensures range == old(range) / total
      ensures scaled == Read(old(Registers()), total)
    {
      DivBounds(range, total);
      range := range / total;
      scaled := (((code - low) % WORD) / range) % BOTTOM;
    }

    /** `ENET_RANGE_CODER_DECODE`, after `ReadCode` with the same total. */
    method DecodeSlot(under: nat, count: nat, ghost total: nat, ghost before: Reader)
      requires Valid() && total > 0 && Registers() == before.(iv := Interval(before.iv.low, before.iv.range / total))
      requires Decode(before, under, count, total).Renormal?
      modifies `low, `range, `code, `inPos
      ensures Valid() && Decode(before, under, count, total) == Renormal(Registers())
    {
      hide Renormalise, Shift, LeadDiffers, ZeroBytes;
      low := (low + under * range) % WORD;
      range := (range * count) % WORD;
      ghost var all := Renormalise(Registers());
      while true
        invariant Valid()
        invariant all == Renormalise(Registers()) && all.Renormal?
        decreases 4 - ZeroBytes(low), if low == 0 then WORD - range else 0
      {
        ghost var rd := Registers();
        if LeadDiffers(low, range) {
          if range >= BOTTOM {
            RenormaliseStops(rd);
            break;
          }
          range := (WORD - low) % BOTTOM;
        }
        RenormaliseRound(rd);
        RoundDecreases(rd.iv.low, rd.iv.range);
        ShiftLeavesRoom(code);
        code := Shift(code);
        if inPos < |inData| {
          code := code + inData[inPos];
          inPos := inPos + 1;
        }
        range := Shift(range);
        low := Shift(low);
      }
    }

    lemma RenormaliseStops(rd: Reader)
      requires LeadDiffers(rd.iv.low, rd.iv.range) && rd.iv.range >= BOTTOM
      ensures Renormalise(rd) == Renormal(rd)
    {
    }

    lemma ShiftLeavesRoom(x: word)
      ensures Shift(x) + 255 < WORD
    {
      assert Shift(x) % 256 == 0;
    }

    lemma SymbolParts(r: Receiver, sub: nat, scaled: nat) returns (dig: Dig)
      requires sub < ARENA && r.tab[sub].total > 0 && !DecodeSymbol(r, sub, scaled).Undefined?
      ensures dig == ContextDecode(r.tab, r.next, sub, scaled, Delta(sub == 0), Minimum(sub == 0)) && !dig.Outside?
      ensures dig.NoSuch? ==> DecodeSymbol(r, sub, scaled) == Rejected
      ensures dig.Dug? ==>
        var d := Decode(r.rd, r.tab[sub].escapes + dig.under, dig.count, r.tab[sub].total);
        var h := Settle(dig.table, sub, dig.count, false, sub == 0);
        && d.Renormal? && h.Halving?
        && DecodeSymbol(r, sub, scaled) == Byte(r.(tab := h.table, next := dig.next, rd := d.rd), sub, dig.value, dig.symbol)
    {
      hide ContextDecode, Decode, Settle;
      dig := ContextDecode(r.tab, r.next, sub, scaled, Delta(sub == 0), Minimum(sub == 0));
    }

    /** A scaled code beyond the escapes, right after it was read in the context at `sub`. */
    method TakeSymbol(sub: nat, scaled: nat, ghost before: Receiver) returns (found: bool, value: byte, bottom: nat)
      requires Valid() && sub < ARENA && symbols[sub].total > 0
      requires State() == before.(rd := before.rd.(iv := Interval(before.rd.iv.low, before.rd.iv.range / symbols[sub].total)))
      requires !DecodeSymbol(before, sub, scaled).Undefined?
      modifies this, symbols
      ensures Valid()
      ensures DecodeSymbol(before, sub, scaled) == if found then Byte(State(), sub, value, bottom) else Rejected
    {
      hide ContextDecode, Decode, Settle, DecodeSymbol;
      ghost var dig := SymbolParts(before, sub, scaled);
      var root := sub == 0;
      var escapes: nat := symbols[sub].escapes;
      ghost var total := symbols[sub].total;
      var under, count;
      found, next, bottom, value, under, count := DecodeInContext(symbols, next, sub, scaled, Delta(root), Minimum(root));
      if !found { return; }
      var start := escapes + under;
      DecodeSlot(start, count, total, before.rd);
      SettleContext(symbols, sub, count, false, root);
    }

    lemma SkipRound(r: Receiver, sub: nat, fuel: nat)
      requires sub < ARENA && sub != 0 && (r.tab[sub].escapes == 0 || r.tab[sub].escapes >= r.tab[sub].total)
      requires !DecodeChain(r, sub, fuel).Undefined?
      ensures fuel > 0 && r.tab[sub].parent < ARENA
      ensures DecodeChain(r, sub, fuel) == DecodeChain(r, r.tab[sub].parent, fuel - 1)
    {
      hide DecodeSymbol, Decode, Read;
    }

    lemma ReadRound(r: Receiver, sub: nat, fuel: nat)
      requires sub < ARENA && (sub == 0 || 0 < r.tab[sub].escapes < r.tab[sub].total)
      requires !DecodeChain(r, sub, fuel).Undefined?
      ensures 0 < r.tab[sub].total <= r.rd.iv.range
      ensures var scaled := Read(r.rd, r.tab[sub].total);
              var esc := r.tab[sub].escapes;
              var d := Decode(r.rd, 0, esc, r.tab[sub].total);
              && (scaled >= esc ==> DecodeChain(r, sub, fuel) == DecodeSymbol(r, sub, scaled - esc))
              && (scaled < esc ==> d.Renormal?)
              && (scaled < esc && sub == 0 ==> DecodeChain(r, sub, fuel) == Finished)
              && (scaled < esc && sub != 0 ==> fuel > 0 && r.tab[sub].parent < ARENA)
              && (scaled < esc && sub != 0 ==>
                    DecodeChain(r, sub, fuel) == DecodeChain(r.(rd := d.rd), r.tab[sub].parent, fuel - 1))
    {
      hide DecodeSymbol, Decode, Read;
    }

    /** Decode the next byte: the contexts from the highest order down, then the root. */
    method DecodeValue() returns (v: Verdict, stop: nat, value: byte, bottom: nat)
      requires Valid() && predicted < ARENA
      requires !DecodeChain(State(), predicted, ARENA).Undefined?
      modifies this, symbols
      ensures Valid()
      ensures DecodeChain(old(State()), old(predicted), ARENA) ==
        match v
        case FoundByte => Byte(State(), stop, value, bottom)
        case EndOfStream => Finished
        case Refused => Rejected
    {
      hide DecodeSymbol, Decode, Read, DecodeChain;
      ghost var all := DecodeChain(State(), predicted, ARENA);
      ghost var fuel := ARENA;
      value, bottom := 0, 0;
      var sub: nat := predicted;
      while sub != 0
        invariant Valid() && sub < ARENA
        invariant all == DecodeChain(State(), sub, fuel) && !all.Undefined?
        decreases fuel
      {
        ghost var r := State();
        stop := sub;
        var escapes: nat, total: nat := symbols[sub].escapes, symbols[sub].total;
        if escapes <= 0 || escapes >= total {
          SkipRound(r, sub, fuel);
          sub, fuel := symbols[sub].parent, fuel - 1;
          continue;
        }
        ReadRound(r, sub, fuel);
        var scaled := ReadCode(total);
        if scaled < escapes {
          DecodeSlot(0, escapes, total, r.rd);
          sub, fuel := symbols[sub].parent, fuel - 1;
          continue;
        }
        var found;
        found, value, bottom := TakeSymbol(sub, scaled - escapes, r);
        v := if found then FoundByte else Refused;
        return;
      }
      ghost var r := State();
      stop := 0;
      ReadRound(r, 0, fuel);
      var escapes: nat, total: nat := symbols[0].escapes, symbols[0].total;
      var scaled := ReadCode(total);
      if scaled < escapes {
        DecodeSlot(0, escapes, total, r.rd);
        v := EndOfStream;
        return;
      }
      var found;
      found, value, bottom := TakeSymbol(0, scaled - escapes, r);
      v := if found then FoundByte else Refused;
    }

    lemma PatchRound(r: Receiver, patch: nat, stop: nat, link: int, value: byte, bottom: nat, fuel: nat)
        returns (w: Walk, h: Halving)
      requires patch < ARENA && link < ARENA && bottom < ARENA && patch != stop
      requires PatchChain(r, patch, stop, link, value, bottom, fuel).Some?
      ensures w == ContextEncode(r.tab, r.next, patch, value, Delta(false), Minimum(false)) && w.Walk? && w.symbol < ARENA
      ensures h == Settle(LinkTo(w.table, link, w.symbol), patch, w.count, w.count == 0, false) && h.Halving?
      ensures fuel > 0 && h.table[patch].parent < ARENA
      ensures PatchChain(r, patch, stop, link, value, bottom, fuel)
           == PatchChain(r.(tab := h.table, next := w.next, predicted := if link < 0 then w.symbol else r.predicted),
                         h.table[patch].parent, stop, w.symbol, value, bottom, fuel - 1)
    {
      hide ContextEncode, Settle;
      w := ContextEncode(r.tab, r.next, patch, value, Delta(false), Minimum(false));
      h := Settle(LinkTo(w.table, link, w.symbol), patch, w.count, w.count == 0, false);
    }

    /** `* parent = symbol - rangeCoder->symbols`. */
    method SetParent(link: int, symbol: nat)
      requires Valid() && link < ARENA && symbol < ARENA
      modifies `predicted, symbols
      ensures Valid() && State() == FollowR(old(State()), link, symbol)
    {
      if link < 0 {
        predicted := symbol;
      } else {
        symbols[link] := symbols[link].(parent := symbol);
      }
    }

    /** `patchContexts`. */
    method PatchContexts(stop: nat, value: byte, bottom: nat)
      requires Valid() && predicted < ARENA && bottom < ARENA
      requires PatchChain(State(), predicted, stop, -1, value, bottom, ARENA).Some?
      modifies this, symbols
      ensures Valid() && PatchChain(old(State()), old(predicted), stop, -1, value, bottom, ARENA) == Some(State())
    {
      hide PatchChain, ContextEncode, Settle;
      ghost var all := PatchChain(State(), predicted, stop, -1, value, bottom, ARENA);
      ghost var fuel := ARENA;
      var patch: nat := predicted;
      var link: int := -1;
      while patch != stop
        invariant Valid() && patch < ARENA && link < ARENA
        invariant all.Some? && all == PatchChain(State(), patch, stop, link, value, bottom, fuel)
        decreases fuel
      {
        ghost var w, h := PatchRound(State(), patch, stop, link, value, bottom, fuel);
        var symbol, under, count;
        next, symbol, under, count := EncodeInContext(symbols, next, patch, value, Delta(false), Minimum(false));
        SetParent(link, symbol);
        link := symbol;
        SettleContext(symbols, patch, count, count == 0, false);
        patch := symbols[patch].parent;
        fuel := fuel - 1;
      }
      PatchStops(State(), stop, link, value, bottom, fuel);
      SetParent(link, bottom);
    }

    lemma PatchStops(r: Receiver, stop: nat, link: int, value: byte, bottom: nat, fuel: nat)
      requires stop < ARENA && link < ARENA && bottom < ARENA
      ensures PatchChain(r, stop, stop, link, value, bottom, fuel) == Some(FollowR(r, link, bottom))
    {
    }

    /** A byte is searched for, and the contexts above it learn it. */
    method NextValue() returns (v: Verdict, value: byte)
      requires Valid() && predicted < ARENA
      requires var d := DecodeChain(State(), predicted, ARENA);
               && !d.Undefined?
               && (d.Byte? ==> d.bottom < ARENA && PatchChain(d.r, predicted, d.stop, -1, d.value, d.bottom, ARENA).Some?)
      modifies this, symbols
      ensures Valid()
      ensures var d := DecodeChain(old(State()), old(predicted), ARENA);
              match v
              case FoundByte =>
                d.Byte? && value == d.value
                && PatchChain(d.r, old(predicted), d.stop, -1, d.value, d.bottom, ARENA) == Some(State())
              case EndOfStream => d.Finished?
              case Refused => d.Rejected?
    {
      hide DecodeChain, PatchChain;
      ghost var r := State();
      ghost var found := DecodeChain(r, r.predicted, ARENA);
      var stop, bottom;
      v, stop, value, bottom := DecodeValue();
      if v == FoundByte {
        PredictedKept(r, found, r.predicted, ARENA);
        PatchContexts(stop, value, bottom);
      }
    }

    method NextContext()
      requires Valid() && DecodeNext(State()).Some?
      modifies this, symbols
      ensures Valid() && DecodeNext(old(State())) == Some(State())
    {
      if order >= MAX_ORDER {
        predicted := symbols[predicted].parent;
      } else {
        order := order + 1;
      }
      if next >= ARENA - MAX_ORDER {
        symbols[0] := Symbol(0, 0, 0, 0, 0, 0, 1, 257, 0);
        next, predicted, order := 1, 0, 0;
      }
    }
  }

  // ---------------------------------------------------------------- whole calls

  function Flatten(buffers: seq<seq<byte>>): seq<byte> {
    if buffers == [] then [] else buffers[0] + Flatten(buffers[1..])
  }

  /** The rest of the current buffer, and all later ones. */
  function Unread(buffers: seq<seq<byte>>, i: nat, pos: nat): seq<byte>
    requires 0 < i <= |buffers| && pos <= |buffers[i - 1]|
  {
    buffers[i - 1][pos..] + Flatten(buffers[i..])
  }

  lemma NextBuffer(buffers: seq<seq<byte>>, i: nat)
    requires 0 < i <= |buffers|
    ensures i < |buffers| ==> Unread(buffers, i, |buffers[i - 1]|) == Unread(buffers, i + 1, 0)
    ensures i == |buffers| ==> Unread(buffers, i, |buffers[i - 1]|) == []
  {
    if i < |buffers| {
      assert buffers[i..][0] == buffers[i] && buffers[i..][1..] == buffers[i + 1..];
    }
  }

  lemma NextByte(buffers: seq<seq<byte>>, i: nat, pos: nat)
    requires 0 < i <= |buffers| && pos < |buffers[i - 1]|
    ensures Unread(buffers, i, pos) == [buffers[i - 1][pos]] + Unread(buffers, i, pos + 1)
  {
  }

  lemma ValueRound(s: Sender, all: Sender, value: byte, rest: seq<byte>)
    requires s.Sender? && all == EncodeAll(s, [value] + rest) && all.Sender?
    ensures s.predicted < ARENA
    ensures var e := EncodeChain(s, s.predicted, -1, value, ARENA);
            && e.Sender? && |e.out| <= |all.out|
            && e.predicted < ARENA && EncodeNext(e).Sender? && all == EncodeAll(EncodeNext(e), rest)
  {
    hide EncodeChain;
    assert ([value] + rest)[1..] == rest;
    var e := EncodeChain(s, s.predicted, -1, value, ARENA);
    EncodeAllGrows(EncodeNext(e), rest);
  }

  lemma NothingLeft(s: Sender)
    ensures EncodeAll(s, []) == s
  {
  }

  function PrependAll(done: seq<byte>, o: Outcome): Outcome {
    if o.Delivered? then Delivered(done + o.bytes) else o
  }

  /** One byte of the stream, as the main loop of the decompressor takes it. */
  lemma DecodeAllRound(r: Receiver, room: nat)
    requires DecodeAll(r, room) != Stuck
    ensures r.predicted < ARENA
    ensures var d := DecodeChain(r, r.predicted, ARENA);
            && !d.Undefined?
            && (d.Finished? ==> DecodeAll(r, room) == Delivered([]))
            && (d.Rejected? ==> DecodeAll(r, room) == Zero)
            && (d.Byte? ==>
                  && d.bottom < ARENA
                  && var o := PatchChain(d.r, r.predicted, d.stop, -1, d.value, d.bottom, ARENA);
                  && o.Some?
                  && (room == 0 ==> DecodeAll(r, room) == Zero)
                  && (room > 0 ==> DecodeNext(o.value).Some?)
                  && (room > 0 ==> DecodeAll(r, room) == Prepend(d.value, DecodeAll(DecodeNext(o.value).value, room - 1))))
  {
    hide DecodeChain, PatchChain, DecodeNext;
  }

  lemma {:induction false} PredictedKept(r: Receiver, d: Decoded, sub: nat, fuel: nat)
    requires sub < ARENA && d == DecodeChain(r, sub, fuel) && d.Byte?
    ensures d.r.predicted == r.predicted
    decreases fuel
  {
    hide Decode, Read, ContextDecode, Settle;
    var esc, total := r.tab[sub].escapes, r.tab[sub].total;
    if sub != 0 && (esc <= 0 || esc >= total) {
      PredictedKept(r, d, r.tab[sub].parent, fuel - 1);
    } else if Read(r.rd, total) < esc {
      PredictedKept(r.(rd := Decode(r.rd, 0, esc, total).rd), d, r.tab[sub].parent, fuel - 1);
    }
  }

  /** `ENetRangeCoder`: the arena, kept between calls. */
  class RangeCoderContext {
    const symbols: array<Symbol>

    constructor ()
      ensures symbols.Length == ARENA && fresh(symbols)
    {
      symbols := new Symbol[ARENA](_ => BLANK);
    }

    /** The first buffer may be empty, later ones may not: the code steps over one end of buffer only. */
    method Compress(inBuffers: seq<seq<byte>>, inLimit: nat, outData: array<byte>) returns (n: nat)
      requires symbols.Length == ARENA
      requires forall i :: 0 < i < |inBuffers| ==> inBuffers[i] != []
      modifies symbols, outData
      ensures var c := Compressed(Flatten(inBuffers));
              if inBuffers == [] || inLimit == 0 || |c| > outData.Length then n == 0
              else n == |c| && outData[..n] == c
    {
      hide EncodeChain, EncodeAll, Compressed;
      if inBuffers == [] || inLimit == 0 { return 0; }
      ghost var input := Flatten(inBuffers);
      ghost var first := FirstSender(symbols[..]);
      ghost var all := EncodeAll(first, input);
      CompressorWritesCodedForm(symbols[..], input);
      var c := new Compressor(symbols, outData);
      var i, pos := 1, 0;
      while true
        invariant 1 <= i <= |inBuffers| && 0 <= pos <= |inBuffers[i - 1]|
        invariant fresh(c) && c.Valid() && c.symbols == symbols && c.outData == outData
        invariant all.Sender? && all == EncodeAll(c.State(), Unread(inBuffers, i, pos))
        decreases |inBuffers| - i, |inBuffers[i - 1]| - pos
      {
        if pos >= |inBuffers[i - 1]| {
          NextBuffer(inBuffers, i);
          if i >= |inBuffers| { break; }
          pos, i := 0, i + 1;
        }
        var value := inBuffers[i - 1][pos];
        NextByte(inBuffers, i, pos);
        ValueRound(c.State(), all, value, Unread(inBuffers, i, pos + 1));
        pos := pos + 1;
        var ok := c.EncodeValue(value);
        if !ok { return 0; }
        c.NextContext();
      }
      NothingLeft(c.State());
      var ok := c.FlushLow();
      if !ok { return 0; }
      n := c.outPos;
    }

    /** On every stream, malformed ones too, which may be refused with 0. */
    method Decompress(inData: seq<byte>, outData: array<byte>) returns (n: nat)
      requires symbols.Length == ARENA
      modifies symbols, outData
      ensures var o := DecompressBytes(old(symbols[..]), inData, outData.Length);
              if o.Delivered? then n == |o.bytes| <= outData.Length && outData[..n] == o.bytes else n == 0
    {
      hide DecodeChain, PatchChain, DecodeNext, DecodeAll;
      DecoderSafety.DecompressorIsTotal(symbols[..], inData, outData.Length);
      if inData == [] { return 0; }
      ghost var all := DecompressBytes(symbols[..], inData, outData.Length);
      var d := new Decompressor(symbols, inData);
      n := 0;
      assert outData[..0] == [];
      StillToCome([], all);
      while true
        invariant 0 <= n <= outData.Length
        invariant fresh(d) && d.Valid() && d.symbols == symbols
        invariant all != Stuck && PrependAll(outData[..n], DecodeAll(d.State(), outData.Length - n)) == all
        decreases outData.Length - n
      {
        ghost var r, room, done := d.State(), outData.Length - n, outData[..n];
        DecodeAllRound(r, room);
        var found, value := d.NextValue();
        if found != FoundByte {
          if found == Refused { n := 0; }
          return;
        }
        if n >= outData.Length { return 0; }
        outData[n] := value;
        n := n + 1;
        PrependOne(done, value, DecodeAll(DecodeNext(d.State()).value, room - 1));
        assert outData[..n] == done + [value];
        d.NextContext();
      }
    }
  }

  lemma StillToCome(done: seq<byte>, o: Outcome)
    requires done == []
    ensures PrependAll(done, o) == o
  {
  }

  lemma PrependOne(done: seq<byte>, value: byte, o: Outcome)
    ensures PrependAll(done, Prepend(value, o)) == PrependAll(done + [value], o)
  {
  }

  /** Two peers, each with a coder of its own and whatever its arena held: what one compresses, the
      other decompresses to the concatenation of the buffers, given room on both sides. */
  method SendCompressed(here: RangeCoderContext, there: RangeCoderContext, inBuffers: seq<seq<byte>>,
                        wire: array<byte>, outData: array<byte>) returns (n: nat, m: nat)
    requires here.symbols.Length == ARENA && there.symbols.Length == ARENA && wire != outData
    requires forall i :: 0 < i < |inBuffers| ==> inBuffers[i] != []
    modifies here.symbols, there.symbols, wire, outData
    ensures m <= outData.Length
    ensures n == 0 <==> Flatten(inBuffers) == [] || |Compressed(Flatten(inBuffers))| > wire.Length
    ensures n > 0 && |Flatten(inBuffers)| <= outData.Length ==> outData[..m] == Flatten(inBuffers)
    ensures n > 0 && |Flatten(inBuffers)| > outData.Length ==> m == 0
  {
    hide Compressed, DecompressBytes;
    OutputIsNotEmpty(Flatten(inBuffers));
    n := here.Compress(inBuffers, 1, wire);
    m := 0;
    if n > 0 {
      DecompressorInverts(there.symbols[..], Flatten(inBuffers), outData.Length);
      m := there.Decompress(wire[..n], outData);
    }
  }
}
