/** `enet_range_coder_compress` and `enet_range_coder_decompress` as functions of the whole coder
    state: the arena, the two indices that survive a byte, and the range-coder registers. States in
    which the C program has no defined behaviour, or does not come back, are made explicit. */
module Coders {
  import opened Numbers
  import opened RangeCoder
  import opened PpmModel
  import opened Arena

  /** The root context of a fresh arena, at index 0. */
  function FreshArena(t: Table): Table {
    t[0 := Symbol(0, 0, 0, 0, 0, 0, 1, 257, 0)]
  }

  // ---------------------------------------------------------------- compressing

  datatype Sender = Broken
    | Sender(tab: Table, next: nat, predicted: nat, order: nat, iv: Interval, out: seq<byte>)

  /** `ENET_RANGE_CODER_ENCODE`. */
  function Emit(s: Sender, under: nat, count: nat, total: nat): Sender
    requires s.Sender?
  {
    if total == 0 then Broken
    else
      match Normalise(Slice(s.iv, under, count, total))
      case Spin => Broken
      case Normal(out, iv) => s.(iv := iv, out := s.out + out)
  }

  /** `* parent = symbol - rangeCoder->symbols`. */
  function Follow(s: Sender, link: int, symbol: nat): Sender
    requires s.Sender? && link < ARENA && symbol < ARENA
  {
    s.(tab := LinkTo(s.tab, link, symbol), predicted := if link < 0 then symbol else s.predicted)
  }

  /** The decisions coded for a symbol that a context has, or an escape if it is worth coding. */
  function EmitAt(s: Sender, sub: nat, under: u16, count: u16): Sender
    requires s.Sender? && sub < ARENA
  {
    var esc, total := s.tab[sub].escapes, s.tab[sub].total;
    if sub == 0 || count > 0 then Emit(s, esc + under, count, total)
    else if 0 < esc < total then Emit(s, 0, esc, total)
    else s
  }

  /** One round of the context loop, and the root after it: the context at `sub` codes `value`. */
  function EncodeAt(s: Sender, sub: nat, link: int, value: byte): (Sender, nat, u16)
    requires s.Sender? && sub < ARENA && link < ARENA
  {
    var root := sub == 0;
    match ContextEncode(s.tab, s.next, sub, value, Delta(root), Minimum(root))
    case Lost => (Broken, 0, 0)
    case Walk(tab, next, symbol, under, count) =>
      if symbol >= ARENA then (Broken, 0, 0)
      else
        var s1 := EmitAt(Follow(s.(tab := tab, next := next), link, symbol), sub, under, count);
        if s1.Broken? then (Broken, 0, 0)
        else
          match Settle(s1.tab, sub, count, !root && count == 0, root)
          case Astray => (Broken, 0, 0)
          case Halving(t, _) => (s1.(tab := t), symbol, count)
  }

  /** The contexts from `sub` on along the parent indices; more than `fuel` of them would be a cycle. */
  function EncodeChain(s: Sender, sub: nat, link: int, value: byte, fuel: nat): Sender
    requires s.Sender? && sub < ARENA && link < ARENA
    decreases fuel
  {
    var (s1, symbol, count) := EncodeAt(s, sub, link, value);
    if s1.Broken? || sub == 0 || count > 0 then s1
    else if fuel == 0 || s1.tab[sub].parent >= ARENA || symbol >= ARENA then Broken
    else EncodeChain(s1, s1.tab[sub].parent, symbol, value, fuel - 1)
  }

  /** `nextInput`: move to the next context, and start over when the arena is nearly full. */
  function EncodeNext(s: Sender): Sender
    requires s.Sender?
  {
    if s.predicted >= ARENA then Broken
    else if s.next >= ARENA - MAX_ORDER then
      s.(tab := FreshArena(s.tab), next := 1, predicted := 0, order := 0)
    else if s.order >= MAX_ORDER then s.(predicted := s.tab[s.predicted].parent)
    else s.(order := s.order + 1)
  }

  function EncodeByte(s: Sender, value: byte): Sender
    requires s.Sender?
  {
    if s.predicted >= ARENA then Broken
    else
      var s1 := EncodeChain(s, s.predicted, -1, value, ARENA);
      if s1.Broken? then Broken else EncodeNext(s1)
  }

  function EncodeAll(s: Sender, input: seq<byte>): Sender
    decreases |input|
  {
    if s.Broken? || input == [] then s else EncodeAll(EncodeByte(s, input[0]), input[1..])
  }

  function FirstSender(t: Table): Sender { Sender(FreshArena(t), 1, 0, 0, START, []) }

  /** All bytes the compressor would write, given room for them. */
  function CompressBytes(t: Table, input: seq<byte>): Option<seq<byte>> {
    match EncodeAll(FirstSender(t), input)
    case Broken => None
    case Sender(_, _, _, _, iv, out) => Some(out + Flush(iv.low))
  }

  datatype Option<+T> = None | Some(value: T)

  // ---------------------------------------------------------------- decompressing

  datatype Receiver = Receiver(tab: Table, next: nat, predicted: nat, order: nat, rd: Reader)

  /** What decoding one byte may come to: a byte, found in the context at `stop` as node `bottom`;
      the end of the stream; the early `return 0`; or nothing that C defines. */
  datatype Decoded = Byte(r: Receiver, stop: nat, value: byte, bottom: nat) | Finished | Rejected | Undefined

  /** A code that lies beyond the escapes is looked up in the context at `sub`. */
  function DecodeSymbol(r: Receiver, sub: nat, code: nat): Decoded
    requires sub < ARENA
  {
    var root := sub == 0;
    var esc, total := r.tab[sub].escapes, r.tab[sub].total;
    match ContextDecode(r.tab, r.next, sub, code, Delta(root), Minimum(root))
    case Outside => Undefined
    case NoSuch => Rejected
    case Dug(tab, next, symbol, value, under, count) =>
      if total == 0 then Undefined
      else
        match Decode(r.rd, esc + under, count, total)
        case Spinning => Undefined
        case Renormal(rd) =>
          match Settle(tab, sub, count, false, root)
          case Astray => Undefined
          case Halving(t, _) => Byte(r.(tab := t, next := next, rd := rd), sub, value, symbol)
  }

  function DecodeChain(r: Receiver, sub: nat, fuel: nat): Decoded
    requires sub < ARENA
    decreases fuel
  {
    var esc, total := r.tab[sub].escapes, r.tab[sub].total;
    if sub != 0 && (esc <= 0 || esc >= total) then
      if fuel == 0 || r.tab[sub].parent >= ARENA then Undefined
      else DecodeChain(r, r.tab[sub].parent, fuel - 1)
    else if total == 0 || total > r.rd.iv.range then Undefined
    else
      var code := Read(r.rd, total);
      if code >= esc then DecodeSymbol(r, sub, code - esc)
      else
        match Decode(r.rd, 0, esc, total)
        case Spinning => Undefined
        case Renormal(rd) =>
          if sub == 0 then Finished
          else if fuel == 0 || r.tab[sub].parent >= ARENA then Undefined
          else DecodeChain(r.(rd := rd), r.tab[sub].parent, fuel - 1)
  }

  function FollowR(r: Receiver, link: int, symbol: nat): Receiver
    requires link < ARENA && symbol < ARENA
  {
    r.(tab := LinkTo(r.tab, link, symbol), predicted := if link < 0 then symbol else r.predicted)
  }

  /** `patchContexts`: the contexts above `stop` learn the byte. `None`: the walk leaves the arena or
      never meets `stop`. */
  function PatchChain(r: Receiver, patch: nat, stop: nat, link: int, value: byte, bottom: nat, fuel: nat): Option<Receiver>
    requires patch < ARENA && link < ARENA && bottom < ARENA
    decreases fuel
  {
    if patch == stop then Some(FollowR(r, link, bottom))
    else
      match ContextEncode(r.tab, r.next, patch, value, Delta(false), Minimum(false))
      case Lost => None
      case Walk(tab, next, symbol, under, count) =>
        if symbol >= ARENA then None
        else
          var r1 := FollowR(r.(tab := tab, next := next), link, symbol);
          match Settle(r1.tab, patch, count, count == 0, false)
          case Astray => None
          case Halving(t, _) =>
            if fuel == 0 || t[patch].parent >= ARENA then None
            else PatchChain(r1.(tab := t), t[patch].parent, stop, symbol, value, bottom, fuel - 1)
  }

  function DecodeNext(r: Receiver): Option<Receiver> {
    if r.predicted >= ARENA then None
    else if r.next >= ARENA - MAX_ORDER then
      Some(r.(tab := FreshArena(r.tab), next := 1, predicted := 0, order := 0))
    else if r.order >= MAX_ORDER then Some(r.(predicted := r.tab[r.predicted].parent))
    else Some(r.(order := r.order + 1))
  }

  datatype Outcome = Delivered(bytes: seq<byte>) | Zero | Stuck

  /** The main loop; `room` is the number of bytes that still fit. */
  function DecodeAll(r: Receiver, room: nat): Outcome
    decreases room
  {
    if r.predicted >= ARENA then Stuck
    else
      match DecodeChain(r, r.predicted, ARENA)
      case Finished => Delivered([])
      case Rejected => Zero
      case Undefined => Stuck
      case Byte(r1, stop, value, bottom) =>
        if bottom >= ARENA then Stuck
        else
          match PatchChain(r1, r.predicted, stop, -1, value, bottom, ARENA)
          case None => Stuck
          case Some(r2) =>
            if room == 0 then Zero
            else
              match DecodeNext(r2)
              case None => Stuck
              case Some(r3) => Prepend(value, DecodeAll(r3, room - 1))
  }

  function Prepend(value: byte, o: Outcome): Outcome {
    if o.Delivered? then Delivered([value] + o.bytes) else o
  }

  function FirstReceiver(t: Table, data: seq<byte>): Receiver {
    Receiver(FreshArena(t), 1, 0, 0, Seed(data))
  }

  function DecompressBytes(t: Table, data: seq<byte>, room: nat): Outcome {
    if data == [] then Zero else DecodeAll(FirstReceiver(t, data), room)
  }
}
