/** The receiving end of a reliable channel: `enet_peer_queue_incoming_command`,
    `enet_peer_dispatch_incoming_reliable_commands` (peer.c) and
    `enet_protocol_handle_send_fragment` (protocol.c). */
module IncomingChannel {
  import opened Numbers
  import opened ReliableChannel

  /** A queued command: a whole packet, or one being put together from `count` fragments. */
  datatype Incoming = Incoming(number: u16, count: nat, remaining: nat, got: seq<bool>, data: seq<byte>)

  /** `last` is incomingReliableSequenceNumber. */
  datatype Channel = Channel(last: u16, pending: seq<Incoming>, dispatched: seq<seq<byte>>)

  /** The command is kept, silently dropped, or makes the handler report an error. */
  datatype Verdict = Kept | Dropped | Failed

  /** How many fragments have not arrived. */
  function Missing(got: seq<bool>): nat {
    if got == [] then 0 else (if got[0] then 0 else 1) + Missing(got[1..])
  }

  /** The windows in which a command is accepted. */
  predicate InWindow(last: u16, number: u16) {
    var window := number / WINDOW_SIZE + if number < last then WINDOWS else 0;
    var current := last / WINDOW_SIZE;
    current <= window < current + FREE_WINDOWS - 1
  }

  /** How a queued number lies to the one looked for, as the backward search compares them. */
  datatype Side = Beyond | Equal | Before

  function Compare(last: u16, number: u16, queued: u16): Side {
    if number >= last && queued < last then Beyond
    else if number < last && queued >= last then Before
    else if queued < number then Before
    else if queued == number then Equal
    else Beyond
  }

  /** The search from the end of the list: the index to insert at, or of the same number. */
  datatype Spot = At(index: nat) | Same(index: nat)

  function Search(pending: seq<Incoming>, last: u16, number: u16, k: nat): (s: Spot)
    requires k <= |pending|
    ensures s.At? ==> s.index <= k
    ensures s.Same? ==> s.index < k && pending[s.index].number == number
  {
    if k == 0 then At(0)
    else
      match Compare(last, number, pending[k - 1].number)
      case Beyond => Search(pending, last, number, k - 1)
      case Before => At(k)
      case Equal => Same(k - 1)
  }

  /** `enet_peer_dispatch_incoming_reliable_commands`. */
  predicate CanDispatch(ch: Channel) {
    ch.pending != [] && ch.pending[0].remaining == 0 && ch.pending[0].number == U16(ch.last + 1)
  }

  function AfterDispatch(e: Incoming): u16 {
    if e.count > 0 then U16(e.number + (e.count - 1)) else e.number
  }

  function Dispatch(ch: Channel): Channel
    decreases |ch.pending|
  {
    if CanDispatch(ch) then
      Dispatch(Channel(AfterDispatch(ch.pending[0]), ch.pending[1..], ch.dispatched + [ch.pending[0].data]))
    else ch
  }

  /** `enet_peer_queue_incoming_command` for a reliable command or the first fragment of a packet. */
  function QueueIncoming(ch: Channel, e: Incoming): (Channel, Verdict) {
    if !InWindow(ch.last, e.number) || e.number == ch.last then (ch, if e.count > 0 then Failed else Dropped)
    else
      match Search(ch.pending, ch.last, e.number, |ch.pending|)
      case Same(_) => (ch, if e.count > 0 then Failed else Dropped)
      case At(i) => (Dispatch(ch.(pending := ch.pending[..i] + [e] + ch.pending[i..])), Kept)
  }

  /** A packet whose fragments have not arrived; its buffer is not initialised (zeros stand for it). */
  function EmptyEntry(start: u16, count: nat, total: nat): Incoming {
    Incoming(start, count, count, seq(count, _ => false), seq(total, _ => 0))
  }

  /** One fragment is stored, unless it arrived before. */
  function Store(e: Incoming, n: nat, offset: nat, data: seq<byte>): Incoming
    requires n < |e.got| && offset + |data| <= |e.data|
  {
    if e.got[n] then e
    else e.(remaining := if e.remaining > 0 then e.remaining - 1 else 0, got := e.got[n := true],
            data := e.data[..offset] + data + e.data[offset + |data|..])
  }

  /** `enet_protocol_handle_send_fragment`, from the window check on. */
  function ReceiveFragment(ch: Channel, start: u16, n: nat, count: nat, offset: nat, total: nat, data: seq<byte>): (Channel, Verdict) {
    if !InWindow(ch.last, start) then (ch, Dropped)
    else if offset >= total || offset + |data| > total || n >= count then (ch, Failed)
    else
      match Search(ch.pending, ch.last, start, |ch.pending|)
      case Same(i) =>
        if ch.pending[i].count != count || |ch.pending[i].data| != total || |ch.pending[i].got| != count then (ch, Failed)
        else (StoreAt(ch, i, n, offset, data), Kept)
      case At(i) =>
        var (ch1, v) := QueueIncoming(ch, EmptyEntry(start, count, total));
        if v != Kept then (ch1, v)
        else
            // dispatching may have taken entries in front of the new one
          var j := i - (|ch.pending| + 1 - |ch1.pending|);
          if 0 <= j < |ch1.pending| && |ch1.pending[j].got| == count && |ch1.pending[j].data| == total
          then (StoreAt(ch1, j, n, offset, data), Kept)
          else (ch1, Failed)
  }

  /** Storing a fragment in a queued entry; a completed packet may be dispatched. */
  function StoreAt(ch: Channel, i: nat, n: nat, offset: nat, data: seq<byte>): Channel
    requires i < |ch.pending| && n < |ch.pending[i].got| && offset + |data| <= |ch.pending[i].data|
  {
    var e := Store(ch.pending[i], n, offset, data);
    var ch1 := ch.(pending := ch.pending[i := e]);
    if !ch.pending[i].got[n] && e.remaining == 0 then Dispatch(ch1) else ch1
  }

  function Receive(ch: Channel, c: Command): (Channel, Verdict) {
    match c.part
    case Whole => QueueIncoming(ch, Incoming(c.number, 0, 0, [], c.data))
    case Fragment(n, count, offset, total) => ReceiveFragment(ch, c.start, n, count, offset, total, c.data)
  }
}
