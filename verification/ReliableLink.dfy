/** Both ends of a channel with the network between them: the commands the sender really queues are the
    ones the delivery theorem is about. */
module ReliableLink {
  import opened Numbers
  import opened ReliableChannel
  import opened IncomingChannel
  import opened DeliveryProof
  import opened IncomingPeer

  /** All commands of the first `k` packets, numbered without wrapping around. */
  function Wire(packets: seq<seq<byte>>, size: nat, k: nat): seq<Command>
    requires size > 0 && k <= |packets|
  {
    if k == 0 then [] else Wire(packets, size, k - 1) + CommandsFrom(packets[k - 1], size, Start(packets, size, k - 1) - 1, 0)
  }

  lemma WrapSum(a: int, b: int)
    ensures U16(U16(a) + b) == U16(a + b)
  {
    assert a + b == SPACE * (a / SPACE) + (U16(a) + b);
    LapsVanish(a + b, U16(a) + b, a / SPACE, SPACE);
  }

  lemma CommandIgnoresLaps(packet: seq<byte>, size: nat, last: int, n: nat)
    requires size > 0 && n < Span(packet, size)
    ensures CommandFor(packet, size, U16(last), n) == CommandFor(packet, size, last, n)
  {
    hide FragmentCount, Piece, U16;
    WrapSum(last, 1);
    WrapSum(last, 1 + n);
  }

  /** A command only shows its number modulo 2^16. */
  lemma {:induction false} CommandsIgnoreLaps(packet: seq<byte>, size: nat, last: int, n: nat)
    requires size > 0 && n <= Span(packet, size)
    ensures CommandsFrom(packet, size, U16(last), n) == CommandsFrom(packet, size, last, n)
    decreases Span(packet, size) - n
  {
    hide CommandFor, Span, U16;
    if n < Span(packet, size) {
      CommandIgnoresLaps(packet, size, last, n);
      CommandsIgnoreLaps(packet, size, last, n + 1);
    }
  }

  lemma {:induction false} CommandsAt(packet: seq<byte>, size: nat, last: int, i: nat, n: nat)
    requires size > 0 && i <= Span(packet, size)
    ensures |CommandsFrom(packet, size, last, i)| == Span(packet, size) - i
    ensures i <= n < Span(packet, size) ==> CommandsFrom(packet, size, last, i)[n - i] == CommandFor(packet, size, last, n)
    decreases Span(packet, size) - i
  {
    if i < Span(packet, size) { CommandsAt(packet, size, last, i + 1, n); }
  }

  /** Command `n` of packet `k` sits in the sender's list where its unwrapped number says. */
  lemma {:induction false} WireAt(packets: seq<seq<byte>>, size: nat, m: nat, k: nat, n: nat)
    requires size > 0 && m <= |packets|
    ensures |Wire(packets, size, m)| == Start(packets, size, m) - 1
    ensures k < m && n < Span(packets[k], size) ==>
              && 0 <= Start(packets, size, k) - 1 + n < |Wire(packets, size, m)|
              && Wire(packets, size, m)[Start(packets, size, k) - 1 + n]
                 == CommandFor(packets[k], size, Start(packets, size, k) - 1, n)
  {
    if m > 0 {
      WireAt(packets, size, m - 1, k, n);
      CommandsAt(packets[m - 1], size, Start(packets, size, m - 1) - 1, 0, n);
      if k < m { StartGrows(packets, size, 0, k); }
    }
  }

  lemma {:induction false} WireOfPrefix(packets: seq<seq<byte>>, more: seq<seq<byte>>, size: nat, k: nat)
    requires size > 0 && k <= |packets|
    ensures Wire(packets + more, size, k) == Wire(packets, size, k)
  {
    if k > 0 {
      WireOfPrefix(packets, more, size, k - 1);
      StartOfPrefix(packets, more, size, k - 1);
    }
  }

  /** The sender's channel after queueing `packets`. */
  ghost predicate HasSent(sender: OutgoingChannel, packets: seq<seq<byte>>)
    requires sender.fragmentLength > 0
    reads sender
  {
    && sender.outgoingReliableSequenceNumber == U16(Start(packets, sender.fragmentLength, |packets|) - 1)
    && sender.outgoingReliableCommands == Wire(packets, sender.fragmentLength, |packets|)
  }

  method SendNext(sender: OutgoingChannel, ghost packets: seq<seq<byte>>, packet: seq<byte>)
    requires sender.fragmentLength > 0 && HasSent(sender, packets)
    modifies sender
    ensures HasSent(sender, packets + [packet])
  {
    hide CommandsFrom, Span, U16;
    ghost var size, last := sender.fragmentLength, Start(packets, sender.fragmentLength, |packets|) - 1;
    sender.Send(packet);
    CommandsIgnoreLaps(packet, size, last, 0);
    StartOfPrefix(packets, [packet], size, |packets|);
    WireOfPrefix(packets, [packet], size, |packets|);
    WrapSum(last, Span(packet, size));
  }

  lemma NothingSent(sender: OutgoingChannel)
    requires sender.fragmentLength > 0
    requires sender.outgoingReliableSequenceNumber == 0 && sender.outgoingReliableCommands == []
    ensures HasSent(sender, [])
  {
  }

  lemma SentAt(sender: OutgoingChannel, packets: seq<seq<byte>>, k: nat, n: nat)
    requires sender.fragmentLength > 0 && HasSent(sender, packets)
    ensures var size, commands := sender.fragmentLength, sender.outgoingReliableCommands;
            && |commands| == Start(packets, size, |packets|) - 1
            && (k < |packets| && n < Span(packets[k], size) ==>
                  var at := Start(packets, size, k) - 1;
                  0 <= at + n < |commands| && commands[at + n] == CommandFor(packets[k], size, at, n))
  {
    WireAt(packets, sender.fragmentLength, |packets|, k, n);
  }

  /** The application takes what there is. */
  method TakeAll(receiver: ReliableReceiver) returns (delivered: seq<seq<byte>>)
    requires receiver.Valid() && receiver.taken == 0
    modifies receiver`ready, receiver`taken, receiver.Nodes()`next, receiver.Nodes()`previous
    ensures delivered == receiver.View().dispatched
  {
    delivered := [];
    ghost var nodes := receiver.Nodes();
    while true
      modifies receiver`ready, receiver`taken, nodes`next, nodes`previous
      invariant receiver.Valid() && receiver.Nodes() <= nodes
      invariant receiver.taken <= |receiver.packets| && delivered == receiver.packets[..receiver.taken]
      decreases |receiver.packets| - receiver.taken
    {
      var some, packet := receiver.Take();
      if !some { return; }
      delivered := delivered + [packet];
    }
  }

  /** A command that the sender queued reaches the receiver. */
  method ArriveNext(sender: OutgoingChannel, receiver: ReliableReceiver, start: nat, ghost packets: seq<seq<byte>>, k: nat, n: nat)
    requires sender.fragmentLength > 0 && HasSent(sender, packets) && receiver.Valid()
    requires k < |packets| && n < Span(packets[k], sender.fragmentLength) && start == Start(packets, sender.fragmentLength, k) - 1
    modifies receiver, receiver.Nodes()
    ensures receiver.Valid() && fresh(receiver.Nodes() - old(receiver.Nodes())) && receiver.taken == old(receiver.taken)
    ensures Link(packets, receiver.View()) == Step(Link(packets, old(receiver.View())), sender.fragmentLength, Arrive(k, n))
  {
    hide HasSent, Receive, CommandFor, Span, Start, ReliableReceiver.Valid;
    SentAt(sender, packets, k, n);
    var _ := receiver.HandleCommand(sender.outgoingReliableCommands[start + n]);
  }

  lemma QueueGrows(link: Link, size: nat, packet: seq<byte>)
    requires size > 0
    ensures Step(link, size, Queue(packet)) == link.(packets := link.packets + [packet])
  {
  }

  lemma HasStarted(link: Link, size: nat, k: nat, n: nat)
    requires size > 0 && Possible(link, size, Arrive(k, n))
    ensures k < |link.packets| && n < Span(link.packets[k], size)
  {
  }

  lemma OutOfEvents(link: Link, size: nat)
    requires size > 0
    ensures Run(link, size, []) == link
  {
  }

  lemma Advances(link: Link, size: nat, events: seq<Event>, i: nat)
    requires size > 0 && i < |events| && AllPossible(link, size, events[i..])
    ensures Possible(link, size, events[i])
    ensures AllPossible(Step(link, size, events[i]), size, events[i + 1..])
    ensures Run(Step(link, size, events[i]), size, events[i + 1..]) == Run(link, size, events[i..])
  {
    hide Possible, Step;
    assert events[i..][1..] == events[i + 1..];
  }

  /** A run of both ends: whatever is queued, lost, repeated or reordered within the bound, what comes
      out is a prefix of what went in. */
  method Transfer(size: nat, events: seq<Event>) returns (packets: seq<seq<byte>>, delivered: seq<seq<byte>>)
    requires size > 0 && AllPossible(IDLE, size, events)
    ensures delivered <= packets
    ensures packets == Run(IDLE, size, events).packets
    ensures delivered == Run(IDLE, size, events).ch.dispatched
  {
    hide Receive, Unambiguous, HasSent, CommandFor, Span, Start, Wire, Run, AllPossible, Step, Possible, ReliableReceiver.Valid;
    var sender := new OutgoingChannel(size);
    var receiver := new ReliableReceiver();
    NothingSent(sender);
    packets := [];
    var starts: seq<nat> := [];
    ghost var link := IDLE;
    var i := 0;
    assert events[0..] == events;
    while i < |events|
      invariant 0 <= i <= |events| && fresh(sender) && fresh(receiver) && fresh(receiver.Nodes())
      invariant receiver.Valid() && receiver.taken == 0
      invariant sender.fragmentLength == size && HasSent(sender, packets)
      invariant link == Link(packets, receiver.View())
      invariant |starts| == |packets| && forall k :: 0 <= k < |starts| ==> starts[k] == Start(packets, size, k) - 1
      invariant AllPossible(link, size, events[i..])
      invariant Run(link, size, events[i..]) == Run(IDLE, size, events)
    {
      Advances(link, size, events, i);
      link := Step(link, size, events[i]);
      match events[i] {
        case Queue(packet) =>
          QueueGrows(Link(packets, receiver.View()), size, packet);
          StartsOfPrefix(packets, packet, size);
          SentAt(sender, packets, 0, 0);
          starts := starts + [|sender.outgoingReliableCommands|];
          SendNext(sender, packets, packet);
          packets := packets + [packet];
        case Arrive(k, n) =>
          HasStarted(Link(packets, receiver.View()), size, k, n);
          ArriveNext(sender, receiver, starts[k], packets, k, n);
      }
      i := i + 1;
    }
    OutOfEvents(link, size);
    assert events[i..] == [];
    ReliableDelivery(size, events);
    delivered := TakeAll(receiver);
  }

  lemma StartsOfPrefix(packets: seq<seq<byte>>, packet: seq<byte>, size: nat)
    requires size > 0
    ensures forall k :: 0 <= k <= |packets| ==> Start(packets + [packet], size, k) == Start(packets, size, k)
  {
    forall k | 0 <= k <= |packets| ensures Start(packets + [packet], size, k) == Start(packets, size, k) {
      StartOfPrefix(packets, [packet], size, k);
    }
  }
}
