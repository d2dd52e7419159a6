/** One reliable channel of ENet, both ends: cutting packets into numbered commands (peer.c), and the
    receiver that reorders, reassembles and dispatches them (peer.c, protocol.c). Sequence numbers
    are 16 bits wide and wrap around. */
module ReliableChannel {
  import opened Numbers

  const SPACE: int := 0x1_0000
  const WINDOWS: int := 16        // ENET_PEER_RELIABLE_WINDOWS
  const WINDOW_SIZE: int := 0x1000
  const FREE_WINDOWS: int := 8    // ENET_PEER_FREE_RELIABLE_WINDOWS

  // ---------------------------------------------------------------- commands on the wire

  datatype Part = Whole | Fragment(number: nat, count: nat, offset: nat, total: nat)

  /** `number` is the command's own sequence number, `start` the one of the packet it belongs to. */
  datatype Command = Command(number: u16, start: u16, part: Part, data: seq<byte>)

  // ---------------------------------------------------------------- the sending end

  function FragmentCount(length: nat, size: nat): nat
    requires size > 0
  {
    (length + size - 1) / size
  }

  /** The number of sequence numbers a packet takes. */
  function Span(packet: seq<byte>, size: nat): nat
    requires size > 0
  {
    if |packet| > size then FragmentCount(|packet|, size) else 1
  }

  /** Fragment `n` of a packet. */
  function Piece(packet: seq<byte>, size: nat, n: nat): seq<byte>
    requires size > 0 && n * size <= |packet|
  {
    packet[n * size..Min(n * size + size, |packet|)]
  }

  /** The command that carries fragment `n`, or the whole packet, when `last` is the channel's
      sequence number before the packet. */
  function CommandFor(packet: seq<byte>, size: nat, last: int, n: nat): Command
    requires size > 0 && n < Span(packet, size)
  {
    PieceExists(packet, size, n);
    if |packet| > size then
      Command(U16(last + 1 + n), U16(last + 1),
              Fragment(n, FragmentCount(|packet|, size), n * size, |packet|), Piece(packet, size, n))
    else Command(U16(last + 1), U16(last + 1), Whole, packet)
  }

  lemma PieceExists(packet: seq<byte>, size: nat, n: nat)
    requires size > 0 && n < Span(packet, size)
    ensures n * size <= |packet|
    ensures |packet| > size ==> n * size < |packet|
    ensures n + 1 < Span(packet, size) ==> n * size + size <= |packet|
    ensures n + 1 == Span(packet, size) ==> n * size + size >= |packet|
    ensures |packet| > size ==> Span(packet, size) >= 2
  {
    if |packet| > size {
      CountBounds(|packet|, size);
      var c := FragmentCount(|packet|, size);
      MulMono(n + 1, c, size);
      assert (n + 1) * size == n * size + size;
      if n + 1 < c { MulMono(n + 2, c, size); assert (n + 2) * size == n * size + 2 * size; }
      assert (c - 1) * size == c * size - size;
      if c <= 1 { MulMono(c, 1, size); }
    } else {
      assert n == 0 && n * size == 0;
    }
  }

  lemma CountBounds(length: nat, size: nat)
    requires size > 0
    ensures var c := FragmentCount(length, size); length <= c * size < length + size
  {
    var x := length + size - 1;
    assert x == size * (x / size) + x % size;
    assert (x / size) * size == size * (x / size);
  }

  /** All commands of a packet, in order. */
  function CommandsFrom(packet: seq<byte>, size: nat, last: int, n: nat): seq<Command>
    requires size > 0 && n <= Span(packet, size)
    decreases Span(packet, size) - n
  {
    if n == Span(packet, size) then []
    else [CommandFor(packet, size, last, n)] + CommandsFrom(packet, size, last, n + 1)
  }

  function Payload(commands: seq<Command>): seq<byte> {
    if commands == [] then [] else commands[0].data + Payload(commands[1..])
  }

  /** The fragments tile the packet: in order, without gaps or overlaps. */
  lemma {:induction false} CommandsTilePacket(packet: seq<byte>, size: nat, last: int, n: nat)
    requires size > 0 && n <= Span(packet, size)
    ensures n < Span(packet, size) ==> n * size <= |packet|
    ensures Payload(CommandsFrom(packet, size, last, n)) == if n < Span(packet, size) then packet[n * size..] else []
    decreases Span(packet, size) - n
  {
    hide U16, FragmentCount;
    if n < Span(packet, size) {
      PieceExists(packet, size, n);
      CommandsTilePacket(packet, size, last, n + 1);
      PieceThenRest(packet, size, n);
    }
  }

  /** A piece, and what comes after it. */
  lemma PieceThenRest(packet: seq<byte>, size: nat, n: nat)
    requires size > 0 && n < Span(packet, size)
    ensures n * size <= |packet| && (|packet| <= size ==> n == 0)
    ensures if n + 1 < Span(packet, size)
            then (n + 1) * size <= |packet| && Piece(packet, size, n) + packet[(n + 1) * size..] == packet[n * size..]
            else |packet| > size ==> Piece(packet, size, n) == packet[n * size..]
  {
    PieceExists(packet, size, n);
    assert (n + 1) * size == n * size + size;
    if n + 1 < Span(packet, size) {
      PieceExists(packet, size, n + 1);
      assert packet[n * size..] == packet[n * size..n * size + size] + packet[n * size + size..];
    }
  }

  /** A packet that fits is one command. One that does not is cut into full pieces and a last one that is not empty,
      numbered one after the other from the packet's own number on, modulo 2^16. */
  lemma CommandsAreFull(packet: seq<byte>, size: nat, last: int, n: nat)
    requires size > 0 && n < Span(packet, size)
    ensures var c, count := CommandFor(packet, size, last, n), Span(packet, size);
            && c.number == (last + 1 + n) % 0x1_0000 && c.start == (last + 1) % 0x1_0000
            && (|packet| <= size ==> count == 1 && c.part == Whole && c.data == packet)
            && (|packet| > size ==>
                  && (count - 1) * size < |packet| <= count * size && c.part == Fragment(n, count, n * size, |packet|)
                  && if n + 1 < count then |c.data| == size else 0 < |c.data| <= size)
  {
    hide FragmentCount;
    PieceExists(packet, size, n);
    if |packet| > size {
      PieceExists(packet, size, Span(packet, size) - 1);
      var count := Span(packet, size);
      assert count * size == (count - 1) * size + size;
    }
  }

  /** A fragment before its sequence number is assigned. */
  datatype Draft = Draft(offset: nat, length: nat, number: nat)

  function DraftOf(packet: seq<byte>, size: nat, i: nat): Draft
    requires size > 0 && i < Span(packet, size)
  {
    PieceExists(packet, size, i);
    Draft(i * size, Min(size, |packet| - i * size), i)
  }

  lemma DraftIsPiece(packet: seq<byte>, size: nat, i: nat)
    requires size > 0 && i < Span(packet, size)
    ensures var d := DraftOf(packet, size, i);
            && d.offset + d.length <= |packet|
            && i * size <= |packet| && packet[d.offset..d.offset + d.length] == Piece(packet, size, i)
  {
    PieceExists(packet, size, i);
  }

  class OutgoingChannel {
    const fragmentLength: nat
    var outgoingReliableSequenceNumber: u16
    var outgoingReliableCommands: seq<Command>

    constructor (fragmentLength: nat)
      ensures this.fragmentLength == fragmentLength
      ensures outgoingReliableSequenceNumber == 0 && outgoingReliableCommands == []
    {
      this.fragmentLength := fragmentLength;
      outgoingReliableSequenceNumber, outgoingReliableCommands := 0, [];
    }

    /** `enet_peer_setup_outgoing_command` for a reliable command. */
    method SetUp(start: u16, part: Part, data: seq<byte>)
      modifies this
      ensures outgoingReliableSequenceNumber == U16(old(outgoingReliableSequenceNumber) + 1)
      ensures outgoingReliableCommands
           == old(outgoingReliableCommands) + [Command(outgoingReliableSequenceNumber, start, part, data)]
    {
      outgoingReliableSequenceNumber := U16(outgoingReliableSequenceNumber + 1);
      outgoingReliableCommands := outgoingReliableCommands + [Command(outgoingReliableSequenceNumber, start, part, data)];
    }

    /** The list of fragments that `enet_peer_send` builds before it queues any of them. */
    method CutPacket(packet: seq<byte>) returns (fragments: seq<Draft>)
      requires fragmentLength > 0 && |packet| > fragmentLength
      ensures |fragments| == FragmentCount(|packet|, fragmentLength)
      ensures forall i :: 0 <= i < |fragments| ==> fragments[i] == DraftOf(packet, fragmentLength, i)
    {
      var size := fragmentLength;
      ghost var count := FragmentCount(|packet|, size);
      fragments := [];
      var offset, number, length := 0, 0, size;
      CountBounds(|packet|, size);
      while offset < |packet|
        invariant 0 <= number <= count && offset == Min(number * size, |packet|)
        invariant length == size || offset == |packet|
        invariant |fragments| == number
        invariant forall i :: 0 <= i < number ==> fragments[i] == DraftOf(packet, size, i)
        decreases |packet| - offset
      {
        if number >= count { MulMono(count, number, size); }
        PieceExists(packet, size, number);
        assert (number + 1) * size == number * size + size;
        if |packet| - offset < length { length := |packet| - offset; }
        fragments := fragments + [Draft(offset, length, number)];
        number := number + 1;
        offset := offset + length;
      }
      if number < count { PieceExists(packet, size, number); }
    }

    /** The queued fragments get consecutive sequence numbers. */
    method QueueFragments(packet: seq<byte>, start: u16, count: nat, list: seq<Draft>)
      requires fragmentLength > 0 && |packet| > fragmentLength
      requires start == U16(outgoingReliableSequenceNumber + 1)
      requires |list| == count == FragmentCount(|packet|, fragmentLength)
      requires forall i :: 0 <= i < |list| ==> list[i] == DraftOf(packet, fragmentLength, i)
      modifies this
      ensures outgoingReliableSequenceNumber == U16(old(outgoingReliableSequenceNumber) + count)
      ensures outgoingReliableCommands == old(outgoingReliableCommands)
                + CommandsFrom(packet, fragmentLength, old(outgoingReliableSequenceNumber), 0)
    {
      hide CommandsFrom, U16, FragmentCount;
      ghost var last := outgoingReliableSequenceNumber;
      assert U16(last + 0) == last by { NoWrap(last); }
      var fragments := list;
      ghost var n := 0;
      while fragments != []
        invariant 0 <= n <= count && fragments == list[n..]
        invariant outgoingReliableSequenceNumber == U16(last + n)
        invariant outgoingReliableCommands + CommandsFrom(packet, fragmentLength, last, n)
               == old(outgoingReliableCommands) + CommandsFrom(packet, fragmentLength, last, 0)
        decreases |fragments|
      {
        var f := fragments[0];
        DraftIsPiece(packet, fragmentLength, n);
        WrapAdds(last, n);
        ghost var before := outgoingReliableCommands;
        SetUp(start, Fragment(f.number, count, f.offset, |packet|), packet[f.offset..f.offset + f.length]);
        TakeFirst(before, packet, fragmentLength, last, n);
        fragments := fragments[1..];
        n := n + 1;
      }
      NoneLeft(packet, fragmentLength, last);
    }

    lemma NoWrap(last: u16)
      ensures U16(last) == last
    {
    }

    lemma NoneLeft(packet: seq<byte>, size: nat, last: int)
      requires size > 0
      ensures CommandsFrom(packet, size, last, Span(packet, size)) == []
    {
    }

    lemma TakeFirst(before: seq<Command>, packet: seq<byte>, size: nat, last: int, n: nat)
      requires size > 0 && n < Span(packet, size)
      ensures before + CommandsFrom(packet, size, last, n)
           == (before + [CommandFor(packet, size, last, n)]) + CommandsFrom(packet, size, last, n + 1)
    {
    }

    /** `enet_peer_send` of a reliable packet. */
    method Send(packet: seq<byte>)
      requires fragmentLength > 0
      modifies this
      ensures outgoingReliableSequenceNumber == U16(old(outgoingReliableSequenceNumber) + Span(packet, fragmentLength))
      ensures outgoingReliableCommands == old(outgoingReliableCommands)
                + CommandsFrom(packet, fragmentLength, old(outgoingReliableSequenceNumber), 0)
    {
      ghost var last := outgoingReliableSequenceNumber;
      if |packet| > fragmentLength {
        var count := (|packet| + fragmentLength - 1) / fragmentLength;
        var start := U16(outgoingReliableSequenceNumber + 1);
        var fragments := CutPacket(packet);
        QueueFragments(packet, start, count, fragments);
        return;
      }
      SetUp(U16(outgoingReliableSequenceNumber + 1), Whole, packet);
      assert CommandsFrom(packet, fragmentLength, last, 0) == [CommandFor(packet, fragmentLength, last, 0)] + [];
    }

    lemma WrapAdds(last: int, n: nat)
      ensures U16(U16(last + n) + 1) == U16(last + 1 + n) && U16(last + (n + 1)) == U16(last + 1 + n)
    {
    }
  }
}
