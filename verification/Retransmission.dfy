/** Sending, acknowledging and timing out commands, as the peer's lists go through it (protocol.c,
    peer.c). Whatever the order of these calls, the counters agree with the lists. */
module Retransmission {
  import opened Numbers
  import opened ReliableChannel
  import opened OutgoingQueues

  const THROTTLE_SCALE: int := 32
  const THROTTLE_COUNTER: int := 7
  const MAXIMUM_MTU: int := 4096
  const COMMAND_MAXIMUM: int := 32
  const BUFFER_MAXIMUM: int := 65

  datatype Found = Missing | Removed(command: Outgoing, wasSent: bool)

  class Peer {
    const mtu: u32
    var windowSize: u32
    var packetThrottle: u32
    var roundTrip: u32          // roundTripTime + 4 * roundTripTimeVariance
    var sentReliableCommands: seq<Outgoing>
    var outgoingReliableCommands: seq<Outgoing>
    var sentUnreliableCommands: seq<Outgoing>
    var outgoingUnreliableCommands: seq<Outgoing>
    var heldPackets: seq<nat>
    var dispatchedPackets: seq<nat>
    var reliableDataInTransit: u32
    var reliableWindows: seq<seq<u16>>
    var usedReliableWindows: seq<set<nat>>
    var nextTimeout: u32
    var earliestTimeout: u32
    var packets: map<nat, nat>
    // the datagram being filled
    var commandCount: nat
    var bufferCount: nat
    var packetSize: nat
    var continueSending: bool
    var packetThrottleCounter: u32

    ghost function View(): Queues
      reads this
    {
      Queues(sentReliableCommands, outgoingReliableCommands, sentUnreliableCommands, outgoingUnreliableCommands,
             heldPackets, dispatchedPackets)
    }

    /** The counters agree with the lists. */
    ghost predicate Balanced()
      reads this
    {
      && AllSent(sentReliableCommands) && ResentFirst(outgoingReliableCommands)
      && reliableDataInTransit == Total(sentReliableCommands, Bytes())
      && WindowsCount(reliableWindows, usedReliableWindows, sentReliableCommands, outgoingReliableCommands)
      && FitDatagram(outgoingReliableCommands) && FitDatagram(sentReliableCommands)
    }

    /** The next timeout is the one of the command sent first. */
    ghost predicate TimeoutSet()
      reads this
    {
      sentReliableCommands != [] ==> nextTimeout == U32(sentReliableCommands[0].sentTime + sentReliableCommands[0].timeout)
    }

    ghost predicate Valid()
      reads this
    {
      Balanced() && TimeoutSet() && Counted(packets, View())
    }

    constructor (mtu: u32, channelCount: nat, windowSize: u32, roundTrip: u32)
      ensures Valid() && View() == Queues([], [], [], [], [], []) && packets == map[]
      ensures |reliableWindows| == channelCount && this.mtu == mtu
    {
      this.mtu, this.windowSize, this.packetThrottle, this.roundTrip := mtu, windowSize, THROTTLE_SCALE, roundTrip;
      sentReliableCommands, outgoingReliableCommands, sentUnreliableCommands, outgoingUnreliableCommands := [], [], [], [];
      heldPackets, dispatchedPackets, packets := [], [], map[];
      reliableDataInTransit, nextTimeout, earliestTimeout, packetThrottleCounter := 0, 0, 0, 0;
      reliableWindows := seq(channelCount, _ => seq(WINDOWS, _ => 0));
      usedReliableWindows := seq(channelCount, _ => {});
      commandCount, bufferCount, packetSize, continueSending := 0, 0, 0, false;
    }

    /** One reference less; the packet is destroyed with its last one. */
    method Release(ref: Ref)
      requires ref.To? ==> ref.packet in packets && packets[ref.packet] > 0
      modifies this`packets
      ensures packets == Released(old(packets), ref)
    {
      if ref.To? {
        packets := packets[ref.packet := packets[ref.packet] - 1];
        if packets[ref.packet] == 0 { packets := packets - {ref.packet}; }
      }
    }

    /** The two searches of `enet_protocol_remove_sent_reliable_command`; the second stops at the first
        command that was never sent. */
    method Find(number: u16, channel: nat) returns (i: nat, wasSent: bool, found: bool)
      requires AllSent(sentReliableCommands) && ResentFirst(outgoingReliableCommands)
      ensures var s, o := FirstMatch(sentReliableCommands, number, channel), FirstMatch(outgoingReliableCommands, number, channel);
              && wasSent == (s < |sentReliableCommands|)
              && found == (wasSent || o < |outgoingReliableCommands|)
              && (found ==> i == if wasSent then s else o)
    {
      i := 0;
      while i < |sentReliableCommands|
        invariant i <= FirstMatch(sentReliableCommands, number, channel)
      {
        var c := sentReliableCommands[i];
        if c.number == number && c.channel == channel {
          assert c in sentReliableCommands;
          return i, true, true;
        }
        i := i + 1;
      }
      i := 0;
      while i < |outgoingReliableCommands|
        invariant i <= FirstMatch(outgoingReliableCommands, number, channel)
      {
        var c := outgoingReliableCommands[i];
        if c.attempts < 1 { return i, false, false; }
        if c.number == number && c.channel == channel { return i, false, true; }
        i := i + 1;
      }
      return i, false, false;
    }

    /** The command that was found no longer counts in its window. */
    method LeaveWindow(number: u16, channel: nat, ghost wasSent: bool, ghost i: nat)
      requires i < if wasSent then |sentReliableCommands| else |outgoingReliableCommands|
      requires var c := if wasSent then sentReliableCommands[i] else outgoingReliableCommands[i];
               c.number == number && c.channel == channel && c.attempts >= 1
      requires WindowsCount(reliableWindows, usedReliableWindows, sentReliableCommands, outgoingReliableCommands)
      modifies this`reliableWindows, this`usedReliableWindows
      ensures var (s, w) := Rest(sentReliableCommands, outgoingReliableCommands, wasSent, i);
              WindowsCount(reliableWindows, usedReliableWindows, s, w)
    {
      RestWindows(sentReliableCommands, outgoingReliableCommands, wasSent, i);
      ghost var c := if wasSent then sentReliableCommands[i] else outgoingReliableCommands[i];
      ghost var (s, w) := Rest(sentReliableCommands, outgoingReliableCommands, wasSent, i);
      hide Total, Rest, WindowsCount;
      CountsDown(reliableWindows, usedReliableWindows, sentReliableCommands, outgoingReliableCommands, s, w, c);
      if channel < |reliableWindows| {
        var window := number / WINDOW_SIZE;
        if reliableWindows[channel][window] > 0 {
          reliableWindows := Changed(reliableWindows, channel, window, reliableWindows[channel][window] - 1);
          if reliableWindows[channel][window] == 0 {
            usedReliableWindows := usedReliableWindows[channel := usedReliableWindows[channel] - {window}];
          }
        }
      }
    }

    /** `enet_protocol_remove_sent_reliable_command`: the command is found if it was ever sent and is still
        queued, in either list, and nothing else changes. */
    method RemoveSentReliableCommand(number: u16, channel: nat) returns (r: Found)
      requires Valid()
      modifies this
      ensures Valid() && Collected(old(packets), old(View()), packets, View())
      ensures var s, o := FirstMatch(old(sentReliableCommands), number, channel), FirstMatch(old(outgoingReliableCommands), number, channel);
              if s < |old(sentReliableCommands)| then
                && r == Removed(old(sentReliableCommands)[s], true)
                && View() == old(View()).(sentReliable := Without(old(sentReliableCommands), s))
              else if o < |old(outgoingReliableCommands)| then
                && r == Removed(old(outgoingReliableCommands)[o], false)
                && View() == old(View()).(reliable := Without(old(outgoingReliableCommands), o))
              else r == Missing && View() == old(View()) && packets == old(packets)
    {
      hide Refs, Counted, Collected, Without, WindowsCount, Total, AllSent, ResentFirst, FitDatagram;
      var i, wasSent, found := Find(number, channel);
      CollectedAtFirst(packets, View());
      if !found { return Missing; }
      var c := TakeOut(wasSent, i);
      r := Removed(c, wasSent);
      if sentReliableCommands != [] {
        nextTimeout := U32(sentReliableCommands[0].sentTime + sentReliableCommands[0].timeout);
      }
    }

    /** The rest of it: the found command leaves its list, its window, the bytes in transit and its packet. */
    method TakeOut(wasSent: bool, i: nat) returns (c: Outgoing)
      requires Balanced() && Counted(packets, View())
      requires i < if wasSent then |sentReliableCommands| else |outgoingReliableCommands|
      requires !wasSent ==> outgoingReliableCommands[i].attempts >= 1
      modifies this
      ensures c == old(if wasSent then sentReliableCommands[i] else outgoingReliableCommands[i])
      ensures Balanced() && Counted(packets, View()) && Collected(old(packets), old(View()), packets, View())
      ensures var (s, w) := Rest(old(sentReliableCommands), old(outgoingReliableCommands), wasSent, i);
              View() == old(View()).(sentReliable := s, reliable := w)
    {
      hide Refs, Counted, Collected, WindowsCount, Total, Leaves, Without, AllSent, ResentFirst, FitDatagram;
      c := if wasSent then sentReliableCommands[i] else outgoingReliableCommands[i];
      assert c.attempts >= 1 by { SentBefore(sentReliableCommands); }
      ghost var q := View();
      CollectedAtFirst(packets, q);
      RemovalAccounts(sentReliableCommands, outgoingReliableCommands, wasSent, i);
      RemovalLeaves(q, wasSent, i);
      LeaveWindow(c.number, c.channel, wasSent, i);
      if wasSent {
        sentReliableCommands := Without(sentReliableCommands, i);
      } else {
        outgoingReliableCommands := Without(outgoingReliableCommands, i);
      }
      if c.ref.To? {
        if wasSent { reliableDataInTransit := reliableDataInTransit - c.length; }
      }
      LeaveIsCounted(packets, q, View(), c.ref);
      LeaveIsCollected(packets, q, packets, q, View(), c.ref);
      Release(c.ref);
    }

    lemma SentBefore(s: seq<Outgoing>)
      requires AllSent(s)
      ensures forall i :: 0 <= i < |s| ==> s[i].attempts >= 1
    {
      forall i | 0 <= i < |s| ensures s[i].attempts >= 1 { assert s[i] in s; }
    }

    /** A command that timed out goes back to the front of the waiting list, behind those moved before it. */
    method MoveBack(i: nat, m: nat, c: Outgoing)
      requires Balanced() && TimeoutSet() && i < |sentReliableCommands| && m <= |outgoingReliableCommands|
      requires AllSent(outgoingReliableCommands[..m])
      requires c == sentReliableCommands[i].(timeout := c.timeout)
      modifies this`sentReliableCommands, this`outgoingReliableCommands, this`reliableDataInTransit, this`nextTimeout
      ensures Balanced() && TimeoutSet() && SameRefs(old(View()), View())
      ensures sentReliableCommands == Without(old(sentReliableCommands), i)
      ensures outgoingReliableCommands == Insert(old(outgoingReliableCommands), m, c)
    {
      hide Refs, WindowsCount, Total, Without, Insert, AllSent, ResentFirst, FitDatagram;
      ghost var sent, waiting := sentReliableCommands, outgoingReliableCommands;
      BackAccounts(sent, waiting, i, m, c);
      MoveKeepsWindows(reliableWindows, usedReliableWindows, sent, waiting, i, m, c);
      MoveKeepsRefs(View(), i, m, c);
      if c.ref.To? { reliableDataInTransit := reliableDataInTransit - c.length; }
      outgoingReliableCommands := Insert(outgoingReliableCommands, m, c);
      sentReliableCommands := Without(sentReliableCommands, i);
      FirstStays(sent, i);
      if i == 0 && sentReliableCommands != [] {
        nextTimeout := U32(sentReliableCommands[0].sentTime + sentReliableCommands[0].timeout);
      }
    }

    /** Whether a command that timed out makes the peer be given up. */
    method GivesUp(c: Outgoing, now: u32) returns (gone: bool)
      modifies this`earliestTimeout
      ensures earliestTimeout == Earliest(old(earliestTimeout), c) && gone == Hopeless(c, now, earliestTimeout)
    {
      if earliestTimeout == 0 || TimeLess(c.sentTime, earliestTimeout) { earliestTimeout := c.sentTime; }
      gone := && earliestTimeout != 0
              && (TimeDifference(now, earliestTimeout) >= TIMEOUT_MAXIMUM
                  || (c.timeout >= c.limit && TimeDifference(now, earliestTimeout) >= TIMEOUT_MINIMUM));
    }

    /** `enet_protocol_check_timeouts`: what timed out waits in front again, oldest first, with twice the
        timeout; unless the peer is given up, in which case the lists are left as they are by then. */
    method CheckTimeouts(now: u32) returns (gone: bool)
      requires Valid()
      modifies this
      ensures Valid() && packets == old(packets) && SameRefs(old(View()), View())
      ensures gone == GivenUp(old(sentReliableCommands), now, old(earliestTimeout))
      ensures !gone ==>
                && sentReliableCommands == OnTime(old(sentReliableCommands), now)
                && outgoingReliableCommands == Late(old(sentReliableCommands), now) + old(outgoingReliableCommands)
                && earliestTimeout == EarliestOf(old(sentReliableCommands), now, old(earliestTimeout))
    {
      hide Refs, Counted, WindowsCount, Total, AllSent, ResentFirst, FitDatagram, Late, OnTime, SameRefs, Insert, Without, U32, TimeDifference, TimeLess, Earliest, EarliestOf, Hopeless, GivenUp, TimedOut;
      ghost var seen, rest, waiting := [], sentReliableCommands, outgoingReliableCommands;
      ghost var late, onTime: seq<Outgoing> := [], [];
      NothingPicked(View(), now);
      var i, m := 0, 0;
      while i < |sentReliableCommands|
        invariant i == |onTime| && m == |late| && old(sentReliableCommands) == seen + rest
        invariant onTime == OnTime(seen, now) && late == Late(seen, now) && AllSent(late)
        invariant sentReliableCommands == onTime + rest && outgoingReliableCommands == late + waiting
        invariant Balanced() && TimeoutSet() && SameRefs(old(View()), View()) && packets == old(packets)
        invariant GivenUp(rest, now, earliestTimeout) == GivenUp(old(sentReliableCommands), now, old(earliestTimeout))
        invariant EarliestOf(rest, now, earliestTimeout) == EarliestOf(old(sentReliableCommands), now, old(earliestTimeout))
        decreases |rest|
      {
        var c := sentReliableCommands[i];
        assert c == rest[0];
        PickNext(seen, c, now);
        GivenUpFirst(rest, now, earliestTimeout);
        Regroup(seen, rest);
        if !TimedOut(c, now) {
          Regroup(onTime, rest);
          seen, rest, onTime := seen + [c], rest[1..], onTime + [c];
          i := i + 1;
          continue;
        }
        gone := GivesUp(c, now);
        if gone {
          SameRefsCounted(packets, old(View()), View());
          return;
        }
        LateOnesSent(sentReliableCommands, i, late, waiting, U32(c.timeout * 2));
        MoveMiddle(onTime, rest, late, waiting, U32(c.timeout * 2));
        ghost var before := View();
        MoveBack(i, m, c.(timeout := U32(c.timeout * 2)));
        SameRefsChain(old(View()), before, View());
        seen, rest, late := seen + [c], rest[1..], late + [c.(timeout := U32(c.timeout * 2))];
        m := m + 1;
      }
      assert rest == [] && seen + rest == seen && onTime + rest == onTime;
      NotGivenUp(now, earliestTimeout);
      SameRefsCounted(packets, old(View()), View());
      return false;
    }

    /** How much data may be on its way. */
    function TransitLimit(): int
      reads this`packetThrottle, this`windowSize
    {
      Max(U32(packetThrottle * windowSize) / THROTTLE_SCALE, mtu)
    }

    method EnterWindow(c: Outgoing, ghost k: nat, ghost c': Outgoing)
      requires WindowsCount(reliableWindows, usedReliableWindows, sentReliableCommands, outgoingReliableCommands)
      requires k < |outgoingReliableCommands| && c == outgoingReliableCommands[k]
      requires c'.attempts == c.attempts + 1 && c'.number == c.number && c'.channel == c.channel
      requires |sentReliableCommands| + |outgoingReliableCommands| < 0x10000
      modifies this`reliableWindows, this`usedReliableWindows
      ensures WindowsCount(reliableWindows, usedReliableWindows, sentReliableCommands + [c'], Without(outgoingReliableCommands, k))
      ensures WindowsGrow(old(reliableWindows), old(usedReliableWindows), reliableWindows, usedReliableWindows)
    {
      hide WindowsCount, Total, Without;
      CountsUp(reliableWindows, usedReliableWindows, sentReliableCommands, outgoingReliableCommands, k, c');
      if c.channel < |reliableWindows| && c.attempts < 1 {
        var window := c.number / WINDOW_SIZE;
        usedReliableWindows := usedReliableWindows[c.channel := usedReliableWindows[c.channel] + {window}];
        reliableWindows := Changed(reliableWindows, c.channel, window, U16(reliableWindows[c.channel][window] + 1));
      }
    }

    /** A waiting command is sent: it counts in its window the first time, and its data is in transit. */
    method SendOne(k: nat, now: u32)
      requires Balanced() && TimeoutSet() && k < |outgoingReliableCommands|
      requires |sentReliableCommands| + |outgoingReliableCommands| < 0x10000
      modifies this`sentReliableCommands, this`outgoingReliableCommands, this`reliableDataInTransit, this`nextTimeout,
               this`reliableWindows, this`usedReliableWindows
      ensures Balanced() && TimeoutSet() && SameRefs(old(View()), View())
      ensures outgoingReliableCommands == Without(old(outgoingReliableCommands), k)
      ensures |outgoingReliableCommands| == |old(outgoingReliableCommands)| - 1
      ensures sentReliableCommands == old(sentReliableCommands) + [SentAt(old(outgoingReliableCommands)[k], now, roundTrip)]
      ensures reliableDataInTransit == old(reliableDataInTransit) + Bytes()(old(outgoingReliableCommands)[k])
      ensures WindowsGrow(old(reliableWindows), old(usedReliableWindows), reliableWindows, usedReliableWindows)
    {
      hide Refs, WindowsCount, Total, Without, AllSent, ResentFirst, FitDatagram;
      ghost var sent, waiting := sentReliableCommands, outgoingReliableCommands;
      var c := outgoingReliableCommands[k];
      var c' := SentAt(c, now, roundTrip);
      SendAccounts(sent, waiting, k, c');
      assert |Without(waiting, k)| == |waiting| - 1 by { ShorterBy1(waiting, k); }
      SendKeepsRefs(View(), k, c');
      TotalAtMost(sent + [c'], Bytes(), 0xFFFF);
      EnterWindow(c, k, c');
      if sentReliableCommands == [] { nextTimeout := U32(now + c'.timeout); }
      outgoingReliableCommands := Without(outgoingReliableCommands, k);
      sentReliableCommands := sentReliableCommands + [c'];
      if c.ref.To? { reliableDataInTransit := U32(reliableDataInTransit + c.length); }
    }

    /** The datagram being filled stays within its limits. */
    predicate DatagramFits()
      reads this
    {
      packetSize <= mtu <= MAXIMUM_MTU && commandCount <= COMMAND_MAXIMUM && bufferCount <= BUFFER_MAXIMUM
    }

    /** There is a command and two buffers left, and room for the command with its data. */
    predicate FitsDatagram(c: Outgoing)
      reads this`commandCount, this`bufferCount, this`packetSize
    {
      && commandCount < COMMAND_MAXIMUM && bufferCount + 2 <= BUFFER_MAXIMUM
      && packetSize + c.size + (if c.ref.To? then c.length else 0) <= mtu
    }

    /** Whether a command, and the data it carries, still fits the datagram. */
    method HasRoom(c: Outgoing) returns (room: bool)
      requires Underway() && c.size + c.length < 0x10000
      ensures room <==> FitsDatagram(c)
    {
      room := !(|| commandCount >= COMMAND_MAXIMUM || bufferCount + 1 >= BUFFER_MAXIMUM
                || mtu - packetSize < c.size
                || (c.ref.To? && U16(mtu - packetSize) < U16(c.size + c.length)));
    }

    method FillDatagram(c: Outgoing)
      requires DatagramFits() && FitsDatagram(c)
      modifies this`packetSize, this`commandCount, this`bufferCount
      ensures DatagramFits() && packetSize == old(packetSize) + OnWire()(c) && commandCount == old(commandCount) + 1
      ensures bufferCount == old(bufferCount) + Buffers()(c)
    {
      packetSize := packetSize + c.size;
      if c.ref.To? {
        bufferCount := bufferCount + 1;
        packetSize := packetSize + c.length;
      }
      commandCount, bufferCount := commandCount + 1, bufferCount + 1;
    }

    /** The windows that a command which opens a window must find free, as far as the mask says: it also shifts
        by the size of a window, and what that adds to it is not defined. */
    method WindowBlocks(c: Outgoing) returns (blocked: bool)
      requires Balanced() && c.channel < |reliableWindows|
      ensures WindowBusy(reliableWindows, usedReliableWindows, c) ==> blocked
    {
      hide Total, AllSent, ResentFirst, FitDatagram;
      var window := c.number / WINDOW_SIZE;
      if reliableWindows[c.channel][(window + WINDOWS - 1) % WINDOWS] >= WINDOW_SIZE { return true; }
      if exists w :: w in usedReliableWindows[c.channel] && window <= w < window + FREE_WINDOWS { return true; }
      blocked := *;
    }

    /** Whether a command is passed over, because of the sequence windows or the data in transit. */
    method MustWait(c: Outgoing, exceeded: bool, wrap: bool)
      returns (wait: bool, windowExceeded: bool, windowWrap: bool, ghost blocked: bool)
      requires Balanced()
      ensures blocked ==> !wrap && Opens(c, |reliableWindows|)
      ensures !wrap && Opens(c, |reliableWindows|) && WindowBusy(reliableWindows, usedReliableWindows, c) ==> blocked
      ensures windowWrap == (wrap || blocked)
      ensures var held := c.channel < |reliableWindows| && windowWrap;
              && windowExceeded == (exceeded || (c.ref.To? && !held && reliableDataInTransit + c.length > TransitLimit()))
              && wait == (held || (c.ref.To? && windowExceeded))
    {
      hide WindowsCount, Total, AllSent, ResentFirst, FitDatagram;
      wait, windowExceeded, windowWrap, blocked := false, exceeded, wrap, false;
      if c.channel < |reliableWindows| {
        if !windowWrap && c.attempts < 1 && c.number % WINDOW_SIZE == 0 {
          windowWrap := WindowBlocks(c);
          blocked := windowWrap;
        }
        if windowWrap { return true, windowExceeded, windowWrap, blocked; }
      }
      if c.ref.To? {
        if !windowExceeded { windowExceeded := reliableDataInTransit + c.length > TransitLimit(); }
        wait := windowExceeded;
      }
    }

    /** What holds between two commands of the pass. */
    ghost predicate Underway()
      reads this
    {
      Balanced() && TimeoutSet() && DatagramFits()
    }

    /** There is more to send in another datagram. */
    method Continue()
      requires Underway()
      modifies this`continueSending
      ensures Underway() && continueSending
    {
      hide WindowsCount, Total, AllSent, ResentFirst, FitDatagram;
      continueSending := true;
    }

    /** The command is sent in this datagram. */
    method SendNow(k: nat, now: u32)
      requires Underway() && k < |outgoingReliableCommands|
      requires |sentReliableCommands| + |outgoingReliableCommands| < 0x10000
      requires FitsDatagram(outgoingReliableCommands[k])
      modifies this
      ensures Underway() && SameRefs(old(View()), View()) && packets == old(packets)
      ensures TransitLimit() == old(TransitLimit()) && roundTrip == old(roundTrip) && continueSending == old(continueSending)
      ensures WindowsGrow(old(reliableWindows), old(usedReliableWindows), reliableWindows, usedReliableWindows)
      ensures outgoingReliableCommands == Without(old(outgoingReliableCommands), k)
      ensures |outgoingReliableCommands| == |old(outgoingReliableCommands)| - 1
      ensures sentReliableCommands == old(sentReliableCommands) + [SentAt(old(outgoingReliableCommands)[k], now, roundTrip)]
      ensures var c := old(outgoingReliableCommands)[k];
              && reliableDataInTransit == old(reliableDataInTransit) + Bytes()(c) && packetSize == old(packetSize) + OnWire()(c)
              && commandCount == old(commandCount) + 1 && bufferCount == old(bufferCount) + Buffers()(c)
    {
      hide Refs, WindowsCount, Total, Without, AllSent, ResentFirst, FitDatagram;
      var c := outgoingReliableCommands[k];
      SendOne(k, now);
      FillDatagram(c);
    }

    /** `enet_protocol_send_reliable_outgoing_commands`: a command is sent unless the windows or the data in
        transit hold it back, and the pass only stops at one that does not fit the datagram; the others keep
        their order. */
    method SendReliable(now: u32) returns (canPing: bool, ghost pass: Pass)
      requires Valid() && DatagramFits() && |sentReliableCommands| + |outgoingReliableCommands| < 0x10000
      modifies this
      ensures Valid() && DatagramFits() && packets == old(packets) && SameRefs(old(View()), View())
      ensures InPass(old(View()), View(), pass, now, roundTrip) && roundTrip == old(roundTrip) && TransitLimit() == old(TransitLimit())
      ensures Decided(pass, |old(reliableWindows)|, old(reliableDataInTransit), TransitLimit())
      ensures BlockedRightly(pass, old(reliableWindows), old(usedReliableWindows))
      ensures pass.rest != [] ==>
                !FitsDatagram(pass.rest[0]) && NotHeld(pass, |old(reliableWindows)|, old(reliableDataInTransit), TransitLimit())
      ensures Carries(pass.moved) ==> reliableDataInTransit <= TransitLimit()
      ensures AddedUp(pass.moved, old(reliableDataInTransit), reliableDataInTransit,
                      old(Datagram(packetSize, commandCount, bufferCount)), Datagram(packetSize, commandCount, bufferCount))
      ensures continueSending == (old(continueSending) || pass.rest != [])
      ensures canPing <==> pass.moved == [] && pass.rest == []
    {
      hide Refs, Counted, WindowsCount, Total, AllSent, ResentFirst, FitDatagram, SameRefs, Select, Without, AllSentAt, Bytes, InPass,
           OnWire, Buffers, AddedUp, Carries, Peer.TransitLimit, Peer.FitsDatagram, Decided, BlockedRightly, NotHeld, Flags, WindowsGrow,
           WindowBusy, Peer.Underway, Peer.Valid, Peer.DatagramFits;
      StillValid();
      var windowExceeded, windowWrap, k := false, false, 0;
      ghost var channels, transit, limit, start := |reliableWindows|, reliableDataInTransit, TransitLimit(),
          Datagram(packetSize, commandCount, bufferCount);
      canPing := true;
      pass := Pass([], outgoingReliableCommands, [], [], [], []);
      PassStarts(View(), now, roundTrip);
      FlagsStart(pass, channels, transit, limit, reliableWindows, usedReliableWindows);
      NothingAdded(transit, start);
      while k < |outgoingReliableCommands|
        invariant k == |pass.kept| && |outgoingReliableCommands| == k + |pass.rest|
        invariant InPass(old(View()), View(), pass, now, roundTrip) && roundTrip == old(roundTrip) && TransitLimit() == limit
        invariant Underway() && SameRefs(old(View()), View()) && packets == old(packets)
        invariant |sentReliableCommands| + |outgoingReliableCommands| < 0x10000
        invariant Carries(pass.moved) ==> reliableDataInTransit <= limit
        invariant Flags(pass, channels, transit, limit, windowWrap, windowExceeded) && Decided(pass, channels, transit, limit)
        invariant BlockedRightly(pass, old(reliableWindows), old(usedReliableWindows))
        invariant WindowsGrow(old(reliableWindows), old(usedReliableWindows), reliableWindows, usedReliableWindows)
        invariant |reliableWindows| == channels
        invariant AddedUp(pass.moved, transit, reliableDataInTransit, start, Datagram(packetSize, commandCount, bufferCount))
        invariant continueSending == old(continueSending)
        invariant canPing <==> pass.moved == []
        decreases |pass.rest|
      {
        var c := outgoingReliableCommands[k];
        PassAt(old(View()), View(), pass, now, roundTrip);
        var wait;
        ghost var exceeded, wrap, blocked := windowExceeded, windowWrap, false;
        assert Balanced() by { IsBalanced(); }
        wait, windowExceeded, windowWrap, blocked := MustWait(c, windowExceeded, windowWrap);
        BytesSoFar(pass.moved, transit, reliableDataInTransit, start, Datagram(packetSize, commandCount, bufferCount));
        BusySoFar(old(reliableWindows), old(usedReliableWindows), reliableWindows, usedReliableWindows, c);
        FlagsGoOn(pass, channels, transit, limit, wrap, exceeded, blocked, windowWrap, windowExceeded, wait,
                  old(reliableWindows), old(usedReliableWindows));
        if wait {
          pass := pass.Skip(blocked);
          k := k + 1;
          continue;
        }
        canPing := false;
        AllFit(k);
        var room := HasRoom(c);
        if !room {
          Continue();
          break;
        }
        ghost var before, windows, used, sent0, datagram0 := View(), reliableWindows, usedReliableWindows, reliableDataInTransit,
            Datagram(packetSize, commandCount, bufferCount);
        SendNow(k, now);
        SameRefsChain(old(View()), before, View());
        PassTakes(old(View()), before, View(), pass, now, roundTrip);
        OneMoreAdded(pass.moved, c, transit, sent0, start, datagram0);
        WindowsGrowOn(old(reliableWindows), old(usedReliableWindows), windows, used, reliableWindows, usedReliableWindows);
        pass := pass.Take();
      }
      SameRefsCounted(packets, old(View()), View());
      StillValid();
    }

    lemma IsBalanced()
      requires Underway()
      ensures Balanced()
    {
    }

    lemma AllFit(k: nat)
      requires Underway() && k < |outgoingReliableCommands|
      ensures outgoingReliableCommands[k].size + outgoingReliableCommands[k].length < 0x10000
    {
      Fits(outgoingReliableCommands, k);
    }

    lemma StillValid()
      ensures Underway() && Counted(packets, View()) <==> Valid() && DatagramFits()
    {
    }

    // ---------------------------------------------------------------- packets and their references

    method SetList(which: Which, s: seq<Outgoing>)
      modifies this`sentReliableCommands, this`outgoingReliableCommands, this`sentUnreliableCommands, this`outgoingUnreliableCommands
      ensures View() == WithList(old(View()), which, s)
    {
      match which
      case SentReliable => sentReliableCommands := s;
      case Reliable => outgoingReliableCommands := s;
      case SentUnreliable => sentUnreliableCommands := s;
      case Unreliable => outgoingUnreliableCommands := s;
    }

    method List(which: Which) returns (s: seq<Outgoing>)
      ensures s == ListOf(View(), which)
    {
      match which
      case SentReliable => s := sentReliableCommands;
      case Reliable => s := outgoingReliableCommands;
      case SentUnreliable => s := sentUnreliableCommands;
      case Unreliable => s := outgoingUnreliableCommands;
    }

    /** `enet_packet_create`: nothing points at the packet yet. */
    method CreatePacket(p: nat)
      requires Valid() && p !in packets
      modifies this`packets
      ensures Valid() && packets == old(packets)[p := 0]
    {
      hide Refs, WindowsCount, Total, AllSent, ResentFirst, FitDatagram;
      packets := packets[p := 0];
    }

    /** `enet_packet_destroy`, by the application: only of a packet that no queued command points at. */
    method DestroyPacket(p: nat)
      requires Valid() && p in packets && packets[p] == 0
      modifies this`packets
      ensures Valid() && packets == old(packets) - {p}
    {
      hide Refs, WindowsCount, Total, AllSent, ResentFirst, FitDatagram;
      packets := packets - {p};
    }

    /** `enet_peer_send`: all commands of a packet take their references before the first is queued. */
    method QueueCommands(ref: Ref, commands: seq<Outgoing>, reliable: bool)
      requires Valid() && (ref.To? ==> ref.packet in packets)
      requires forall c :: c in commands ==> c.ref == ref && c.attempts == 0 && c.size + c.length < 0x10000
      modifies this
      ensures Valid() && packets == Referenced(old(packets), ref, |commands|)
      ensures var which := if reliable then Reliable else Unreliable;
              View() == WithList(old(View()), which, ListOf(old(View()), which) + commands)
    {
      hide Refs, Counted, WindowsCount, Total, AllSent, ResentFirst, FitDatagram, Referenced;
      var which := if reliable then Reliable else Unreliable;
      AppendedRefs(View(), which, commands, ref);
      EnterIsCounted(packets, View(), WithList(View(), which, ListOf(View(), which) + commands), ref, |commands|);
      NewAccounts(reliableWindows, usedReliableWindows, sentReliableCommands, outgoingReliableCommands, commands);
      ghost var q, p0 := View(), packets;
      AddReferences(ref, |commands|);
      for i := 0 to |commands|
        invariant View() == WithList(q, which, ListOf(q, which) + commands[..i])
        invariant packets == Referenced(p0, ref, |commands|)
        modifies this`outgoingReliableCommands, this`outgoingUnreliableCommands
      {
        assert ListOf(q, which) + commands[..i + 1] == ListOf(q, which) + commands[..i] + [commands[i]];
        if reliable {
          outgoingReliableCommands := outgoingReliableCommands + [commands[i]];
        } else {
          outgoingUnreliableCommands := outgoingUnreliableCommands + [commands[i]];
        }
      }
      assert commands[..|commands|] == commands;
    }

    method AddReferences(ref: Ref, n: nat)
      requires ref.To? ==> ref.packet in packets
      modifies this`packets
      ensures packets == Referenced(old(packets), ref, n)
    {
      if ref.To? { packets := packets[ref.packet := packets[ref.packet] + n]; }
    }

    /** The first command of a list leaves it for good. */
    method DropFirst(which: Which)
      requires Counted(packets, View()) && ListOf(View(), which) != []
      modifies this`packets, this`sentReliableCommands, this`outgoingReliableCommands, this`sentUnreliableCommands,
               this`outgoingUnreliableCommands
      ensures Counted(packets, View()) && Collected(old(packets), old(View()), packets, View())
      ensures View() == WithList(old(View()), which, ListOf(old(View()), which)[1..])
    {
      hide Refs, Counted, Collected, Leaves;
      var s := List(which);
      ghost var q := View();
      FirstLeaves(q, which);
      CollectedAtFirst(packets, q);
      SetList(which, s[1..]);
      LeaveIsCounted(packets, q, View(), s[0].ref);
      LeaveIsCollected(packets, q, packets, q, View(), s[0].ref);
      Release(s[0].ref);
    }

    /** `enet_peer_reset_outgoing_commands`, and `enet_protocol_remove_sent_unreliable_commands`. */
    method ResetOutgoing(which: Which)
      requires Counted(packets, View())
      modifies this`packets, this`sentReliableCommands, this`outgoingReliableCommands, this`sentUnreliableCommands,
               this`outgoingUnreliableCommands
      ensures Counted(packets, View()) && Collected(old(packets), old(View()), packets, View())
      ensures View() == WithList(old(View()), which, [])
    {
      hide Refs, Counted, Collected;
      CollectedAtFirst(packets, View());
      var s := List(which);
      while s != []
        invariant s == ListOf(View(), which) && View() == WithList(old(View()), which, s)
        invariant Counted(packets, View()) && Collected(old(packets), old(View()), packets, View())
        decreases |s|
      {
        ghost var p, q := packets, View();
        DropFirst(which);
        CollectedChain(old(packets), old(View()), p, q, packets, View());
        s := s[1..];
      }
    }

    /** The incoming queues give up their packets the same way. */
    method ResetIncoming()
      requires Counted(packets, View())
      modifies this`packets, this`heldPackets, this`dispatchedPackets
      ensures Counted(packets, View()) && Collected(old(packets), old(View()), packets, View())
      ensures View() == old(View()).(held := [], dispatched := [])
    {
      hide Refs, Counted, Collected, Leaves;
      CollectedAtFirst(packets, View());
      while dispatchedPackets != []
        invariant View() == old(View()).(dispatched := dispatchedPackets)
        invariant Counted(packets, View()) && Collected(old(packets), old(View()), packets, View())
        decreases |dispatchedPackets|
      {
        ghost var q := View();
        IncomingLeaves(q);
        var p := dispatchedPackets[0];
        dispatchedPackets := dispatchedPackets[1..];
        LeaveIsCounted(packets, q, View(), To(p));
        LeaveIsCollected(old(packets), old(View()), packets, q, View(), To(p));
        Release(To(p));
      }
      while heldPackets != []
        invariant View() == old(View()).(dispatched := [], held := heldPackets)
        invariant Counted(packets, View()) && Collected(old(packets), old(View()), packets, View())
        decreases |heldPackets|
      {
        ghost var q := View();
        IncomingLeaves(q);
        var p := heldPackets[0];
        heldPackets := heldPackets[1..];
        LeaveIsCounted(packets, q, View(), To(p));
        LeaveIsCollected(old(packets), old(View()), packets, q, View(), To(p));
        Release(To(p));
      }
    }

    /** `enet_peer_reset_queues`: every list is empty, and exactly the packets they pointed at are gone. */
    method ResetQueues()
      requires Counted(packets, View())
      modifies this
      ensures View() == Queues([], [], [], [], [], [])
      ensures Counted(packets, View())
      ensures forall p: nat :: p in packets <==> p in old(packets) && Refs(old(View()), p) == 0
    {
      hide Refs, Counted, Collected;
      ghost var p0, q0 := packets, View();
      ResetOutgoing(SentReliable);
      ghost var p1, q1 := packets, View();
      ResetOutgoing(SentUnreliable);
      CollectedChain(p0, q0, p1, q1, packets, View());
      p1, q1 := packets, View();
      ResetOutgoing(Reliable);
      CollectedChain(p0, q0, p1, q1, packets, View());
      p1, q1 := packets, View();
      ResetOutgoing(Unreliable);
      CollectedChain(p0, q0, p1, q1, packets, View());
      p1, q1 := packets, View();
      ResetIncoming();
      CollectedChain(p0, q0, p1, q1, packets, View());
      NothingQueued(p0, q0, packets, View());
    }

    /** `enet_peer_receive`: the application takes the packet over, whatever its count is then. */
    method ReceivePacket() returns (taken: Ref)
      requires Valid()
      modifies this`packets, this`dispatchedPackets
      ensures Valid() && packets.Keys == old(packets).Keys
      ensures old(dispatchedPackets) == [] ==> taken == Nothing && View() == old(View())
      ensures old(dispatchedPackets) != [] ==>
                && taken == To(old(dispatchedPackets)[0]) && taken.packet in packets
                && View() == old(View()).(dispatched := old(dispatchedPackets)[1..])
    {
      hide Refs, WindowsCount, Total, AllSent, ResentFirst, FitDatagram;
      if dispatchedPackets == [] { return Nothing; }
      var p := dispatchedPackets[0];
      ghost var q := View();
      IncomingLeaves(q);
      HandedOver(packets, q, q.(dispatched := q.dispatched[1..]), p);
      dispatchedPackets := dispatchedPackets[1..];
      packets := packets[p := packets[p] - 1];
      taken := To(p);
    }

    // ---------------------------------------------------------------- unreliable commands

    /** The throttle drops a packet: all its commands that follow one another. */
    method DropGroup() returns (ghost n: nat)
      requires Valid() && outgoingUnreliableCommands != []
      modifies this`packets, this`sentReliableCommands, this`outgoingReliableCommands, this`sentUnreliableCommands,
               this`outgoingUnreliableCommands
      ensures Valid() && Collected(old(packets), old(View()), packets, View())
      ensures 1 <= n <= |old(outgoingUnreliableCommands)|
      ensures View() == old(View()).(unreliable := old(outgoingUnreliableCommands)[n..])
      ensures forall i :: 0 <= i < n ==> SameGroup(old(outgoingUnreliableCommands)[0], old(outgoingUnreliableCommands)[i])
      ensures n < |old(outgoingUnreliableCommands)| ==> !SameGroup(old(outgoingUnreliableCommands)[0], old(outgoingUnreliableCommands)[n])
    {
      hide Refs, Counted, Collected, WindowsCount, Total, AllSent, ResentFirst, FitDatagram;
      ghost var list := outgoingUnreliableCommands;
      var first := outgoingUnreliableCommands[0];
      DropFirst(Unreliable);
      n := 1;
      while outgoingUnreliableCommands != []
        invariant Valid() && Collected(old(packets), old(View()), packets, View())
        invariant 1 <= n <= |list| && View() == old(View()).(unreliable := list[n..])
        invariant forall i :: 0 <= i < n ==> SameGroup(first, list[i])
        decreases |outgoingUnreliableCommands|
      {
        if !SameGroup(first, outgoingUnreliableCommands[0]) { break; }
        ghost var p, q := packets, View();
        DropFirst(Unreliable);
        CollectedChain(old(packets), old(View()), p, q, packets, View());
        n := n + 1;
      }
    }

    /** Whether an unreliable command still fits the datagram. */
    method HasRoomUnreliable(c: Outgoing) returns (room: bool)
      requires DatagramFits()
      ensures room <==> FitsDatagram(c)
    {
      room := !(|| commandCount >= COMMAND_MAXIMUM || bufferCount + 1 >= BUFFER_MAXIMUM
                || mtu - packetSize < c.size
                || (c.ref.To? && mtu - packetSize < c.size + c.length));
    }

    /** An unreliable command goes out; its packet is kept until the datagram is gone. */
    method SendFirstUnreliable()
      requires Valid() && outgoingUnreliableCommands != []
      modifies this`outgoingUnreliableCommands, this`sentUnreliableCommands
      ensures Valid() && SameRefs(old(View()), View())
      ensures var c := old(outgoingUnreliableCommands)[0];
              View() == old(View()).(unreliable := old(outgoingUnreliableCommands)[1..],
                                     sentUnreliable := old(sentUnreliableCommands) + if c.ref.To? then [c] else [])
    {
      hide Refs, Counted, WindowsCount, Total, AllSent, ResentFirst, FitDatagram, SameRefs;
      var c := outgoingUnreliableCommands[0];
      UnreliableMoves(View());
      ghost var q := View();
      outgoingUnreliableCommands := outgoingUnreliableCommands[1..];
      if c.ref.To? {
        sentUnreliableCommands := sentUnreliableCommands + [c];
      } else {
        assert q.sentUnreliable + [] == q.sentUnreliable;
      }
      SameRefsCounted(packets, q, View());
    }

    /** `enet_protocol_send_unreliable_outgoing_commands`: commands leave the list from the front, sent or
        dropped as the throttle says, until one does not fit the datagram; a packet is dropped as a whole, and
        only sent data keeps its packet. */
    method SendUnreliable() returns (ghost sent: seq<bool>)
      requires Valid() && DatagramFits()
      modifies this
      ensures Valid() && DatagramFits() && Collected(old(packets), old(View()), packets, View())
      ensures |sent| <= |old(outgoingUnreliableCommands)|
      ensures outgoingUnreliableCommands == old(outgoingUnreliableCommands)[|sent|..]
      ensures sentUnreliableCommands == old(sentUnreliableCommands) + WithData(Select(old(outgoingUnreliableCommands)[..|sent|], sent, true))
      ensures sentReliableCommands == old(sentReliableCommands) && outgoingReliableCommands == old(outgoingReliableCommands)
      ensures DroppedWhole(old(outgoingUnreliableCommands), sent)
      ensures packetThrottle == old(packetThrottle)
      ensures sent + Flow(outgoingUnreliableCommands, packetThrottleCounter, packetThrottle)
           == Flow(old(outgoingUnreliableCommands), old(packetThrottleCounter), packetThrottle)
      ensures outgoingUnreliableCommands != [] ==> !FitsDatagram(outgoingUnreliableCommands[0])
      ensures continueSending == (old(continueSending) || outgoingUnreliableCommands != [])
      ensures Filled(Select(old(outgoingUnreliableCommands)[..|sent|], sent, true),
                     old(Datagram(packetSize, commandCount, bufferCount)), Datagram(packetSize, commandCount, bufferCount))
    {
      hide Refs, Counted, Collected, WindowsCount, Total, AllSent, ResentFirst, FitDatagram, Select, WithData, UnreliablePass, DroppedWhole,
           Flow, Filled, SentOrDropped, Peer.DatagramFits, Peer.FitsDatagram, Throttles;
      sent := [];
      ghost var start := Datagram(packetSize, commandCount, bufferCount);
      NothingFilled(outgoingUnreliableCommands, start);
      CollectedAtFirst(packets, View());
      UnreliablePassStarts(View());
      while outgoingUnreliableCommands != []
        invariant Valid() && DatagramFits() && Collected(old(packets), old(View()), packets, View())
        invariant sentReliableCommands == old(sentReliableCommands) && outgoingReliableCommands == old(outgoingReliableCommands)
        invariant UnreliablePass(old(View()), View(), sent)
        invariant packetThrottle == old(packetThrottle) && continueSending == old(continueSending)
        invariant sent + Flow(outgoingUnreliableCommands, packetThrottleCounter, packetThrottle)
               == Flow(old(outgoingUnreliableCommands), old(packetThrottleCounter), packetThrottle)
        invariant Filled(Select(old(outgoingUnreliableCommands)[..|sent|], sent, true), start, Datagram(packetSize, commandCount, bufferCount))
        decreases |outgoingUnreliableCommands|
      {
        ghost var p, q, counter, filled := packets, View(), packetThrottleCounter, Datagram(packetSize, commandCount, bufferCount);
        ghost var done: seq<bool>;
        var more: bool;
        done, more := PassUnreliable();
        CollectedChain(old(packets), old(View()), p, q, packets, View());
        if !more { break; }
        UnreliablePassGoesOn(old(View()), q, View(), sent, done);
        FlowGoesOn(q, View(), counter, packetThrottle, done, sent);
        FilledOn(old(View()), q, View(), sent, done, start, filled, Datagram(packetSize, commandCount, bufferCount));
        sent := sent + done;
      }
      UnreliablePassEnds(old(View()), View(), sent);
    }

    /** Whether the throttle drops the packet that starts with this command. */
    method ThrottleDrops(c: Outgoing) returns (drop: bool)
      modifies this`packetThrottleCounter
      ensures drop == Throttles(c, old(packetThrottleCounter), packetThrottle)
      ensures packetThrottleCounter == Advanced(c, old(packetThrottleCounter))
    {
      drop := false;
      if c.ref.To? && c.offset == 0 {
        packetThrottleCounter := (packetThrottleCounter + THROTTLE_COUNTER) % THROTTLE_SCALE;
        drop := packetThrottleCounter > packetThrottle;
      }
    }

    /** One step of it: the first packet or command leaves, unless the datagram is full. */
    method PassUnreliable() returns (ghost sent: seq<bool>, more: bool)
      requires Valid() && DatagramFits() && outgoingUnreliableCommands != []
      modifies this
      ensures Valid() && DatagramFits() && Collected(old(packets), old(View()), packets, View())
      ensures sentReliableCommands == old(sentReliableCommands) && outgoingReliableCommands == old(outgoingReliableCommands)
      ensures more == old(FitsDatagram(outgoingUnreliableCommands[0]))
      ensures !more ==> View() == old(View()) && packets == old(packets) && !FitsDatagram(outgoingUnreliableCommands[0])
      ensures !more ==> Datagram(packetSize, commandCount, bufferCount) == old(Datagram(packetSize, commandCount, bufferCount))
      ensures more ==> SentOrDropped(old(View()), View(), sent)
      ensures more ==> (sent == [true] <==> !Throttles(old(outgoingUnreliableCommands)[0], old(packetThrottleCounter), packetThrottle))
      ensures packetThrottle == old(packetThrottle) && continueSending == (old(continueSending) || !more)
      ensures packetThrottleCounter == if more then Advanced(old(outgoingUnreliableCommands)[0], old(packetThrottleCounter))
                                       else old(packetThrottleCounter)
      ensures more ==>
                Grown(old(Datagram(packetSize, commandCount, bufferCount)), old(outgoingUnreliableCommands)[0], sent == [true])
                == Datagram(packetSize, commandCount, bufferCount)
    {
      hide Refs, Counted, Collected, WindowsCount, Total, AllSent, ResentFirst, FitDatagram, SameRefs, SentOrDropped, Throttles;
      var c := outgoingUnreliableCommands[0];
      CollectedAtFirst(packets, View());
      more := HasRoomUnreliable(c);
      sent := [];
      if more { sent := DropOrSend(c); } else { continueSending := true; }
    }

    /** The throttle drops the first packet, or its first command is sent. */
    method DropOrSend(c: Outgoing) returns (ghost sent: seq<bool>)
      requires Valid() && DatagramFits() && FitsDatagram(c) && outgoingUnreliableCommands != [] && c == outgoingUnreliableCommands[0]
      modifies this
      ensures Valid() && DatagramFits() && Collected(old(packets), old(View()), packets, View())
      ensures sentReliableCommands == old(sentReliableCommands) && outgoingReliableCommands == old(outgoingReliableCommands)
      ensures SentOrDropped(old(View()), View(), sent)
      ensures sent == [true] <==> !Throttles(c, old(packetThrottleCounter), packetThrottle)
      ensures packetThrottle == old(packetThrottle) && continueSending == old(continueSending)
      ensures packetThrottleCounter == Advanced(c, old(packetThrottleCounter))
      ensures Datagram(packetSize, commandCount, bufferCount)
           == Grown(old(Datagram(packetSize, commandCount, bufferCount)), c, sent == [true])
    {
      hide Refs, Counted, Collected, WindowsCount, Total, AllSent, ResentFirst, FitDatagram, SameRefs, Bytes, SameGroup,
           SentOrDropped, Throttles;
      ghost var q := View();
      var drop := ThrottleDrops(c);
      if drop {
        ghost var n := DropGroup();
        sent := seq(n, _ => false);
        Dropped(q, View(), sent);
      } else {
        SendFirstUnreliable();
        SameRefsCollected(packets, q, View());
        FillDatagram(c);
        sent := [true];
        SentFirst(q, View());
      }
    }

    /** A packet that arrived is held by its incoming command. */
    method HoldPacket(p: nat)
      requires Valid() && p in packets
      modifies this`packets, this`heldPackets
      ensures Valid() && packets == Referenced(old(packets), To(p), 1)
      ensures View() == old(View()).(held := old(heldPackets) + [p])
    {
      hide WindowsCount, Total, AllSent, ResentFirst, FitDatagram;
      HeldOne(View(), p);
      hide Refs;
      EnterIsCounted(packets, View(), View().(held := heldPackets + [p]), To(p), 1);
      packets := packets[p := packets[p] + 1];
      heldPackets := heldPackets + [p];
    }

    /** Dispatching moves held packets behind those dispatched before. */
    method DispatchHeld(i: nat, j: nat)
      requires Valid() && i <= j <= |heldPackets|
      modifies this`heldPackets, this`dispatchedPackets
      ensures Valid() && SameRefs(old(View()), View())
      ensures View() == old(View()).(held := old(heldPackets)[..i] + old(heldPackets)[j..],
                                     dispatched := old(dispatchedPackets) + old(heldPackets)[i..j])
    {
      hide WindowsCount, Total, AllSent, ResentFirst, FitDatagram;
      HeldMoves(View(), i, j);
      hide Refs;
      SameRefsCounted(packets, View(), View().(held := heldPackets[..i] + heldPackets[j..],
                                               dispatched := dispatchedPackets + heldPackets[i..j]));
      dispatchedPackets := dispatchedPackets + heldPackets[i..j];
      heldPackets := heldPackets[..i] + heldPackets[j..];
    }
  }

  lemma CollectedAtFirst(packets: map<nat, nat>, q: Queues)
    requires Counted(packets, q)
    ensures Collected(packets, q, packets, q)
  {
    hide Refs;
  }

  /** The two lists with the found command taken out of the one it is in. */
  function Rest(sent: seq<Outgoing>, waiting: seq<Outgoing>, wasSent: bool, i: nat): (seq<Outgoing>, seq<Outgoing>)
    requires i < if wasSent then |sent| else |waiting|
  {
    if wasSent then (Without(sent, i), waiting) else (sent, Without(waiting, i))
  }

  lemma RemovalAccounts(sent: seq<Outgoing>, waiting: seq<Outgoing>, wasSent: bool, i: nat)
    requires i < if wasSent then |sent| else |waiting|
    requires AllSent(sent) && ResentFirst(waiting) && FitDatagram(sent) && FitDatagram(waiting)
    ensures var (s, w) := Rest(sent, waiting, wasSent, i);
            && AllSent(s) && ResentFirst(w) && FitDatagram(s) && FitDatagram(w)
            && Total(sent, Bytes()) == Total(s, Bytes()) + if wasSent then Bytes()(sent[i]) else 0
  {
    hide Total, Bytes;
    if wasSent { TotalWithout(sent, i, Bytes()); }
  }

  lemma RestWindows(sent: seq<Outgoing>, waiting: seq<Outgoing>, wasSent: bool, i: nat)
    requires i < if wasSent then |sent| else |waiting|
    ensures var (s, w) := Rest(sent, waiting, wasSent, i);
            var c := if wasSent then sent[i] else waiting[i];
            forall ch: nat, v: nat ::
              Total(sent, SentIn(ch, v)) + Total(waiting, SentIn(ch, v)) == Total(s, SentIn(ch, v)) + Total(w, SentIn(ch, v)) + SentIn(ch, v)(c)
  {
    hide Total;
    var list := if wasSent then sent else waiting;
    forall ch: nat, v: nat ensures Total(list, SentIn(ch, v)) == Total(Without(list, i), SentIn(ch, v)) + SentIn(ch, v)(list[i]) {
      TotalWithout(list, i, SentIn(ch, v));
    }
  }

  function Changed(windows: seq<seq<u16>>, ch: nat, w: nat, x: u16): seq<seq<u16>>
    requires ch < |windows| && w < |windows[ch]|
  {
    var counts: seq<u16> := windows[ch][w := x];
    windows[ch := counts]
  }

  /** A command sent before leaves both lists. */
  lemma CountsDown(windows: seq<seq<u16>>, used: seq<set<nat>>, sent: seq<Outgoing>, waiting: seq<Outgoing>,
                   sent': seq<Outgoing>, waiting': seq<Outgoing>, c: Outgoing)
    requires WindowsCount(windows, used, sent, waiting) && c.attempts >= 1
    requires forall ch: nat, v: nat :: Total(sent, SentIn(ch, v)) + Total(waiting, SentIn(ch, v))
                                    == Total(sent', SentIn(ch, v)) + Total(waiting', SentIn(ch, v)) + SentIn(ch, v)(c)
    ensures |used| == |windows| && forall ch :: 0 <= ch < |windows| ==> |windows[ch]| == WINDOWS
    ensures c.channel >= |windows| ==> WindowsCount(windows, used, sent', waiting')
    ensures c.channel < |windows| ==>
              var ch, w := c.channel, c.number / WINDOW_SIZE;
              && windows[ch][w] > 0
              && var windows' := Changed(windows, ch, w, windows[ch][w] - 1);
                 WindowsCount(windows', if windows'[ch][w] == 0 then used[ch := used[ch] - {w}] else used, sent', waiting')
  {
    hide Total;
    if c.channel < |windows| {
      var ch, w := c.channel, c.number / WINDOW_SIZE;
      assert WindowCounts(windows, used, sent, waiting, ch, w);
      var windows' := Changed(windows, ch, w, windows[ch][w] - 1);
      var used' := if windows'[ch][w] == 0 then used[ch := used[ch] - {w}] else used;
      forall h: nat, v: nat | h < |windows| && v < WINDOWS
        ensures WindowCounts(windows', used', sent', waiting', h, v)
      {
        assert WindowCounts(windows, used, sent, waiting, h, v);
      }
    } else {
      forall h: nat, v: nat | h < |windows| && v < WINDOWS
        ensures WindowCounts(windows, used, sent', waiting', h, v)
      {
        assert WindowCounts(windows, used, sent, waiting, h, v);
      }
    }
  }

  lemma RemovalLeaves(q: Queues, wasSent: bool, i: nat)
    requires i < if wasSent then |q.sentReliable| else |q.reliable|
    ensures var (s, w) := Rest(q.sentReliable, q.reliable, wasSent, i);
            Leaves(q, q.(sentReliable := s, reliable := w), if wasSent then q.sentReliable[i].ref else q.reliable[i].ref)
  {
    hide Total, Occurrences;
    var list := if wasSent then q.sentReliable else q.reliable;
    forall p: nat ensures Total(list, PointsAt(p)) == Total(Without(list, i), PointsAt(p)) + PointsAt(p)(list[i]) {
      TotalWithout(list, i, PointsAt(p));
    }
  }

  lemma NothingPicked(q: Queues, now: u32)
    ensures Late([], now) == [] == OnTime([], now) && AllSent([]) && SameRefs(q, q)
  {
  }

  lemma Regroup<T>(s: seq<T>, t: seq<T>)
    requires t != []
    ensures s + t == (s + [t[0]]) + t[1..]
  {
  }

  lemma NotGivenUp(now: u32, earliest: u32)
    ensures !GivenUp([], now, earliest) && EarliestOf([], now, earliest) == earliest
  {
  }

  lemma LateOnesSent(sent: seq<Outgoing>, i: nat, late: seq<Outgoing>, waiting: seq<Outgoing>, timeout: u32)
    requires AllSent(sent) && i < |sent| && AllSent(late)
    ensures AllSent((late + waiting)[..|late|]) && AllSent(late + [sent[i].(timeout := timeout)])
  {
    assert (late + waiting)[..|late|] == late && sent[i] in sent;
  }

  lemma MoveMiddle(onTime: seq<Outgoing>, rest: seq<Outgoing>, late: seq<Outgoing>, waiting: seq<Outgoing>, timeout: u32)
    requires rest != []
    ensures Without(onTime + rest, |onTime|) == onTime + rest[1..]
    ensures var c := rest[0].(timeout := timeout);
            Insert(late + waiting, |late|, c) == (late + [c]) + waiting
  {
  }

  lemma SameRefsChain(q: Queues, q1: Queues, q2: Queues)
    requires SameRefs(q, q1) && SameRefs(q1, q2)
    ensures SameRefs(q, q2)
  {
    hide Refs;
  }

  lemma SameRefsCounted(packets: map<nat, nat>, q: Queues, q': Queues)
    requires Counted(packets, q) && SameRefs(q, q')
    ensures Counted(packets, q')
  {
    hide Refs;
  }

  lemma FirstStays<T>(s: seq<T>, i: nat)
    requires i < |s|
    ensures i > 0 ==> Without(s, i)[0] == s[0]
  {
  }

  function Insert<T>(s: seq<T>, i: nat, e: T): seq<T>
    requires i <= |s|
  {
    s[..i] + [e] + s[i..]
  }

  lemma TotalInsert(s: seq<Outgoing>, i: nat, c: Outgoing, f: Outgoing -> nat)
    requires i <= |s|
    ensures Total(Insert(s, i, c), f) == Total(s, f) + f(c)
  {
    TotalSplit(s[..i], s[i..], f);
    assert s == s[..i] + s[i..];
    TotalOne(s[..i], c, f);
    TotalSplit(s[..i] + [c], s[i..], f);
  }

  lemma BackAccounts(sent: seq<Outgoing>, waiting: seq<Outgoing>, i: nat, m: nat, c: Outgoing)
    requires AllSent(sent) && ResentFirst(waiting) && FitDatagram(sent) && FitDatagram(waiting)
    requires i < |sent| && m <= |waiting| && c == sent[i].(timeout := c.timeout)
    requires AllSent(waiting[..m])
    ensures var s, w := Without(sent, i), Insert(waiting, m, c);
            && AllSent(s) && ResentFirst(w) && FitDatagram(s) && FitDatagram(w)
            && Total(sent, Bytes()) == Total(s, Bytes()) + Bytes()(c)
  {
    hide Total;
    TotalWithout(sent, i, Bytes());
    assert sent[i] in sent;
    assert FitDatagram(Insert(waiting, m, c)) by {
      forall d | d in Insert(waiting, m, c) ensures d == c || d in waiting {}
    }
    var w := Insert(waiting, m, c);
    forall j | 0 <= j < m ensures waiting[j].attempts >= 1 { assert waiting[..m][j] in waiting[..m]; }
    forall x, y | 0 <= x < y < |w| && w[y].attempts >= 1
      ensures w[x].attempts >= 1
    {
      if x > m { assert w[x] == waiting[x - 1] && w[y] == waiting[y - 1]; }
    }
  }

  lemma MoveKeepsTotals(sent: seq<Outgoing>, waiting: seq<Outgoing>, i: nat, m: nat, c: Outgoing, f: Outgoing -> nat)
    requires i < |sent| && m <= |waiting| && f(c) == f(sent[i])
    ensures Total(Without(sent, i), f) + Total(Insert(waiting, m, c), f) == Total(sent, f) + Total(waiting, f)
  {
    TotalWithout(sent, i, f);
    TotalInsert(waiting, m, c, f);
  }

  lemma MoveKeepsWindows(windows: seq<seq<u16>>, used: seq<set<nat>>, sent: seq<Outgoing>, waiting: seq<Outgoing>,
                         i: nat, m: nat, c: Outgoing)
    requires WindowsCount(windows, used, sent, waiting)
    requires i < |sent| && m <= |waiting| && c == sent[i].(timeout := c.timeout)
    ensures WindowsCount(windows, used, Without(sent, i), Insert(waiting, m, c))
  {
    hide Total, Without, Insert;
    forall ch: nat, v: nat | ch < |windows| && v < WINDOWS
      ensures WindowCounts(windows, used, Without(sent, i), Insert(waiting, m, c), ch, v)
    {
      assert WindowCounts(windows, used, sent, waiting, ch, v);
      MoveKeepsTotals(sent, waiting, i, m, c, SentIn(ch, v));
    }
  }

  lemma MoveKeepsRefs(q: Queues, i: nat, m: nat, c: Outgoing)
    requires i < |q.sentReliable| && m <= |q.reliable| && c.ref == q.sentReliable[i].ref
    ensures SameRefs(q, q.(sentReliable := Without(q.sentReliable, i), reliable := Insert(q.reliable, m, c)))
  {
    hide Total, Without, Insert, Occurrences;
    forall p: nat
      ensures Refs(q.(sentReliable := Without(q.sentReliable, i), reliable := Insert(q.reliable, m, c)), p) == Refs(q, p)
    {
      MoveKeepsTotals(q.sentReliable, q.reliable, i, m, c, PointsAt(p));
    }
  }

  lemma SendAccounts(sent: seq<Outgoing>, waiting: seq<Outgoing>, k: nat, c: Outgoing)
    requires AllSent(sent) && ResentFirst(waiting) && FitDatagram(sent) && FitDatagram(waiting)
    requires k < |waiting| && c.attempts >= 1 && c.size == waiting[k].size && c.length == waiting[k].length
    ensures var s, w := sent + [c], Without(waiting, k);
            && AllSent(s) && ResentFirst(w) && FitDatagram(s) && FitDatagram(w)
            && Total(s, Bytes()) == Total(sent, Bytes()) + Bytes()(c)
  {
    hide Total;
    TotalOne(sent, c, Bytes());
    assert waiting[k] in waiting;
  }

  lemma SendKeepsRefs(q: Queues, k: nat, c: Outgoing)
    requires k < |q.reliable| && c.ref == q.reliable[k].ref
    ensures SameRefs(q, q.(sentReliable := q.sentReliable + [c], reliable := Without(q.reliable, k)))
  {
    hide Total, Without, Occurrences;
    forall p: nat
      ensures Refs(q.(sentReliable := q.sentReliable + [c], reliable := Without(q.reliable, k)), p) == Refs(q, p)
    {
      TotalWithout(q.reliable, k, PointsAt(p));
      TotalOne(q.sentReliable, c, PointsAt(p));
    }
  }

  lemma CountsUp(windows: seq<seq<u16>>, used: seq<set<nat>>, sent: seq<Outgoing>, waiting: seq<Outgoing>, k: nat, c: Outgoing)
    requires WindowsCount(windows, used, sent, waiting) && k < |waiting| && |sent| + |waiting| < 0x10000
    requires c.attempts == waiting[k].attempts + 1 && c.number == waiting[k].number && c.channel == waiting[k].channel
    ensures |used| == |windows| && forall ch :: 0 <= ch < |windows| ==> |windows[ch]| == WINDOWS
    ensures waiting[k].attempts >= 1 || c.channel >= |windows| ==> WindowsCount(windows, used, sent + [c], Without(waiting, k))
    ensures waiting[k].attempts < 1 && c.channel < |windows| ==>
              var ch, w := c.channel, c.number / WINDOW_SIZE;
              && windows[ch][w] < 0xFFFF
              && WindowsCount(Changed(windows, ch, w, windows[ch][w] + 1), used[ch := used[ch] + {w}],
                              sent + [c], Without(waiting, k))
  {
    hide Total;
    forall h: nat, v: nat
      ensures Total(sent + [c], SentIn(h, v)) + Total(Without(waiting, k), SentIn(h, v))
           == Total(sent, SentIn(h, v)) + Total(waiting, SentIn(h, v)) + SentIn(h, v)(c) - SentIn(h, v)(waiting[k])
      ensures waiting[k].attempts < 1 ==> Total(sent, SentIn(h, v)) + Total(waiting, SentIn(h, v)) < 0xFFFF
    {
      TotalWithout(waiting, k, SentIn(h, v));
      TotalOne(sent, c, SentIn(h, v));
      TotalAtMost(sent, SentIn(h, v), 1);
      TotalAtMost(Without(waiting, k), SentIn(h, v), 1);
    }
    if c.channel < |windows| && waiting[k].attempts < 1 {
      var ch, w := c.channel, c.number / WINDOW_SIZE;
      assert WindowCounts(windows, used, sent, waiting, ch, w);
      var windows', used' := Changed(windows, ch, w, windows[ch][w] + 1), used[ch := used[ch] + {w}];
      forall h: nat, v: nat | h < |windows| && v < WINDOWS
        ensures WindowCounts(windows', used', sent + [c], Without(waiting, k), h, v)
      {
        assert WindowCounts(windows, used, sent, waiting, h, v);
      }
    } else {
      forall h: nat, v: nat | h < |windows| && v < WINDOWS
        ensures WindowCounts(windows, used, sent + [c], Without(waiting, k), h, v)
      {
        assert WindowCounts(windows, used, sent, waiting, h, v);
      }
    }
  }

  /** Whether some of the commands have data. */
  ghost predicate Carries(s: seq<Outgoing>) {
    exists c :: c in s && c.ref.To?
  }

  /** What a command takes of the datagram: bytes, and buffers. */
  function OnWire(): Outgoing -> nat { (c: Outgoing) => c.size + if c.ref.To? then c.length else 0 }

  function Buffers(): Outgoing -> nat { (c: Outgoing) => if c.ref.To? then 2 else 1 }

  /** How full the datagram is. */
  datatype Datagram = Datagram(size: nat, commands: nat, buffers: nat)

  /** The data in transit and the datagram have grown by just what the moved commands take. */
  ghost predicate AddedUp(moved: seq<Outgoing>, transit0: int, transit: int, d0: Datagram, d: Datagram) {
    transit == transit0 + Total(moved, Bytes()) && Filled(moved, d0, d)
  }

  ghost predicate Filled(moved: seq<Outgoing>, d0: Datagram, d: Datagram) {
    d == Datagram(d0.size + Total(moved, OnWire()), d0.commands + |moved|, d0.buffers + Total(moved, Buffers()))
  }

  lemma OneMoreAdded(moved: seq<Outgoing>, c: Outgoing, transit0: int, transit: int, d0: Datagram, d: Datagram)
    requires AddedUp(moved, transit0, transit, d0, d)
    ensures AddedUp(moved + [c], transit0, transit + Bytes()(c), d0,
                    Datagram(d.size + OnWire()(c), d.commands + 1, d.buffers + Buffers()(c)))
    ensures Bytes()(c) == if c.ref.To? then c.length else 0
  {
    TotalOne(moved, c, Bytes());
    TotalOne(moved, c, OnWire());
    TotalOne(moved, c, Buffers());
  }

  lemma BytesSoFar(moved: seq<Outgoing>, transit0: int, transit: int, d0: Datagram, d: Datagram)
    requires AddedUp(moved, transit0, transit, d0, d)
    ensures transit == transit0 + Total(moved, Bytes())
  {
  }

  lemma NothingFilled(s: seq<Outgoing>, d: Datagram)
    ensures Filled(Select(s[..0], [], true), d, d)
  {
  }

  lemma NothingAdded(transit: int, d: Datagram)
    ensures AddedUp([], transit, transit, d, d)
  {
  }

  /** How far the pass over the waiting commands is: those seen are kept or moved. `blocked` marks the command
      that found its windows in use. */
  datatype Pass = Pass(seen: seq<Outgoing>, rest: seq<Outgoing>, kept: seq<Outgoing>, moved: seq<Outgoing>, taken: seq<bool>,
                       blocked: seq<bool>) {
    function Skip(b: bool): Pass
      requires rest != []
    {
      Pass(seen + [rest[0]], rest[1..], kept + [rest[0]], moved, taken + [false], blocked + [b])
    }

    function Take(): Pass
      requires rest != []
    {
      Pass(seen + [rest[0]], rest[1..], kept, moved + [rest[0]], taken + [true], blocked + [false])
    }
  }

  /** Every command seen is kept waiting or was sent, in the old order on both sides; the rest waits on. */
  ghost predicate InPass(q0: Queues, q: Queues, p: Pass, now: u32, roundTrip: u32) {
    && |p.taken| == |p.seen| && q0.reliable == p.seen + p.rest
    && p.kept == Select(p.seen, p.taken, false) && p.moved == Select(p.seen, p.taken, true)
    && q.reliable == p.kept + p.rest
    && q.sentReliable == q0.sentReliable + AllSentAt(p.moved, now, roundTrip)
  }

  /** A command sent for the first time that opens a window of sequence numbers. */
  predicate FirstOfWindow(c: Outgoing) { c.attempts < 1 && c.number % WINDOW_SIZE == 0 }

  /** Such a command of a channel that exists. */
  predicate Opens(c: Outgoing, channels: nat) { c.channel < channels && FirstOfWindow(c) }

  /** The window before is full, or one of the eight from this one on is in use. */
  ghost predicate WindowBusy(windows: seq<seq<u16>>, used: seq<set<nat>>, c: Outgoing) {
    && c.channel < |windows| && c.channel < |used| && |windows[c.channel]| == WINDOWS
    && var w := c.number / WINDOW_SIZE;
       windows[c.channel][(w + WINDOWS - 1) % WINDOWS] >= WINDOW_SIZE ||
       exists v :: v in used[c.channel] && w <= v < w + FREE_WINDOWS
  }

  ghost predicate WindowsGrow(windows: seq<seq<u16>>, used: seq<set<nat>>, windows': seq<seq<u16>>, used': seq<set<nat>>) {
    && |windows'| == |windows| && |used'| == |used|
    && (forall ch :: 0 <= ch < |used| ==> used[ch] <= used'[ch])
    && (forall ch :: 0 <= ch < |windows| ==> |windows'[ch]| == |windows[ch]|)
    && forall ch, w :: 0 <= ch < |windows| && 0 <= w < |windows[ch]| ==> windows[ch][w] <= windows'[ch][w]
  }

  // Why a command that was seen is sent or kept.

  /** A command before it, or it itself, found its windows in use. */
  ghost predicate WindowHolds(p: Pass, channels: nat, i: nat)
    requires i < |p.seen| == |p.blocked|
  {
    p.seen[i].channel < channels && exists j :: 0 <= j <= i && p.blocked[j]
  }

  /** What was sent before it. */
  ghost function BytesBefore(p: Pass, i: nat): nat
    requires i <= |p.seen| == |p.taken|
  {
    Total(Select(p.seen[..i], p.taken[..i], true), Bytes())
  }

  ghost predicate TooMuch(p: Pass, channels: nat, transit: int, limit: int, i: nat)
    requires i < |p.seen| == |p.blocked| == |p.taken|
  {
    p.seen[i].ref.To? && !WindowHolds(p, channels, i) && transit + BytesBefore(p, i) + p.seen[i].length > limit
  }

  /** It has data, and the data of a command before it, or its own, was too much. */
  ghost predicate DataHolds(p: Pass, channels: nat, transit: int, limit: int, i: nat)
    requires i < |p.seen| == |p.blocked| == |p.taken|
  {
    p.seen[i].ref.To? && exists j :: 0 <= j <= i && TooMuch(p, channels, transit, limit, j)
  }

  /** Every command seen was sent, unless the windows or the data in transit held it back. */
  ghost predicate Decided(p: Pass, channels: nat, transit: int, limit: int) {
    && |p.seen| == |p.blocked| == |p.taken|
    && forall i :: 0 <= i < |p.seen| ==> (p.taken[i] <==> !WindowHolds(p, channels, i) && !DataHolds(p, channels, transit, limit, i))
  }

  /** Only a command that opens a window is blocked, only one; and it is when its windows were in use. */
  ghost predicate BlockedRightly(p: Pass, windows: seq<seq<u16>>, used: seq<set<nat>>) {
    && |p.seen| == |p.blocked|
    && (forall j :: 0 <= j < |p.seen| && p.blocked[j] ==> Opens(p.seen[j], |windows|))
    && (forall i, j :: 0 <= i < j < |p.seen| && p.blocked[j] ==> !p.blocked[i])
    && forall j :: 0 <= j < |p.seen| && Opens(p.seen[j], |windows|) && WindowBusy(windows, used, p.seen[j]) ==>
         exists i :: 0 <= i <= j && p.blocked[i]
  }

  /** The command that the pass stopped at is not held back. */
  ghost predicate NotHeld(p: Pass, channels: nat, transit: int, limit: int) {
    p.rest != [] && |p.seen| == |p.taken| == |p.blocked| &&
    var q := p.Take(); !WindowHolds(q, channels, |p.seen|) && !DataHolds(q, channels, transit, limit, |p.seen|)
  }

  /** What the two flags of the pass stand for. */
  ghost predicate Flags(p: Pass, channels: nat, transit: int, limit: int, wrap: bool, exceeded: bool) {
    && |p.seen| == |p.blocked| == |p.taken| && p.moved == Select(p.seen, p.taken, true)
    && (wrap <==> exists j :: 0 <= j < |p.seen| && p.blocked[j])
    && (exceeded <==> exists j :: 0 <= j < |p.seen| && TooMuch(p, channels, transit, limit, j))
  }

  lemma FlagsStart(p: Pass, channels: nat, transit: int, limit: int, windows: seq<seq<u16>>, used: seq<set<nat>>)
    requires p.seen == [] && p.blocked == [] && p.taken == [] && p.moved == []
    ensures Flags(p, channels, transit, limit, false, false) && Decided(p, channels, transit, limit)
    ensures BlockedRightly(p, windows, used) && WindowsGrow(windows, used, windows, used)
  {
  }

  lemma BusySoFar(windows: seq<seq<u16>>, used: seq<set<nat>>, windows': seq<seq<u16>>, used': seq<set<nat>>, c: Outgoing)
    requires WindowsGrow(windows, used, windows', used')
    ensures WindowBusy(windows, used, c) ==> WindowBusy(windows', used', c)
  {
  }

  /** The pass with one more command agrees with the one before on those seen before. */
  lemma SameBefore(p: Pass, q: Pass, channels: nat, transit: int, limit: int, i: nat)
    requires |p.seen| == |p.blocked| == |p.taken| && |q.seen| == |q.blocked| == |q.taken| && i < |p.seen|
    requires p.seen <= q.seen && p.blocked <= q.blocked && p.taken <= q.taken
    ensures WindowHolds(q, channels, i) == WindowHolds(p, channels, i) && TooMuch(q, channels, transit, limit, i) == TooMuch(p, channels, transit, limit, i)
  {
    hide Total, Select;
    assert q.seen[..i] == p.seen[..i] && q.taken[..i] == p.taken[..i];
    assert forall j :: 0 <= j <= i ==> q.blocked[j] == p.blocked[j];
  }

  lemma SameDataBefore(p: Pass, q: Pass, channels: nat, transit: int, limit: int, i: nat)
    requires |p.seen| == |p.blocked| == |p.taken| && |q.seen| == |q.blocked| == |q.taken| && i < |p.seen|
    requires p.seen <= q.seen && p.blocked <= q.blocked && p.taken <= q.taken
    ensures DataHolds(q, channels, transit, limit, i) == DataHolds(p, channels, transit, limit, i)
  {
    hide TooMuch;
    forall j | 0 <= j <= i ensures TooMuch(q, channels, transit, limit, j) == TooMuch(p, channels, transit, limit, j) {
      SameBefore(p, q, channels, transit, limit, j);
    }
  }

  /** The next command is passed over or taken, as its flags say. */
  lemma FlagsGoOn(p: Pass, channels: nat, transit: int, limit: int, wrap: bool, exceeded: bool, blocked: bool, wrap': bool, exceeded': bool,
                  wait: bool, windows: seq<seq<u16>>, used: seq<set<nat>>)
    requires p.rest != [] && Flags(p, channels, transit, limit, wrap, exceeded) && Decided(p, channels, transit, limit)
    requires BlockedRightly(p, windows, used) && |windows| == channels
    requires blocked ==> !wrap && Opens(p.rest[0], channels)
    requires !wrap && Opens(p.rest[0], channels) && WindowBusy(windows, used, p.rest[0]) ==> blocked
    requires wrap' == (wrap || blocked)
    requires var c := p.rest[0]; var held := c.channel < channels && wrap';
             && exceeded' == (exceeded || (c.ref.To? && !held && transit + Total(p.moved, Bytes()) + c.length > limit))
             && wait == (held || (c.ref.To? && exceeded'))
    ensures var q := if wait then p.Skip(blocked) else p.Take();
            Flags(q, channels, transit, limit, wrap', exceeded') && Decided(q, channels, transit, limit) && BlockedRightly(q, windows, used)
    ensures !wait ==> NotHeld(p, channels, transit, limit)
  {
    assert blocked ==> p.rest[0].channel < channels;
    hide Flags, Decided, BlockedRightly, WindowBusy, Total, Select, TooMuch, WindowHolds, DataHolds, Opens;
    var q := if wait then p.Skip(blocked) else p.Take();
    assert OneMore(p, q, blocked, !wait);
    FlagsOn(p, q, channels, transit, limit, wrap, exceeded, blocked, !wait);
    DecidedOn(p, q, channels, transit, limit, wait);
    BlocksOn(p, q, windows, used, wrap, blocked, channels, transit, limit, exceeded);
  }

  ghost predicate OneMore(p: Pass, q: Pass, blocked: bool, taken: bool) {
    && p.rest != [] && q.seen == p.seen + [p.rest[0]] && q.blocked == p.blocked + [blocked] && q.taken == p.taken + [taken]
    && q.moved == p.moved + if taken then [p.rest[0]] else []
  }

  lemma FlagsOn(p: Pass, q: Pass, channels: nat, transit: int, limit: int, wrap: bool, exceeded: bool, blocked: bool, taken: bool)
    requires Flags(p, channels, transit, limit, wrap, exceeded) && OneMore(p, q, blocked, taken)
    ensures |q.seen| == |q.blocked| == |q.taken| == |p.seen| + 1 == |p.blocked| + 1 == |p.taken| + 1
    ensures var c, n, wrap' := p.rest[0], |p.seen|, wrap || blocked;
            var held := c.channel < channels && wrap';
            var exceeded' := exceeded || (c.ref.To? && !held && transit + Total(p.moved, Bytes()) + c.length > limit);
            && Flags(q, channels, transit, limit, wrap', exceeded')
            && WindowHolds(q, channels, n) == held && DataHolds(q, channels, transit, limit, n) == (c.ref.To? && exceeded')
  {
    SelectNext(p.seen, p.taken, p.rest[0], taken, true);
    OneMoreFlag(p.blocked, blocked);
    WrapLast(q, channels, wrap || blocked);
    EarlierSame(p, q, channels, transit, limit);
    MuchNow(p, q, channels, transit, limit);
    hide Total, Select, TooMuch, WindowHolds, DataHolds;
    ExceededLast(p, q, channels, transit, limit, exceeded);
  }

  lemma DecidedOn(p: Pass, q: Pass, channels: nat, transit: int, limit: int, wait: bool)
    requires Decided(p, channels, transit, limit) && |q.seen| == |q.blocked| == |q.taken| == |p.seen| + 1 && p.seen <= q.seen
    requires p.blocked <= q.blocked && q.taken == p.taken + [!wait]
    requires wait <==> WindowHolds(q, channels, |p.seen|) || DataHolds(q, channels, transit, limit, |p.seen|)
    ensures Decided(q, channels, transit, limit)
  {
    hide WindowHolds, DataHolds, TooMuch;
    EarlierSame(p, q, channels, transit, limit);
    forall i | 0 <= i < |q.seen|
      ensures q.taken[i] <==> !WindowHolds(q, channels, i) && !DataHolds(q, channels, transit, limit, i)
    {
      if i < |p.seen| { assert q.taken[i] == p.taken[i]; }
    }
  }

  lemma EarlierSame(p: Pass, q: Pass, channels: nat, transit: int, limit: int)
    requires |p.seen| == |p.blocked| == |p.taken| && |q.seen| == |q.blocked| == |q.taken| == |p.seen| + 1
    requires p.seen <= q.seen && p.blocked <= q.blocked && p.taken <= q.taken
    ensures forall i :: 0 <= i < |p.seen| ==> TooMuch(q, channels, transit, limit, i) == TooMuch(p, channels, transit, limit, i)
    ensures forall i :: 0 <= i < |p.seen| ==> WindowHolds(q, channels, i) == WindowHolds(p, channels, i)
    ensures forall i :: 0 <= i < |p.seen| ==> DataHolds(q, channels, transit, limit, i) == DataHolds(p, channels, transit, limit, i)
  {
    hide TooMuch, WindowHolds, DataHolds;
    forall i | 0 <= i < |p.seen|
      ensures TooMuch(q, channels, transit, limit, i) == TooMuch(p, channels, transit, limit, i)
      ensures WindowHolds(q, channels, i) == WindowHolds(p, channels, i)
      ensures DataHolds(q, channels, transit, limit, i) == DataHolds(p, channels, transit, limit, i)
    {
      SameBefore(p, q, channels, transit, limit, i);
      SameDataBefore(p, q, channels, transit, limit, i);
    }
  }

  lemma MuchNow(p: Pass, q: Pass, channels: nat, transit: int, limit: int)
    requires |p.seen| == |p.blocked| == |p.taken| && |q.seen| == |q.blocked| == |q.taken| == |p.seen| + 1
    requires p.seen <= q.seen && p.taken <= q.taken && p.moved == Select(p.seen, p.taken, true)
    ensures var n := |p.seen|;
            TooMuch(q, channels, transit, limit, n) <==>
              q.seen[n].ref.To? && !WindowHolds(q, channels, n) && transit + Total(p.moved, Bytes()) + q.seen[n].length > limit
  {
    assert q.seen[..|p.seen|] == p.seen && q.taken[..|p.seen|] == p.taken;
    hide WindowHolds, Select, Total;
  }

  lemma OneMoreFlag(flags: seq<bool>, b: bool)
    ensures (exists j :: 0 <= j < |flags + [b]| && (flags + [b])[j]) <==> b || exists j :: 0 <= j < |flags| && flags[j]
  {
    if b { assert (flags + [b])[|flags|]; }
    if j :| 0 <= j < |flags| && flags[j] { assert (flags + [b])[j]; }
  }

  lemma WrapLast(q: Pass, channels: nat, wrap: bool)
    requires |q.seen| == |q.blocked| > 0 && (wrap <==> exists j :: 0 <= j < |q.seen| && q.blocked[j])
    ensures var n := |q.seen| - 1; WindowHolds(q, channels, n) <==> q.seen[n].channel < channels && wrap
  {
  }

  lemma ExceededLast(p: Pass, q: Pass, channels: nat, transit: int, limit: int, exceeded: bool)
    requires |p.seen| == |p.blocked| == |p.taken| && |q.seen| == |q.blocked| == |q.taken| == |p.seen| + 1
    requires forall i :: 0 <= i < |p.seen| ==> TooMuch(q, channels, transit, limit, i) == TooMuch(p, channels, transit, limit, i)
    requires exceeded <==> exists j :: 0 <= j < |p.seen| && TooMuch(p, channels, transit, limit, j)
    ensures var n := |p.seen|;
            var now := exceeded || TooMuch(q, channels, transit, limit, n);
            && (now <==> exists j :: 0 <= j < |q.seen| && TooMuch(q, channels, transit, limit, j))
            && (DataHolds(q, channels, transit, limit, n) <==> q.seen[n].ref.To? && now)
  {
    hide TooMuch;
  }

  lemma BlocksOn(p: Pass, q: Pass, windows: seq<seq<u16>>, used: seq<set<nat>>, wrap: bool, blocked: bool,
                 channels: nat, transit: int, limit: int, exceeded: bool)
    requires BlockedRightly(p, windows, used) && p.rest != [] && q.seen == p.seen + [p.rest[0]] && q.blocked == p.blocked + [blocked]
    requires Flags(p, channels, transit, limit, wrap, exceeded)
    requires blocked ==> !wrap && Opens(p.rest[0], |windows|)
    requires !wrap && Opens(p.rest[0], |windows|) && WindowBusy(windows, used, p.rest[0]) ==> blocked
    ensures BlockedRightly(q, windows, used)
  {
    hide WindowBusy, Opens;
    var n := |p.seen|;
    forall j | 0 <= j <= n && Opens(q.seen[j], |windows|) && WindowBusy(windows, used, q.seen[j])
      ensures exists i :: 0 <= i <= j && q.blocked[i]
    {
      if j < n {
        var i :| 0 <= i <= j && p.blocked[i];
        assert q.blocked[i];
      } else if wrap {
        var i :| 0 <= i < n && p.blocked[i];
        assert q.blocked[i];
      } else {
        assert q.blocked[n];
      }
    }
  }

  lemma WindowsGrowOn(w0: seq<seq<u16>>, u0: seq<set<nat>>, w1: seq<seq<u16>>, u1: seq<set<nat>>, w2: seq<seq<u16>>, u2: seq<set<nat>>)
    requires WindowsGrow(w0, u0, w1, u1) && WindowsGrow(w1, u1, w2, u2)
    ensures WindowsGrow(w0, u0, w2, u2) && |w2| == |w0|
  {
  }

  lemma PassStarts(q: Queues, now: u32, roundTrip: u32)
    ensures InPass(q, q, Pass([], q.reliable, [], [], [], []), now, roundTrip) && SameRefs(q, q) && !Carries([])
  {
  }

  /** The next command is passed over. */
  lemma PassAt(q0: Queues, q: Queues, p: Pass, now: u32, roundTrip: u32)
    requires InPass(q0, q, p, now, roundTrip) && p.rest != []
    ensures |p.kept| < |q.reliable| && q.reliable[|p.kept|] == p.rest[0]
    ensures forall b :: InPass(q0, q, p.Skip(b), now, roundTrip)
    ensures Carries(p.Take().moved) <==> Carries(p.moved) || p.rest[0].ref.To?
  {
    SelectNext(p.seen, p.taken, p.rest[0], false, false);
    SelectNext(p.seen, p.taken, p.rest[0], false, true);
    hide Select, Carries;
    Regroup(p.seen, p.rest);
    Regroup(p.kept, p.rest);
    CarriesNext(p.moved, p.rest[0]);
  }

  /** The next command is sent. */
  lemma PassTakes(q0: Queues, q: Queues, q': Queues, p: Pass, now: u32, roundTrip: u32)
    requires InPass(q0, q, p, now, roundTrip) && p.rest != [] && |p.kept| < |q.reliable|
    requires q'.sentReliable == q.sentReliable + [SentAt(p.rest[0], now, roundTrip)]
    requires q'.reliable == Without(q.reliable, |p.kept|)
    ensures InPass(q0, q', p.Take(), now, roundTrip)
  {
    var c := p.rest[0];
    SelectNext(p.seen, p.taken, c, true, false);
    SelectNext(p.seen, p.taken, c, true, true);
    hide Select, SentAt, Carries;
    Regroup(p.seen, p.rest);
    WithoutMiddle(p.kept, p.rest);
    SentAtNext(q0.sentReliable, p.moved, c, now, roundTrip);
  }

  lemma ShorterBy1<T>(s: seq<T>, i: nat)
    requires i < |s|
    ensures |Without(s, i)| == |s| - 1
  {
  }

  lemma WithoutMiddle<T>(s: seq<T>, t: seq<T>)
    requires t != []
    ensures Without(s + t, |s|) == s + t[1..]
  {
  }

  lemma SentAtNext(sent: seq<Outgoing>, moved: seq<Outgoing>, c: Outgoing, now: u32, roundTrip: u32)
    ensures sent + AllSentAt(moved + [c], now, roundTrip) == sent + AllSentAt(moved, now, roundTrip) + [SentAt(c, now, roundTrip)]
  {
    hide SentAt, AllSentAt;
    assert AllSentAt(moved + [c], now, roundTrip) == AllSentAt(moved, now, roundTrip) + [SentAt(c, now, roundTrip)];
  }

  lemma CarriesNext(moved: seq<Outgoing>, c: Outgoing)
    ensures Carries(moved + [c]) <==> Carries(moved) || c.ref.To?
  {
    if c.ref.To? { assert c in moved + [c]; }
    if Carries(moved) {
      var d :| d in moved && d.ref.To?;
      assert d in moved + [c];
    }
  }

  lemma Fits(s: seq<Outgoing>, k: nat)
    requires FitDatagram(s) && k < |s|
    ensures s[k].size + s[k].length < 0x10000
  {
    assert s[k] in s;
  }

  /** Commands of one unreliable packet. */
  predicate SameGroup(a: Outgoing, b: Outgoing) { a.number == b.number && a.unreliable == b.unreliable }

  lemma NewAccounts(windows: seq<seq<u16>>, used: seq<set<nat>>, sent: seq<Outgoing>, waiting: seq<Outgoing>, commands: seq<Outgoing>)
    requires ResentFirst(waiting) && FitDatagram(waiting) && WindowsCount(windows, used, sent, waiting)
    requires forall c :: c in commands ==> c.attempts == 0 && c.size + c.length < 0x10000
    ensures ResentFirst(waiting + commands) && FitDatagram(waiting + commands)
    ensures WindowsCount(windows, used, sent, waiting + commands)
  {
    hide Total;
    forall ch: nat, v: nat | ch < |windows| && v < WINDOWS
      ensures WindowCounts(windows, used, sent, waiting + commands, ch, v)
    {
      assert WindowCounts(windows, used, sent, waiting, ch, v);
      TotalSplit(waiting, commands, SentIn(ch, v));
      NoneSent(commands, ch, v);
    }
    var all := waiting + commands;
    forall k | |waiting| <= k < |all| ensures all[k].attempts == 0 { assert all[k] in commands; }
    assert forall k :: 0 <= k < |waiting| ==> all[k] == waiting[k];
  }

  lemma {:induction false} NoneSent(s: seq<Outgoing>, ch: nat, w: nat)
    requires forall c :: c in s ==> c.attempts == 0
    ensures Total(s, SentIn(ch, w)) == 0
  {
    if s != [] {
      assert s[0] in s;
      NoneSent(s[1..], ch, w);
    }
  }

  lemma IncomingLeaves(q: Queues)
    ensures q.dispatched != [] ==> Leaves(q, q.(dispatched := q.dispatched[1..]), To(q.dispatched[0]))
    ensures q.held != [] ==> Leaves(q, q.(held := q.held[1..]), To(q.held[0]))
  {
    hide Total;
  }

  lemma HandedOver(packets: map<nat, nat>, q: Queues, q': Queues, p: nat)
    requires Counted(packets, q) && Leaves(q, q', To(p))
    ensures p in packets && packets[p] > 0 && Counted(packets[p := packets[p] - 1], q')
  {
    hide Refs;
    assert Refs(q, p) == Refs(q', p) + 1;
  }

  lemma NothingQueued(p0: map<nat, nat>, q0: Queues, packets: map<nat, nat>, q: Queues)
    requires Collected(p0, q0, packets, q) && q == Queues([], [], [], [], [], [])
    ensures forall p: nat :: p in packets <==> p in p0 && Refs(q0, p) == 0
  {
    forall p: nat ensures Refs(q, p) == 0 { }
  }

  function WithData(s: seq<Outgoing>): seq<Outgoing> {
    if s == [] then []
    else WithData(s[..|s| - 1]) + if s[|s| - 1].ref.To? then [s[|s| - 1]] else []
  }

  /** Of commands of one packet that follow one another, none is left once an earlier one is dropped. */
  ghost predicate DroppedWhole(list: seq<Outgoing>, sent: seq<bool>)
    requires |sent| <= |list|
  {
    forall i :: 0 <= i < |sent| && !sent[i] && i + 1 < |list| && SameGroup(list[i], list[i + 1]) ==>
      i + 1 < |sent| && !sent[i + 1]
  }

  /** The throttle lets a packet through or not by a counter that goes round with its first commands. */
  predicate Throttles(c: Outgoing, counter: u32, throttle: u32) {
    c.ref.To? && c.offset == 0 && (counter + THROTTLE_COUNTER) % THROTTLE_SCALE > throttle
  }

  /** The counter of the throttle after a command. */
  function Advanced(c: Outgoing, counter: u32): u32 {
    if c.ref.To? && c.offset == 0 then (counter + THROTTLE_COUNTER) % THROTTLE_SCALE else counter
  }

  function Grown(d: Datagram, c: Outgoing, sent: bool): Datagram {
    if sent then Datagram(d.size + OnWire()(c), d.commands + 1, d.buffers + Buffers()(c)) else d
  }

  /** The commands at the front that belong to the packet of `first`. */
  function GroupLength(first: Outgoing, s: seq<Outgoing>): (n: nat)
    ensures n <= |s|
  {
    if s == [] || !SameGroup(first, s[0]) then 0 else 1 + GroupLength(first, s[1..])
  }

  /** Which of the commands go out, if there is room for all of them. */
  function Flow(s: seq<Outgoing>, counter: u32, throttle: u32): (flags: seq<bool>)
    ensures |flags| == |s|
  {
    if s == [] then []
    else if Throttles(s[0], counter, throttle) then
      var n := GroupLength(s[0], s);
      seq(n, _ => false) + Flow(s[n..], Advanced(s[0], counter), throttle)
    else [true] + Flow(s[1..], Advanced(s[0], counter), throttle)
  }

  lemma {:induction false} GroupIs(first: Outgoing, s: seq<Outgoing>, n: nat)
    requires n <= |s| && (forall i :: 0 <= i < n ==> SameGroup(first, s[i])) && (n < |s| ==> !SameGroup(first, s[n]))
    ensures GroupLength(first, s) == n
  {
    if n > 0 { GroupIs(first, s[1..], n - 1); }
  }

  lemma FlowGoesOn(q: Queues, q': Queues, counter: u32, throttle: u32, done: seq<bool>, sent: seq<bool>)
    requires q.unreliable != [] && SentOrDropped(q, q', done)
    requires done == [true] <==> !Throttles(q.unreliable[0], counter, throttle)
    ensures |q'.unreliable| < |q.unreliable|
    ensures (sent + done) + Flow(q'.unreliable, Advanced(q.unreliable[0], counter), throttle) == sent + Flow(q.unreliable, counter, throttle)
  {
    hide SameGroup, Throttles;
    if done != [true] { GroupIs(q.unreliable[0], q.unreliable, |done|); }
    var rest := Flow(q'.unreliable, Advanced(q.unreliable[0], counter), throttle);
    assert Flow(q.unreliable, counter, throttle) == done + rest;
    assert (sent + done) + rest == sent + (done + rest);
  }

  lemma FilledOn(q0: Queues, q: Queues, q': Queues, sent: seq<bool>, done: seq<bool>, d0: Datagram, d: Datagram, d': Datagram)
    requires UnreliablePass(q0, q, sent) && SentOrDropped(q, q', done) && Filled(Select(q0.unreliable[..|sent|], sent, true), d0, d)
    requires d' == Grown(d, q.unreliable[0], done == [true])
    ensures |sent + done| <= |q0.unreliable| && Filled(Select(q0.unreliable[..|sent + done|], sent + done, true), d0, d')
  {
    hide SameGroup, DroppedWhole, WithData;
    var n := |sent|;
    var list := q0.unreliable;
    assert q.unreliable == list[n..];
    assert list[..n + |done|] == list[..n] + list[n..n + |done|];
    hide Total;
    if done == [true] {
      assert list[n..n + 1] == [list[n]];
      SelectNext(list[..n], sent, list[n], true, true);
      var moved := Select(list[..n], sent, true);
      TotalOne(moved, list[n], OnWire());
      TotalOne(moved, list[n], Buffers());
    } else {
      SelectNone(list[..n], list[n..n + |done|], sent);
    }
  }

  /** Of any 32 packets in a row the throttle lets through one more than its setting, and all of them at full
      scale; which ones is spread evenly, since its counter steps by 7 around 32. */
  lemma ThrottleShare(counter: u32, throttle: u32)
    ensures Passing(counter, throttle, 32) == if throttle >= 31 then 32 else throttle + 1
    decreases throttle
  {
    if throttle >= 32 {
      AllPass(counter, throttle, 32);
    } else if throttle == 0 {
      HitsOnce(counter, 0);
      OnlyHits(counter, 32);
    } else {
      ThrottleShare(counter, throttle - 1);
      HitsOnce(counter, throttle);
      OneLevelMore(counter, throttle, 32);
    }
  }

  /** The counter after `k` packets. */
  function CounterAfter(counter: u32, k: nat): u32 {
    if k == 0 then counter else (CounterAfter(counter, k - 1) + THROTTLE_COUNTER) % THROTTLE_SCALE
  }

  /** How many of the next `n` packets pass. */
  function Passing(counter: u32, throttle: u32, n: nat): nat {
    if n == 0 then 0 else Passing(counter, throttle, n - 1) + if CounterAfter(counter, n) > throttle then 0 else 1
  }

  /** How often the counter shows `v` in the next `n` packets. */
  function Hits(counter: u32, v: nat, n: nat): nat {
    if n == 0 then 0 else Hits(counter, v, n - 1) + if CounterAfter(counter, n) == v then 1 else 0
  }

  lemma {:induction false} AllPass(counter: u32, throttle: u32, n: nat)
    requires throttle >= 32
    ensures Passing(counter, throttle, n) == n
  {
    if n > 0 { AllPass(counter, throttle, n - 1); }
  }

  lemma {:induction false} OnlyHits(counter: u32, n: nat)
    ensures Passing(counter, 0, n) == Hits(counter, 0, n)
  {
    if n > 0 { OnlyHits(counter, n - 1); }
  }

  lemma {:induction false} OneLevelMore(counter: u32, throttle: u32, n: nat)
    requires throttle > 0
    ensures Passing(counter, throttle, n) == Passing(counter, throttle - 1, n) + Hits(counter, throttle, n)
  {
    if n > 0 { OneLevelMore(counter, throttle, n - 1); }
  }

  lemma {:induction false} CounterIs(counter: u32, k: nat)
    requires k > 0
    ensures CounterAfter(counter, k) == (counter + 7 * k) % 32
  {
    if k > 1 {
      CounterIs(counter, k - 1);
      var x := counter + 7 * (k - 1);
      LapsVanish(x + 7, x % 32 + 7, x / 32, 32);
    }
  }

  lemma HitsOnce(counter: u32, v: nat)
    requires v < 32
    ensures Hits(counter, v, 32) == 1
  {
    var k := (23 * (v - counter)) % 32;
    HitsFrom(counter, v, if k == 0 then 32 else k, 32);
  }

  /** 23 is the inverse of 7 modulo 32. */
  lemma {:induction false} HitsFrom(counter: u32, v: nat, k: nat, n: nat)
    requires v < 32 && 1 <= k <= 32 && n <= 32 && k % 32 == (23 * (v - counter)) % 32
    ensures Hits(counter, v, n) == if n >= k then 1 else 0
  {
    if n > 0 {
      HitsFrom(counter, v, k, n - 1);
      CounterIs(counter, n);
      Inverse(counter, v, n);
      OneInARound(n, k);
    }
  }

  lemma OneInARound(n: nat, k: nat)
    requires 1 <= n <= 32 && 1 <= k <= 32
    ensures n % 32 == k % 32 <==> n == k
  {
  }

  lemma Inverse(counter: u32, v: nat, n: nat)
    requires v < 32
    ensures (counter + 7 * n) % 32 == v <==> n % 32 == (23 * (v - counter)) % 32
  {
    if (counter + 7 * n) % 32 == v {
      var a := (counter + 7 * n) / 32;
      assert counter + 7 * n == 32 * a + v;
      LapsVanish(n, 23 * (v - counter), 23 * a - 5 * n, 32);
    }
    if n % 32 == (23 * (v - counter)) % 32 {
      var b := n / 32 - (23 * (v - counter)) / 32;
      assert n == 23 * (v - counter) + 32 * b;
      LapsVanish(counter + 7 * n, v, 5 * (v - counter) + 7 * b, 32);
    }
  }

  /** The first command is sent, or the first packet dropped as a whole. */
  ghost predicate SentOrDropped(q: Queues, q': Queues, sent: seq<bool>) {
    var list, n := q.unreliable, |sent|;
    && 1 <= n <= |list| && q'.unreliable == list[n..]
    && if sent == [true] then q'.sentUnreliable == q.sentUnreliable + if list[0].ref.To? then [list[0]] else []
       else
         && sent == seq(n, _ => false) && q'.sentUnreliable == q.sentUnreliable
         && (forall i :: 0 <= i < n ==> SameGroup(list[0], list[i]))
         && (n < |list| ==> !SameGroup(list[0], list[n]))
  }

  lemma Dropped(q: Queues, q': Queues, sent: seq<bool>)
    requires var list, n := q.unreliable, |sent|;
             && 1 <= n <= |list| && q' == q.(unreliable := list[n..]) && sent == seq(n, _ => false)
             && (forall i :: 0 <= i < n ==> SameGroup(list[0], list[i]))
             && (n < |list| ==> !SameGroup(list[0], list[n]))
    ensures SentOrDropped(q, q', sent) && sent != [true]
  {
    assert !sent[0];
  }

  lemma SentFirst(q: Queues, q': Queues)
    requires q.unreliable != []
    requires var c := q.unreliable[0];
             q' == q.(unreliable := q.unreliable[1..], sentUnreliable := q.sentUnreliable + if c.ref.To? then [c] else [])
    ensures SentOrDropped(q, q', [true])
  {
  }

  /** The pass over the unreliable commands, so far. */
  ghost predicate UnreliablePass(q0: Queues, q: Queues, sent: seq<bool>) {
    && |sent| <= |q0.unreliable| && q.unreliable == q0.unreliable[|sent|..] && DroppedWhole(q0.unreliable, sent)
    && q.sentUnreliable == q0.sentUnreliable + WithData(Select(q0.unreliable[..|sent|], sent, true))
  }

  lemma UnreliablePassStarts(q: Queues)
    ensures UnreliablePass(q, q, [])
  {
    assert q.unreliable[..0] == [] && WithData(Select([], [], true)) == [];
  }

  lemma UnreliablePassGoesOn(q0: Queues, q: Queues, q': Queues, sent: seq<bool>, done: seq<bool>)
    requires UnreliablePass(q0, q, sent) && SentOrDropped(q, q', done)
    ensures UnreliablePass(q0, q', sent + done)
  {
    hide SameGroup;
    if done == [true] {
      FirstSent(q0.sentUnreliable, q0.unreliable, sent);
    } else {
      GroupDropped(q0.unreliable, sent, |done|);
    }
  }

  lemma UnreliablePassEnds(q0: Queues, q: Queues, sent: seq<bool>)
    requires UnreliablePass(q0, q, sent)
    ensures |sent| <= |q0.unreliable| && q.unreliable == q0.unreliable[|sent|..] && DroppedWhole(q0.unreliable, sent)
    ensures q.sentUnreliable == q0.sentUnreliable + WithData(Select(q0.unreliable[..|sent|], sent, true))
  {
  }

  lemma {:induction false} SelectNone(s: seq<Outgoing>, t: seq<Outgoing>, sent: seq<bool>)
    requires |sent| == |s|
    ensures Select(s + t, sent + seq(|t|, _ => false), true) == Select(s, sent, true)
    decreases |t|
  {
    if t == [] {
      assert s + t == s && sent + seq(0, _ => false) == sent;
    } else {
      var t' := t[..|t| - 1];
      SelectNone(s, t', sent);
      SelectNext(s + t', sent + seq(|t'|, _ => false), t[|t| - 1], false, true);
      assert s + t == (s + t') + [t[|t| - 1]];
      assert sent + seq(|t|, _ => false) == (sent + seq(|t'|, _ => false)) + [false];
    }
  }

  lemma GroupDropped(list: seq<Outgoing>, sent: seq<bool>, n: nat)
    requires |sent| + n <= |list| && n >= 1 && DroppedWhole(list, sent)
    requires forall i :: 0 <= i < n ==> SameGroup(list[|sent|..][0], list[|sent|..][i])
    requires |sent| + n < |list| ==> !SameGroup(list[|sent|..][0], list[|sent|..][n])
    ensures var more := sent + seq(n, _ => false);
            && DroppedWhole(list, more) && |more| <= |list| && list[|more|..] == list[|sent|..][n..]
            && Select(list[..|more|], more, true) == Select(list[..|sent|], sent, true)
  {
    var more := sent + seq(n, _ => false);
    SelectNone(list[..|sent|], list[|sent|..|sent| + n], sent);
    assert list[..|more|] == list[..|sent|] + list[|sent|..|sent| + n];
    forall i | 0 <= i < |more| && !more[i] && i + 1 < |list| && SameGroup(list[i], list[i + 1])
      ensures i + 1 < |more| && !more[i + 1]
    {
      if i >= |sent| {
        assert list[|sent|..][i - |sent|] == list[i] && list[|sent|..][i + 1 - |sent|] == list[i + 1];
      }
    }
  }

  lemma FirstSent(before: seq<Outgoing>, list: seq<Outgoing>, sent: seq<bool>)
    requires |sent| < |list| && DroppedWhole(list, sent)
    ensures var c, more := list[|sent|], sent + [true];
            && DroppedWhole(list, more) && list[|more|..] == list[|sent|..][1..]
            && before + WithData(Select(list[..|more|], more, true))
               == before + WithData(Select(list[..|sent|], sent, true)) + if c.ref.To? then [c] else []
  {
    var c, more, picked := list[|sent|], sent + [true], Select(list[..|sent|], sent, true);
    SelectNext(list[..|sent|], sent, c, true, true);
    assert list[..|more|] == list[..|sent|] + [c];
    assert (picked + [c])[..|picked|] == picked;
  }

  lemma SameRefsCollected(packets: map<nat, nat>, q: Queues, q': Queues)
    requires Counted(packets, q) && SameRefs(q, q')
    ensures Collected(packets, q, packets, q')
  {
    hide Refs;
  }

  lemma UnreliableMoves(q: Queues)
    requires q.unreliable != []
    ensures var c := q.unreliable[0];
            SameRefs(q, q.(unreliable := q.unreliable[1..],
                           sentUnreliable := q.sentUnreliable + if c.ref.To? then [c] else []))
  {
    var c := q.unreliable[0];
    hide Occurrences;
    forall p: nat ensures Total(q.sentUnreliable + [c], PointsAt(p)) == Total(q.sentUnreliable, PointsAt(p)) + PointsAt(p)(c) {
      TotalOne(q.sentUnreliable, c, PointsAt(p));
    }
    assert q.sentUnreliable + [] == q.sentUnreliable;
  }

  lemma HeldOne(q: Queues, p: nat)
    ensures forall x: nat :: Refs(q.(held := q.held + [p]), x) == Refs(q, x) + if To(p) == To(x) then 1 else 0
  {
    hide Total;
    forall x: nat ensures Occurrences(q.held + [p], x) == Occurrences(q.held, x) + if p == x then 1 else 0 {
      OccurrencesSplit(q.held, [p], x);
    }
  }

  lemma InThree<T>(s: seq<T>, i: nat, j: nat)
    requires i <= j <= |s|
    ensures s == s[..j] + s[j..] && s[..j] == s[..i] + s[i..j]
  {
  }

  lemma HeldMoves(q: Queues, i: nat, j: nat)
    requires i <= j <= |q.held|
    ensures SameRefs(q, q.(held := q.held[..i] + q.held[j..], dispatched := q.dispatched + q.held[i..j]))
  {
    hide Total;
    forall x: nat
      ensures Occurrences(q.held[..i] + q.held[j..], x) + Occurrences(q.dispatched + q.held[i..j], x)
           == Occurrences(q.held, x) + Occurrences(q.dispatched, x)
    {
      OccurrencesSplit(q.held[..i], q.held[j..], x);
      OccurrencesSplit(q.dispatched, q.held[i..j], x);
      OccurrencesSplit(q.held[..i], q.held[i..j], x);
      OccurrencesSplit(q.held[..j], q.held[j..], x);
      InThree(q.held, i, j);
    }
  }
}
