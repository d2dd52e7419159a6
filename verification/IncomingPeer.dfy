/** The receiving end as the program runs it, over its two linked lists: what waits in a channel, and what is
    ready for the application. Each method is proved to do what the functions of IncomingChannel say. */
module IncomingPeer {
  import opened Numbers
  import opened ReliableChannel
  import opened IncomingChannel
  import Lists = IntrusiveList

  type Node = Lists.Node<Incoming>

  class ReliableReceiver {
    var incomingReliableSequenceNumber: u16
    const incomingReliableCommands: Node       // sentinels
    const dispatchedCommands: Node
    ghost var pending: seq<Node>
    ghost var ready: seq<Node>
    ghost var waiting: seq<Incoming>              // what the pending nodes carry
    ghost var packets: seq<seq<byte>>             // everything dispatched
    ghost var taken: nat                          // of which the application took this many

    ghost function Nodes(): set<Node>
      reads this
    {
      {incomingReliableCommands, dispatchedCommands} + Lists.Members(pending) + Lists.Members(ready)
    }

    ghost predicate Valid()
      reads this, Nodes()
    {
      && Lists.Holds(incomingReliableCommands, pending) && Lists.Holds(dispatchedCommands, ready)
      && Lists.Apart(incomingReliableCommands, pending, dispatchedCommands, ready)
      && Lists.Carry(pending, waiting)
      && Delivers(ready, packets, taken)
    }

    /** What is ready are the packets not taken yet. */
    static ghost predicate Delivers(ready: seq<Node>, packets: seq<seq<byte>>, taken: nat)
      reads ready
    {
      |packets| == taken + |ready| && forall k :: 0 <= k < |ready| ==> ready[k].item.data == packets[taken + k]
    }

    ghost function View(): Channel
      reads this
    {
      Channel(incomingReliableSequenceNumber, waiting, packets)
    }

    constructor ()
      ensures Valid() && fresh(Nodes()) && View() == Channel(0, [], []) && taken == 0
    {
      incomingReliableSequenceNumber := 0;
      incomingReliableCommands := new Lists.Node(Incoming(0, 0, 0, [], []));
      dispatchedCommands := new Lists.Node(Incoming(0, 0, 0, [], []));
      pending, ready, waiting, packets, taken := [], [], [], [], 0;
      new;
      Lists.Clear(incomingReliableCommands);
      Lists.Clear(dispatchedCommands);
    }

    lemma MoreDelivered(ready: seq<Node>, packets: seq<seq<byte>>, taken: nat, front: seq<Node>, back: seq<Node>, items: seq<Incoming>)
      requires Delivers(ready, packets, taken) && Lists.Carry(front + back, items)
      ensures Delivers(ready + front, packets + Bodies(items[..|front|]), taken) && Lists.Carry(back, items[|front|..])
    {
      var c := front + back;
      assert forall k :: 0 <= k < |front| ==> c[k] == front[k];
      assert forall k :: 0 <= k < |back| ==> c[|front| + k] == back[k];
    }

    /** What is in front of `current` moves over. */
    method MoveReady(current: Node, ghost k: nat)
      requires Valid() && 0 < k <= |pending| && current == Lists.At(incomingReliableCommands, pending, k + 1)
      modifies this`pending, this`ready, this`waiting, this`packets, Nodes()`next, Nodes()`previous
      ensures Valid() && Nodes() == old(Nodes()) && pending == old(pending)[k..]
      ensures waiting == old(waiting)[k..] && packets == old(packets) + Bodies(old(waiting)[..k])
    {
      hide Lists.Holds, Lists.Apart, Bodies, Lists.At, Lists.Members;
      ghost var c, d := pending, ready;
      assert c == c[..k] + c[k..];
      MoreDelivered(d, packets, taken, c[..k], c[k..], waiting);
      packets, waiting, ready, pending := packets + Bodies(waiting[..k]), waiting[k..], d + c[..k], c[k..];
      Lists.MoveFront(incomingReliableCommands, dispatchedCommands, current, c, d, k);
    }

    /** The loop of `enet_peer_dispatch_incoming_reliable_commands`: the first command that has to wait. */
    method PassReady() returns (current: Node, ghost k: nat)
      requires Valid()
      modifies this`incomingReliableSequenceNumber
      ensures k <= |pending| && current == Lists.At(incomingReliableCommands, pending, k + 1)
      ensures Dispatch(old(View())) == Channel(incomingReliableSequenceNumber, waiting[k..], packets + Bodies(waiting[..k]))
      ensures forall l :: 0 <= l < k ==> waiting[l].remaining == 0
      ensures k == 0 ==> incomingReliableSequenceNumber == old(incomingReliableSequenceNumber)
    {
      hide Dispatch, Lists.Distinct, Lists.Apart, Bodies, Delivers;
      ghost var s := incomingReliableCommands;
      k := 0;
      assert waiting[0..] == waiting && packets + Bodies(waiting[..0]) == packets;
      assert Lists.Linked(s, pending, 0);
      current := incomingReliableCommands.next;
      while current != incomingReliableCommands
        invariant k <= |pending| && current == Lists.At(s, pending, k + 1)
        invariant Dispatch(Channel(incomingReliableSequenceNumber, waiting[k..], packets + Bodies(waiting[..k]))) == Dispatch(old(View()))
        invariant forall l :: 0 <= l < k ==> waiting[l].remaining == 0
        invariant k == 0 ==> incomingReliableSequenceNumber == old(incomingReliableSequenceNumber)
        decreases |pending| - k
      {
        assert Lists.Linked(s, pending, k + 1) && current == pending[k] && waiting[k] == current.item;
        var command := current.item;
        if command.remaining > 0 || command.number != U16(incomingReliableSequenceNumber + 1) { break; }
        DispatchSkips(incomingReliableSequenceNumber, waiting, packets, k);
        incomingReliableSequenceNumber := command.number;
        if command.count > 0 {
          incomingReliableSequenceNumber := U16(incomingReliableSequenceNumber + (command.count - 1));
        }
        k := k + 1;
        current := current.next;
      }
      if k < |pending| { Lists.PlacesDiffer(s, pending, k + 1, 0); }
      DispatchStops(Channel(incomingReliableSequenceNumber, waiting[k..], packets + Bodies(waiting[..k])));
    }

    /** `enet_peer_dispatch_incoming_reliable_commands`: the ready commands at the front move over. */
    method DispatchReliable()
      requires Valid()
      modifies this`incomingReliableSequenceNumber, this`pending, this`ready, this`waiting, this`packets, Nodes()`next, Nodes()`previous
      ensures Valid() && Nodes() == old(Nodes())
      ensures View() == Dispatch(old(View()))
      ensures |pending| <= |old(pending)| && pending == old(pending)[|old(pending)| - |pending|..]
      ensures forall k :: 0 <= k < |old(pending)| - |pending| ==> old(waiting)[k].remaining == 0
    {
      hide Dispatch, Lists.Distinct, Lists.Apart, Bodies, Delivers, Lists.Members;
      var current, k := PassReady();
      Lists.AtFront(incomingReliableCommands, pending, k);
      if current == incomingReliableCommands.next {
        assert waiting[0..] == waiting && packets + Bodies(waiting[..0]) == packets;
        return;
      }
      MoveReady(current, k);
    }

    lemma DispatchSkips(last: u16, pending: seq<Incoming>, packets: seq<seq<byte>>, k: nat)
      requires k < |pending| && CanDispatch(Channel(last, pending[k..], packets + Bodies(pending[..k])))
      ensures Dispatch(Channel(last, pending[k..], packets + Bodies(pending[..k])))
           == Dispatch(Channel(AfterDispatch(pending[k]), pending[k + 1..], packets + Bodies(pending[..k + 1])))
    {
      hide Bodies, AfterDispatch;
      assert Bodies(pending[..k + 1]) == Bodies(pending[..k]) + [pending[k].data];
      assert packets + Bodies(pending[..k]) + [pending[k].data] == packets + Bodies(pending[..k + 1]);
      assert pending[k..][1..] == pending[k + 1..];
    }

    lemma DispatchStops(ch: Channel)
      requires !CanDispatch(ch)
      ensures Dispatch(ch) == ch
    {
    }

    /** The window test of both handlers. */
    method Accepts(number: u16) returns (ok: bool)
      ensures ok == InWindow(incomingReliableSequenceNumber, number)
    {
      var window, current := number / WINDOW_SIZE, incomingReliableSequenceNumber / WINDOW_SIZE;
      if number < incomingReliableSequenceNumber { window := window + WINDOWS; }
      ok := !(window < current || window >= current + FREE_WINDOWS - 1);
    }

    /** The backward search of both handlers: the command with this number, or the one to queue behind. */
    method FindPlace(number: u16) returns (current: Node, same: bool, ghost k: nat)
      requires Valid()
      ensures var spot := Search(waiting, incomingReliableSequenceNumber, number, |waiting|);
              && same == spot.Same? && k == (if spot.Same? then spot.index + 1 else spot.index) <= |pending|
              && current == Lists.At(incomingReliableCommands, pending, if spot.Same? then spot.index + 1 else spot.index)
    {
      hide Lists.Distinct, Lists.Apart, Delivers, Lists.Members;
      ghost var s := incomingReliableCommands;
      var last := incomingReliableSequenceNumber;
      assert Lists.Linked(s, pending, |pending|);
      current, same, k := incomingReliableCommands.previous, false, |pending|;
      while current != incomingReliableCommands
        invariant k <= |pending| && current == Lists.At(s, pending, k)
        invariant Search(waiting, last, number, |waiting|) == Search(waiting, last, number, k)
        decreases k
      {
        assert current == pending[k - 1] && waiting[k - 1] == current.item && Lists.Linked(s, pending, k - 1);
        var queued := current.item.number;
        if number >= last {
          if queued < last {
            current, k := current.previous, k - 1;
            continue;
          }
        } else if queued >= last {
          return;
        }
        if queued <= number {
          same := queued == number;
          return;
        }
        current, k := current.previous, k - 1;
      }
      if k > 0 { Lists.PlacesDiffer(s, pending, k, 0); }
    }

    /** `enet_peer_queue_incoming_command` for a reliable command, or for the first fragment to arrive. A
        packet with fragments missing is still there afterwards. */
    method QueueIncomingCommand(command: Incoming) returns (verdict: Verdict, queued: Lists.Node?<Incoming>)
      requires Valid()
      modifies this, Nodes()`next, Nodes()`previous
      ensures Valid() && fresh(Nodes() - old(Nodes())) && taken == old(taken)
      ensures (View(), verdict) == QueueIncoming(old(View()), command)
      ensures verdict == Kept <==> queued != null
      ensures queued != null && command.remaining > 0 ==>
                var ch := old(View());
                var i := Search(ch.pending, ch.last, command.number, |ch.pending|).index - (|ch.pending| + 1 - |waiting|);
                0 <= i < |pending| && pending[i] == queued && waiting[i] == command
    {
      hide Search, Dispatch, InWindow, Lists.Holds, Lists.Apart, Lists.Members, Delivers;
      var number := command.number;
      var freed := if command.count > 0 then Failed else Dropped;
      var accepted := Accepts(number);
      if !accepted || number == incomingReliableSequenceNumber { return freed, null; }
      var current, same, k := FindPlace(number);
      if same { return freed, null; }
      var node := Enqueue(current, command, k);
      ghost var c, items := pending, waiting;
      assert c[k] == node && items[k] == command;
      DispatchReliable();
      ghost var gone := |c| - |pending|;
      assert command.remaining > 0 ==> k >= gone && pending[k - gone] == c[gone..][k - gone];
      verdict, queued := Kept, node;
    }

    method Enqueue(current: Node, command: Incoming, ghost k: nat) returns (node: Node)
      requires Valid() && k <= |pending| && current == Lists.At(incomingReliableCommands, pending, k)
      modifies this`pending, this`waiting, Nodes()`next, Nodes()`previous
      ensures Valid() && fresh(node) && Nodes() == old(Nodes()) + {node}
      ensures pending == old(pending)[..k] + [node] + old(pending)[k..]
      ensures waiting == old(waiting)[..k] + [command] + old(waiting)[k..]
    {
      hide Lists.Holds, Lists.Apart, Lists.At;
      ghost var c, d, nodes := pending, ready, Nodes();
      node := new Lists.Node(command);
      assert Lists.Carry(c, waiting) && Delivers(d, packets, taken);
      assert node !in nodes && nodes == {incomingReliableCommands, dispatchedCommands} + Lists.Members(c) + Lists.Members(d);
      hide Lists.Members;
      waiting, pending := waiting[..k] + [command] + waiting[k..], c[..k] + [node] + c[k..];
      Lists.InsertAfter(incomingReliableCommands, current, node, c, k, dispatchedCommands, d);
    }

    /** The end of `enet_protocol_handle_send_fragment`: a fragment that is new is marked and copied. */
    method StoreFragment(start: Node, n: nat, offset: nat, data: seq<byte>, ghost i: nat)
      requires Valid() && i < |pending| && start == pending[i]
      requires n < |waiting[i].got| && offset + |data| <= |waiting[i].data|
      modifies this, start`item, Nodes()`next, Nodes()`previous
      ensures Valid() && Nodes() == old(Nodes()) && taken == old(taken)
      ensures View() == StoreAt(old(View()), i, n, offset, data)
    {
      hide Dispatch, Lists.Holds, Lists.Apart, Lists.Members, Delivers;
      var command := start.item;
      assert command == waiting[i];
      if !command.got[n] {
        command := command.(remaining := if command.remaining > 0 then command.remaining - 1 else 0, got := command.got[n := true]);
        var packet := Copy(command.data, offset, data);
        command := command.(data := packet);
        Update(start, command, i);
        if command.remaining <= 0 { DispatchReliable(); }
      } else {
        assert waiting[i := command] == waiting;
      }
    }

    method Update(node: Node, command: Incoming, ghost i: nat)
      requires Valid() && i < |pending| && node == pending[i]
      modifies this`waiting, node`item
      ensures Valid() && waiting == old(waiting)[i := command]
    {
      hide Lists.Holds;
      ghost var s, c, t, d, items := incomingReliableCommands, pending, dispatchedCommands, ready, waiting;
      waiting := waiting[i := command];
      assert node in c && node !in d;
      Lists.SetItem(node, command, s, c, items, i, t, d);
    }

    /** The copying of a fragment into its packet. */
    static method Copy(into: seq<byte>, offset: nat, data: seq<byte>) returns (packet: seq<byte>)
      requires offset + |data| <= |into|
      ensures packet == into[..offset] + data + into[offset + |data|..]
    {
      packet := into;
      for k := 0 to |data|
        invariant packet == into[..offset] + data[..k] + into[offset + k..]
      {
        packet := packet[offset + k := data[k]];
      }
      assert data[..|data|] == data;
    }

    lemma CarriedAt(i: nat)
      requires Valid() && i < |pending|
      ensures |waiting| == |pending| && pending[i].item == waiting[i] && pending[i] in Nodes()
    {
    }

    static lemma IntoQueued(ch: Channel, start: u16, n: nat, count: nat, offset: nat, total: nat, data: seq<byte>, i: nat)
      requires InWindow(ch.last, start) && n < count && offset < total && offset + |data| <= total
      requires Search(ch.pending, ch.last, start, |ch.pending|) == Same(i) && i < |ch.pending|
      requires ch.pending[i].count == count && |ch.pending[i].data| == total && |ch.pending[i].got| == count
      ensures ReceiveFragment(ch, start, n, count, offset, total, data) == (StoreAt(ch, i, n, offset, data), Kept)
    {
      hide Search, InWindow, StoreAt, QueueIncoming;
    }

    static lemma IntoNew(ch: Channel, start: u16, n: nat, count: nat, offset: nat, total: nat, data: seq<byte>, ch1: Channel, k: nat, j: nat)
      requires InWindow(ch.last, start) && n < count && offset < total && offset + |data| <= total
      requires Search(ch.pending, ch.last, start, |ch.pending|) == At(k)
      requires QueueIncoming(ch, EmptyEntry(start, count, total)) == (ch1, Kept) && j == k - (|ch.pending| + 1 - |ch1.pending|)
      requires j < |ch1.pending| && ch1.pending[j] == EmptyEntry(start, count, total)
      ensures ReceiveFragment(ch, start, n, count, offset, total, data) == (StoreAt(ch1, j, n, offset, data), Kept)
    {
      hide Search, InWindow, StoreAt, QueueIncoming;
    }

    /** `enet_protocol_handle_send_fragment`, once the fields are read. */
    method HandleSendFragment(start: u16, n: nat, count: nat, offset: nat, total: nat, data: seq<byte>) returns (verdict: Verdict)
      requires Valid()
      modifies this, Nodes()
      ensures Valid() && fresh(Nodes() - old(Nodes())) && taken == old(taken)
      ensures (View(), verdict) == ReceiveFragment(old(View()), start, n, count, offset, total, data)
    {
      hide Search, Dispatch, InWindow, QueueIncoming, StoreAt, Lists.Holds, Lists.Apart, Lists.Carry, Delivers;
      ghost var ch := View();
      var accepted := Accepts(start);
      if !accepted { return Dropped; }
      if offset >= total || offset + |data| > total || n >= count { return Failed; }
      var current, same, k := FindPlace(start);
      var startCommand: Lists.Node?<Incoming> := null;
      ghost var i := k;
      if same {
        i := k - 1;
        CarriedAt(i);
        var command := current.item;
        if command.count != count || |command.data| != total || |command.got| != count { return Failed; }
        startCommand := current;
        IntoQueued(ch, start, n, count, offset, total, data, i);
      } else {
        verdict, startCommand := QueueIncomingCommand(EmptyEntry(start, count, total));
        if startCommand == null { return; }
        i := k - (|ch.pending| + 1 - |waiting|);
        CarriedAt(i);
        IntoNew(ch, start, n, count, offset, total, data, View(), k, i);
      }
      StoreFragment(startCommand, n, offset, data, i);
      verdict := Kept;
    }

    method HandleCommand(c: Command) returns (verdict: Verdict)
      requires Valid()
      modifies this, Nodes()
      ensures Valid() && fresh(Nodes() - old(Nodes())) && taken == old(taken)
      ensures (View(), verdict) == Receive(old(View()), c)
    {
      match c.part
      case Whole =>
        var v, _ := QueueIncomingCommand(Incoming(c.number, 0, 0, [], c.data));
        verdict := v;
      case Fragment(n, count, offset, total) => verdict := HandleSendFragment(c.start, n, count, offset, total, c.data);
    }

    /** `enet_peer_receive`: the application gets the packets in the order they were dispatched in. */
    method Take() returns (some: bool, packet: seq<byte>)
      requires Valid()
      modifies this`ready, this`taken, Nodes()`next, Nodes()`previous
      ensures Valid() && Nodes() <= old(Nodes())
      ensures some <==> old(taken) < |packets|
      ensures if some then taken == old(taken) + 1 && packet == packets[old(taken)] else taken == old(taken)
    {
      hide Lists.Apart;
      ghost var c, d := pending, ready;
      assert Lists.Linked(dispatchedCommands, d, 0);
      if dispatchedCommands.next == dispatchedCommands { return false, []; }
      some, packet := true, dispatchedCommands.next.item.data;
      assert packet == packets[taken];
      hide Lists.Holds, Lists.Linked;
      ready, taken := d[1..], taken + 1;
      Lists.ApartBothWays(incomingReliableCommands, c, dispatchedCommands, d);
      var _ := Lists.RemoveFront(dispatchedCommands, d, incomingReliableCommands, c);
      Lists.ApartBothWays(dispatchedCommands, d[1..], incomingReliableCommands, c);
    }
  }

  function Bodies(s: seq<Incoming>): (v: seq<seq<byte>>)
    ensures |v| == |s| && forall i :: 0 <= i < |s| ==> v[i] == s[i].data
  {
    if s == [] then [] else [s[0].data] + Bodies(s[1..])
  }
}
