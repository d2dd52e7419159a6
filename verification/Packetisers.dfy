/** How video frames are cut into RTP payloads: `h264_send` (rtp-h264.c) and `mpeg4_send` (rtp-mpeg4.c).
    Sending a packet may fail, which ends the frame. */
module Packetisers {
  import opened Numbers

  datatype Packet = Packet(payload: seq<byte>, marker: bool)

  function Payloads(s: seq<Packet>): seq<byte> {
    if s == [] then [] else Payloads(s[..|s| - 1]) + s[|s| - 1].payload
  }

  lemma PayloadsNext(s: seq<Packet>, p: Packet)
    ensures Payloads(s + [p]) == Payloads(s) + p.payload
  {
    assert (s + [p])[..|s|] == s;
  }

  // ---------------------------------------------------------------- H.264

  /** The FU indicator and header of section 5.8 of RFC 6184. */
  function Indicator(first: byte): byte { first / 32 * 32 + 28 }

  function FuHeader(first: byte, start: bool, end: bool): byte {
    first % 32 + (if start then 0x80 else 0) + if end then 0x40 else 0
  }

  /** The fragment of a unit that begins at byte `from`. */
  function Fragment(unit: seq<byte>, max: nat, from: nat): Packet
    requires max >= 3 && 1 <= from < |unit|
  {
    var last := from + (max - 2) >= |unit|;
    Packet([Indicator(unit[0]), FuHeader(unit[0], from == 1, last)] + unit[from..if last then |unit| else from + (max - 2)], last)
  }

  /** What the rest of a unit becomes. */
  function Fragments(unit: seq<byte>, max: nat, from: nat): (r: seq<Packet>)
    requires max >= 3 && 1 <= from < |unit|
    ensures |r| >= 1
    decreases |unit| - from
  {
    var p := Fragment(unit, max, from);
    if p.marker then [p] else [p] + Fragments(unit, max, from + (max - 2))
  }

  /** The sizes with which the loop of `h264_send` ends. */
  predicate LoopEnds(length: nat, max: nat) { length <= max || length <= 1 || max >= 3 }

  function Sent(unit: seq<byte>, max: nat): seq<Packet>
    requires LoopEnds(|unit|, max)
  {
    if |unit| <= max then [Packet(unit, true)] else if |unit| <= 1 then [] else Fragments(unit, max, 1)
  }

  /** Where the loop is after `n` rounds. */
  function IndexAfter(length: nat, max: nat, n: nat): int {
    if n == 0 then 1
    else
      var i := IndexAfter(length, max, n - 1);
      if i >= length then i else if length - i > max - 2 then i + (max - 2) else length
  }

  /** With less than three bytes of payload, a unit that does not fit is never sent to its end. */
  lemma LoopEndsExactly(length: nat, max: nat)
    requires length > max
    ensures LoopEnds(length, max) <==> exists n: nat :: IndexAfter(length, max, n) >= length
  {
    if LoopEnds(length, max) {
      IndexGrows(length, max, length);
      assert IndexAfter(length, max, length) >= length;
    } else {
      forall n: nat ensures IndexAfter(length, max, n) < length { IndexStays(length, max, n); }
    }
  }

  lemma {:induction false} IndexGrows(length: nat, max: nat, n: nat)
    requires LoopEnds(length, max) && length > max
    ensures IndexAfter(length, max, n) >= length || IndexAfter(length, max, n) >= n + 1
  {
    if n > 0 { IndexGrows(length, max, n - 1); }
  }

  lemma {:induction false} IndexStays(length: nat, max: nat, n: nat)
    requires !LoopEnds(length, max)
    ensures IndexAfter(length, max, n) <= 1
  {
    if n > 0 { IndexStays(length, max, n - 1); }
  }

  lemma OneFragment(unit: seq<byte>, max: nat, i: nat, sent: seq<Packet>)
    requires max >= 3 && 1 <= i < |unit|
    ensures var p := Fragment(unit, max, i);
            if p.marker then sent + Fragments(unit, max, i) == sent + [p]
            else sent + Fragments(unit, max, i) == (sent + [p]) + Fragments(unit, max, i + (max - 2))
  {
    var p := Fragment(unit, max, i);
    if !p.marker { assert sent + ([p] + Fragments(unit, max, i + (max - 2))) == (sent + [p]) + Fragments(unit, max, i + (max - 2)); }
  }

  /** `h264_send`; `accepted` is how many packets can be sent before one fails. */
  method H264Send(unit: seq<byte>, max: nat, accepted: nat) returns (packets: seq<Packet>, ok: bool)
    requires LoopEnds(|unit|, max)
    ensures packets <= Sent(unit, max) && |packets| <= accepted
    ensures ok ==> packets == Sent(unit, max)
    ensures !ok ==> |packets| == accepted < |Sent(unit, max)|
  {
    hide Fragments;
    packets := [];
    if |unit| <= max {
      if accepted == 0 { return [], false; }
      return [Packet(unit, true)], true;
    }
    var indicator, header := unit[0] / 32 * 32 + 28, unit[0] % 32 + 0x80;
    var i := 1;
    while i < |unit|
      invariant 1 <= i <= |unit| && |packets| <= accepted
      invariant if i < |unit| then packets + Fragments(unit, max, i) == Sent(unit, max) else packets == Sent(unit, max)
      invariant i < |unit| ==> header == FuHeader(unit[0], i == 1, false)
      decreases |unit| - i
    {
      var plen := |unit| - i;
      if plen > max - 2 { plen := max - 2; } else { header := header + 0x40; }
      var p := Packet([indicator, header] + unit[i..i + plen], plen + i == |unit|);
      assert p == Fragment(unit, max, i);
      OneFragment(unit, max, i, packets);
      if |packets| == accepted { return packets, false; }
      packets := packets + [p];
      if header >= 0x80 { header := header - 0x80; }
      i := i + plen;
    }
    ok := true;
  }

  /** What the receiver of section 5.8 of RFC 6184 does with the packets of one unit. */
  function Reassembled(s: seq<Packet>): seq<byte> {
    if |s| == 1 then s[0].payload
    else if |s| > 0 && |s[0].payload| >= 2 then
      [s[0].payload[0] / 32 * 32 + s[0].payload[1] % 32] + Bodies(s)
    else []
  }

  function Bodies(s: seq<Packet>): seq<byte> {
    if s == [] then [] else (if |s[0].payload| >= 2 then s[0].payload[2..] else []) + Bodies(s[1..])
  }

  /** A fragment that fits, with its two header bytes and its marker. */
  ghost predicate Right(p: Packet, unit: seq<byte>, max: nat, start: bool, end: bool)
    requires unit != []
  {
    && 2 < |p.payload| <= max && p.marker == end
    && p.payload[0] == Indicator(unit[0]) && p.payload[1] == FuHeader(unit[0], start, end)
  }

  lemma FragmentIsRight(unit: seq<byte>, max: nat, from: nat)
    requires max >= 3 && 1 <= from < |unit|
    ensures var p := Fragment(unit, max, from);
            && |p.payload| >= 2 && (!p.marker ==> from + (max - 2) < |unit| && |p.payload| == max) && Right(p, unit, max, from == 1, p.marker)
            && p.payload[2..] == unit[from..if p.marker then |unit| else from + (max - 2)]
  {
  }

  lemma {:induction false} FragmentsAreRight(unit: seq<byte>, max: nat, from: nat)
    requires max >= 3 && 1 <= from < |unit|
    ensures var fs := Fragments(unit, max, from);
            && Bodies(fs) == unit[from..] && (from + (max - 2) < |unit| ==> |fs| >= 2)
            && (forall j :: 0 <= j < |fs| ==> Right(fs[j], unit, max, from == 1 && j == 0, j == |fs| - 1))
            && forall j :: 0 <= j < |fs| - 1 ==> |fs[j].payload| == max
    decreases |unit| - from
  {
    hide Right;
    FragmentIsRight(unit, max, from);
    OneFragment(unit, max, from, []);
    var p, to := Fragment(unit, max, from), from + (max - 2);
    if p.marker {
      BodiesOf(p, []);
    } else {
      FragmentsAreRight(unit, max, to);
      hide Fragment, Bodies;
      var fs, rest := Fragments(unit, max, from), Fragments(unit, max, to);
      assert fs == [p] + rest;
      hide Fragments;
      BodiesOf(p, rest);
      assert unit[from..] == unit[from..to] + unit[to..];
      forall j | 0 <= j < |fs|
        ensures Right(fs[j], unit, max, from == 1 && j == 0, j == |fs| - 1)
        ensures j < |fs| - 1 ==> |fs[j].payload| == max
      {
        if j > 0 { assert fs[j] == rest[j - 1]; }
      }
    }
  }

  lemma BodiesOf(p: Packet, rest: seq<Packet>)
    requires |p.payload| >= 2
    ensures Bodies([p] + rest) == p.payload[2..] + Bodies(rest)
  {
    assert ([p] + rest)[1..] == rest;
  }

  /** Every packet fits, and all but the last are full; the receiver gets the unit back; only the first fragment has
      the start bit, only the last one the end bit and the marker, and none has both bits. The type of a fragment is
      28, FU-A, and its reserved bit is 0. */
  lemma H264IsRight(unit: seq<byte>, max: nat)
    requires |unit| <= max || max >= 3
    ensures var s := Sent(unit, max);
            && Reassembled(s) == unit
            && (forall j :: 0 <= j < |s| ==> |s[j].payload| <= max && s[j].marker == (j == |s| - 1))
            && (|unit| > max ==> |s| >= 2 && forall j :: 0 <= j < |s| ==> Right(s[j], unit, max, j == 0, j == |s| - 1))
            && (forall j :: 0 <= j < |s| - 1 ==> |s[j].payload| == max)
            && (|unit| > max ==> forall j :: 0 <= j < |s| ==> BitsAre(s[j], unit, j == 0, j == |s| - 1))
  {
    if |unit| > max {
      FragmentsAreRight(unit, max, 1);
      var s := Sent(unit, max);
      assert Right(s[0], unit, max, true, false);
      hide Right, Sent;
      forall j | 0 <= j < |s| ensures BitsAre(s[j], unit, j == 0, j == |s| - 1) {
        assert Right(s[j], unit, max, j == 0, j == |s| - 1);
        RightBits(s[j], unit, max, j == 0, j == |s| - 1);
      }
    }
  }

  /** The bits of the two header bytes: forbidden bit and NRI of the unit, type 28; start, end, reserved bit, and the
      type of the unit. */
  predicate BitsAre(p: Packet, unit: seq<byte>, start: bool, end: bool) {
    && |p.payload| >= 2 && unit != []
    && p.payload[0] / 32 == unit[0] / 32 && p.payload[0] % 32 == 28
    && (p.payload[1] / 128 == 1 <==> start) && (p.payload[1] / 64 % 2 == 1 <==> end) && p.payload[1] / 32 % 2 == 0
    && p.payload[1] % 32 == unit[0] % 32
  }

  lemma RightBits(p: Packet, unit: seq<byte>, max: nat, start: bool, end: bool)
    requires unit != [] && Right(p, unit, max, start, end) && !(start && end)
    ensures BitsAre(p, unit, start, end)
  {
  }

  // ---------------------------------------------------------------- MPEG-4

  /** The bytes of the list from byte `off` of entry `i` on. */
  function RestOf(iov: seq<seq<byte>>, i: nat, off: nat): seq<byte>
    requires i <= |iov| && (i < |iov| ==> off <= |iov[i]|) && (i == |iov| ==> off == 0)
    decreases |iov| - i
  {
    if i == |iov| then [] else iov[i][off..] + RestOf(iov, i + 1, 0)
  }

  /** `mpeg4_send`: the payloads, one after the other, are the list; each fits, and only the last has the
      marker. */
  method Mpeg4Send(iov: seq<seq<byte>>, max: nat, accepted: nat) returns (packets: seq<Packet>, ok: bool)
    requires max > 0
    ensures |packets| <= accepted && (!ok ==> |packets| == accepted)
    ensures forall k :: 0 <= k < |packets| ==> |packets[k].payload| <= max && packets[k].marker == (ok && k == |packets| - 1)
    ensures Payloads(packets) <= Joined(iov)
    ensures ok ==> packets != [] && Payloads(packets) == Joined(iov)
    ensures forall k :: 0 <= k < |packets| - 1 ==> |packets[k].payload| == max
  {
    ListIsJoined(iov);
    hide RestOf, Payloads, Joined;
    packets := [];
    var i: nat, off: nat, space: nat := 0, 0, max;
    var v: seq<byte> := [];           // the payload put together so far
    ghost var all := RestOf(iov, 0, 0);
    NothingSent(all);
    while i < |iov|
      invariant i <= |iov| && (i < |iov| ==> off <= |iov[i]|) && (i == |iov| ==> off == 0)
      invariant space + |v| == max && |packets| <= accepted
      invariant all == Payloads(packets) + v + RestOf(iov, i, off)
      invariant forall k :: 0 <= k < |packets| ==> |packets[k].payload| == max && !packets[k].marker
      decreases |iov| - i, if i < |iov| then |iov[i]| - off else 0, if space == 0 then 1 else 0
    {
      var len := |iov[i]| - off;
      if space < len {
        PacketFull(iov, i, off, space, packets, v);
        v := v + iov[i][off..off + space];
        if |packets| == accepted { return packets, false; }
        packets := packets + [Packet(v, false)];
        off := off + space;
        space, v := max, [];
      } else {
        EntryDone(iov, i, off, packets, v);
        v := v + iov[i][off..];
        space := space - len;
        i, off := i + 1, 0;
      }
    }
    AllDone(iov, packets, v);
    if |packets| == accepted { return packets, false; }
    packets, ok := packets + [Packet(v, true)], true;
  }

  lemma ListIsJoined(iov: seq<seq<byte>>)
    ensures RestOf(iov, 0, 0) == Joined(iov)
  {
    RestIsJoined(iov, 0);
    assert iov[..0] == [] && Joined([]) == [];
  }

  lemma NothingSent(all: seq<byte>)
    ensures all == Payloads([]) + [] + all
  {
  }

  /** A packet is full before the entry ends. */
  lemma PacketFull(iov: seq<seq<byte>>, i: nat, off: nat, n: nat, packets: seq<Packet>, v: seq<byte>)
    requires i < |iov| && off + n <= |iov[i]|
    ensures var p, all := Packet(v + iov[i][off..off + n], false), Payloads(packets) + v + RestOf(iov, i, off);
            Payloads(packets + [p]) + [] + RestOf(iov, i, off + n) == all && Payloads(packets) <= all
  {
    PayloadsNext(packets, Packet(v + iov[i][off..off + n], false));
    var front, back, rest := iov[i][off..off + n], iov[i][off + n..], RestOf(iov, i + 1, 0);
    assert iov[i][off..] == front + back;
    assert Payloads(packets) + v + ((front + back) + rest) == (Payloads(packets) + (v + front)) + [] + (back + rest);
  }

  lemma EntryDone(iov: seq<seq<byte>>, i: nat, off: nat, packets: seq<Packet>, v: seq<byte>)
    requires i < |iov| && off <= |iov[i]|
    ensures Payloads(packets) + v + RestOf(iov, i, off) == Payloads(packets) + (v + iov[i][off..]) + RestOf(iov, i + 1, 0)
  {
    hide Payloads;
  }

  lemma AllDone(iov: seq<seq<byte>>, packets: seq<Packet>, v: seq<byte>)
    ensures Payloads(packets) + v + RestOf(iov, |iov|, 0) == Payloads(packets + [Packet(v, true)])
    ensures Payloads(packets) <= Payloads(packets + [Packet(v, true)])
  {
    PayloadsNext(packets, Packet(v, true));
  }

  /** The whole list is its entries one after the other. */
  lemma {:induction false} RestIsJoined(iov: seq<seq<byte>>, i: nat)
    requires i <= |iov|
    ensures Joined(iov[..i]) + RestOf(iov, i, 0) == Joined(iov)
    decreases |iov| - i
  {
    if i == |iov| {
      assert iov[..i] == iov;
    } else {
      RestIsJoined(iov, i + 1);
      assert iov[..i + 1][..i] == iov[..i];
      assert (Joined(iov[..i]) + iov[i]) + RestOf(iov, i + 1, 0) == Joined(iov[..i]) + (iov[i] + RestOf(iov, i + 1, 0));
    }
  }
}
