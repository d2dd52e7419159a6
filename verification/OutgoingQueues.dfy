/** What a peer keeps about the commands it has to send: the lists of enet_peer, and the counts and
    references that must stay in step with them (protocol.c, peer.c, packet.c). */
module OutgoingQueues {
  import opened Numbers
  import opened ReliableChannel

  const TIME_OVERFLOW: int := 86400000

  /** ENET_TIME_LESS and ENET_TIME_DIFFERENCE. */
  predicate TimeLess(a: u32, b: u32) { U32(a - b) >= TIME_OVERFLOW }

  function TimeDifference(a: u32, b: u32): u32 { if TimeLess(a, b) then U32(b - a) else U32(a - b) }

  datatype Ref = Nothing | To(packet: nat)

  /** ENetOutgoingCommand. `size` is the wire size of the command without its data. */
  datatype Outgoing = Outgoing(number: u16, unreliable: u16, channel: nat, size: nat, ref: Ref, offset: nat, length: u16,
                               attempts: nat, sentTime: u32, timeout: u32, limit: u32)

  // ---------------------------------------------------------------- sums over a list

  function Total(s: seq<Outgoing>, f: Outgoing -> nat): nat {
    if s == [] then 0 else f(s[0]) + Total(s[1..], f)
  }

  lemma {:induction false} TotalSplit(s: seq<Outgoing>, t: seq<Outgoing>, f: Outgoing -> nat)
    ensures Total(s + t, f) == Total(s, f) + Total(t, f)
  {
    if s == [] {
      assert s + t == t;
    } else {
      TotalSplit(s[1..], t, f);
      assert (s + t)[1..] == s[1..] + t;
    }
  }

  function Without<T>(s: seq<T>, i: nat): seq<T>
    requires i < |s|
  {
    s[..i] + s[i + 1..]
  }

  lemma TotalWithout(s: seq<Outgoing>, i: nat, f: Outgoing -> nat)
    requires i < |s|
    ensures Total(s, f) == Total(Without(s, i), f) + f(s[i])
  {
    var front, back := s[..i], s[i + 1..];
    TotalSplit(front, back, f);
    TotalSplit(front, s[i..], f);
    assert s == front + s[i..];
    assert s[i..][0] == s[i] && s[i..][1..] == back;
  }

  lemma TotalOne(s: seq<Outgoing>, c: Outgoing, f: Outgoing -> nat)
    ensures Total(s + [c], f) == Total(s, f) + f(c) == Total([c] + s, f)
  {
    TotalSplit(s, [c], f);
    TotalSplit([c], s, f);
    assert Total([c], f) == f(c) + Total([], f);
  }

  lemma {:induction false} TotalAtMost(s: seq<Outgoing>, f: Outgoing -> nat, most: nat)
    requires forall c :: f(c) <= most
    ensures Total(s, f) <= most * |s|
  {
    if s != [] { TotalAtMost(s[1..], f, most); }
  }

  /** The bytes a command has in transit. */
  function Bytes(): Outgoing -> nat { (c: Outgoing) => if c.ref.To? then c.length else 0 }

  /** Counts the commands of a channel that were sent at least once, in one window. */
  function SentIn(channel: nat, window: nat): Outgoing -> nat {
    (c: Outgoing) => if c.channel == channel && c.number / WINDOW_SIZE == window && c.attempts >= 1 then 1 else 0
  }

  /** Counts the commands that point at a packet. */
  function PointsAt(packet: nat): Outgoing -> nat { (c: Outgoing) => if c.ref == To(packet) then 1 else 0 }

  // ---------------------------------------------------------------- the queues of a peer

  /** `held` and `dispatched` are the packets of the incoming queues. */
  datatype Queues = Queues(sentReliable: seq<Outgoing>, reliable: seq<Outgoing>, sentUnreliable: seq<Outgoing>,
                           unreliable: seq<Outgoing>, held: seq<nat>, dispatched: seq<nat>)

  function Occurrences(s: seq<nat>, packet: nat): nat {
    if s == [] then 0 else (if s[0] == packet then 1 else 0) + Occurrences(s[1..], packet)
  }

  lemma {:induction false} OccurrencesSplit(s: seq<nat>, t: seq<nat>, packet: nat)
    ensures Occurrences(s + t, packet) == Occurrences(s, packet) + Occurrences(t, packet)
  {
    if s == [] {
      assert s + t == t;
    } else {
      OccurrencesSplit(s[1..], t, packet);
      assert (s + t)[1..] == s[1..] + t;
    }
  }

  /** The queued commands that point at a packet. */
  function Refs(q: Queues, packet: nat): nat {
    Total(q.sentReliable, PointsAt(packet)) + Total(q.reliable, PointsAt(packet))
    + Total(q.sentUnreliable, PointsAt(packet)) + Total(q.unreliable, PointsAt(packet))
    + Occurrences(q.held, packet) + Occurrences(q.dispatched, packet)
  }

  /** `packets` holds the reference count of every packet that is not destroyed. */
  ghost predicate Counted(packets: map<nat, nat>, q: Queues) {
    forall p: nat :: Refs(q, p) == if p in packets then packets[p] else 0
  }

  /** The packets destroyed on the way from `q0` to `q` are those whose last command left. */
  ghost predicate Collected(packets0: map<nat, nat>, q0: Queues, packets: map<nat, nat>, q: Queues) {
    && (forall p: nat :: p in packets <==> p in packets0 && (Refs(q0, p) == 0 || Refs(q, p) > 0))
    && (forall p: nat :: Refs(q, p) <= Refs(q0, p))
  }

  function Released(packets: map<nat, nat>, ref: Ref): map<nat, nat>
    requires ref.To? ==> ref.packet in packets && packets[ref.packet] > 0
  {
    match ref
    case Nothing => packets
    case To(p) => if packets[p] == 1 then packets - {p} else packets[p := packets[p] - 1]
  }

  /** One command leaves its queue and gives up its reference. */
  ghost predicate Leaves(q: Queues, q': Queues, ref: Ref) {
    forall p: nat :: Refs(q, p) == Refs(q', p) + if ref == To(p) then 1 else 0
  }

  lemma LeaveIsCounted(packets: map<nat, nat>, q: Queues, q': Queues, ref: Ref)
    requires Counted(packets, q) && Leaves(q, q', ref)
    ensures ref.To? ==> ref.packet in packets && packets[ref.packet] > 0
    ensures Counted(Released(packets, ref), q')
  {
    hide Refs;
    if ref.To? { assert Refs(q, ref.packet) == Refs(q', ref.packet) + 1; }
  }

  lemma LeaveIsCollected(packets0: map<nat, nat>, q0: Queues, packets: map<nat, nat>, q: Queues, q': Queues, ref: Ref)
    requires Counted(packets, q) && Leaves(q, q', ref) && Collected(packets0, q0, packets, q)
    requires ref.To? ==> ref.packet in packets && packets[ref.packet] > 0
    ensures Collected(packets0, q0, Released(packets, ref), q')
  {
    hide Refs;
    if ref.To? {
      assert Refs(q, ref.packet) == packets[ref.packet] && Refs(q', ref.packet) == packets[ref.packet] - 1;
    }
    forall p: nat
      ensures p in Released(packets, ref) <==> p in packets0 && (Refs(q0, p) == 0 || Refs(q', p) > 0)
      ensures Refs(q', p) <= Refs(q0, p)
    {
      assert Refs(q, p) == Refs(q', p) + if ref == To(p) then 1 else 0;
      assert Refs(q, p) <= Refs(q0, p);
      assert p in packets <==> p in packets0 && (Refs(q0, p) == 0 || Refs(q, p) > 0);
    }
  }

  /** Moving commands between queues changes no reference count. */
  ghost predicate SameRefs(q: Queues, q': Queues) {
    forall p: nat :: Refs(q', p) == Refs(q, p)
  }

  lemma CollectedChain(p0: map<nat, nat>, q0: Queues, p1: map<nat, nat>, q1: Queues, p2: map<nat, nat>, q2: Queues)
    requires Collected(p0, q0, p1, q1) && Collected(p1, q1, p2, q2)
    ensures Collected(p0, q0, p2, q2)
  {
    hide Refs;
    forall p: nat
      ensures p in p2 <==> p in p0 && (Refs(q0, p) == 0 || Refs(q2, p) > 0)
      ensures Refs(q2, p) <= Refs(q0, p)
    {
      assert Refs(q1, p) <= Refs(q0, p) && Refs(q2, p) <= Refs(q1, p);
    }
  }

  /** `n` commands that point at a packet enter a queue. */
  function Referenced(packets: map<nat, nat>, ref: Ref, n: nat): map<nat, nat>
    requires ref.To? ==> ref.packet in packets
  {
    match ref
    case Nothing => packets
    case To(p) => packets[p := packets[p] + n]
  }

  lemma EnterIsCounted(packets: map<nat, nat>, q: Queues, q': Queues, ref: Ref, n: nat)
    requires Counted(packets, q) && (ref.To? ==> ref.packet in packets)
    requires forall p: nat :: Refs(q', p) == Refs(q, p) + if ref == To(p) then n else 0
    ensures Counted(Referenced(packets, ref, n), q')
  {
    hide Refs;
  }

  /** The four lists of outgoing commands. */
  datatype Which = SentReliable | Reliable | SentUnreliable | Unreliable

  function ListOf(q: Queues, which: Which): seq<Outgoing> {
    match which
    case SentReliable => q.sentReliable
    case Reliable => q.reliable
    case SentUnreliable => q.sentUnreliable
    case Unreliable => q.unreliable
  }

  function WithList(q: Queues, which: Which, s: seq<Outgoing>): Queues {
    match which
    case SentReliable => q.(sentReliable := s)
    case Reliable => q.(reliable := s)
    case SentUnreliable => q.(sentUnreliable := s)
    case Unreliable => q.(unreliable := s)
  }

  lemma FirstLeaves(q: Queues, which: Which)
    requires ListOf(q, which) != []
    ensures Leaves(q, WithList(q, which, ListOf(q, which)[1..]), ListOf(q, which)[0].ref)
  {
    hide Occurrences;
  }

  lemma AppendedRefs(q: Queues, which: Which, s: seq<Outgoing>, ref: Ref)
    requires forall c :: c in s ==> c.ref == ref
    ensures forall p: nat :: Refs(WithList(q, which, ListOf(q, which) + s), p) == Refs(q, p) + if ref == To(p) then |s| else 0
  {
    hide Occurrences, Total;
    forall p: nat
      ensures Total(ListOf(q, which) + s, PointsAt(p)) == Total(ListOf(q, which), PointsAt(p)) + if ref == To(p) then |s| else 0
    {
      TotalSplit(ListOf(q, which), s, PointsAt(p));
      AllPoint(s, ref, p);
    }
  }

  lemma {:induction false} AllPoint(s: seq<Outgoing>, ref: Ref, p: nat)
    requires forall c :: c in s ==> c.ref == ref
    ensures Total(s, PointsAt(p)) == if ref == To(p) then |s| else 0
  {
    if s != [] {
      assert s[0] in s;
      AllPoint(s[1..], ref, p);
    }
  }

  // ---------------------------------------------------------------- what the counters mean

  /** Commands sent before come first among those waiting to be sent. */
  ghost predicate ResentFirst(s: seq<Outgoing>) {
    forall i, j :: 0 <= i < j < |s| && s[j].attempts >= 1 ==> s[i].attempts >= 1
  }

  ghost predicate AllSent(s: seq<Outgoing>) {
    forall c :: c in s ==> c.attempts >= 1
  }

  ghost predicate FitDatagram(s: seq<Outgoing>) {
    forall c :: c in s ==> c.size + c.length < 0x10000
  }

  ghost predicate WindowsCount(windows: seq<seq<u16>>, used: seq<set<nat>>, sent: seq<Outgoing>, waiting: seq<Outgoing>) {
    && |used| == |windows| && (forall ch :: 0 <= ch < |windows| ==> |windows[ch]| == WINDOWS)
    && forall ch: nat, w: nat :: ch < |windows| && w < WINDOWS ==> WindowCounts(windows, used, sent, waiting, ch, w)
  }

  ghost predicate WindowCounts(windows: seq<seq<u16>>, used: seq<set<nat>>, sent: seq<Outgoing>, waiting: seq<Outgoing>, ch: nat, w: nat)
    requires ch < |windows| && ch < |used| && |windows[ch]| == WINDOWS && w < WINDOWS
  {
    && windows[ch][w] == Total(sent, SentIn(ch, w)) + Total(waiting, SentIn(ch, w))
    && (w in used[ch] <==> windows[ch][w] > 0)
  }

  /** The index of the first command that an acknowledgement matches, or the length of the list. */
  function FirstMatch(s: seq<Outgoing>, number: u16, channel: nat): (i: nat)
    ensures i <= |s|
    ensures i < |s| ==> s[i].number == number && s[i].channel == channel && s[i].attempts >= 1
    ensures forall j :: 0 <= j < i ==> !(s[j].number == number && s[j].channel == channel && s[j].attempts >= 1)
  {
    if s == [] then 0
    else if s[0].number == number && s[0].channel == channel && s[0].attempts >= 1 then 0
    else 1 + FirstMatch(s[1..], number, channel)
  }

  // ---------------------------------------------------------------- picking commands out of a list

  predicate TimedOut(c: Outgoing, now: u32) { TimeDifference(now, c.sentTime) >= c.timeout }

  const TIMEOUT_MINIMUM: int := 5000
  const TIMEOUT_MAXIMUM: int := 30000

  /** The send time of the oldest command that timed out since the last acknowledgement; 0 is none. */
  function Earliest(earliest: u32, c: Outgoing): u32 {
    if earliest == 0 || TimeLess(c.sentTime, earliest) then c.sentTime else earliest
  }

  predicate Hopeless(c: Outgoing, now: u32, earliest: u32) {
    && earliest != 0
    && (TimeDifference(now, earliest) >= TIMEOUT_MAXIMUM
        || (c.timeout >= c.limit && TimeDifference(now, earliest) >= TIMEOUT_MINIMUM))
  }

  /** Whether some command in the list makes the peer be given up. */
  predicate GivenUp(s: seq<Outgoing>, now: u32, earliest: u32) {
    s != []
    && (if TimedOut(s[0], now)
        then Hopeless(s[0], now, Earliest(earliest, s[0])) || GivenUp(s[1..], now, Earliest(earliest, s[0]))
        else GivenUp(s[1..], now, earliest))
  }

  /** The oldest send time once all that timed out have been looked at. */
  function EarliestOf(s: seq<Outgoing>, now: u32, earliest: u32): u32 {
    if s == [] then earliest else EarliestOf(s[1..], now, if TimedOut(s[0], now) then Earliest(earliest, s[0]) else earliest)
  }

  lemma GivenUpFirst(s: seq<Outgoing>, now: u32, earliest: u32)
    requires s != []
    ensures EarliestOf(s, now, earliest) == EarliestOf(s[1..], now, if TimedOut(s[0], now) then Earliest(earliest, s[0]) else earliest)
    ensures !TimedOut(s[0], now) ==> GivenUp(s, now, earliest) == GivenUp(s[1..], now, earliest)
    ensures TimedOut(s[0], now) ==>
              var e := Earliest(earliest, s[0]);
              GivenUp(s, now, earliest) == (Hopeless(s[0], now, e) || GivenUp(s[1..], now, e))
  {
  }

  /** How long ago a moment of the clock was; the clock goes round. */
  function Age(t: u32, now: u32): u32 { U32(now - t) }

  /** A command sent less than a day ago times out exactly when its timeout has passed. */
  lemma TimedOutExactly(c: Outgoing, now: u32)
    requires Age(c.sentTime, now) < TIME_OVERFLOW
    ensures TimedOut(c, now) <==> Age(c.sentTime, now) >= c.timeout
  {
  }

  /** The age of the oldest command that timed out, among the first `n` and since the last acknowledgement. */
  function OldestAge(s: seq<Outgoing>, n: nat, now: u32, earliest: u32): u32
    requires n <= |s|
  {
    if n == 0 then (if earliest == 0 then 0 else Age(earliest, now))
    else
      var before := OldestAge(s, n - 1, now, earliest);
      if TimedOut(s[n - 1], now) && Age(s[n - 1].sentTime, now) > before then Age(s[n - 1].sentTime, now) else before
  }

  /** A moment less than a day ago, and not the 0 of the clock, which stands for no moment. */
  predicate Recent(t: u32, now: u32) { t != 0 && Age(t, now) < TIME_OVERFLOW }

  lemma OlderIsEarlier(t: u32, e: u32, now: u32)
    requires Recent(t, now) && Recent(e, now)
    ensures TimeLess(t, e) <==> Age(t, now) > Age(e, now)
    ensures TimeDifference(now, t) == Age(t, now)
  {
    var a, b := (now - t) / WORD, (now - e) / WORD;
    assert now - t == WORD * a + Age(t, now) && now - e == WORD * b + Age(e, now);
    LapsVanish(t - e, Age(e, now) - Age(t, now), b - a, WORD);
  }

  /** This command times out by when the oldest one that did is 30 seconds old, or 5 seconds when its own
      timeout has grown to its limit. */
  ghost predicate GivesUpAt(s: seq<Outgoing>, now: u32, earliest: u32, i: nat)
    requires i < |s|
  {
    TimedOut(s[i], now) && (OldestAge(s, i + 1, now, earliest) >= 30000 ||
                            (s[i].timeout >= s[i].limit && OldestAge(s, i + 1, now, earliest) >= 5000))
  }

  /** The peer is given up exactly for such a command. */
  lemma {:induction false} GivenUpExactly(s: seq<Outgoing>, now: u32, earliest: u32)
    requires (forall c :: c in s ==> Recent(c.sentTime, now)) && (earliest == 0 || Recent(earliest, now))
    ensures GivenUp(s, now, earliest) <==>
            exists i :: 0 <= i < |s| && GivesUpAt(s, now, earliest, i)
  {
    if s != [] {
      var c := s[0];
      assert c in s;
      var e := if TimedOut(c, now) then Earliest(earliest, c) else earliest;
      assert forall d :: d in s[1..] ==> d in s;
      GivenUpExactly(s[1..], now, e);
      FirstAge(s, now, earliest);
      forall m | 0 <= m < |s| ensures OldestAge(s[1..], m, now, e) == OldestAge(s, m + 1, now, earliest) {
        AgesGoOn(s, now, earliest, e, m);
      }
      Shifted(s, now, earliest, e);
    }
  }

  lemma Shifted(s: seq<Outgoing>, now: u32, earliest: u32, e: u32)
    requires s != []
    requires forall m :: 0 <= m < |s| ==> OldestAge(s[1..], m, now, e) == OldestAge(s, m + 1, now, earliest)
    ensures (exists i :: 0 <= i < |s| && GivesUpAt(s, now, earliest, i)) <==>
            GivesUpAt(s, now, earliest, 0) || exists i :: 0 <= i < |s| - 1 && GivesUpAt(s[1..], now, e, i)
  {
    hide OldestAge, TimedOut;
    forall i | 0 <= i < |s| - 1 ensures GivesUpAt(s[1..], now, e, i) <==> GivesUpAt(s, now, earliest, i + 1) {
      assert s[1..][i] == s[i + 1];
    }
    if i :| 0 < i < |s| && GivesUpAt(s, now, earliest, i) { assert GivesUpAt(s[1..], now, e, i - 1); }
  }

  lemma FirstAge(s: seq<Outgoing>, now: u32, earliest: u32)
    requires s != [] && Recent(s[0].sentTime, now) && (earliest == 0 || Recent(earliest, now))
    ensures var e := if TimedOut(s[0], now) then Earliest(earliest, s[0]) else earliest;
            && OldestAge(s, 1, now, earliest) == OldestAge(s[1..], 0, now, e) && (e == 0 || Recent(e, now))
            && (TimedOut(s[0], now) ==> e != 0 && TimeDifference(now, e) == Age(e, now))
  {
    assert OldestAge(s, 0, now, earliest) == if earliest == 0 then 0 else Age(earliest, now);
    OlderIsEarlier(s[0].sentTime, s[0].sentTime, now);
    if earliest != 0 {
      OlderIsEarlier(s[0].sentTime, earliest, now);
      OlderIsEarlier(earliest, earliest, now);
    }
    hide TimeLess, TimeDifference, Age, TimedOut;
  }

  lemma {:induction false} AgesGoOn(s: seq<Outgoing>, now: u32, earliest: u32, e: u32, n: nat)
    requires s != [] && n < |s| && OldestAge(s, 1, now, earliest) == OldestAge(s[1..], 0, now, e)
    ensures OldestAge(s, n + 1, now, earliest) == OldestAge(s[1..], n, now, e)
  {
    if n > 0 {
      AgesGoOn(s, now, earliest, e, n - 1);
      assert s[1..][n - 1] == s[n];
    }
  }

  function Late(s: seq<Outgoing>, now: u32): seq<Outgoing> {
    if s == [] then []
    else
      var c := s[|s| - 1];
      Late(s[..|s| - 1], now) + if TimedOut(c, now) then [c.(timeout := U32(c.timeout * 2))] else []
  }

  function OnTime(s: seq<Outgoing>, now: u32): seq<Outgoing> {
    if s == [] then []
    else
      var c := s[|s| - 1];
      OnTime(s[..|s| - 1], now) + if TimedOut(c, now) then [] else [c]
  }

  lemma PickNext(s: seq<Outgoing>, c: Outgoing, now: u32)
    ensures Late(s + [c], now) == Late(s, now) + if TimedOut(c, now) then [c.(timeout := U32(c.timeout * 2))] else []
    ensures OnTime(s + [c], now) == OnTime(s, now) + if TimedOut(c, now) then [] else [c]
  {
    assert (s + [c])[..|s|] == s;
  }

  /** The entries of `s` whose flag is `value`. */
  function Select<T>(s: seq<T>, flags: seq<bool>, value: bool): seq<T>
    requires |flags| == |s|
  {
    if s == [] then []
    else Select(s[..|s| - 1], flags[..|s| - 1], value) + if flags[|s| - 1] == value then [s[|s| - 1]] else []
  }

  // ---------------------------------------------------------------- sending

  const TIMEOUT_LIMIT: int := 32

  /** The command once it is sent at `now`; a first sending sets its timeout. */
  function SentAt(c: Outgoing, now: u32, roundTrip: u32): Outgoing {
    var first := c.timeout == 0;
    c.(attempts := c.attempts + 1, sentTime := now,
       timeout := if first then roundTrip else c.timeout,
       limit := if first then U32(TIMEOUT_LIMIT * roundTrip) else c.limit)
  }

  function AllSentAt(s: seq<Outgoing>, now: u32, roundTrip: u32): (r: seq<Outgoing>)
    ensures |r| == |s| && forall i :: 0 <= i < |s| ==> r[i] == SentAt(s[i], now, roundTrip)
  {
    if s == [] then [] else [SentAt(s[0], now, roundTrip)] + AllSentAt(s[1..], now, roundTrip)
  }

  lemma SelectNext<T>(s: seq<T>, flags: seq<bool>, c: T, flag: bool, value: bool)
    requires |flags| == |s|
    ensures Select(s + [c], flags + [flag], value) == Select(s, flags, value) + if flag == value then [c] else []
  {
    assert (s + [c])[..|s|] == s && (flags + [flag])[..|flags|] == flags;
  }
}
