/** `enet_host_bandwidth_throttle` (host.c): the host's bandwidth is shared out over its peers, those
    with less of their own first. Products wrap at 32 bits, as in the source. */
module BandwidthThrottle {
  import opened Numbers

  const SCALE: int := 32          // ENET_PEER_PACKET_THROTTLE_SCALE
  const INTERVAL: int := 1000     // ENET_HOST_BANDWIDTH_THROTTLE_INTERVAL
  const UNLIMITED: u32 := 0xFFFF_FFFF
  const WRAP: int := 0x800_0000   // the least bandwidth whose product with SCALE wraps

  datatype Peer = Peer(connected: bool, incomingBandwidth: u32, outgoingBandwidth: u32, outgoingDataTotal: u32,
                       packetThrottle: u32, packetThrottleLimit: u32, outgoingEpoch: u32, incomingEpoch: u32)

  // ---------------------------------------------------------------- sums over the peers

  function Sum(s: seq<Peer>, f: Peer -> nat): nat {
    if s == [] then 0 else f(s[0]) + Sum(s[1..], f)
  }

  lemma {:induction false} SumUpdate(s: seq<Peer>, i: nat, p: Peer, f: Peer -> nat)
    requires i < |s|
    ensures Sum(s[i := p], f) + f(s[i]) == Sum(s, f) + f(p)
  {
    if i == 0 {
      assert s[i := p][1..] == s[1..];
    } else {
      SumUpdate(s[1..], i - 1, p, f);
      assert s[i := p][1..] == s[1..][i - 1 := p];
    }
  }

  lemma {:induction false} SumNext(s: seq<Peer>, i: nat, f: Peer -> nat)
    requires i < |s|
    ensures Sum(s[..i + 1], f) == Sum(s[..i], f) + f(s[i])
  {
    if i == 0 {
      assert s[..1] == [s[0]] && Sum([s[0]], f) == f(s[0]) + Sum([], f);
    } else {
      SumNext(s[1..], i - 1, f);
      assert s[..i + 1][1..] == s[1..][..i] && s[..i][1..] == s[1..][..i - 1];
    }
  }

  /** Sums agree when the terms do. */
  lemma {:induction false} SumSame(s: seq<Peer>, t: seq<Peer>, f: Peer -> nat, g: Peer -> nat)
    requires |s| == |t| && forall i :: 0 <= i < |s| ==> f(s[i]) == g(t[i])
    ensures Sum(s, f) == Sum(t, g)
  {
    if s != [] { SumSame(s[1..], t[1..], f, g); }
  }

  lemma {:induction false} SumBelow(s: seq<Peer>, f: Peer -> nat, g: Peer -> nat, h: Peer -> nat, a: nat, b: nat)
    requires forall i :: 0 <= i < |s| ==> f(s[i]) <= a * g(s[i]) + b * h(s[i])
    ensures Sum(s, f) <= a * Sum(s, g) + b * Sum(s, h)
  {
    if s != [] {
      SumBelow(s[1..], f, g, h, a, b);
      Spread(a, g(s[0]), Sum(s[1..], g));
      Spread(b, h(s[0]), Sum(s[1..], h));
    }
  }

  lemma {:induction false} SumHas(s: seq<Peer>, i: nat, f: Peer -> nat)
    requires i < |s|
    ensures f(s[i]) <= Sum(s, f)
  {
    if i > 0 { SumHas(s[1..], i - 1, f); }
  }

  // ---------------------------------------------------------------- sharing out the outgoing bandwidth

  /** A peer gets its share in this round of the throttle, `now`. */
  predicate Settled(p: Peer, now: u32) { p.outgoingEpoch == now }

  function Bandwidth(p: Peer, elapsed: u32): u32 { InTime(p.incomingBandwidth, elapsed) }

  /** The bytes that a bandwidth lets through in `elapsed` milliseconds. */
  function InTime(bandwidth: u32, elapsed: u32): u32 { U32(bandwidth * elapsed) / 1000 }

  /** What a throttle lets through of the data of a round. */
  function Share(throttle: nat, data: u32): u32 { U32(throttle * data) / SCALE }

  /** Only data of 2^27 bytes and more makes its product wrap. */
  lemma ShareIsExact(throttle: nat, data: u32)
    ensures Share(throttle, data) == (throttle * data) / SCALE <==> throttle * data < WORD
  {
    var x := throttle * data;
    assert x == WORD * (x / WORD) + U32(x);
    LapsOf32(x / WORD, U32(x));
  }

  lemma LapsOf32(q: nat, r: nat)
    ensures (WORD * q + r) / SCALE == WRAP * q + r / SCALE
  {
  }

  /** The throttle that lets just `own` through. */
  function LimitFor(own: u32, data: u32): u32
    requires data > 0
  {
    QuotientIsSmaller(U32(own * SCALE), data);
    U32(own * SCALE) / data
  }

  lemma QuotientIsSmaller(x: nat, y: nat)
    requires y > 0
    ensures 0 <= x / y <= x
  {
    DivideBack(x, y);
    MulMono(1, y, x / y);
  }

  function Connected(): Peer -> nat { (p: Peer) => if p.connected then 1 else 0 }

  function Data(): Peer -> nat { (p: Peer) => if p.connected then p.outgoingDataTotal else 0 }

  function Unsettled(now: u32): Peer -> nat { (p: Peer) => if p.connected && !Settled(p, now) then 1 else 0 }

  function UnsettledData(now: u32): Peer -> nat { (p: Peer) => if p.connected && !Settled(p, now) then p.outgoingDataTotal else 0 }

  /** A settled peer is limited to what its own bandwidth lets through, and at least to 1. */
  ghost predicate Limited(p: Peer, elapsed: u32) {
    && p.connected && p.incomingBandwidth > 0 && Bandwidth(p, elapsed) < p.outgoingDataTotal
    && p.packetThrottleLimit == Max(1, LimitFor(Bandwidth(p, elapsed), p.outgoingDataTotal))
    && p.packetThrottle <= p.packetThrottleLimit
  }

  /** Only the throttle of a connected peer has changed, and only when the peer was settled. */
  ghost predicate Adjusted(p: Peer, q: Peer, now: u32, elapsed: u32) {
    if q.connected && Settled(q, now) then
      && q == p.(packetThrottle := Min(p.packetThrottle, q.packetThrottleLimit), packetThrottleLimit := q.packetThrottleLimit,
                 outgoingEpoch := now)
      && Limited(q, elapsed)
    else q == p
  }

  /** A peer that can take its share at this throttle. */
  predicate Content(p: Peer, now: u32, elapsed: u32, throttle: nat) {
    !p.connected || p.incomingBandwidth == 0 || Settled(p, now) || Share(throttle, p.outgoingDataTotal) <= Bandwidth(p, elapsed)
  }

  /** A pass settles a peer exactly when the peer cannot take its share. */
  ghost predicate Passed(p: Peer, q: Peer, now: u32, elapsed: u32, throttle: nat) {
    if Content(p, now, elapsed, throttle) then q == p else Settled(q, now)
  }

  /** What the round makes of a peer: its own bandwidth limits it, or the common throttle does, which its
      own bandwidth can take. */
  ghost predicate Throttled(p: Peer, q: Peer, now: u32, elapsed: u32, throttle: u32) {
    if !p.connected then q == p
    else if Settled(q, now) then Adjusted(p, q, now, elapsed)
    else
      && q == p.(packetThrottle := Min(p.packetThrottle, throttle), packetThrottleLimit := throttle)
      && Content(q, now, elapsed, throttle)
  }

  /** The throttle of a pass, from the bandwidth and the data that are left. */
  function Throttle(bandwidth: int, dataTotal: int): int
    requires dataTotal < bandwidth || dataTotal > 0
  {
    if dataTotal < bandwidth then SCALE else U32(bandwidth * SCALE) / dataTotal
  }

  /** The largest throttle, up to the whole scale, at which the data fits the bandwidth as computed. */
  ghost predicate IsLargest(throttle: nat, bandwidth: int, dataTotal: int) {
    if dataTotal < bandwidth then throttle == SCALE
    else throttle * dataTotal <= U32(SCALE * bandwidth) < (throttle + 1) * dataTotal
  }

  lemma ThrottleIsLargest(bandwidth: nat, dataTotal: nat)
    requires dataTotal < bandwidth || dataTotal > 0
    ensures Throttle(bandwidth, dataTotal) >= 0 && IsLargest(Throttle(bandwidth, dataTotal), bandwidth, dataTotal)
  {
    hide U32;
    if dataTotal >= bandwidth { DivideBack(U32(bandwidth * SCALE), dataTotal); }
  }

  lemma WrapBelow(x: nat)
    ensures 0 <= U32(x) <= x
    ensures x < WORD ==> U32(x) == x
  {
  }

  lemma ThrottleBounds(bandwidth: nat, dataTotal: nat)
    requires dataTotal < bandwidth || dataTotal > 0
    ensures Affords(Throttle(bandwidth, dataTotal), dataTotal, bandwidth)
  {
    hide U32;
    if dataTotal >= bandwidth {
      var t := U32(bandwidth * SCALE) / dataTotal;
      WrapBelow(bandwidth * SCALE);
      DivideBack(U32(bandwidth * SCALE), dataTotal);
      if t > SCALE { MulMono(SCALE + 1, t, dataTotal); }
    }
  }

  lemma Scaled(c: int, a: int, b: int)
    requires a <= b && c >= 0
    ensures c * a <= c * b
  {
  }

  /** A peer that cannot take its share at this throttle gets strictly less than it. */
  lemma ShareTooLarge(throttle: nat, data: u32, own: u32)
    requires throttle <= SCALE && Share(throttle, data) > own
    ensures SCALE * own + SCALE <= throttle * data && own + 1 <= data
  {
    hide U32;
    WrapBelow(throttle * data);
    MulMono(throttle, SCALE, data);
  }

  lemma LimitBelow(throttle: nat, data: u32, own: u32)
    requires throttle <= SCALE && Share(throttle, data) > own
    ensures data > 0 && 1 <= throttle && LimitFor(own, data) <= throttle
  {
    ShareTooLarge(throttle, data, own);
    LimitSends(own, data);
    if LimitFor(own, data) > throttle {
      hide LimitFor, Share;
      MulMono(throttle, LimitFor(own, data), data);
    }
  }

  lemma LimitSends(own: u32, data: u32)
    requires data > 0
    ensures LimitFor(own, data) * data <= SCALE * own
  {
    hide U32;
    WrapBelow(own * SCALE);
    DivideBack(U32(own * SCALE), data);
  }

  /** The common throttle falls from pass to pass while its product fits 32 bits. */
  lemma ThrottleFalls(bandwidth: nat, dataTotal: nat, x: nat)
    requires x < bandwidth && x <= dataTotal && (dataTotal < bandwidth || bandwidth < WRAP)
    ensures Throttle(bandwidth - x, dataTotal - x) <= Throttle(bandwidth, dataTotal)
  {
    var b, d := bandwidth - x, dataTotal - x;
    hide U32;
    ThrottleBounds(b, d);
    if dataTotal >= bandwidth {
      WrapBelow(b * SCALE);
      WrapBelow(bandwidth * SCALE);
      ThrottlesCompare(bandwidth, dataTotal, x, Throttle(b, d), Throttle(bandwidth, dataTotal));
    }
  }

  lemma ThrottlesCompare(bandwidth: nat, dataTotal: nat, x: nat, t: nat, u: nat)
    requires x < bandwidth <= dataTotal && t <= SCALE
    requires t == ((bandwidth - x) * SCALE) / (dataTotal - x) && u == (bandwidth * SCALE) / dataTotal
    ensures t <= u
  {
    DivideBack((bandwidth - x) * SCALE, dataTotal - x);
    DivideBack(bandwidth * SCALE, dataTotal);
    MulMono(t, SCALE, x);
    Spread(t, dataTotal - x, x);
    if t > u { MulMono(u + 1, t, dataTotal); }
  }

  predicate FallsAfter(bandwidth: nat, dataTotal: nat, x: nat)
    requires x < bandwidth && x <= dataTotal
  {
    Throttle(bandwidth - x, dataTotal - x) <= Throttle(bandwidth, dataTotal)
  }

  /** Otherwise it falls, whatever is settled, exactly when it is not above what it is now where the product
      just fits again. */
  lemma ThrottleFallsExactly(bandwidth: nat, dataTotal: nat)
    requires bandwidth > 0
    ensures (forall x: nat :: x < bandwidth && x <= dataTotal ==> FallsAfter(bandwidth, dataTotal, x)) <==>
            (dataTotal < bandwidth || bandwidth < WRAP ||
             Throttle(WRAP - 1, dataTotal - bandwidth + WRAP - 1) <= Throttle(bandwidth, dataTotal))
  {
    hide U32, Throttle;
    if dataTotal < bandwidth || bandwidth < WRAP {
      forall x: nat | x < bandwidth && x <= dataTotal ensures FallsAfter(bandwidth, dataTotal, x) {
        ThrottleFalls(bandwidth, dataTotal, x);
      }
    } else {
      var x0 := bandwidth - (WRAP - 1);
      assert dataTotal - x0 == dataTotal - bandwidth + WRAP - 1 && bandwidth - x0 == WRAP - 1;
      assert FallsAfter(bandwidth, dataTotal, x0) <==> Throttle(WRAP - 1, dataTotal - x0) <= Throttle(bandwidth, dataTotal);
      forall x: nat | x < bandwidth && FallsAfter(bandwidth, dataTotal, x0) ensures FallsAfter(bandwidth, dataTotal, x) {
        if x <= x0 {
          MostAtWrap(bandwidth - x, dataTotal - x, x0 - x);
        } else {
          ThrottleFalls(WRAP - 1, dataTotal - x0, x - x0);
        }
      }
    }
  }

  lemma MostAtWrap(bandwidth: nat, dataTotal: nat, x: nat)
    requires bandwidth == WRAP - 1 + x && dataTotal >= bandwidth
    ensures Throttle(bandwidth, dataTotal) <= Throttle(WRAP - 1, dataTotal - x)
  {
    assert U32(bandwidth * SCALE) <= (WRAP - 1) * SCALE by { assert U32(bandwidth * SCALE) % SCALE == 0; }
    hide U32;
    WrapBelow((WRAP - 1) * SCALE);
    QuotientsCompare(U32(bandwidth * SCALE), dataTotal, (WRAP - 1) * SCALE, dataTotal - x);
  }

  lemma QuotientsCompare(a: nat, m: nat, b: nat, n: nat)
    requires a <= b && 0 < n <= m
    ensures a / m <= b / n
  {
    DivideBack(a, m);
    DivideBack(b, n);
    if a / m > b / n {
      MulMono(b / n + 1, a / m, m);
      MulMono(n, m, b / n + 1);
    }
  }

  /** What the settled peers can send in this round, in 32nds. */
  function SettledSending(now: u32): Peer -> nat {
    (p: Peer) => if p.connected && Settled(p, now) then p.packetThrottleLimit * p.outgoingDataTotal else 0
  }

  /** What their own bandwidths let through. */
  function Own(now: u32, elapsed: u32): Peer -> nat {
    (p: Peer) => if p.connected && Settled(p, now) then Bandwidth(p, elapsed) else 0
  }

  /** A limit that was raised to 1 is paid for by the data that is still counted for its peer. */
  lemma {:induction false} SettledSend(s0: seq<Peer>, s: seq<Peer>, now: u32, elapsed: u32)
    requires |s0| == |s| && forall j :: 0 <= j < |s| ==> Adjusted(s0[j], s[j], now, elapsed)
    ensures Sum(s, SettledSending(now)) + Sum(s, UnsettledData(now)) <= 31 * Sum(s, Own(now, elapsed)) + Sum(s, Data())
    ensures Sum(s, Own(now, elapsed)) + Sum(s, UnsettledData(now)) <= Sum(s, Data())
  {
    hide Bandwidth, U32, Limited;
    if s != [] {
      SettledSend(s0[1..], s[1..], now, elapsed);
      assert Adjusted(s0[0], s[0], now, elapsed);
      if s[0].connected && Settled(s[0], now) { LimitedSends(s[0], elapsed); }
    }
  }

  lemma LimitedSends(p: Peer, elapsed: u32)
    requires Limited(p, elapsed)
    ensures p.packetThrottleLimit * p.outgoingDataTotal <= 31 * Bandwidth(p, elapsed) + p.outgoingDataTotal
    ensures Bandwidth(p, elapsed) <= p.outgoingDataTotal
  {
    hide Bandwidth, LimitFor;
    LimitSends(Bandwidth(p, elapsed), p.outgoingDataTotal);
  }

  /** At this throttle the data fits the bandwidth. */
  ghost predicate Affords(throttle: nat, dataTotal: int, bandwidth: int) {
    0 <= throttle <= SCALE && throttle * dataTotal <= SCALE * bandwidth
  }

  /** What the settled peers send and what the others would at this throttle fits the budget. */
  ghost predicate WithinBudget(s: seq<Peer>, now: u32, throttle: nat, budget: int) {
    Sum(s, SettledSending(now)) + throttle * Sum(s, UnsettledData(now)) <= SCALE * budget
  }

  /** The accounts between two passes: what is left of the budget and of the data. */
  ghost predicate Accounts(s: seq<Peer>, now: u32, elapsed: u32, budget: int, bandwidth: int, dataTotal: int) {
    && bandwidth >= 0 && (dataTotal < bandwidth || dataTotal > 0)
    && bandwidth + Sum(s, Own(now, elapsed)) == budget && dataTotal + Sum(s, Own(now, elapsed)) == Sum(s, Data())
    && Sum(s, SettledSending(now)) <= SCALE * budget
  }

  /** The standing of a pass that started with `bandwidth0` and `data0`, after some peers were settled. */
  ghost predicate InPass(s0: seq<Peer>, s: seq<Peer>, now: u32, elapsed: u32, throttle: nat, bandwidth0: int, data0: int,
                         bandwidth: int, dataTotal: int, settled: nat) {
    && Sum(s, UnsettledData(now)) <= Sum(s0, UnsettledData(now)) && Sum(s, Data()) == Sum(s0, Data())
    && bandwidth0 - bandwidth == data0 - dataTotal == Sum(s, Own(now, elapsed)) - Sum(s0, Own(now, elapsed))
    && SCALE * (bandwidth0 - bandwidth) + SCALE * settled <= throttle * (Sum(s0, UnsettledData(now)) - Sum(s, UnsettledData(now)))
    && Sum(s, SettledSending(now)) <= Sum(s0, SettledSending(now)) + throttle * (Sum(s0, UnsettledData(now)) - Sum(s, UnsettledData(now)))
    && dataTotal - Sum(s, UnsettledData(now)) >= data0 - Sum(s0, UnsettledData(now)) + settled
    && bandwidth <= bandwidth0 && (if settled == 0 then bandwidth == bandwidth0 && s == s0 else throttle >= 1)
    && Sum(s, Unsettled(now)) + settled == Sum(s0, Unsettled(now))
  }

  /** What is left stays positive once a peer was settled, and covers the data of the peers that wait. */
  lemma PassStaysPositive(s0: seq<Peer>, s: seq<Peer>, now: u32, elapsed: u32, throttle: nat, bandwidth0: int, data0: int,
                          bandwidth: int, dataTotal: int, settled: nat)
    requires InPass(s0, s, now, elapsed, throttle, bandwidth0, data0, bandwidth, dataTotal, settled)
    requires bandwidth0 >= 0 && Affords(throttle, data0, bandwidth0)
    requires data0 >= Sum(s0, UnsettledData(now))
    ensures 0 <= bandwidth <= bandwidth0 && dataTotal >= Sum(s, UnsettledData(now))
    ensures settled > 0 || bandwidth0 > 0 ==> bandwidth > 0
    ensures settled > 0 || data0 > 0 ==> dataTotal > 0
  {
    hide Sum;
    var u0, u := Sum(s0, UnsettledData(now)), Sum(s, UnsettledData(now));
    Scaled(throttle, u0 - u, data0);
  }

  /** The peer at `i` is settled. */
  lemma SettleOne(s0: seq<Peer>, s: seq<Peer>, now: u32, elapsed: u32, throttle: nat, bandwidth0: int, data0: int,
                  bandwidth: int, dataTotal: int, settled: nat, i: nat, q: Peer)
    requires InPass(s0, s, now, elapsed, throttle, bandwidth0, data0, bandwidth, dataTotal, settled)
    requires 0 <= throttle <= SCALE && i < |s| && s[i].connected && !Settled(s[i], now)
    requires Share(throttle, s[i].outgoingDataTotal) > Bandwidth(s[i], elapsed)
    requires q == s[i].(packetThrottle := q.packetThrottle, packetThrottleLimit := q.packetThrottleLimit, outgoingEpoch := now)
    requires q.packetThrottleLimit <= throttle
    ensures var own := Bandwidth(s[i], elapsed);
            InPass(s0, s[i := q], now, elapsed, throttle, bandwidth0, data0, bandwidth - own, dataTotal - own, settled + 1)
    ensures Sum(s0, Unsettled(now)) > settled
  {
    SumHas(s, i, Unsettled(now));
    var own, data := Bandwidth(s[i], elapsed), s[i].outgoingDataTotal;
    ShareTooLarge(throttle, data, own);
    LimitBelow(throttle, data, own);
    SumUpdate(s, i, q, Unsettled(now));
    SumUpdate(s, i, q, UnsettledData(now));
    SumUpdate(s, i, q, Data());
    SumUpdate(s, i, q, Own(now, elapsed));
    SumUpdate(s, i, q, SettledSending(now));
    assert Bandwidth(q, elapsed) == own;
    MulMono(q.packetThrottleLimit, throttle, data);
    hide Sum, Bandwidth, U32;
    var u0, u := Sum(s0, UnsettledData(now)), Sum(s, UnsettledData(now));
    Spread(throttle, u0 - u, data);
  }

  /** The budget covers what the settled peers send and what the others would at this throttle. */
  lemma PassFits(s0: seq<Peer>, s: seq<Peer>, now: u32, elapsed: u32, throttle: nat, budget: int, bandwidth0: int, data0: int,
                 bandwidth: int, dataTotal: int, settled: nat)
    requires InPass(s0, s, now, elapsed, throttle, bandwidth0, data0, bandwidth, dataTotal, settled)
    requires Accounts(s0, now, elapsed, budget, bandwidth0, data0) && Affords(throttle, data0, bandwidth0)
    requires Sum(s0, SettledSending(now)) + Sum(s0, UnsettledData(now)) <= 31 * Sum(s0, Own(now, elapsed)) + Sum(s0, Data())
    requires Sum(s0, Own(now, elapsed)) + Sum(s0, UnsettledData(now)) <= Sum(s0, Data())
    ensures WithinBudget(s, now, throttle, budget)
    ensures Accounts(s, now, elapsed, budget, bandwidth, dataTotal) && dataTotal >= Sum(s, UnsettledData(now))
  {
    hide Sum;
    PassStaysPositive(s0, s, now, elapsed, throttle, bandwidth0, data0, bandwidth, dataTotal, settled);
    var u0, u := Sum(s0, UnsettledData(now)), Sum(s, UnsettledData(now));
    if throttle >= 1 {
      Paid(throttle, Sum(s0, SettledSending(now)), Sum(s, SettledSending(now)), u0, u, Sum(s0, Own(now, elapsed)), data0, bandwidth0);
    }
  }

  lemma Paid(throttle: nat, sending0: nat, sending: nat, u0: nat, u: nat, own0: nat, data0: nat, bandwidth0: nat)
    requires throttle >= 1 && throttle * data0 <= SCALE * bandwidth0 && u0 <= data0
    requires sending <= sending0 + throttle * (u0 - u) && sending0 + u0 <= 31 * own0 + own0 + data0
    ensures sending + throttle * u <= SCALE * (bandwidth0 + own0)
  {
    MulMono(1, throttle, data0 - u0);
    Spread(throttle, data0 - u0, u0);
    Spread(throttle, u0 - u, u);
  }

  class Host {
    var peers: seq<Peer>
    var outgoingBandwidth: u32
    var incomingBandwidth: u32

    /** One pass of the adjustment: every peer whose own bandwidth is below its share is settled. */
    method SettlePass(ghost s0: seq<Peer>, now: u32, elapsed: u32, throttle: nat, ghost budget: int, bandwidth0: int, data0: int,
                      remaining0: nat)
      returns (bandwidth: int, dataTotal: int, remaining: nat, needsAdjustment: bool)
      requires |s0| == |peers| && forall j :: 0 <= j < |peers| ==> Adjusted(s0[j], peers[j], now, elapsed)
      requires Accounts(peers, now, elapsed, budget, bandwidth0, data0) && remaining0 == Sum(peers, Unsettled(now))
      requires Affords(throttle, data0, bandwidth0)
      modifies this`peers
      ensures |s0| == |peers| && forall j :: 0 <= j < |peers| ==> Adjusted(s0[j], peers[j], now, elapsed)
      ensures Accounts(peers, now, elapsed, budget, bandwidth, dataTotal) && Sum(peers, Data()) == Sum(old(peers), Data())
      ensures bandwidth <= bandwidth0 && dataTotal >= Sum(peers, UnsettledData(now))
      ensures WithinBudget(peers, now, throttle, budget)
      ensures forall j :: 0 <= j < |peers| ==> Passed(old(peers)[j], peers[j], now, elapsed, throttle)
      ensures remaining == Sum(peers, Unsettled(now)) && (needsAdjustment ==> remaining < remaining0)
      ensures !needsAdjustment ==> peers == old(peers) && remaining == remaining0
      ensures !needsAdjustment ==> forall j :: 0 <= j < |peers| ==> Content(peers[j], now, elapsed, throttle)
    {
      hide Sum, Limited, Bandwidth, InPass, Adjusted, Share, LimitFor, Accounts, WithinBudget;
      AffordsUpToScale(throttle, data0, bandwidth0);
      hide Affords;
      AccountsCover(s0, peers, now, elapsed, budget, bandwidth0, data0);
      bandwidth, dataTotal, remaining, needsAdjustment := bandwidth0, data0, remaining0, false;
      var i := 0;
      ghost var settled := 0;
      PassStarts(peers, now, elapsed, throttle, bandwidth0, data0);
      while i < |peers|
        invariant |s0| == |peers| == |old(peers)| && 0 <= i <= |peers|
        invariant forall j :: 0 <= j < |peers| ==> Adjusted(s0[j], peers[j], now, elapsed)
        invariant InPass(old(peers), peers, now, elapsed, throttle, bandwidth0, data0, bandwidth, dataTotal, settled)
        invariant forall j :: 0 <= j < i ==> Passed(old(peers)[j], peers[j], now, elapsed, throttle)
        invariant forall j :: i <= j < |peers| ==> peers[j] == old(peers)[j]
        invariant needsAdjustment == (settled > 0) && remaining + settled == remaining0
        invariant !needsAdjustment ==> peers == old(peers)
        invariant !needsAdjustment ==> forall j :: 0 <= j < i ==> Content(peers[j], now, elapsed, throttle)
      {
        var p := peers[i];
        if !p.connected || p.incomingBandwidth == 0 || Settled(p, now) {
          i := i + 1;
          continue;
        }
        var peerBandwidth := Bandwidth(p, elapsed);
        if Share(throttle, p.outgoingDataTotal) <= peerBandwidth {
          i := i + 1;
          continue;
        }
        LimitBelow(throttle, p.outgoingDataTotal, peerBandwidth);
        var limit: u32 := LimitFor(peerBandwidth, p.outgoingDataTotal);
        if limit == 0 { limit := 1; }
        var q := p.(packetThrottleLimit := limit, packetThrottle := Min(p.packetThrottle, limit), outgoingEpoch := now);
        AdjustOne(s0[i], p, q, now, elapsed, throttle);
        SettleOne(old(peers), peers, now, elapsed, throttle, bandwidth0, data0, bandwidth, dataTotal, settled, i, q);
        peers := peers[i := q];
        needsAdjustment, remaining := true, remaining - 1;
        settled := settled + 1;
        bandwidth := bandwidth - peerBandwidth;
        dataTotal := dataTotal - peerBandwidth;
        i := i + 1;
      }
      PassFits(old(peers), peers, now, elapsed, throttle, budget, bandwidth0, data0, bandwidth, dataTotal, settled);
      PassEnds(old(peers), peers, now, elapsed, throttle, bandwidth0, data0, bandwidth, dataTotal, settled);
    }

    /** `enet_host_bandwidth_throttle`, the outgoing part, when the round is due. It divides by zero when the
        host's bandwidth, in 32 bits, lets nothing through and nobody sent anything. The peers that are not
        limited by their own bandwidth get the largest throttle that the rest of the budget allows; and those
        that are limited are, unless products wrap, just those that cannot take their share of the budget as it
        was at first. */
    method ThrottleOutgoing(now: u32, elapsed: u32)
      returns (dividesByZero: bool, ghost budget: u32, ghost first: nat, ghost throttle: u32)
      requires elapsed >= INTERVAL && Sum(peers, Data()) < WORD
      requires forall p :: p in peers && p.connected ==> p.outgoingEpoch != now
      modifies this`peers
      ensures budget == if outgoingBandwidth == 0 then UNLIMITED else InTime(outgoingBandwidth, elapsed)
      ensures dividesByZero <==> budget == 0 && Sum(old(peers), Connected()) > 0 && Sum(old(peers), Data()) == 0
      ensures |peers| == |old(peers)| && (dividesByZero ==> peers == old(peers))
      ensures !dividesByZero ==> forall j :: 0 <= j < |peers| ==> Throttled(old(peers)[j], peers[j], now, elapsed, throttle)
      ensures !dividesByZero ==> Sum(peers, Sending()) <= SCALE * budget
      ensures !dividesByZero && Sum(peers, Unsettled(now)) > 0 ==>
                var own := Sum(peers, Own(now, elapsed)); IsLargest(throttle, budget - own, Sum(peers, Data()) - own)
      ensures !dividesByZero && Sum(old(peers), Connected()) > 0 ==> IsLargest(first, budget, Sum(old(peers), Data()))
      ensures !dividesByZero && Sum(old(peers), Connected()) > 0 && (budget < WRAP || Sum(old(peers), Data()) < WRAP) ==>
                SettledRight(old(peers), peers, now, elapsed, first)
    {
      hide Sum, Bandwidth, Throttle, Adjusted, Content, Limited, InTime, Accounts, IsLargest, SettledRight, Passed;
      ghost var s0 := peers;
      var peersTotal, dataTotal := CountPeers();
      NoneSettled(peers, now, elapsed);
      var remaining, needsAdjustment, bandwidth: int := peersTotal, true, UNLIMITED;
      if outgoingBandwidth != 0 { bandwidth := InTime(outgoingBandwidth, elapsed); }
      budget, first, throttle := bandwidth, 0, 0;
      if peersTotal > 0 && dataTotal >= bandwidth && dataTotal == 0 { return true, budget, 0, 0; }
      dividesByZero := false;
      if peersTotal > 0 { FirstAccounts(peers, now, elapsed, bandwidth, dataTotal); }
      var common := 0;
      ghost var data, started := dataTotal, false;
      ghost var plain := budget < WRAP || data < WRAP;
      if peersTotal > 0 {
        ThrottleBounds(bandwidth, dataTotal);
        ThrottleIsLargest(bandwidth, dataTotal);
        first := Throttle(bandwidth, dataTotal);
      }
      while remaining > 0 && needsAdjustment
        invariant |peers| == |s0| && forall j :: 0 <= j < |peers| ==> Adjusted(s0[j], peers[j], now, elapsed)
        invariant peersTotal > 0 ==> Accounts(peers, now, elapsed, budget, bandwidth, dataTotal)
        invariant remaining == Sum(peers, Unsettled(now)) <= peersTotal && 0 <= common <= SCALE
        invariant WithinBudget(peers, now, common, budget)
        invariant !needsAdjustment ==> forall j :: 0 <= j < |peers| ==> Content(peers[j], now, elapsed, common)
        invariant !needsAdjustment ==> IsLargest(common, bandwidth, dataTotal)
        invariant !started ==> peers == s0 && bandwidth == budget && dataTotal == data && needsAdjustment && remaining == peersTotal
        invariant started && plain ==> SettledRight(s0, peers, now, elapsed, first)
        decreases remaining, needsAdjustment
      {
        AccountsCover(s0, peers, now, elapsed, budget, bandwidth, dataTotal);
        ThrottleBounds(bandwidth, dataTotal);
        ThrottleIsLargest(bandwidth, dataTotal);
        common := Throttle(bandwidth, dataTotal);
        ghost var bandwidth0, data0, before := bandwidth, dataTotal, peers;
        if started && plain { LaterIsLower(s0, peers, now, elapsed, budget, bandwidth, dataTotal); }
        bandwidth, dataTotal, remaining, needsAdjustment :=
          SettlePass(s0, now, elapsed, common, budget, bandwidth, dataTotal, remaining);
        if plain { StaysRight(s0, before, peers, now, elapsed, first, common, budget, data, started); }
        started := true;
        if !needsAdjustment { AccountsDecide(peers, now, elapsed, budget, bandwidth0, data0, bandwidth, dataTotal); }
      }
      throttle := common;
      ghost var s := peers;
      if remaining > 0 { AccountsLeave(peers, now, elapsed, budget, bandwidth, dataTotal); }
      if remaining > 0 {
        ApplyThrottle(now, common);
      } else {
        AllSettled(peers, now, elapsed, common);
      }
      RoundEnds(s0, s, peers, now, elapsed, common);
      SameSums(s, peers, now, elapsed, common);
      if started && plain { StillRight(s0, s, peers, now, elapsed, first, common); }
    }

    /** The peers that were not settled get the common throttle. */
    method ApplyThrottle(now: u32, throttle: u32)
      modifies this`peers
      ensures |peers| == |old(peers)|
      ensures forall j :: 0 <= j < |peers| ==> peers[j] == WithThrottle(old(peers)[j], now, throttle)
    {
      var i := 0;
      while i < |peers|
        invariant |peers| == |old(peers)| && 0 <= i <= |peers|
        invariant forall j :: 0 <= j < i ==> peers[j] == WithThrottle(old(peers)[j], now, throttle)
        invariant forall j :: i <= j < |peers| ==> peers[j] == old(peers)[j]
      {
        var p := peers[i];
        if p.connected && !Settled(p, now) {
          p := p.(packetThrottleLimit := throttle);
          if p.packetThrottle > p.packetThrottleLimit { p := p.(packetThrottle := p.packetThrottleLimit); }
          peers := peers[i := p];
        }
        i := i + 1;
      }
    }

    /** One pass over the peers that send less than an even share of the incoming bandwidth. */
    method ReservePass(now: u32, share: int, bandwidth0: int, remaining0: nat)
      returns (bandwidth: int, remaining: nat, needsAdjustment: bool)
      requires remaining0 > 0 && share == bandwidth0 / remaining0 && bandwidth0 >= 0
      requires remaining0 == Sum(peers, Waiting(now))
      modifies this`peers
      ensures |peers| == |old(peers)| && forall j :: 0 <= j < |peers| ==> Reserved(old(peers)[j], peers[j], now)
      ensures bandwidth + Sum(peers, Claimed(now)) == bandwidth0 + Sum(old(peers), Claimed(now)) && bandwidth >= 0
      ensures forall j :: 0 <= j < |peers| ==> (peers[j] == old(peers)[j] <==> TakesShare(old(peers)[j], now, share))
      ensures 0 <= share * remaining <= bandwidth && (share == 0 ==> bandwidth == bandwidth0)
      ensures remaining == Sum(peers, Waiting(now)) && (needsAdjustment ==> remaining < remaining0)
      ensures !needsAdjustment ==> bandwidth == bandwidth0 && remaining == remaining0 && peers == old(peers)
      ensures !needsAdjustment ==> forall j :: 0 <= j < |peers| ==> TakesShare(peers[j], now, share)
    {
      hide Sum, Waiting, Claimed;
      bandwidth, remaining, needsAdjustment := bandwidth0, remaining0, false;
      DivideBack(bandwidth0, remaining0);
      assert share * remaining == (bandwidth0 / remaining0) * remaining0;
      var i := 0;
      while i < |peers|
        invariant |peers| == |old(peers)| && 0 <= i <= |peers|
        invariant forall j :: 0 <= j < |peers| ==> Reserved(old(peers)[j], peers[j], now)
        invariant bandwidth + Sum(peers, Claimed(now)) == bandwidth0 + Sum(old(peers), Claimed(now))
        invariant forall j :: 0 <= j < i ==> (peers[j] == old(peers)[j] <==> TakesShare(old(peers)[j], now, share))
        invariant forall j :: i <= j < |peers| ==> peers[j] == old(peers)[j]
        invariant remaining == Sum(peers, Waiting(now)) && 0 <= share * remaining <= bandwidth
        invariant share == 0 ==> bandwidth == bandwidth0
        invariant if needsAdjustment then remaining < remaining0
                  else bandwidth == bandwidth0 && remaining == remaining0 && peers == old(peers)
        invariant !needsAdjustment ==> forall j :: 0 <= j < i ==> TakesShare(peers[j], now, share)
      {
        var p := peers[i];
        if !p.connected || p.incomingEpoch == now || (p.outgoingBandwidth > 0 && p.outgoingBandwidth >= share) {
          i := i + 1;
          continue;
        }
        ReserveOne(peers, i, now, share, bandwidth);
        peers := peers[i := p.(incomingEpoch := now)];
        needsAdjustment, remaining := true, remaining - 1;
        bandwidth := bandwidth - p.outgoingBandwidth;
        i := i + 1;
      }
    }

    /** The incoming part: what every connected peer is told it may send. A peer that is told 0 takes it for
        no limit. The limits add up to no more than the host takes in; but the sum is a promise only for the
        peers that are told one. Those told none are the ones that announced no bandwidth of their own, and,
        when more peers announced one than the host takes in bytes, all of them. */
    method LimitIncoming(now: u32, peersTotal: nat) returns (limits: seq<nat>, ghost share: nat)
      requires peersTotal == Sum(peers, Connected()) && forall p :: p in peers && p.connected ==> p.incomingEpoch != now
      modifies this`peers
      ensures |limits| == |peers| == |old(peers)|
      ensures forall j :: 0 <= j < |peers| ==> Reserved(old(peers)[j], peers[j], now)
      ensures forall j :: 0 <= j < |peers| ==>
                limits[j] == if !peers[j].connected then 0 else if peers[j].incomingEpoch == now then peers[j].outgoingBandwidth else share
      ensures forall j :: 0 <= j < |peers| ==> incomingBandwidth == 0 || TakesShare(peers[j], now, share)
      ensures incomingBandwidth == 0 ==> share == 0
      ensures Total(limits) <= incomingBandwidth
      ensures incomingBandwidth > 0 && Sum(peers, Waiting(now)) > 0 ==>
                && share == (incomingBandwidth - Sum(peers, Claimed(now))) / Sum(peers, Waiting(now))
                && forall j :: 0 <= j < |peers| && peers[j].connected ==> (peers[j].incomingEpoch == now <==> GivesUpShare(peers[j], share))
      ensures forall j :: 0 <= j < |peers| && peers[j].connected ==>
                (limits[j] == 0 <==>
                 incomingBandwidth == 0 || peers[j].outgoingBandwidth == 0 || incomingBandwidth < Sum(old(peers), Announcing()))
    {
      hide Sum, ShareFits;
      ghost var positive := Sum(peers, Announcing());
      var remaining, needsAdjustment := peersTotal, true;
      var bandwidth: int, bandwidthLimit: int := incomingBandwidth, 0;
      NoneWaitsNot(peers, now);
      FitsAtFirst(peers, now, bandwidth);
      if bandwidth != 0 {
        while remaining > 0 && needsAdjustment
          invariant |peers| == |old(peers)| && forall j :: 0 <= j < |peers| ==> Reserved(old(peers)[j], peers[j], now)
          invariant bandwidth >= 0 && bandwidth + Sum(peers, Claimed(now)) == incomingBandwidth
          invariant remaining == Sum(peers, Waiting(now)) && bandwidthLimit >= 0
          invariant positive == Sum(peers, Announcing()) && ShareFits(peers, now, incomingBandwidth, bandwidth)
          invariant incomingBandwidth < positive ==> bandwidthLimit == 0
          invariant !needsAdjustment && remaining > 0 && incomingBandwidth >= positive ==> bandwidthLimit > 0
          invariant !needsAdjustment ==> bandwidthLimit * remaining <= bandwidth
          invariant !needsAdjustment && remaining > 0 ==> bandwidthLimit == bandwidth / remaining
          invariant bandwidthLimit * remaining <= bandwidth
          invariant forall j :: 0 <= j < |peers| && peers[j].connected && peers[j].incomingEpoch == now ==> GivesUpShare(peers[j], bandwidthLimit)
          invariant !needsAdjustment ==> forall j :: 0 <= j < |peers| ==> TakesShare(peers[j], now, bandwidthLimit)
          decreases remaining, needsAdjustment
        {
          ShareGrows(bandwidth, remaining, bandwidthLimit);
          bandwidthLimit := bandwidth / remaining;
          DivideBack(bandwidth, remaining);
          ghost var s, bandwidth0 := peers, bandwidth;
          bandwidth, remaining, needsAdjustment := ReservePass(now, bandwidthLimit, bandwidth, remaining);
          FitsStill(s, peers, now, incomingBandwidth, bandwidth0, bandwidthLimit, bandwidth);
          if !needsAdjustment && remaining > 0 { ShareIsPositive(peers, now, incomingBandwidth, bandwidth, bandwidthLimit); }
        }
        if remaining == 0 { NoneWaiting(peers, now, bandwidthLimit); }
      }
      share := bandwidthLimit;
      limits := [];
      for i := 0 to |peers|
        invariant |limits| == i
        invariant forall j :: 0 <= j < i ==>
                    limits[j] == if !peers[j].connected then 0 else if peers[j].incomingEpoch == now then peers[j].outgoingBandwidth else bandwidthLimit
      {
        var p := peers[i];
        limits := limits + [if !p.connected then 0 else if p.incomingEpoch == now then p.outgoingBandwidth else bandwidthLimit];
      }
      LimitsAddUp(peers, limits, now, bandwidthLimit);
      WhoIsToldNone(peers, now, incomingBandwidth, bandwidth, bandwidthLimit);
      assert incomingBandwidth == 0 || bandwidthLimit * remaining <= bandwidth;
    }

    /** The connected peers, and the data they sent in the last round. */
    method CountPeers() returns (peersTotal: nat, dataTotal: nat)
      ensures peersTotal == Sum(peers, Connected()) && dataTotal == Sum(peers, Data())
    {
      hide Sum;
      peersTotal, dataTotal := 0, 0;
      SumNothing(Connected());
      SumNothing(Data());
      for i := 0 to |peers|
        invariant peersTotal == Sum(peers[..i], Connected()) && dataTotal == Sum(peers[..i], Data())
      {
        SumNext(peers, i, Connected());
        SumNext(peers, i, Data());
        if !peers[i].connected { continue; }
        peersTotal := peersTotal + 1;
        dataTotal := dataTotal + peers[i].outgoingDataTotal;
      }
      assert peers[..|peers|] == peers;
    }
  }

  function WithThrottle(p: Peer, now: u32, throttle: u32): Peer {
    if p.connected && !Settled(p, now) then p.(packetThrottleLimit := throttle, packetThrottle := Min(p.packetThrottle, throttle)) else p
  }

  lemma {:induction false} AllSettled(s: seq<Peer>, now: u32, elapsed: u32, throttle: u32)
    requires Sum(s, Unsettled(now)) == 0
    ensures forall j :: 0 <= j < |s| ==> s[j] == WithThrottle(s[j], now, throttle) && Content(s[j], now, elapsed, throttle)
    ensures Sum(s, UnsettledData(now)) == 0
  {
    if s != [] { AllSettled(s[1..], now, elapsed, throttle); }
  }

  lemma RoundEnds(s0: seq<Peer>, s: seq<Peer>, t: seq<Peer>, now: u32, elapsed: u32, throttle: u32)
    requires |s0| == |s| == |t| && forall j :: 0 <= j < |s| ==> Adjusted(s0[j], s[j], now, elapsed)
    requires forall j :: 0 <= j < |s| ==> t[j] == WithThrottle(s[j], now, throttle)
    requires forall j :: 0 <= j < |s| ==> Content(s[j], now, elapsed, throttle)
    ensures forall j :: 0 <= j < |s| ==> Throttled(s0[j], t[j], now, elapsed, throttle)
    ensures Sum(t, Sending()) == Sum(s, SettledSending(now)) + throttle * Sum(s, UnsettledData(now))
  {
    SendingSplits(s, t, now, throttle);
    hide Sum, U32, Bandwidth;
    forall j | 0 <= j < |s| ensures Throttled(s0[j], t[j], now, elapsed, throttle) {
      assert Adjusted(s0[j], s[j], now, elapsed);
    }
  }

  lemma {:induction false} SendingSplits(s: seq<Peer>, t: seq<Peer>, now: u32, throttle: u32)
    requires |s| == |t| && forall j :: 0 <= j < |s| ==> t[j] == WithThrottle(s[j], now, throttle)
    ensures Sum(t, Sending()) == Sum(s, SettledSending(now)) + throttle * Sum(s, UnsettledData(now))
  {
    if s != [] {
      SendingSplits(s[1..], t[1..], now, throttle);
      Spread(throttle, UnsettledData(now)(s[0]), Sum(s[1..], UnsettledData(now)));
    }
  }

  lemma SumNothing(f: Peer -> nat)
    ensures forall s: seq<Peer> :: Sum(s[..0], f) == 0
  {
  }

  lemma PassStarts(s: seq<Peer>, now: u32, elapsed: u32, throttle: nat, bandwidth: int, dataTotal: int)
    ensures InPass(s, s, now, elapsed, throttle, bandwidth, dataTotal, bandwidth, dataTotal, 0)
  {
  }

  lemma PassEnds(s0: seq<Peer>, s: seq<Peer>, now: u32, elapsed: u32, throttle: nat, bandwidth0: int, data0: int,
                 bandwidth: int, dataTotal: int, settled: nat)
    requires InPass(s0, s, now, elapsed, throttle, bandwidth0, data0, bandwidth, dataTotal, settled)
    requires bandwidth0 >= 0 && Affords(throttle, data0, bandwidth0)
    requires data0 >= Sum(s0, UnsettledData(now))
    ensures bandwidth <= bandwidth0 && Sum(s, Data()) == Sum(s0, Data())
    ensures Sum(s, Unsettled(now)) + settled == Sum(s0, Unsettled(now))
  {
    PassStaysPositive(s0, s, now, elapsed, throttle, bandwidth0, data0, bandwidth, dataTotal, settled);
  }

  lemma FirstAccounts(s: seq<Peer>, now: u32, elapsed: u32, bandwidth: int, dataTotal: int)
    requires bandwidth >= 0 && (dataTotal < bandwidth || dataTotal > 0) && dataTotal == Sum(s, Data())
    requires Sum(s, Own(now, elapsed)) == 0 == Sum(s, SettledSending(now))
    ensures Accounts(s, now, elapsed, bandwidth, bandwidth, dataTotal)
  {
  }

  /** The settled peers are those that cannot take their share at this throttle. */
  ghost predicate SettledRight(s0: seq<Peer>, s: seq<Peer>, now: u32, elapsed: u32, throttle: nat) {
    |s0| == |s| && forall j :: 0 <= j < |s| && s[j].connected ==> (Settled(s[j], now) <==> !Content(s0[j], now, elapsed, throttle))
  }

  /** From the first pass on the throttle only falls. */
  lemma LaterIsLower(s0: seq<Peer>, s: seq<Peer>, now: u32, elapsed: u32, budget: int, bandwidth: int, dataTotal: int)
    requires |s0| == |s| && forall j :: 0 <= j < |s| ==> Adjusted(s0[j], s[j], now, elapsed)
    requires Accounts(s, now, elapsed, budget, bandwidth, dataTotal) && (budget < WRAP || Sum(s0, Data()) < WRAP)
    ensures var data := Sum(s0, Data()); budget >= 0 && (data < budget || data > 0) && Throttle(bandwidth, dataTotal) <= Throttle(budget, data)
  {
    SameData(s0, s, now, elapsed);
    hide Sum;
    var data, own := Sum(s0, Data()), Sum(s, Own(now, elapsed));
    AccountsCover(s0, s, now, elapsed, budget, bandwidth, dataTotal);
    if bandwidth > 0 {
      ThrottleFalls(budget, data, own);
    } else {
      ThrottleBounds(budget, data);
      NothingLeft(dataTotal);
    }
  }

  lemma NothingLeft(dataTotal: nat)
    requires dataTotal > 0
    ensures Throttle(0, dataTotal) == 0
  {
  }

  lemma SameData(s0: seq<Peer>, s: seq<Peer>, now: u32, elapsed: u32)
    requires |s0| == |s| && forall j :: 0 <= j < |s| ==> Adjusted(s0[j], s[j], now, elapsed)
    ensures Sum(s, Data()) == Sum(s0, Data())
  {
    hide Limited, Sum;
    forall j | 0 <= j < |s| ensures Data()(s[j]) == Data()(s0[j]) { assert Adjusted(s0[j], s[j], now, elapsed); }
    SumSame(s, s0, Data(), Data());
  }

  /** A peer that can take its share can take a smaller one. */
  lemma ContentWithLess(p: Peer, now: u32, elapsed: u32, t: nat, throttle: nat, data: nat, budget: nat)
    requires t <= throttle && Affords(throttle, data, budget) && p.outgoingDataTotal <= data && (budget < WRAP || data < WRAP)
    requires Content(p, now, elapsed, throttle)
    ensures Content(p, now, elapsed, t)
  {
    hide Bandwidth, U32;
    var d := p.outgoingDataTotal;
    MulMono(t, throttle, d);
    Scaled(throttle, d, data);
    MulMono(throttle, SCALE, d);
    WrapBelow(throttle * d);
    WrapBelow(t * d);
    ShareLess(t * d, throttle * d);
  }

  lemma ShareLess(x: nat, y: nat)
    requires x <= y
    ensures x / SCALE <= y / SCALE
  {
  }

  /** A pass settles those peers if it is the first, and none if it is a later one. */
  lemma StaysRight(s0: seq<Peer>, s: seq<Peer>, t: seq<Peer>, now: u32, elapsed: u32, first: nat, throttle: nat, budget: nat, data: nat,
                   started: bool)
    requires |s0| == |s| == |t| && forall j :: 0 <= j < |s| ==> Adjusted(s0[j], s[j], now, elapsed)
    requires forall j :: 0 <= j < |s| ==> Passed(s[j], t[j], now, elapsed, throttle)
    requires data == Sum(s0, Data()) && Affords(first, data, budget) && (budget < WRAP || data < WRAP) && throttle <= first
    requires if started then SettledRight(s0, s, now, elapsed, first) else s == s0 && throttle == first
    requires forall j :: 0 <= j < |s| && s0[j].connected ==> !Settled(s0[j], now)
    ensures SettledRight(s0, t, now, elapsed, first)
  {
    forall j | 0 <= j < |t| && t[j].connected ensures Settled(t[j], now) <==> !Content(s0[j], now, elapsed, first) {
      assert Passed(s[j], t[j], now, elapsed, throttle) && Adjusted(s0[j], s[j], now, elapsed);
      SumHas(s0, j, Data());
      hide Bandwidth, Share, Sum, Limited;
      if started && !Settled(s[j], now) && s[j].connected { ContentWithLess(s0[j], now, elapsed, throttle, first, data, budget); }
    }
  }

  lemma StillRight(s0: seq<Peer>, s: seq<Peer>, t: seq<Peer>, now: u32, elapsed: u32, first: nat, throttle: u32)
    requires SettledRight(s0, s, now, elapsed, first) && |s| == |t| && forall j :: 0 <= j < |s| ==> t[j] == WithThrottle(s[j], now, throttle)
    ensures SettledRight(s0, t, now, elapsed, first)
  {
    hide Content;
  }

  /** The accounts follow from the peers. */
  lemma AccountsDecide(s: seq<Peer>, now: u32, elapsed: u32, budget: int, b0: int, d0: int, b: int, d: int)
    requires Accounts(s, now, elapsed, budget, b0, d0) && Accounts(s, now, elapsed, budget, b, d)
    ensures b0 == b && d0 == d
  {
  }

  lemma AccountsLeave(s: seq<Peer>, now: u32, elapsed: u32, budget: int, b: int, d: int)
    requires Accounts(s, now, elapsed, budget, b, d)
    ensures b == budget - Sum(s, Own(now, elapsed)) && d == Sum(s, Data()) - Sum(s, Own(now, elapsed))
  {
  }

  /** Applying the common throttle leaves who is settled, and what was sent. */
  lemma SameSums(s: seq<Peer>, t: seq<Peer>, now: u32, elapsed: u32, throttle: u32)
    requires |s| == |t| && forall j :: 0 <= j < |s| ==> t[j] == WithThrottle(s[j], now, throttle)
    ensures Sum(t, Unsettled(now)) == Sum(s, Unsettled(now)) && Sum(t, Own(now, elapsed)) == Sum(s, Own(now, elapsed))
    ensures Sum(t, Data()) == Sum(s, Data())
  {
    hide Sum;
    SumSame(t, s, Unsettled(now), Unsettled(now));
    SumSame(t, s, Own(now, elapsed), Own(now, elapsed));
    SumSame(t, s, Data(), Data());
  }

  lemma AffordsUpToScale(throttle: nat, dataTotal: int, bandwidth: int)
    requires Affords(throttle, dataTotal, bandwidth)
    ensures 0 <= throttle <= SCALE
  {
  }

  lemma AccountsCover(s0: seq<Peer>, s: seq<Peer>, now: u32, elapsed: u32, budget: int, bandwidth: int, dataTotal: int)
    requires |s0| == |s| && forall j :: 0 <= j < |s| ==> Adjusted(s0[j], s[j], now, elapsed)
    requires Accounts(s, now, elapsed, budget, bandwidth, dataTotal)
    ensures bandwidth >= 0 && dataTotal >= 0 && (dataTotal < bandwidth || dataTotal > 0)
    ensures Sum(s, SettledSending(now)) + Sum(s, UnsettledData(now)) <= 31 * Sum(s, Own(now, elapsed)) + Sum(s, Data())
    ensures Sum(s, Own(now, elapsed)) + Sum(s, UnsettledData(now)) <= Sum(s, Data())
    ensures dataTotal >= Sum(s, UnsettledData(now))
  {
    SettledSend(s0, s, now, elapsed);
  }

  lemma AdjustOne(p0: Peer, p: Peer, q: Peer, now: u32, elapsed: u32, throttle: nat)
    requires Adjusted(p0, p, now, elapsed) && 0 <= throttle <= SCALE && !Content(p, now, elapsed, throttle)
    requires var limit := Max(1, LimitFor(Bandwidth(p, elapsed), p.outgoingDataTotal));
             q == p.(packetThrottleLimit := limit, packetThrottle := Min(p.packetThrottle, limit), outgoingEpoch := now)
    ensures Adjusted(p0, q, now, elapsed) && Passed(p, q, now, elapsed, throttle)
  {
    hide Share, LimitFor;
    ShareTooLarge(throttle, p.outgoingDataTotal, Bandwidth(p, elapsed));
    assert Bandwidth(q, elapsed) == Bandwidth(p, elapsed);
    hide Bandwidth;
  }

  lemma {:induction false} NoneSettled(s: seq<Peer>, now: u32, elapsed: u32)
    requires forall p :: p in s && p.connected ==> p.outgoingEpoch != now
    ensures Sum(s, Unsettled(now)) == Sum(s, Connected()) && Sum(s, UnsettledData(now)) == Sum(s, Data())
    ensures Sum(s, Own(now, elapsed)) == 0 == Sum(s, SettledSending(now))
    ensures forall j :: 0 <= j < |s| ==> Adjusted(s[j], s[j], now, elapsed)
  {
    if s != [] {
      assert s[0] in s;
      NoneSettled(s[1..], now, elapsed);
    }
  }

  /** The data a peer may send this round, in 32nds. */
  function Sending(): Peer -> nat { (p: Peer) => if p.connected then p.packetThrottleLimit * p.outgoingDataTotal else 0 }

  // ---------------------------------------------------------------- the incoming bandwidth

  function Waiting(now: u32): Peer -> nat { (p: Peer) => if p.connected && p.incomingEpoch != now then 1 else 0 }

  function Claimed(now: u32): Peer -> nat {
    (p: Peer) => if p.connected && p.incomingEpoch == now then p.outgoingBandwidth else 0
  }

  predicate Reserved(p: Peer, q: Peer, now: u32) {
    q == p || (p.connected && p.incomingEpoch != now && q == p.(incomingEpoch := now))
  }

  /** A peer that is not reserved its own bandwidth has at least the share. */
  predicate TakesShare(p: Peer, now: u32, share: int) {
    !p.connected || p.incomingEpoch == now || (p.outgoingBandwidth > 0 && p.outgoingBandwidth >= share)
  }

  lemma ReserveOne(s: seq<Peer>, i: nat, now: u32, share: int, bandwidth: int)
    requires i < |s| && s[i].connected && s[i].incomingEpoch != now && !(s[i].outgoingBandwidth > 0 && s[i].outgoingBandwidth >= share)
    requires share >= 0 && share * Sum(s, Waiting(now)) <= bandwidth
    ensures var t := s[i := s[i].(incomingEpoch := now)];
            && Sum(t, Waiting(now)) + 1 == Sum(s, Waiting(now))
            && Sum(t, Claimed(now)) == Sum(s, Claimed(now)) + s[i].outgoingBandwidth
            && 0 <= share * Sum(t, Waiting(now)) <= bandwidth - s[i].outgoingBandwidth
  {
    hide Sum;
    var p := s[i].(incomingEpoch := now);
    SumUpdate(s, i, p, Waiting(now));
    SumUpdate(s, i, p, Claimed(now));
    var rest := Sum(s[i := p], Waiting(now));
    Spread(share, rest, 1);
    Scaled(share, 0, rest);
  }

  /** The peers that announced how much they can send. */
  function Announcing(): Peer -> nat { (p: Peer) => if p.connected && p.outgoingBandwidth > 0 then 1 else 0 }

  function WaitingToSend(now: u32): Peer -> nat {
    (p: Peer) => if p.connected && p.outgoingBandwidth > 0 && p.incomingEpoch != now then 1 else 0
  }

  /** There is a byte for every announcing peer that waits, or there never was one for each. */
  ghost predicate ShareFits(s: seq<Peer>, now: u32, all: nat, bandwidth: int) {
    if all < Sum(s, Announcing())
    then bandwidth == all && forall j :: 0 <= j < |s| && s[j].connected && s[j].outgoingBandwidth > 0 ==> s[j].incomingEpoch != now
    else bandwidth >= Sum(s, WaitingToSend(now))
  }

  lemma FitsAtFirst(s: seq<Peer>, now: u32, all: nat)
    requires forall p :: p in s && p.connected ==> p.incomingEpoch != now
    ensures ShareFits(s, now, all, all)
  {
    assert forall j :: 0 <= j < |s| ==> s[j] in s;
    SumSame(s, s, Announcing(), WaitingToSend(now));
  }

  lemma FitsStill(s: seq<Peer>, t: seq<Peer>, now: u32, all: nat, bandwidth0: int, share: int, bandwidth: int)
    requires |s| == |t| && forall j :: 0 <= j < |s| ==> Reserved(s[j], t[j], now)
    requires forall j :: 0 <= j < |s| ==> (t[j] == s[j] <==> TakesShare(s[j], now, share))
    requires ShareFits(s, now, all, bandwidth0) && Sum(s, Waiting(now)) > 0 && bandwidth0 >= 0 && share == bandwidth0 / Sum(s, Waiting(now))
    requires 0 <= share * Sum(t, Waiting(now)) <= bandwidth && (share == 0 ==> bandwidth == bandwidth0)
    ensures Sum(t, Announcing()) == Sum(s, Announcing()) && ShareFits(t, now, all, bandwidth)
    ensures all < Sum(s, Announcing()) ==> share == 0
  {
    hide Sum;
    SumSame(t, s, Announcing(), Announcing());
    if all < Sum(s, Announcing()) {
      SumBelow(s, Announcing(), Waiting(now), Waiting(now), 1, 0);
      SmallQuotient(bandwidth0, Sum(s, Waiting(now)));
    } else if share == 0 {
      SumSame(t, s, WaitingToSend(now), WaitingToSend(now));
    } else {
      DivideBack(bandwidth0, Sum(s, Waiting(now)));
      SumBelow(t, WaitingToSend(now), Waiting(now), Waiting(now), 1, 0);
      MulMono(1, share, Sum(t, Waiting(now)));
    }
  }

  /** A peer that sends less than the share, or has not said how much, is reserved what it has. */
  predicate GivesUpShare(p: Peer, share: int) { p.outgoingBandwidth == 0 || p.outgoingBandwidth < share }

  lemma ShareGrows(bandwidth: nat, remaining: nat, share: nat)
    requires remaining > 0 && share * remaining <= bandwidth
    ensures share <= bandwidth / remaining
  {
    DivideBack(bandwidth, remaining);
    if bandwidth / remaining < share { MulMono(bandwidth / remaining + 1, share, remaining); }
  }

  lemma SmallQuotient(x: int, y: int)
    requires 0 <= x < y
    ensures x / y == 0
  {
  }

  lemma ShareIsPositive(s: seq<Peer>, now: u32, all: nat, bandwidth: int, share: int)
    requires ShareFits(s, now, all, bandwidth) && Sum(s, Waiting(now)) > 0 && bandwidth >= 0 && share == bandwidth / Sum(s, Waiting(now))
    requires forall j :: 0 <= j < |s| ==> TakesShare(s[j], now, share)
    ensures all >= Sum(s, Announcing()) ==> share > 0
  {
    SumSame(s, s, Waiting(now), WaitingToSend(now));
    DivideBack(bandwidth, Sum(s, Waiting(now)));
  }

  lemma WhoIsToldNone(s: seq<Peer>, now: u32, all: nat, bandwidth: int, share: int)
    requires ShareFits(s, now, all, bandwidth) && share >= 0
    requires all > 0 ==> forall j :: 0 <= j < |s| ==> TakesShare(s[j], now, share)
    requires all == 0 ==> share == 0 && forall j :: 0 <= j < |s| && s[j].connected ==> s[j].incomingEpoch != now
    requires all < Sum(s, Announcing()) ==> share == 0
    requires all > 0 && Sum(s, Waiting(now)) > 0 && all >= Sum(s, Announcing()) ==> share > 0
    ensures forall j :: 0 <= j < |s| && s[j].connected ==>
              ((if s[j].incomingEpoch == now then s[j].outgoingBandwidth else share) == 0 <==>
               all == 0 || s[j].outgoingBandwidth == 0 || all < Sum(s, Announcing()))
  {
    hide Sum;
    forall j | 0 <= j < |s| && s[j].connected
      ensures (if s[j].incomingEpoch == now then s[j].outgoingBandwidth else share) == 0 <==>
              all == 0 || s[j].outgoingBandwidth == 0 || all < Sum(s, Announcing())
    {
      SumHas(s, j, Waiting(now));
    }
  }

  function Total(s: seq<nat>): nat { if s == [] then 0 else s[0] + Total(s[1..]) }

  lemma {:induction false} NoneWaitsNot(s: seq<Peer>, now: u32)
    requires forall p :: p in s && p.connected ==> p.incomingEpoch != now
    ensures Sum(s, Waiting(now)) == Sum(s, Connected()) && Sum(s, Claimed(now)) == 0
  {
    if s != [] {
      assert s[0] in s;
      NoneWaitsNot(s[1..], now);
    }
  }

  lemma {:induction false} NoneWaiting(s: seq<Peer>, now: u32, share: int)
    requires Sum(s, Waiting(now)) == 0
    ensures forall j :: 0 <= j < |s| ==> TakesShare(s[j], now, share)
  {
    if s != [] { NoneWaiting(s[1..], now, share); }
  }

  lemma {:induction false} LimitsAddUp(s: seq<Peer>, limits: seq<nat>, now: u32, share: nat)
    requires |limits| == |s|
    requires forall j :: 0 <= j < |s| ==>
               limits[j] == if !s[j].connected then 0 else if s[j].incomingEpoch == now then s[j].outgoingBandwidth else share
    ensures Total(limits) == Sum(s, Claimed(now)) + share * Sum(s, Waiting(now))
  {
    if s != [] {
      LimitsAddUp(s[1..], limits[1..], now, share);
      Spread(share, Waiting(now)(s[0]), Sum(s[1..], Waiting(now)));
    }
  }
}
