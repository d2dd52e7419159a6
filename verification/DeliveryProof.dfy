/** Reliable delivery: whatever the network loses, repeats or reorders, the receiver dispatches a
    prefix of the packets the sender queued, each once, in order and with its own bytes. */
module DeliveryProof {
  import opened Numbers
  import opened ReliableChannel
  import opened IncomingChannel

  // ---------------------------------------------------------------- unbounded sequence numbers

  /** The sequence number of packet `k` if numbers did not wrap around. */
  function Start(packets: seq<seq<byte>>, size: nat, k: nat): int
    requires size > 0 && k <= |packets|
  {
    if k == 0 then 1 else Start(packets, size, k - 1) + Span(packets[k - 1], size)
  }

  lemma {:induction false} StartGrows(packets: seq<seq<byte>>, size: nat, j: nat, k: nat)
    requires size > 0 && j <= k <= |packets|
    ensures Start(packets, size, j) + (k - j) <= Start(packets, size, k)
    ensures j < k ==> Start(packets, size, j) + Span(packets[j], size) <= Start(packets, size, k)
    decreases k - j
  {
    if j < k {
      SpanPositive(packets[k - 1], size);
      StartGrows(packets, size, j, k - 1);
    }
  }

  lemma SpanPositive(packet: seq<byte>, size: nat)
    requires size > 0
    ensures Span(packet, size) >= 1
  {
    if |packet| > size {
      CountBounds(|packet|, size);
      if Span(packet, size) <= 0 { MulMono(Span(packet, size), 0, size); }
    }
  }

  lemma {:induction false} StartOfPrefix(packets: seq<seq<byte>>, more: seq<seq<byte>>, size: nat, k: nat)
    requires size > 0 && k <= |packets|
    ensures Start(packets + more, size, k) == Start(packets, size, k)
  {
    if k > 0 { StartOfPrefix(packets, more, size, k - 1); }
  }

  /** The last number dispatched when `d` packets are. */
  function Dispatched(packets: seq<seq<byte>>, size: nat, d: nat): int
    requires size > 0 && d <= |packets|
  {
    Start(packets, size, d) - 1
  }

  /** The forward distance between two numbers on the circle. */
  function Ahead(last: u16, number: u16): int { (number - last) % SPACE }

  lemma AheadOf(w: int, v: int)
    requires 0 <= v - w < SPACE
    ensures Ahead(U16(w), U16(v)) == v - w
  {
    var r := U16(v) - U16(w);
    assert v == SPACE * (v / SPACE) + U16(v) && w == SPACE * (w / SPACE) + U16(w);
    assert r - (v - w) == SPACE * (w / SPACE - v / SPACE);
    SameOnCircle(r, v - w, w / SPACE - v / SPACE);
  }

  lemma SameOnCircle(r: int, x: int, k: int)
    requires r == x + SPACE * k && 0 <= x < SPACE
    ensures r % SPACE == x
  {
  }

  /** The comparison in the backward search is the comparison of forward distances. */
  lemma CompareIsByDistance(last: u16, number: u16, queued: u16)
    ensures Compare(last, number, queued) ==
            if Ahead(last, queued) > Ahead(last, number) then Beyond
            else if Ahead(last, queued) < Ahead(last, number) then Before
            else Equal
  {
  }

  /** The window test reads a number as lying ahead, by less than seven windows. */
  lemma WindowIsDistance(last: u16, number: u16)
    ensures InWindow(last, number) <==> last + Ahead(last, number) < (last / WINDOW_SIZE + FREE_WINDOWS - 1) * WINDOW_SIZE
  {
    var d := Ahead(last, number);
    if number >= last {
      assert d == number - last;
    } else {
      assert d == number - last + SPACE;
      assert (number + SPACE) / WINDOW_SIZE == number / WINDOW_SIZE + WINDOWS;
    }
  }

  /** A number that is really `v` is taken for what it is, or refused, exactly when it is not so old,
      or so far ahead, that it lies in the accepted windows of another lap. */
  ghost predicate Unambiguous(w: int, v: int) {
    InWindow(U16(w), U16(v)) ==> Ahead(U16(w), U16(v)) == v - w
  }

  /** At most 0x9000 numbers old, plus the way into the current window, and less than a lap ahead. */
  ghost predicate Timely(w: int, v: int) {
    -(0x9000 + w % WINDOW_SIZE) <= v - w < SPACE
  }

  lemma SameWindowOffset(w: int)
    ensures U16(w) % WINDOW_SIZE == w % WINDOW_SIZE
  {
    assert w == SPACE * (w / SPACE) + U16(w);
    assert U16(w) == WINDOW_SIZE * (U16(w) / WINDOW_SIZE) + U16(w) % WINDOW_SIZE;
    SameInWindow(w, WINDOWS * (w / SPACE) + U16(w) / WINDOW_SIZE, U16(w) % WINDOW_SIZE);
  }

  lemma SameInWindow(w: int, q: int, r: int)
    requires w == WINDOW_SIZE * q + r && 0 <= r < WINDOW_SIZE
    ensures w % WINDOW_SIZE == r
  {
  }

  /** Within a lap either way, the bound is exact: one number older, and a duplicate can be taken for a
      command of the next lap. */
  lemma TimelyIsExact(w: int, v: int)
    requires -SPACE < v - w < SPACE
    ensures Unambiguous(w, v) <==> Timely(w, v)
  {
    var last, number := U16(w), U16(v);
    WindowIsDistance(last, number);
    SameWindowOffset(w);
    assert last == WINDOW_SIZE * (last / WINDOW_SIZE) + last % WINDOW_SIZE;
    if v < w {
      AheadOf(w, v + SPACE);
      assert U16(v + SPACE) == U16(v);
    } else {
      AheadOf(w, v);
    }
  }

  // ---------------------------------------------------------------- what the receiver holds

  lemma {:induction false} MissingSplit(got: seq<bool>, n: nat)
    requires n < |got|
    ensures Missing(got) == Missing(got[..n]) + (if got[n] then 0 else 1) + Missing(got[n + 1..])
  {
    if n > 0 {
      MissingSplit(got[1..], n - 1);
      assert got[1..][..n - 1] == got[..n][1..] && got[1..][n..] == got[n + 1..];
    }
  }

  lemma MissingAfter(got: seq<bool>, n: nat)
    requires n < |got| && !got[n]
    ensures Missing(got[n := true]) == Missing(got) - 1
  {
    MissingSplit(got, n);
    MissingSplit(got[n := true], n);
    assert got[n := true][..n] == got[..n] && got[n := true][n + 1..] == got[n + 1..];
  }

  lemma {:induction false} NoneMissing(got: seq<bool>, n: nat)
    requires Missing(got) == 0 && n < |got|
    ensures got[n]
  {
    MissingSplit(got, n);
  }

  lemma {:induction false} AllMissing(count: nat)
    ensures Missing(seq(count, _ => false)) == count
  {
    if count > 0 {
      AllMissing(count - 1);
      assert seq(count, _ => false)[1..] == seq(count - 1, _ => false);
    }
  }

  /** The received part of a packet that arrives in pieces. */
  ghost predicate PieceThere(e: Incoming, packet: seq<byte>, size: nat, n: nat)
    requires size > 0 && n < Span(packet, size) && |e.data| == |packet|
  {
    PieceExists(packet, size, n);
    e.data[n * size..Min(n * size + size, |packet|)] == Piece(packet, size, n)
  }

  ghost predicate EntryFor(e: Incoming, packet: seq<byte>, size: nat, number: u16)
    requires size > 0
  {
    if |packet| <= size then e == Incoming(number, 0, 0, [], packet)
    else
      var count := FragmentCount(|packet|, size);
      && e.number == number && e.count == count && |e.got| == count && |e.data| == |packet|
      && e.remaining == Missing(e.got)
      && forall n: nat :: n < count && e.got[n] ==> PieceThere(e, packet, size, n)
  }

  /** Reassembly: when no fragment is missing, the buffer is the packet. */
  lemma CompleteEntryIsPacket(e: Incoming, packet: seq<byte>, size: nat, number: u16)
    requires size > 0 && EntryFor(e, packet, size, number) && e.remaining == 0
    ensures e.data == packet
  {
    if |packet| > size {
      forall i | 0 <= i < |packet|
        ensures e.data[i] == packet[i]
      {
        var n := i / size;
        InPiece(packet, size, i);
        NoneMissing(e.got, n);
        assert PieceThere(e, packet, size, n);
        assert e.data[n * size..Min(n * size + size, |packet|)][i - n * size] == Piece(packet, size, n)[i - n * size];
      }
    }
  }

  lemma InPiece(packet: seq<byte>, size: nat, i: nat)
    requires size > 0 && |packet| > size && i < |packet|
    ensures var n := i / size; n < FragmentCount(|packet|, size) && n * size <= i < Min(n * size + size, |packet|)
  {
    var n := i / size;
    assert i == size * n + i % size;
    assert size * n == n * size;
    CountBounds(|packet|, size);
    if n >= FragmentCount(|packet|, size) { MulMono(FragmentCount(|packet|, size), n, size); }
  }

  /** A queued entry stands for packet `k`. */
  ghost predicate Holds(e: Incoming, packets: seq<seq<byte>>, size: nat, k: nat)
    requires size > 0
  {
    k < |packets| && EntryFor(e, packets[k], size, U16(Start(packets, size, k)))
  }

  /** `ks[i]` is the packet that `pending[i]` stands for; `d` packets are dispatched. */
  ghost predicate Represents(ch: Channel, packets: seq<seq<byte>>, size: nat, d: nat, ks: seq<nat>)
    requires size > 0
  {
    && d <= |packets| && ch.dispatched == packets[..d]
    && ch.last == U16(Dispatched(packets, size, d))
    && |ks| == |ch.pending|
    && (forall i :: 0 <= i < |ks| ==> d <= ks[i] && Holds(ch.pending[i], packets, size, ks[i]))
    && (forall i :: 0 <= i < |ks| ==> ks[i] < |packets| && Start(packets, size, ks[i]) - Dispatched(packets, size, d) < SPACE)
    && (forall i, j :: 0 <= i < j < |ks| ==> ks[i] < ks[j])
  }

  /** Nothing that could be dispatched is left waiting. */
  ghost predicate Settled(ch: Channel) { !CanDispatch(ch) }

  // ---------------------------------------------------------------- finding the place

  lemma {:induction false} SearchFinds(ch: Channel, packets: seq<seq<byte>>, size: nat, d: nat, ks: seq<nat>, k: nat, m: nat)
    requires size > 0 && Represents(ch, packets, size, d, ks)
    requires d <= k < |packets| && Start(packets, size, k) - Dispatched(packets, size, d) < SPACE && m <= |ks|
    ensures match Search(ch.pending, ch.last, U16(Start(packets, size, k)), m)
            case At(i) => (forall j :: 0 <= j < i ==> ks[j] < k) && (forall j :: i <= j < m ==> k < ks[j])
            case Same(i) => ks[i] == k
  {
    if m > 0 {
      var w := Dispatched(packets, size, d);
      assert Holds(ch.pending[m - 1], packets, size, ks[m - 1]);
      StartGrows(packets, size, d, k);
      StartGrows(packets, size, d, ks[m - 1]);
      AheadOf(w, Start(packets, size, k));
      AheadOf(w, Start(packets, size, ks[m - 1]));
      CompareIsByDistance(ch.last, U16(Start(packets, size, k)), ch.pending[m - 1].number);
      if k < ks[m - 1] {
        StartGrows(packets, size, k, ks[m - 1]);
        SearchFinds(ch, packets, size, d, ks, k, m - 1);
      } else if ks[m - 1] < k {
        StartGrows(packets, size, ks[m - 1], k);
      }
    }
  }

  lemma InsertKeeps(ch: Channel, packets: seq<seq<byte>>, size: nat, d: nat, ks: seq<nat>, k: nat, i: nat, e: Incoming)
    requires size > 0 && Represents(ch, packets, size, d, ks) && i <= |ks|
    requires d <= k < |packets| && Start(packets, size, k) - Dispatched(packets, size, d) < SPACE
    requires Holds(e, packets, size, k)
    requires (forall j :: 0 <= j < i ==> ks[j] < k) && (forall j :: i <= j < |ks| ==> k < ks[j])
    ensures Represents(ch.(pending := ch.pending[..i] + [e] + ch.pending[i..]), packets, size, d, ks[..i] + [k] + ks[i..])
  {
    hide Holds, Start, Dispatched;
    var p', ks' := ch.pending[..i] + [e] + ch.pending[i..], ks[..i] + [k] + ks[i..];
    forall j | 0 <= j < |ks'|
      ensures d <= ks'[j] && Holds(p'[j], packets, size, ks'[j])
      ensures ks'[j] < |packets| && Start(packets, size, ks'[j]) - Dispatched(packets, size, d) < SPACE
    {
      if j < i { assert ks'[j] == ks[j] && p'[j] == ch.pending[j]; }
      else if j > i { assert ks'[j] == ks[j - 1] && p'[j] == ch.pending[j - 1]; }
    }
  }

  // ---------------------------------------------------------------- dispatching

  lemma DispatchOne(ch: Channel, packets: seq<seq<byte>>, size: nat, d: nat, ks: seq<nat>)
    requires size > 0 && Represents(ch, packets, size, d, ks) && CanDispatch(ch)
    ensures ks != [] && ks[0] == d < |packets|
    ensures Represents(Channel(AfterDispatch(ch.pending[0]), ch.pending[1..], ch.dispatched + [ch.pending[0].data]),
                       packets, size, d + 1, ks[1..])
  {
    var e, w := ch.pending[0], Dispatched(packets, size, d);
    assert Holds(e, packets, size, ks[0]);
    StartGrows(packets, size, d, ks[0]);
    AheadOf(w, Start(packets, size, ks[0]));
    assert e.number == U16(ch.last + 1);
    AheadOf(w, w + 1);
    WrapNext(w);
    NumberAfter(packets, size, d, ks[0]);
    var packet := packets[d];
    CompleteEntryIsPacket(e, packet, size, e.number);
    assert packets[..d + 1] == packets[..d] + [packet];
    SpanPositive(packet, size);
    LastAfter(e, packet, size, w + 1);
    var ch' := Channel(AfterDispatch(e), ch.pending[1..], ch.dispatched + [e.data]);
    forall i | 0 <= i < |ks[1..]|
      ensures d + 1 <= ks[1..][i] && Holds(ch'.pending[i], packets, size, ks[1..][i])
      ensures ks[1..][i] < |packets| && Start(packets, size, ks[1..][i]) - Dispatched(packets, size, d + 1) < SPACE
    {
      assert ks[1..][i] == ks[i + 1] && ch'.pending[i] == ch.pending[i + 1];
      assert ks[0] < ks[i + 1];
    }
  }

  lemma WrapNext(w: int)
    ensures U16(U16(w) + 1) == U16(w + 1)
  {
  }

  /** Only the first undispatched packet starts right after the last number. */
  lemma NumberAfter(packets: seq<seq<byte>>, size: nat, d: nat, k: nat)
    requires size > 0 && d <= k < |packets|
    requires var w := Dispatched(packets, size, d);
             Start(packets, size, k) - w < SPACE && U16(Start(packets, size, k)) == U16(w + 1)
    ensures k == d
  {
    var w := Dispatched(packets, size, d);
    StartGrows(packets, size, d, k);
    AheadOf(w, Start(packets, size, k));
    AheadOf(w, w + 1);
    SpanPositive(packets[d], size);
  }

  lemma LastAfter(e: Incoming, packet: seq<byte>, size: nat, start: int)
    requires size > 0 && EntryFor(e, packet, size, U16(start)) && Span(packet, size) >= 1
    ensures AfterDispatch(e) == U16(start + Span(packet, size) - 1)
  {
    if |packet| > size {
      assert U16(U16(start) + (e.count - 1)) == U16(start + (e.count - 1));
    }
  }

  lemma {:induction false} DispatchKeeps(ch: Channel, packets: seq<seq<byte>>, size: nat, d: nat, ks: seq<nat>)
      returns (d': nat, ks': seq<nat>)
    requires size > 0 && Represents(ch, packets, size, d, ks)
    ensures Represents(Dispatch(ch), packets, size, d', ks') && Settled(Dispatch(ch)) && d <= d'
    ensures |ks'| <= |ks| && d' == d + (|ks| - |ks'|) && ks' == ks[|ks| - |ks'|..]
    ensures Dispatch(ch).pending == ch.pending[|ks| - |ks'|..]
    ensures forall i :: 0 <= i < |ks| - |ks'| ==> ch.pending[i].remaining == 0
    decreases |ch.pending|
  {
    hide Represents;
    if CanDispatch(ch) {
      DispatchOne(ch, packets, size, d, ks);
      SameLength(ch, packets, size, d, ks);
      var ch1 := Channel(AfterDispatch(ch.pending[0]), ch.pending[1..], ch.dispatched + [ch.pending[0].data]);
      d', ks' := DispatchKeeps(ch1, packets, size, d + 1, ks[1..]);
      forall i | 0 <= i < |ks| - |ks'| ensures ch.pending[i].remaining == 0 {
        if i > 0 { assert ch1.pending[i - 1] == ch.pending[i]; }
      }
    } else {
      d', ks' := d, ks;
      SameLength(ch, packets, size, d, ks);
    }
  }

  lemma SameLength(ch: Channel, packets: seq<seq<byte>>, size: nat, d: nat, ks: seq<nat>)
    requires size > 0 && Represents(ch, packets, size, d, ks)
    ensures |ks| == |ch.pending|
  {
  }

  // ---------------------------------------------------------------- storing a fragment

  lemma StoredPieces(e: Incoming, packet: seq<byte>, size: nat, number: u16, n: nat, m: nat)
    requires size > 0 && |packet| > size && EntryFor(e, packet, size, number)
    requires n < FragmentCount(|packet|, size) && m < FragmentCount(|packet|, size)
    requires m == n || e.got[m]
    requires n * size <= |packet| && n * size + |Piece(packet, size, n)| <= |packet|
    requires !e.got[n]
    ensures PieceThere(Store(e, n, n * size, Piece(packet, size, n)), packet, size, m)
  {
    hide Missing;
    PiecesApart(packet, size, n, m);
    if m == n {
      SpliceInside(e.data, n * size, Piece(packet, size, n));
    } else {
      assert PieceThere(e, packet, size, m);
      SpliceOutside(e.data, n * size, Piece(packet, size, n), m * size, Min(m * size + size, |packet|));
    }
  }

  lemma PiecesApart(packet: seq<byte>, size: nat, n: nat, m: nat)
    requires size > 0 && |packet| > size && n < FragmentCount(|packet|, size) && m < FragmentCount(|packet|, size)
    ensures n * size <= |packet| && m * size <= Min(m * size + size, |packet|)
    ensures |Piece(packet, size, n)| == Min(n * size + size, |packet|) - n * size
    ensures m < n ==> Min(m * size + size, |packet|) <= n * size
    ensures n < m ==> n * size + |Piece(packet, size, n)| <= m * size
  {
    PieceExists(packet, size, n);
    PieceExists(packet, size, m);
    assert (m + 1) * size == m * size + size && (n + 1) * size == n * size + size;
    if m < n { MulMono(m + 1, n, size); }
    if n < m { MulMono(n + 1, m, size); }
  }

  lemma SpliceInside(s: seq<byte>, at: nat, t: seq<byte>)
    requires at + |t| <= |s|
    ensures (s[..at] + t + s[at + |t|..])[at..at + |t|] == t
  {
  }

  lemma SpliceOutside(s: seq<byte>, at: nat, t: seq<byte>, lo: nat, hi: nat)
    requires at + |t| <= |s| && lo <= hi <= |s| && (hi <= at || at + |t| <= lo)
    ensures (s[..at] + t + s[at + |t|..])[lo..hi] == s[lo..hi]
  {
  }

  lemma StoreKeepsEntry(e: Incoming, packet: seq<byte>, size: nat, number: u16, n: nat)
    requires size > 0 && |packet| > size && EntryFor(e, packet, size, number) && n < FragmentCount(|packet|, size)
    ensures n * size <= |packet| && n * size + |Piece(packet, size, n)| <= |packet|
    ensures EntryFor(Store(e, n, n * size, Piece(packet, size, n)), packet, size, number)
  {
    PieceExists(packet, size, n);
    if !e.got[n] {
      var e' := Store(e, n, n * size, Piece(packet, size, n));
      MissingAfter(e.got, n);
      forall m: nat | m < FragmentCount(|packet|, size) && e'.got[m]
        ensures PieceThere(e', packet, size, m)
      {
        StoredPieces(e, packet, size, number, n, m);
      }
    }
  }

  lemma ReplaceKeeps(ch: Channel, packets: seq<seq<byte>>, size: nat, d: nat, ks: seq<nat>, i: nat, e: Incoming)
    requires size > 0 && Represents(ch, packets, size, d, ks) && i < |ks| && Holds(e, packets, size, ks[i])
    ensures Represents(ch.(pending := ch.pending[i := e]), packets, size, d, ks)
  {
  }

  /** A fragment of packet `ks[i]` is stored; the channel still stands for the same packets, and a
      packet that became complete at the front is dispatched. */
  lemma StoreAtKeeps(ch: Channel, packets: seq<seq<byte>>, size: nat, d: nat, ks: seq<nat>, i: nat, n: nat)
      returns (d': nat, ks': seq<nat>)
    requires size > 0 && Represents(ch, packets, size, d, ks) && Settled(ch) && i < |ks|
    requires ks[i] < |packets| && |packets[ks[i]]| > size && n < Span(packets[ks[i]], size)
    requires Holds(ch.pending[i], packets, size, ks[i])
    ensures n * size <= |packets[ks[i]]| && n * size + |Piece(packets[ks[i]], size, n)| <= |packets[ks[i]]|
    ensures var c := StoreAt(ch, i, n, n * size, Piece(packets[ks[i]], size, n));
            Represents(c, packets, size, d', ks') && Settled(c) && d <= d'
  {
    var packet, k := packets[ks[i]], ks[i];
    var e := Store(ch.pending[i], n, n * size, Piece(packet, size, n)) by {
      StoreKeepsEntry(ch.pending[i], packet, size, U16(Start(packets, size, k)), n);
    }
    StoreKeepsEntry(ch.pending[i], packet, size, U16(Start(packets, size, k)), n);
    ReplaceKeeps(ch, packets, size, d, ks, i, e);
    var ch1 := ch.(pending := ch.pending[i := e]);
    if !ch.pending[i].got[n] && e.remaining == 0 {
      d', ks' := DispatchKeeps(ch1, packets, size, d, ks);
    } else {
      d', ks' := d, ks;
      if i == 0 && ch.pending[0].got[n] { assert ch1 == ch; }
    }
  }

  // ---------------------------------------------------------------- one command arrives

  /** A command read as lying ahead belongs to a packet that is not dispatched yet. */
  lemma AheadIsUndispatched(packets: seq<seq<byte>>, size: nat, d: nat, k: nat)
    requires size > 0 && d <= |packets| && k < |packets|
    requires var w := Dispatched(packets, size, d);
             var v := Start(packets, size, k);
             Unambiguous(w, v) && InWindow(U16(w), U16(v)) && (U16(v) != U16(w) || |packets[k]| > size)
    ensures d <= k && 0 < Start(packets, size, k) - Dispatched(packets, size, d) < SPACE
    ensures U16(Start(packets, size, k)) != U16(Dispatched(packets, size, d))
  {
    var w, v := Dispatched(packets, size, d), Start(packets, size, k);
    SpanPositive(packets[k], size);
    PieceExists(packets[k], size, 0);
    if k < d { StartGrows(packets, size, k, d); } else { StartGrows(packets, size, d, k); }
    AheadOf(w, w);
  }

  /** The state after a step still stands for the queued packets, with at least as many dispatched. */
  ghost predicate Steps(ch: Channel, packets: seq<seq<byte>>, size: nat, d: nat)
    requires size > 0
  {
    Settled(ch) && exists d': nat, ks: seq<nat> :: d <= d' && Represents(ch, packets, size, d', ks)
  }

  /** The list with `e` put in at index `i`. */
  function Put<T>(s: seq<T>, i: nat, e: T): seq<T>
    requires i <= |s|
  {
    s[..i] + [e] + s[i..]
  }

  lemma QueueKeeps(ch: Channel, packets: seq<seq<byte>>, size: nat, d: nat, ks: seq<nat>, k: nat, e: Incoming, i: nat)
      returns (c: Channel, d': nat, ks': seq<nat>)
    requires size > 0 && Represents(ch, packets, size, d, ks) && Settled(ch)
    requires d <= k < |packets| && 0 < Start(packets, size, k) - Dispatched(packets, size, d) < SPACE
    requires Holds(e, packets, size, k) && InWindow(ch.last, e.number) && e.number != ch.last
    requires e.number == U16(Start(packets, size, k))
    requires Search(ch.pending, ch.last, e.number, |ch.pending|) == At(i)
    ensures QueueIncoming(ch, e) == (c, Kept) && |ks| == |ch.pending|
    ensures Represents(c, packets, size, d', ks') && Settled(c) && d <= d'
    ensures |c.pending| <= |ch.pending| + 1
    ensures c.pending == Put(ch.pending, i, e)[|ch.pending| + 1 - |c.pending|..]
    ensures ks' == Put(ks, i, k)[|ch.pending| + 1 - |c.pending|..]
    ensures e.remaining > 0 ==> |ch.pending| + 1 - |c.pending| <= i
  {
    hide Represents, Dispatch, Start, Dispatched, Holds, InWindow, Search;
    SameLength(ch, packets, size, d, ks);
    SearchFinds(ch, packets, size, d, ks, k, |ks|);
    InsertKeeps(ch, packets, size, d, ks, k, i, e);
    var ch1 := ch.(pending := Put(ch.pending, i, e));
    c := Dispatch(ch1);
    d', ks' := DispatchKeeps(ch1, packets, size, d, Put(ks, i, k));
    SameLength(c, packets, size, d', ks');
    assert Put(ch.pending, i, e)[i] == e;
  }

  lemma WholeArrives(ch: Channel, packets: seq<seq<byte>>, size: nat, d: nat, ks: seq<nat>, k: nat)
    requires size > 0 && Represents(ch, packets, size, d, ks) && Settled(ch)
    requires k < |packets| && |packets[k]| <= size && Unambiguous(Dispatched(packets, size, d), Start(packets, size, k))
    ensures var (c, v) := Receive(ch, CommandFor(packets[k], size, Start(packets, size, k) - 1, 0));
            v != Failed && Steps(c, packets, size, d)
  {
    var number := U16(Start(packets, size, k));
    var e := Incoming(number, 0, 0, [], packets[k]);
    if InWindow(ch.last, number) && number != ch.last {
      AheadIsUndispatched(packets, size, d, k);
      SearchFinds(ch, packets, size, d, ks, k, |ks|);
      var s := Search(ch.pending, ch.last, number, |ch.pending|);
      if s.At? { var c, d', ks' := QueueKeeps(ch, packets, size, d, ks, k, e, s.index); }
    }
  }

  lemma EmptyHolds(packets: seq<seq<byte>>, size: nat, k: nat)
    requires size > 0 && k < |packets| && |packets[k]| > size
    ensures Holds(EmptyEntry(U16(Start(packets, size, k)), FragmentCount(|packets[k]|, size), |packets[k]|), packets, size, k)
  {
    AllMissing(FragmentCount(|packets[k]|, size));
  }

  /** A fragment of a packet that is being put together already. */
  lemma FragmentJoins(ch: Channel, packets: seq<seq<byte>>, size: nat, d: nat, ks: seq<nat>, k: nat, n: nat, i: nat)
    requires size > 0 && Represents(ch, packets, size, d, ks) && Settled(ch)
    requires k < |packets| && |packets[k]| > size && n < Span(packets[k], size) && i < |ks| && ks[i] == k
    requires InWindow(ch.last, U16(Start(packets, size, k)))
    requires Search(ch.pending, ch.last, U16(Start(packets, size, k)), |ch.pending|) == Same(i)
    ensures var (c, v) := Receive(ch, CommandFor(packets[k], size, Start(packets, size, k) - 1, n));
            v == Kept && Steps(c, packets, size, d)
  {
    PieceExists(packets[k], size, n);
    assert Holds(ch.pending[i], packets, size, k);
    var d', ks' := StoreAtKeeps(ch, packets, size, d, ks, i, n);
  }

  /** The first fragment of a packet to arrive. */
  lemma FragmentOpens(ch: Channel, packets: seq<seq<byte>>, size: nat, d: nat, ks: seq<nat>, k: nat, n: nat, i: nat)
    requires size > 0 && Represents(ch, packets, size, d, ks) && Settled(ch)
    requires d <= k < |packets| && |packets[k]| > size && n < Span(packets[k], size)
    requires 0 < Start(packets, size, k) - Dispatched(packets, size, d) < SPACE
    requires InWindow(ch.last, U16(Start(packets, size, k))) && U16(Start(packets, size, k)) != ch.last
    requires Search(ch.pending, ch.last, U16(Start(packets, size, k)), |ch.pending|) == At(i)
    ensures var (c, v) := Receive(ch, CommandFor(packets[k], size, Start(packets, size, k) - 1, n));
            v == Kept && Steps(c, packets, size, d)
  {
    hide Represents, Dispatch;
    var packet, start := packets[k], U16(Start(packets, size, k));
    PieceExists(packet, size, n);
    EmptyHolds(packets, size, k);
    SpanPositive(packet, size);
    var e := EmptyEntry(start, FragmentCount(|packet|, size), |packet|);
    var c1, d1, ks1 := QueueKeeps(ch, packets, size, d, ks, k, e, i);
    SameLength(c1, packets, size, d1, ks1);
    var j := i - (|ch.pending| + 1 - |c1.pending|);
    assert c1.pending[j] == e && ks1[j] == k;
    var d', ks' := StoreAtKeeps(c1, packets, size, d1, ks1, j, n);
  }

  lemma FragmentArrives(ch: Channel, packets: seq<seq<byte>>, size: nat, d: nat, ks: seq<nat>, k: nat, n: nat)
    requires size > 0 && Represents(ch, packets, size, d, ks) && Settled(ch)
    requires k < |packets| && |packets[k]| > size && n < Span(packets[k], size)
    requires Unambiguous(Dispatched(packets, size, d), Start(packets, size, k))
    ensures var (c, v) := Receive(ch, CommandFor(packets[k], size, Start(packets, size, k) - 1, n));
            v != Failed && Steps(c, packets, size, d)
  {
    hide Dispatch;
    var start := U16(Start(packets, size, k));
    PieceExists(packets[k], size, n);
    if InWindow(ch.last, start) {
      AheadIsUndispatched(packets, size, d, k);
      SearchFinds(ch, packets, size, d, ks, k, |ks|);
      var s := Search(ch.pending, ch.last, start, |ch.pending|);
      if s.Same? {
        FragmentJoins(ch, packets, size, d, ks, k, n, s.index);
      } else {
        FragmentOpens(ch, packets, size, d, ks, k, n, s.index);
      }
    }
  }

  // ---------------------------------------------------------------- whole runs

  /** The sender queues a packet, or the network hands over some command of some packet queued before,
      in any order and any number of times; losing one is never handing it over. */
  datatype Event = Queue(packet: seq<byte>) | Arrive(k: nat, n: nat)

  datatype Link = Link(packets: seq<seq<byte>>, ch: Channel)

  const IDLE := Link([], Channel(0, [], []))

  /** What the network may do: hand over what was sent, unless it is so late that the receiver takes it for
      a command of another lap. */
  ghost predicate Possible(l: Link, size: nat, ev: Event)
    requires size > 0
  {
    match ev
    case Queue(_) => true
    case Arrive(k, n) =>
      && k < |l.packets| && n < Span(l.packets[k], size)
      && |l.ch.dispatched| <= |l.packets|
      && Unambiguous(Dispatched(l.packets, size, |l.ch.dispatched|), Start(l.packets, size, k))
  }

  function Step(l: Link, size: nat, ev: Event): Link
    requires size > 0
  {
    match ev
    case Queue(p) => l.(packets := l.packets + [p])
    case Arrive(k, n) =>
      if k < |l.packets| && n < Span(l.packets[k], size) then
        l.(ch := Receive(l.ch, CommandFor(l.packets[k], size, Start(l.packets, size, k) - 1, n)).0)
      else l
  }

  function Run(l: Link, size: nat, events: seq<Event>): Link
    requires size > 0
    decreases |events|
  {
    if events == [] then l else Run(Step(l, size, events[0]), size, events[1..])
  }

  ghost predicate AllPossible(l: Link, size: nat, events: seq<Event>)
    requires size > 0
    decreases |events|
  {
    events == [] || (Possible(l, size, events[0]) && AllPossible(Step(l, size, events[0]), size, events[1..]))
  }

  ghost predicate Sound(l: Link, size: nat)
    requires size > 0
  {
    Settled(l.ch) && exists d: nat, ks: seq<nat> :: Represents(l.ch, l.packets, size, d, ks)
  }

  lemma QueueStep(l: Link, size: nat, p: seq<byte>)
    requires size > 0 && Sound(l, size)
    ensures Sound(Step(l, size, Queue(p)), size)
    ensures Step(l, size, Queue(p)).ch == l.ch
  {
    var d: nat, ks: seq<nat> :| Represents(l.ch, l.packets, size, d, ks);
    StartOfPrefix(l.packets, [p], size, d);
    forall i | 0 <= i < |ks|
      ensures Start(l.packets + [p], size, ks[i]) == Start(l.packets, size, ks[i])
      ensures Holds(l.ch.pending[i], l.packets + [p], size, ks[i])
    {
      assert Holds(l.ch.pending[i], l.packets, size, ks[i]);
      StartOfPrefix(l.packets, [p], size, ks[i]);
    }
    assert Represents(l.ch, l.packets + [p], size, d, ks);
  }

  lemma PrefixDispatched(ch: Channel, packets: seq<seq<byte>>, size: nat, d: nat, ks: seq<nat>)
    requires size > 0 && Represents(ch, packets, size, d, ks)
    ensures d <= |packets| && ch.dispatched == packets[..d] && |ch.dispatched| == d
  {
  }

  lemma StepsIsSound(c: Channel, l: Link, size: nat, d: nat, ks: seq<nat>)
    requires size > 0 && Represents(l.ch, l.packets, size, d, ks) && Steps(c, l.packets, size, d)
    ensures Sound(l.(ch := c), size) && l.ch.dispatched <= c.dispatched
  {
    hide Represents;
    var d': nat, ks': seq<nat> :| d <= d' && Represents(c, l.packets, size, d', ks');
    PrefixDispatched(l.ch, l.packets, size, d, ks);
    PrefixDispatched(c, l.packets, size, d', ks');
  }

  lemma ArriveStep(l: Link, size: nat, k: nat, n: nat)
    requires size > 0 && Sound(l, size) && Possible(l, size, Arrive(k, n))
    ensures Sound(Step(l, size, Arrive(k, n)), size)
    ensures Receive(l.ch, CommandFor(l.packets[k], size, Start(l.packets, size, k) - 1, n)).1 != Failed
    ensures l.ch.dispatched <= Step(l, size, Arrive(k, n)).ch.dispatched
  {
    hide Represents, Receive, Start, Steps, Span;
    var d: nat, ks: seq<nat> :| Represents(l.ch, l.packets, size, d, ks);
    PrefixDispatched(l.ch, l.packets, size, d, ks);
    var packet := l.packets[k];
    OneCommand(packet, size, n);
    if |packet| > size {
      FragmentArrives(l.ch, l.packets, size, d, ks, k, n);
    } else {
      WholeArrives(l.ch, l.packets, size, d, ks, k);
    }
    StepsIsSound(Receive(l.ch, CommandFor(packet, size, Start(l.packets, size, k) - 1, n)).0, l, size, d, ks);
  }

  lemma OneCommand(packet: seq<byte>, size: nat, n: nat)
    requires size > 0 && n < Span(packet, size)
    ensures |packet| <= size ==> n == 0
  {
  }

  lemma {:induction false} RunStaysSound(l: Link, size: nat, events: seq<Event>)
    requires size > 0 && Sound(l, size) && AllPossible(l, size, events)
    ensures Sound(Run(l, size, events), size)
    ensures l.ch.dispatched <= Run(l, size, events).ch.dispatched
    decreases |events|
  {
    hide Sound, Receive;
    if events != [] {
      match events[0] {
        case Queue(p) => QueueStep(l, size, p);
        case Arrive(k, n) => ArriveStep(l, size, k, n);
      }
      RunStaysSound(Step(l, size, events[0]), size, events[1..]);
    }
  }

  lemma IdleIsSound(size: nat)
    requires size > 0
    ensures Sound(IDLE, size)
  {
    assert Represents(IDLE.ch, IDLE.packets, size, 0, []);
  }

  /** Entry `i` is ahead of the last dispatched number, and entry `j` further ahead. */
  ghost predicate InOrder(ch: Channel, i: nat, j: nat)
    requires i < |ch.pending| && j < |ch.pending|
  {
    0 < Ahead(ch.last, ch.pending[i].number) < Ahead(ch.last, ch.pending[j].number)
  }

  ghost predicate SortedAhead(ch: Channel) {
    forall i: nat, j: nat :: i < j < |ch.pending| ==> InOrder(ch, i, j)
  }

  /** Over every run of the network: the receiver has dispatched the first packets queued, in order,
      each once and with its own bytes; and the queue is strictly sorted by forward distance. */
  lemma ReliableDelivery(size: nat, events: seq<Event>)
    requires size > 0 && AllPossible(IDLE, size, events)
    ensures var l := Run(IDLE, size, events);
            && l.ch.dispatched <= l.packets
            && SortedAhead(l.ch)
  {
    hide Run, AllPossible, Represents, Ahead;
    IdleIsSound(size);
    RunStaysSound(IDLE, size, events);
    var l := Run(IDLE, size, events);
    var d: nat, ks: seq<nat> :| Represents(l.ch, l.packets, size, d, ks);
    PrefixDispatched(l.ch, l.packets, size, d, ks);
    PendingSorted(l.ch, l.packets, size, d, ks);
  }

  lemma PendingSorted(ch: Channel, packets: seq<seq<byte>>, size: nat, d: nat, ks: seq<nat>)
    requires size > 0 && Represents(ch, packets, size, d, ks)
    ensures SortedAhead(ch)
  {
    hide Ahead, Start;
    forall i, j | 0 <= i < j < |ch.pending|
      ensures InOrder(ch, i, j)
    {
      PendingAhead(ch, packets, size, d, ks, i);
      PendingAhead(ch, packets, size, d, ks, j);
      SpanPositive(packets[ks[i]], size);
      StartGrows(packets, size, ks[i], ks[j]);
    }
  }

  lemma PendingAhead(ch: Channel, packets: seq<seq<byte>>, size: nat, d: nat, ks: seq<nat>, i: nat)
    requires size > 0 && Represents(ch, packets, size, d, ks) && i < |ks|
    ensures 0 < Ahead(ch.last, ch.pending[i].number) == Start(packets, size, ks[i]) - Dispatched(packets, size, d)
  {
    hide Ahead;
    assert Holds(ch.pending[i], packets, size, ks[i]);
    StartGrows(packets, size, d, ks[i]);
    AheadOf(Dispatched(packets, size, d), Start(packets, size, ks[i]));
  }

  // ---------------------------------------------------------------- progress

  lemma {:induction false} DispatchGrows(ch: Channel)
    ensures ch.dispatched <= Dispatch(ch).dispatched
    ensures |Dispatch(ch).dispatched| == |ch.dispatched| ==> Dispatch(ch) == ch
    decreases |ch.pending|
  {
    if CanDispatch(ch) {
      DispatchGrows(Channel(AfterDispatch(ch.pending[0]), ch.pending[1..], ch.dispatched + [ch.pending[0].data]));
    }
  }

  /** Fragment `n` of the packet that is next to be dispatched has arrived. */
  ghost predicate HasPiece(ch: Channel, n: nat) {
    ch.pending != [] && ch.pending[0].number == U16(ch.last + 1) && n < |ch.pending[0].got| && ch.pending[0].got[n]
  }

  /** The packet next to be dispatched, if it is queued at all, is first in the list. */
  lemma NextIsFirst(ch: Channel, packets: seq<seq<byte>>, size: nat, d: nat, ks: seq<nat>)
    requires size > 0 && Represents(ch, packets, size, d, ks) && ch.pending != []
    ensures |ks| == |ch.pending| && ks[0] < |packets| && Holds(ch.pending[0], packets, size, ks[0])
    ensures ch.pending[0].number == U16(ch.last + 1) <==> ks[0] == d
  {
    var w := Dispatched(packets, size, d);
    assert Holds(ch.pending[0], packets, size, ks[0]);
    WrapNext(w);
    if ch.pending[0].number == U16(w + 1) { NumberAfter(packets, size, d, ks[0]); }
  }

  /** Storing a fragment never loses another one. */
  lemma StorePieces(ch: Channel, i: nat, n: nat, offset: nat, data: seq<byte>, m: nat)
    requires i < |ch.pending| && n < |ch.pending[i].got| && offset + |data| <= |ch.pending[i].data|
    ensures var c := StoreAt(ch, i, n, offset, data);
            && |ch.dispatched| <= |c.dispatched|
            && (|c.dispatched| == |ch.dispatched| && HasPiece(ch, m) ==> HasPiece(c, m))
            && (|c.dispatched| == |ch.dispatched| && i == 0 && ch.pending[0].number == U16(ch.last + 1) ==> HasPiece(c, n))
  {
    DispatchGrows(ch.(pending := ch.pending[i := Store(ch.pending[i], n, offset, data)]));
  }

  /** Queueing behind the first entry leaves it alone. */
  lemma QueuePieces(ch: Channel, e: Incoming, m: nat)
    requires HasPiece(ch, m)
    requires var s := Search(ch.pending, ch.last, e.number, |ch.pending|); s.At? ==> s.index > 0
    ensures var c := QueueIncoming(ch, e).0;
            |ch.dispatched| <= |c.dispatched| && (|c.dispatched| == |ch.dispatched| ==> HasPiece(c, m))
  {
    var s := Search(ch.pending, ch.last, e.number, |ch.pending|);
    if s.At? { DispatchGrows(ch.(pending := ch.pending[..s.index] + [e] + ch.pending[s.index..])); }
  }

  /** With the next packet queued, nothing is ever inserted in front of it. */
  lemma SearchBehindFirst(ch: Channel, packets: seq<seq<byte>>, size: nat, d: nat, ks: seq<nat>, k: nat)
    requires size > 0 && Represents(ch, packets, size, d, ks) && ch.pending != [] && ch.pending[0].number == U16(ch.last + 1)
    requires d <= k < |packets| && Start(packets, size, k) - Dispatched(packets, size, d) < SPACE
    ensures var s := Search(ch.pending, ch.last, U16(Start(packets, size, k)), |ch.pending|); s.At? ==> s.index > 0
  {
    NextIsFirst(ch, packets, size, d, ks);
    SearchFinds(ch, packets, size, d, ks, k, |ks|);
  }

  lemma PieceStays(ch: Channel, packets: seq<seq<byte>>, size: nat, d: nat, ks: seq<nat>, k: nat, n: nat, m: nat)
    requires size > 0 && Represents(ch, packets, size, d, ks) && HasPiece(ch, m)
    requires k < |packets| && n < Span(packets[k], size) && Unambiguous(Dispatched(packets, size, d), Start(packets, size, k))
    ensures var c := Receive(ch, CommandFor(packets[k], size, Start(packets, size, k) - 1, n)).0;
            |ch.dispatched| <= |c.dispatched| && (|c.dispatched| == |ch.dispatched| ==> HasPiece(c, m))
  {
    hide Represents, HasPiece, Dispatch, Search, StoreAt, Receive, InWindow, Unambiguous;
    var start, packet := U16(Start(packets, size, k)), packets[k];
    var c := CommandFor(packet, size, Start(packets, size, k) - 1, n);
    LastIs(ch, packets, size, d, ks);
    OneCommand(packet, size, n);
    PieceExists(packet, size, n);
    if InWindow(ch.last, start) && (start != ch.last || |packet| > size) {
      AheadIsUndispatched(packets, size, d, k);
      FrontQueued(ch, m);
      SearchBehindFirst(ch, packets, size, d, ks, k);
      if |packet| <= size {
        QueuePieces(ch, Incoming(start, 0, 0, [], packet), m);
        WholeIsQueued(ch, c);
      } else {
        FragmentPieces(ch, start, n, FragmentCount(|packet|, size), n * size, |packet|, c.data, m);
        FragmentIsReceived(ch, c);
      }
    } else {
      NotAccepted(ch, c);
    }
  }

  lemma WholeIsQueued(ch: Channel, c: Command)
    requires c.part == Whole
    ensures Receive(ch, c) == QueueIncoming(ch, Incoming(c.number, 0, 0, [], c.data))
  {
  }

  lemma FragmentIsReceived(ch: Channel, c: Command)
    requires c.part.Fragment?
    ensures Receive(ch, c) == ReceiveFragment(ch, c.start, c.part.number, c.part.count, c.part.offset, c.part.total, c.data)
  {
  }

  lemma NotAccepted(ch: Channel, c: Command)
    requires if c.part == Whole then !InWindow(ch.last, c.number) || c.number == ch.last else !InWindow(ch.last, c.start)
    ensures Receive(ch, c).0 == ch
  {
  }

  lemma FragmentPieces(ch: Channel, start: u16, n: nat, count: nat, offset: nat, total: nat, data: seq<byte>, m: nat)
    requires HasPiece(ch, m)
    requires var s := Search(ch.pending, ch.last, start, |ch.pending|); s.At? ==> s.index > 0
    ensures var c := ReceiveFragment(ch, start, n, count, offset, total, data).0;
            |ch.dispatched| <= |c.dispatched| && (|c.dispatched| == |ch.dispatched| ==> HasPiece(c, m))
  {
    hide HasPiece, Dispatch, Search, StoreAt, QueueIncoming, InWindow;
    if InWindow(ch.last, start) && offset + |data| <= total && n < count {
      var s := Search(ch.pending, ch.last, start, |ch.pending|);
      if s.Same? {
        if |ch.pending[s.index].got| == count && |ch.pending[s.index].data| == total {
          StorePieces(ch, s.index, n, offset, data, m);
        }
      } else {
        QueuePieces(ch, EmptyEntry(start, count, total), m);
        var c1 := QueueIncoming(ch, EmptyEntry(start, count, total)).0;
        var j := s.index - (|ch.pending| + 1 - |c1.pending|);
        if 0 <= j < |c1.pending| && |c1.pending[j].got| == count && |c1.pending[j].data| == total {
          StorePieces(c1, j, n, offset, data, m);
        }
      }
    }
  }

  lemma LastIs(ch: Channel, packets: seq<seq<byte>>, size: nat, d: nat, ks: seq<nat>)
    requires size > 0 && Represents(ch, packets, size, d, ks)
    ensures d <= |packets| && ch.last == U16(Dispatched(packets, size, d)) && |ks| == |ch.pending|
  {
  }

  lemma FrontQueued(ch: Channel, m: nat)
    requires HasPiece(ch, m)
    ensures ch.pending != [] && ch.pending[0].number == U16(ch.last + 1)
  {
  }

  /** The number right after the last one is always in the window. */
  lemma NextInWindow(w: int)
    ensures InWindow(U16(w), U16(w + 1)) && U16(w + 1) != U16(w) && Unambiguous(w, w + 1)
  {
    WindowIsDistance(U16(w), U16(w + 1));
    AheadOf(w, w + 1);
    var last := U16(w);
    assert last == WINDOW_SIZE * (last / WINDOW_SIZE) + last % WINDOW_SIZE;
  }

  /** A command of the next packet is never wasted: a whole packet is dispatched, and a fragment is
      there afterwards unless it completed the packet. */
  lemma NextPieceComes(ch: Channel, packets: seq<seq<byte>>, size: nat, d: nat, ks: seq<nat>, n: nat)
    requires size > 0 && Represents(ch, packets, size, d, ks) && Settled(ch)
    requires d < |packets| && n < Span(packets[d], size)
    ensures var c := Receive(ch, CommandFor(packets[d], size, Start(packets, size, d) - 1, n)).0;
            |c.dispatched| > |ch.dispatched| || (|packets[d]| > size && |c.dispatched| == |ch.dispatched| && HasPiece(c, n))
  {
    hide Represents, Search, StoreAt, Dispatch, Settled;
    var w, v := Dispatched(packets, size, d), Start(packets, size, d);
    var packet := packets[d];
    LastIs(ch, packets, size, d, ks);
    OneCommand(packet, size, n);
    PieceExists(packet, size, n);
    NextInWindow(w);
    SearchFinds(ch, packets, size, d, ks, d, |ks|);
    var s := Search(ch.pending, ch.last, U16(v), |ch.pending|);
    WrapNext(w);
    FirstSpot(ch, packets, size, d, ks, s);
    if |packet| <= size {
      var e := Incoming(U16(v), 0, 0, [], packet);
      WholeCannotWait(ch, packets, size, d, ks, s);
      NextDispatchesAtOnce(ch.(pending := ch.pending[..0] + [e] + ch.pending[0..]));
    } else if s.Same? {
      StorePieces(ch, 0, n, n * size, Piece(packet, size, n), n);
    } else {
      var e := EmptyEntry(U16(v), FragmentCount(|packet|, size), |packet|);
      SpanPositive(packet, size);
      var ch1 := ch.(pending := ch.pending[..0] + [e] + ch.pending[0..]);
      IncompleteWaits(ch1);
      StorePieces(ch1, 0, n, n * size, Piece(packet, size, n), n);
    }
  }

  lemma FirstSpot(ch: Channel, packets: seq<seq<byte>>, size: nat, d: nat, ks: seq<nat>, s: Spot)
    requires size > 0 && Represents(ch, packets, size, d, ks) && d < |packets|
    requires match s
             case At(i) => i <= |ks| && forall j :: 0 <= j < i ==> ks[j] < d
             case Same(i) => i < |ks| && ks[i] == d
    ensures s.index == 0
    ensures s.Same? ==> Holds(ch.pending[0], packets, size, d) && ch.pending[0].number == U16(ch.last + 1)
  {
    assert |ks| > 0 ==> d <= ks[0];
    if s.Same? {
      assert Holds(ch.pending[0], packets, size, ks[0]);
      WrapNext(Dispatched(packets, size, d));
    }
  }

  /** A whole packet never waits at the front: it would have been dispatched. */
  lemma WholeCannotWait(ch: Channel, packets: seq<seq<byte>>, size: nat, d: nat, ks: seq<nat>, s: Spot)
    requires size > 0 && Represents(ch, packets, size, d, ks) && Settled(ch) && d < |packets| && |packets[d]| <= size
    requires s.Same? ==> ch.pending != [] && Holds(ch.pending[0], packets, size, d) && ch.pending[0].number == U16(ch.last + 1)
    ensures s.At?
  {
  }

  lemma NextDispatchesAtOnce(ch: Channel)
    requires CanDispatch(ch)
    ensures |Dispatch(ch).dispatched| > |ch.dispatched|
  {
    DispatchGrows(Channel(AfterDispatch(ch.pending[0]), ch.pending[1..], ch.dispatched + [ch.pending[0].data]));
  }

  lemma IncompleteWaits(ch: Channel)
    requires ch.pending != [] && ch.pending[0].remaining > 0
    ensures Dispatch(ch) == ch
  {
  }

  /** With all fragments there, the packet would have been dispatched. */
  lemma SomePieceMissing(ch: Channel, packets: seq<seq<byte>>, size: nat, d: nat, ks: seq<nat>) returns (n: nat)
    requires size > 0 && Represents(ch, packets, size, d, ks) && Settled(ch) && d < |packets|
    ensures n < Span(packets[d], size) && !HasPiece(ch, n)
  {
    SpanPositive(packets[d], size);
    n := 0;
    if HasPiece(ch, 0) {
      NextIsFirst(ch, packets, size, d, ks);
      var e := ch.pending[0];
      n := FirstMissing(e.got);
    }
  }

  lemma {:induction false} FirstMissing(got: seq<bool>) returns (n: nat)
    requires Missing(got) > 0
    ensures n < |got| && !got[n]
  {
    n := 0;
    if got[0] {
      var k := FirstMissing(got[1..]);
      n := k + 1;
    }
  }

  /** Eventual delivery: in any possible run, once every command of the next packet has arrived since
      the last dispatch (or had arrived before), that packet is dispatched, whatever else happens. */
  lemma {:induction false} ArrivedIsDispatched(l: Link, size: nat, events: seq<Event>)
    requires size > 0 && Sound(l, size) && AllPossible(l, size, events)
    requires |l.ch.dispatched| < |l.packets|
    requires forall n: nat :: n < Span(l.packets[|l.ch.dispatched|], size) ==>
               Arrive(|l.ch.dispatched|, n) in events || HasPiece(l.ch, n)
    ensures |Run(l, size, events).ch.dispatched| > |l.ch.dispatched|
    decreases |events|
  {
    hide Represents, Receive, HasPiece, Settled, Span;
    var d: nat, ks: seq<nat> :| Represents(l.ch, l.packets, size, d, ks);
    PrefixDispatched(l.ch, l.packets, size, d, ks);
    if events == [] {
      var n := SomePieceMissing(l.ch, l.packets, size, d, ks);
      assert false;
    } else {
      var l1 := Step(l, size, events[0]);
      match events[0] {
        case Queue(p) => QueueStep(l, size, p);
        case Arrive(k, n) => ArriveStep(l, size, k, n);
      }
      RunStaysSound(l1, size, events[1..]);
      if |l1.ch.dispatched| == d {
        forall m: nat | m < Span(l1.packets[d], size)
          ensures Arrive(d, m) in events[1..] || HasPiece(l1.ch, m)
        {
          if events[0] == Arrive(d, m) || HasPiece(l.ch, m) { PieceAfterStep(l, size, events[0], d, ks, m); }
          assert Arrive(d, m) in events ==> Arrive(d, m) == events[0] || Arrive(d, m) in events[1..];
        }
        ArrivedIsDispatched(l1, size, events[1..]);
      }
    }
  }

  lemma PieceAfterStep(l: Link, size: nat, ev: Event, d: nat, ks: seq<nat>, m: nat)
    requires size > 0 && Represents(l.ch, l.packets, size, d, ks) && Settled(l.ch) && Possible(l, size, ev)
    requires d < |l.packets| && m < Span(l.packets[d], size)
    requires |Step(l, size, ev).ch.dispatched| == d == |l.ch.dispatched|
    requires ev == Arrive(d, m) || HasPiece(l.ch, m)
    ensures HasPiece(Step(l, size, ev).ch, m)
  {
    hide Represents, Receive, HasPiece, Settled, Span;
    if ev.Arrive? {
      if ev == Arrive(d, m) {
        NextPieceComes(l.ch, l.packets, size, d, ks, m);
      } else {
        PieceStays(l.ch, l.packets, size, d, ks, ev.k, ev.n, m);
      }
    }
  }
}
