/** The frame exchanger (frame.c): a ring of slots between a master, which gives empty frames and reads
    full ones, and a slave thread, which gets the one and delivers the other. A pipe counts deliveries. */
module FrameExchanger {
  import opened Numbers

  datatype Maybe = Null | Frame(id: nat)

  datatype Slot = Slot(frame: Maybe, pending: bool)

  /** The ring, and the three pointers into it. */
  datatype Ring = Ring(slots: seq<Slot>, read: nat, cur: nat, write: nat)

  predicate InRing(r: Ring) { r.read < |r.slots| && r.cur < |r.slots| && r.write < |r.slots| }

  function Next(i: nat, n: nat): nat
    requires i < n
  {
    if i + 1 == n then 0 else i + 1
  }

  /** `exchange_frame`. */
  function Exchanged(r: Ring, f: Maybe): (Ring, bool)
    requires InRing(r)
  {
    if r.slots[r.write].frame != Null then (r, false)
    else (r.(slots := r.slots[r.write := Slot(f, true)], write := Next(r.write, |r.slots|)), true)
  }

  /** `get_next_frame`. */
  function Got(r: Ring): (Ring, Maybe)
    requires InRing(r)
  {
    var f := if r.slots[r.cur].pending then r.slots[r.cur].frame else Null;
    if f == Null then (r, Null) else (r.(slots := r.slots[r.cur := r.slots[r.cur].(frame := Null)]), f)
  }

  /** `deliver_frame`, besides the byte it writes to the pipe. */
  function Delivered(r: Ring, f: Maybe): Ring
    requires InRing(r)
  {
    r.(slots := r.slots[r.cur := Slot(f, false)], cur := Next(r.cur, |r.slots|))
  }

  /** `exchanger_read`, once it has read a byte from the pipe. */
  function ReadOut(r: Ring): (Ring, Maybe)
    requires InRing(r)
  {
    (r.(slots := r.slots[r.read := r.slots[r.read].(frame := Null)], read := Next(r.read, |r.slots|)), r.slots[r.read].frame)
  }

  // ---------------------------------------------------------------- both threads

  /** `token` is a byte read from the pipe whose frame is not taken yet; `held` is the frame the slave
      works on. The rest is history: frames given, delivered and read out. */
  datatype World = World(ring: Ring, pipe: nat, token: bool, held: Maybe, given: seq<Maybe>, delivered: seq<nat>, out: seq<Maybe>,
                         refused: nat)

  datatype Step = Exchange(frame: Maybe) | Get | Deliver(id: nat) | TakeByte | TakeFrame

  function Begin(n: nat): World { World(Ring(seq(n, _ => Slot(Null, false)), 0, 0, 0), 0, false, Null, [], [], [], 0) }

  /** The master gives at most one frame for each slot and each frame read back; the slave gets and
      delivers by turns; the master takes a frame for each byte. */
  predicate Enabled(w: World, s: Step) {
    match s
    case Exchange(_) => |w.given| + w.refused < |w.out| + |w.ring.slots|
    case Get => w.held == Null
    case Deliver(_) => w.held != Null
    case TakeByte => w.pipe > 0 && !w.token
    case TakeFrame => w.token
  }

  function Do(w: World, s: Step): World
    requires InRing(w.ring)
  {
    match s
    case Exchange(f) =>
      var (r, ok) := Exchanged(w.ring, f);
      if ok then w.(ring := r, given := w.given + [f]) else w.(ring := r, refused := w.refused + 1)
    case Get =>
      var (r, f) := Got(w.ring);
      w.(ring := r, held := f)
    case Deliver(id) =>
      w.(ring := Delivered(w.ring, Frame(id)), held := Null, pipe := w.pipe + 1, delivered := w.delivered + [id])
    case TakeByte => w.(pipe := if w.pipe > 0 then w.pipe - 1 else 0, token := true)
    case TakeFrame =>
      var (r, f) := ReadOut(w.ring);
      w.(ring := r, token := false, out := w.out + [f])
  }

  // ---------------------------------------------------------------- what every interleaving keeps

  /** What slot `k` of the unrolled ring holds. */
  function Content(w: World, k: nat): Slot
    requires |w.out| <= k && |w.delivered| <= |w.given|
  {
    if k < |w.delivered| then Slot(Frame(w.delivered[k]), false)
    else if k < |w.given| then Slot(if k == |w.delivered| && w.held != Null then Null else w.given[k], true)
    else Slot(Null, false)
  }

  ghost predicate SlotsRight(w: World)
    requires |w.delivered| <= |w.given| && |w.ring.slots| > 0
  {
    forall k: nat :: |w.out| <= k < |w.out| + |w.ring.slots| ==> w.ring.slots[k % |w.ring.slots|] == Content(w, k)
  }

  ghost predicate Good(w: World) {
    var n := |w.ring.slots|;
    && n > 0 && InRing(w.ring)
    && |w.out| <= |w.delivered| <= |w.given| <= |w.out| + n
    && w.ring.read == |w.out| % n && w.ring.cur == |w.delivered| % n && w.ring.write == |w.given| % n
    && w.pipe + (if w.token then 1 else 0) == |w.delivered| - |w.out|
    && (forall k :: 0 <= k < |w.out| ==> w.out[k] == Frame(w.delivered[k]))
    && (w.held != Null ==> |w.delivered| < |w.given| && w.held == w.given[|w.delivered|])
    && w.refused == 0 && SlotsRight(w)
  }

  lemma NextIs(k: nat, n: nat)
    requires n > 0
    ensures k % n < n && (k + 1) % n == Next(k % n, n)
  {
    assert k == n * (k / n) + k % n;
    if k % n + 1 == n {
      DivModIs(k + 1, n, k / n + 1, 0);
    } else {
      DivModIs(k + 1, n, k / n, k % n + 1);
    }
  }

  lemma Times(n: nat, d: int)
    ensures d >= 1 ==> n * d >= n
    ensures d <= -1 ==> n * d <= 0 - n
    ensures d == 0 ==> n * d == 0
  {
  }

  /** Slots less than a lap apart are different slots. */
  lemma SlotsApart(j: nat, k: nat, n: nat)
    requires n > 0 && j < k < j + n
    ensures j % n != k % n
  {
    assert j == n * (j / n) + j % n && k == n * (k / n) + k % n;
    var d := k / n - j / n;
    assert n * d == n * (k / n) - n * (j / n);
    Times(n, d);
  }

  lemma OneLapOn(k: nat, n: nat)
    requires n > 0
    ensures (k + n) % n == k % n
  {
    assert k == n * (k / n) + k % n;
    DivModIs(k + n, n, k / n + 1, k % n);
  }

  /** Changing slot `k` leaves the others of the lap alone. */
  lemma OneSlotChanges(slots: seq<Slot>, lo: nat, k: nat, s: Slot)
    requires |slots| > 0 && lo <= k < lo + |slots|
    ensures forall j: nat :: lo <= j < lo + |slots| ==>
              k % |slots| < |slots| && slots[k % |slots| := s][j % |slots|] == if j == k then s else slots[j % |slots|]
  {
    forall j: nat | lo <= j < lo + |slots| && j != k ensures j % |slots| != k % |slots| {
      if j < k { SlotsApart(j, k, |slots|); } else { SlotsApart(k, j, |slots|); }
    }
  }

  lemma BeginIsGood(n: nat)
    requires n > 0
    ensures Good(Begin(n))
  {
  }

  lemma ExchangeStays(w: World, f: Maybe)
    requires Good(w) && Enabled(w, Exchange(f))
    ensures Good(Do(w, Exchange(f))) && |Do(w, Exchange(f)).given| == |w.given| + 1
  {
    var n, k := |w.ring.slots|, |w.given|;
    assert w.ring.slots[k % n] == Content(w, k);
    OneSlotChanges(w.ring.slots, |w.out|, k, Slot(f, true));
    NextIs(k, n);
    var w' := Do(w, Exchange(f));
    forall j: nat | |w'.out| <= j < |w'.out| + n ensures w'.ring.slots[j % n] == Content(w', j) {
      assert w.ring.slots[j % n] == Content(w, j);
    }
  }

  /** The slave gets a frame if and only if one was given for its slot, and it was not NULL. */
  lemma GetStays(w: World)
    requires Good(w) && Enabled(w, Get)
    ensures Good(Do(w, Get))
    ensures Do(w, Get).held != Null <==> |w.delivered| < |w.given| && w.given[|w.delivered|] != Null
  {
    var n, k := |w.ring.slots|, |w.delivered|;
    var w' := Do(w, Get);
    if k < |w.out| + n {
      assert w.ring.slots[k % n] == Content(w, k);
      OneSlotChanges(w.ring.slots, |w.out|, k, Slot(Null, true));
      forall j: nat | |w'.out| <= j < |w'.out| + n ensures w'.ring.slots[j % n] == Content(w', j) {
        assert w.ring.slots[j % n] == Content(w, j);
      }
    } else {
      OneLapOn(|w.out|, n);
      assert w.ring.slots[|w.out| % n] == Content(w, |w.out|);
    }
  }

  lemma DeliverStays(w: World, id: nat)
    requires Good(w) && Enabled(w, Deliver(id))
    ensures Good(Do(w, Deliver(id)))
    ensures w.ring.slots[w.ring.cur].frame == Null
  {
    var n, k := |w.ring.slots|, |w.delivered|;
    assert w.ring.slots[k % n] == Content(w, k);
    OneSlotChanges(w.ring.slots, |w.out|, k, Slot(Frame(id), false));
    NextIs(k, n);
    var w' := Do(w, Deliver(id));
    forall j: nat | |w'.out| <= j < |w'.out| + n ensures w'.ring.slots[j % n] == Content(w', j) {
      assert w.ring.slots[j % n] == Content(w, j);
    }
  }

  lemma TakeFrameStays(w: World)
    requires Good(w) && Enabled(w, TakeFrame)
    ensures Good(Do(w, TakeFrame))
    ensures Do(w, TakeFrame).out == w.out + [Frame(w.delivered[|w.out|])]
  {
    var n, k := |w.ring.slots|, |w.out|;
    assert w.ring.slots[k % n] == Content(w, k);
    OneSlotChanges(w.ring.slots, |w.out|, k, Slot(Null, false));
    NextIs(k, n);
    OneLapOn(k, n);
    var w' := Do(w, TakeFrame);
    forall j: nat | |w'.out| <= j < |w'.out| + n ensures w'.ring.slots[j % n] == Content(w', j) {
      if j < k + n { assert w.ring.slots[j % n] == Content(w, j); }
    }
  }

  lemma StepStays(w: World, s: Step)
    requires Good(w) && Enabled(w, s)
    ensures Good(Do(w, s))
  {
    match s
    case Exchange(f) => ExchangeStays(w, f);
    case Get => GetStays(w);
    case Deliver(id) => DeliverStays(w, id);
    case TakeByte => assert SlotsRight(Do(w, s)) by { SameSlots(w, Do(w, s)); }
    case TakeFrame => TakeFrameStays(w);
  }

  lemma SameSlots(w: World, w': World)
    requires Good(w) && w' == w.(pipe := w'.pipe, token := w'.token)
    ensures SlotsRight(w')
  {
    forall j: nat | |w'.out| <= j < |w'.out| + |w'.ring.slots| ensures w'.ring.slots[j % |w'.ring.slots|] == Content(w', j) {
      assert w.ring.slots[j % |w.ring.slots|] == Content(w, j);
    }
  }

  // ---------------------------------------------------------------- whole runs

  function Run(w: World, steps: seq<Step>): World
    requires InRing(w.ring)
    decreases |steps|
  {
    if steps == [] then w else Run(Do(w, steps[0]), steps[1..])
  }

  predicate AllEnabled(w: World, steps: seq<Step>)
    requires InRing(w.ring)
    decreases |steps|
  {
    steps == [] || (Enabled(w, steps[0]) && AllEnabled(Do(w, steps[0]), steps[1..]))
  }

  lemma {:induction false} RunStays(w: World, steps: seq<Step>)
    requires Good(w) && AllEnabled(w, steps)
    ensures Good(Run(w, steps))
    decreases |steps|
  {
    hide Good, Do;
    assert InRing(w.ring) by { GoodInRing(w); }
    if steps != [] {
      StepStays(w, steps[0]);
      GoodInRing(Do(w, steps[0]));
      RunStays(Do(w, steps[0]), steps[1..]);
    }
  }

  lemma GoodInRing(w: World)
    requires Good(w)
    ensures InRing(w.ring)
  {
  }

  /** Every interleaving: what the master reads is what the slave delivered, in that order, each frame
      once and none of them NULL; the master is never told that the ring is full; the pipe holds a byte
      for every frame to read. */
  lemma ExchangerIsSafe(n: nat, steps: seq<Step>)
    requires n > 0 && AllEnabled(Begin(n), steps)
    ensures var w := Run(Begin(n), steps);
            && w.refused == 0
            && |w.out| <= |w.delivered| <= |w.given| <= |w.out| + n
            && (forall k :: 0 <= k < |w.out| ==> w.out[k] == Frame(w.delivered[k]))
            && w.pipe + (if w.token then 1 else 0) == |w.delivered| - |w.out|
  {
    BeginIsGood(n);
    RunStays(Begin(n), steps);
    SizeStays(Begin(n), steps);
  }

  lemma {:induction false} SizeStays(w: World, steps: seq<Step>)
    requires InRing(w.ring)
    ensures |Run(w, steps).ring.slots| == |w.ring.slots|
    decreases |steps|
  {
    if steps != [] { SizeStays(Do(w, steps[0]), steps[1..]); }
  }

  /** A NULL frame given to the exchanger stops the slave for good: once its turn comes, no run delivers
      anything any more. */
  lemma {:induction false} NullStopsTheSlave(w: World, steps: seq<Step>)
    requires Good(w) && w.held == Null && |w.delivered| < |w.given| && w.given[|w.delivered|] == Null
    requires AllEnabled(w, steps)
    ensures Run(w, steps).delivered == w.delivered
    decreases |steps|
  {
    if steps != [] {
      var s := steps[0];
      StepStays(w, s);
      if s == Get { GetStays(w); }
      if s.Exchange? { ExchangeStays(w, s.frame); }
      hide Good;
      NullStopsTheSlave(Do(w, s), steps[1..]);
    }
  }

  // ---------------------------------------------------------------- the exchanger itself

  /** The ring as it is in memory. `world` is its history; each method takes one step of it. */
  class Exchanger {
    const slots: array<Slot>
    var masterRead: nat
    var masterWrite: nat
    var slaveCur: nat
    var pipe: nat
    ghost var world: World

    ghost predicate Valid()
      reads this, slots
    {
      && masterRead < slots.Length && masterWrite < slots.Length && slaveCur < slots.Length
      && world.ring == Ring(slots[..], masterRead, slaveCur, masterWrite) && world.pipe == pipe
    }

    constructor (n: nat)
      requires n > 0
      ensures Valid() && fresh(slots) && world == Begin(n) && Good(world)
    {
      slots := new Slot[n](_ => Slot(Null, false));
      masterRead, masterWrite, slaveCur, pipe, world := 0, 0, 0, 0, Begin(n);
      new;
      BeginIsGood(n);
    }

    /** Refused, with nothing changed in the ring, exactly when the slot to write is occupied; a master
        that keeps to the discipline is never refused. */
    method ExchangeFrame(f: Maybe) returns (ok: bool)
      requires Valid()
      modifies this`masterWrite, this`world, slots
      ensures Valid() && world == Do(old(world), Exchange(f))
      ensures !ok <==> old(slots[masterWrite].frame) != Null
      ensures !ok ==> world.ring == old(world.ring) && world.given == old(world.given)
      ensures ok ==> world.given == old(world.given) + [f]
      ensures Good(old(world)) && Enabled(old(world), Exchange(f)) ==> ok && Good(world)
    {
      if Good(world) && Enabled(world, Exchange(f)) { ExchangeStays(world, f); }
      world := Do(world, Exchange(f));
      if slots[masterWrite].frame != Null { return false; }
      slots[masterWrite] := Slot(f, true);
      masterWrite := Next(masterWrite, slots.Length);
      ok := true;
    }

    /** The slave gets the oldest frame given that it has not delivered, unless that was NULL. */
    method GetNextFrame() returns (f: Maybe)
      requires Valid()
      modifies this`world, slots
      ensures Valid() && world == Do(old(world), Get)
      ensures Good(old(world)) && Enabled(old(world), Get) ==>
                && Good(world) && f == world.held
                && var w := old(world); f == if |w.delivered| < |w.given| then w.given[|w.delivered|] else Null
    {
      if Good(world) && Enabled(world, Get) { GetStays(world); }
      world := Do(world, Get);
      f := Null;
      if slots[slaveCur].pending { f := slots[slaveCur].frame; }
      if f != Null { slots[slaveCur] := slots[slaveCur].(frame := Null); }
    }

    /** Nothing is overwritten when the slave delivers what it got. */
    method DeliverFrame(id: nat)
      requires Valid()
      modifies this`slaveCur, this`pipe, this`world, slots
      ensures Valid() && world == Do(old(world), Deliver(id)) && world.delivered == old(world.delivered) + [id]
      ensures Good(old(world)) && Enabled(old(world), Deliver(id)) ==> Good(world) && old(slots[slaveCur].frame) == Null
    {
      if Good(world) && Enabled(world, Deliver(id)) { DeliverStays(world, id); }
      world := Do(world, Deliver(id));
      slots[slaveCur] := Slot(Frame(id), false);
      pipe := pipe + 1;
      slaveCur := Next(slaveCur, slots.Length);
    }

    /** The byte that announces a frame. */
    method ReadByte() returns (ok: bool)
      requires Valid() && !world.token
      modifies this`pipe, this`world
      ensures Valid() && (ok <==> old(pipe) > 0) && world == if ok then Do(old(world), TakeByte) else old(world)
      ensures Good(old(world)) ==> Good(world) && (ok <==> |world.out| < |world.delivered|)
    {
      ok := pipe > 0;
      if ok {
        if Good(world) { StepStays(world, TakeByte); }
        world := Do(world, TakeByte);
        pipe := pipe - 1;
      }
    }

    /** The master reads the oldest frame delivered that it has not read. */
    method ReadFrame() returns (f: Maybe)
      requires Valid()
      modifies this`masterRead, this`world, slots
      ensures Valid() && world == Do(old(world), TakeFrame) && world.out == old(world.out) + [f]
      ensures Good(old(world)) && Enabled(old(world), TakeFrame) ==>
                Good(world) && var w := old(world); |w.out| < |w.delivered| && f == Frame(w.delivered[|w.out|])
    {
      if Good(world) && Enabled(world, TakeFrame) { TakeFrameStays(world); }
      world := Do(world, TakeFrame);
      f := slots[masterRead].frame;
      slots[masterRead] := slots[masterRead].(frame := Null);
      masterRead := Next(masterRead, slots.Length);
    }

    /** `exchanger_read`: every frame delivered so far is handed to the master, in order. */
    method ReadAll() returns (frames: seq<Maybe>)
      requires Valid() && Good(world) && !world.token
      modifies this`masterRead, this`pipe, this`world, slots
      ensures Valid() && Good(world) && pipe == 0 && world.delivered == old(world.delivered)
      ensures |frames| == |world.delivered| - |old(world.out)|
      ensures forall k :: 0 <= k < |frames| ==> frames[k] == Frame(world.delivered[|old(world.out)| + k])
    {
      hide Good, Exchanged, Got, Delivered, ReadOut;
      frames := [];
      GoodReads(world);
      while true
        invariant Valid() && Good(world) && !world.token && world.delivered == old(world.delivered)
        invariant |world.out| == |old(world.out)| + |frames| <= |world.delivered|
        invariant forall k :: 0 <= k < |frames| ==> frames[k] == Frame(world.delivered[|old(world.out)| + k])
        decreases pipe
      {
        GoodReads(world);
        var ok := ReadByte();
        if !ok { return; }
        var f := ReadFrame();
        GoodReads(world);
        frames := frames + [f];
      }
    }
  }

  lemma GoodReads(w: World)
    requires Good(w)
    ensures |w.out| <= |w.delivered| && w.pipe + (if w.token then 1 else 0) == |w.delivered| - |w.out|
  {
  }
}
