/** What the bound on the age of a duplicate is for: one number older, and the receiver hands a packet over
    twice. The run is a whole lap of empty packets, each delivered at once, with one late duplicate. */
module LateDuplicate {
  import opened Numbers
  import opened ReliableChannel
  import opened IncomingChannel
  import opened DeliveryProof

  function Empties(m: nat): (s: seq<seq<byte>>)
    ensures |s| == m
  {
    seq(m, _ => [])
  }

  /** Packets `i` up to `m` are queued, and each arrives at once. */
  function Straight(i: nat, m: nat): seq<Event>
    requires i <= m
    decreases m - i
  {
    if i == m then [] else [Queue([]), Arrive(i, 0)] + Straight(i + 1, m)
  }

  /** After `i` packets, all dispatched, with `late` waiting. */
  function After(i: nat, late: seq<Incoming>): Link {
    Link(Empties(i), Channel(U16(i), late, Empties(i)))
  }

  function Old(number: u16): Incoming { Incoming(number, 0, 0, [], []) }

  lemma {:induction false} StartOfEmpties(m: nat, k: nat)
    requires k <= m
    ensures Start(Empties(m), 1, k) == k + 1
  {
    if k > 0 { StartOfEmpties(m, k - 1); }
  }

  lemma Command0(m: nat, k: nat)
    requires k < m
    ensures Span(Empties(m)[k], 1) == 1
    ensures CommandFor(Empties(m)[k], 1, Start(Empties(m), 1, k) - 1, 0) == Command(U16(k + 1), U16(k + 1), Whole, [])
  {
    StartOfEmpties(m, k);
  }

  lemma OneMore(i: nat)
    ensures Empties(i) + [[]] == Empties(i + 1)
  {
  }

  /** A new packet passes the late one, which lies further ahead. */
  lemma NextPasses(i: nat, late: seq<Incoming>)
    requires late == [] || (|late| == 1 && late[0] == Old(late[0].number) && Ahead(U16(i), late[0].number) >= 2)
    ensures var ch := Channel(U16(i), late, Empties(i));
            QueueIncoming(ch, Old(U16(i + 1))) == (Dispatch(Channel(U16(i + 1), late, Empties(i + 1))), Kept)
  {
    hide Dispatch, InWindow;
    var ch := Channel(U16(i), late, Empties(i));
    NextInWindow(i);
    AheadOf(i, i + 1);
    if late != [] { CompareIsByDistance(ch.last, U16(i + 1), late[0].number); }
    SearchesToFront(ch, U16(i + 1));
    var e := Old(U16(i + 1));
    var ch1 := ch.(pending := [e] + late);
    assert ch.pending[..0] + [e] + ch.pending[0..] == [e] + late;
    WrapUp(i);
    OneMore(i);
    assert CanDispatch(ch1);
    DispatchTakes(ch1);
    assert ch1.pending[1..] == late;
  }

  lemma SearchesToFront(ch: Channel, number: u16)
    requires |ch.pending| <= 1 && (ch.pending != [] ==> Compare(ch.last, number, ch.pending[0].number) == Beyond)
    ensures Search(ch.pending, ch.last, number, |ch.pending|) == At(0)
  {
    if ch.pending != [] { assert Search(ch.pending, ch.last, number, 0) == At(0); }
  }

  lemma WrapUp(i: nat)
    ensures U16(U16(i) + 1) == U16(i + 1)
  {
    assert i == SPACE * (i / SPACE) + U16(i);
    SameOnCircle(i + 1, if U16(i) + 1 == SPACE then 0 else U16(i) + 1, if U16(i) + 1 == SPACE then i / SPACE + 1 else i / SPACE);
  }

  lemma DispatchTakes(ch: Channel)
    requires CanDispatch(ch)
    ensures Dispatch(ch) == Dispatch(Channel(AfterDispatch(ch.pending[0]), ch.pending[1..], ch.dispatched + [ch.pending[0].data]))
  {
  }

  lemma Waits(ch: Channel)
    requires !CanDispatch(ch)
    ensures Dispatch(ch) == ch
  {
  }

  lemma OneRound(i: nat, late: seq<Incoming>)
    requires late == [] || (|late| == 1 && late[0] == Old(late[0].number) && Ahead(U16(i), late[0].number) >= 2)
    ensures Step(Step(After(i, late), 1, Queue([])), 1, Arrive(i, 0))
         == Link(Empties(i + 1), Dispatch(Channel(U16(i + 1), late, Empties(i + 1))))
  {
    hide Dispatch, QueueIncoming, CommandFor, Span, Start;
    OneMore(i);
    Command0(i + 1, i);
    NextPasses(i, late);
  }

  lemma {:induction false} StraightRun(i: nat, m: nat, late: seq<Incoming>)
    requires i <= m
    requires late == [] || (|late| == 1 && late[0] == Old(late[0].number) && Ahead(U16(i), late[0].number) == m - i + 2)
    requires late == [] || m - i + 2 < SPACE
    ensures Run(After(i, late), 1, Straight(i, m)) == After(m, late)
    decreases m - i
  {
    if i < m {
      hide Step, Dispatch;
      OneRound(i, late);
      if late != [] { CloserByOne(i, late[0].number); }
      Waits(Channel(U16(i + 1), late, Empties(i + 1)));
      var events := Straight(i, m);
      assert events[0] == Queue([]) && events[1..][0] == Arrive(i, 0) && events[1..][1..] == Straight(i + 1, m);
      StraightRun(i + 1, m, late);
    }
  }

  lemma CloserByOne(i: nat, number: u16)
    requires Ahead(U16(i), number) >= 2
    ensures Ahead(U16(i + 1), number) == Ahead(U16(i), number) - 1
    ensures number != U16(U16(i + 1) + 1) <==> Ahead(U16(i), number) != 2
  {
    WrapUp(i);
    WrapUp(i + 1);
  }

  lemma {:induction false} RunJoin(l: Link, a: seq<Event>, b: seq<Event>)
    ensures Run(l, 1, a + b) == Run(Run(l, 1, a), 1, b)
    decreases |a|
  {
    hide Step;
    if a == [] {
      assert a + b == b;
    } else {
      assert (a + b)[0] == a[0] && (a + b)[1..] == a[1..] + b;
      RunJoin(Step(l, 1, a[0]), a[1..], b);
    }
  }

  /** Only first commands of packets that were queued before arrive; `n` are queued so far. */
  predicate OnlySent(n: nat, events: seq<Event>)
    decreases |events|
  {
    events == [] ||
      match events[0]
      case Queue(_) => OnlySent(n + 1, events[1..])
      case Arrive(k, j) => k < n && j == 0 && OnlySent(n, events[1..])
  }

  lemma {:induction false} StraightIsSent(i: nat, m: nat, rest: seq<Event>)
    requires i <= m && OnlySent(m, rest)
    ensures OnlySent(i, Straight(i, m) + rest)
    decreases m - i
  {
    if i == m {
      assert Straight(i, m) + rest == rest;
    } else {
      StraightIsSent(i + 1, m, rest);
      var events := Straight(i, m) + rest;
      assert events[0] == Queue([]) && events[1..][0] == Arrive(i, 0) && events[1..][1..] == Straight(i + 1, m) + rest;
      assert OnlySent(i + 1, events[1..]);
    }
  }

  const LAP: nat := 0xA000     // dispatched when the duplicate comes
  const LATE: nat := 0xFFE     // the packet it is a duplicate of
  const LAST: nat := 0x10FFD   // one before the packet that it is taken for

  function LateRun(): seq<Event> {
    Straight(0, LAP) + ([Arrive(LATE, 0)] + (Straight(LAP, LAST) + [Queue([]), Arrive(LAST, 0)]))
  }

  lemma LateArrives()
    ensures Step(After(LAP, []), 1, Arrive(LATE, 0)) == After(LAP, [Old(LATE + 1)])
  {
    hide Dispatch;
    Command0(LAP, LATE);
    var ch := Channel(U16(LAP), [], Empties(LAP));
    assert InWindow(ch.last, LATE + 1);
    SearchesToFront(ch, LATE + 1);
    Waits(ch.(pending := [Old(LATE + 1)]));
    assert ch.pending[..0] + [Old(LATE + 1)] + ch.pending[0..] == [Old(LATE + 1)];
  }

  lemma LateIsDispatched()
    ensures Dispatch(Channel(U16(LAST + 1), [Old(LATE + 1)], Empties(LAST + 1))) == Channel(LATE + 1, [], Empties(LAST + 2))
  {
    var ch := Channel(U16(LAST + 1), [Old(LATE + 1)], Empties(LAST + 1));
    assert CanDispatch(ch);
    DispatchTakes(ch);
    OneMore(LAST + 1);
    Waits(Channel(LATE + 1, [], Empties(LAST + 2)));
  }

  /** A duplicate that is one number older than the bound: more packets come out than went in. */
  lemma LateDuplicateIsDelivered()
    ensures OnlySent(0, LateRun())
    ensures !Timely(LAP, LATE + 1) && Timely(LAP, LATE + 2)
    ensures var l := Run(IDLE, 1, LateRun()); |l.ch.dispatched| == |l.packets| + 1
  {
    var tail := [Queue([]), Arrive(LAST, 0)];
    assert OnlySent(LAST, tail) by { assert tail[1..][0] == Arrive(LAST, 0) && tail[1..][1..] == []; }
    StraightIsSent(LAP, LAST, tail);
    var middle := [Arrive(LATE, 0)] + (Straight(LAP, LAST) + tail);
    assert middle[1..] == Straight(LAP, LAST) + tail;
    StraightIsSent(0, LAP, middle);
    LateRunEnds(tail, middle);
  }

  lemma LateRunEnds(tail: seq<Event>, middle: seq<Event>)
    requires tail == [Queue([]), Arrive(LAST, 0)] && middle == [Arrive(LATE, 0)] + (Straight(LAP, LAST) + tail)
    ensures Run(IDLE, 1, LateRun()) == Link(Empties(LAST + 1), Channel(LATE + 1, [], Empties(LAST + 2)))
  {
    hide Step, Straight;
    assert IDLE == After(0, []);
    RunJoin(IDLE, Straight(0, LAP), middle);
    StraightRun(0, LAP, []);
    LateArrives();
    assert middle[0] == Arrive(LATE, 0) && middle[1..] == Straight(LAP, LAST) + tail;
    RunJoin(After(LAP, [Old(LATE + 1)]), Straight(LAP, LAST), tail);
    StraightRun(LAP, LAST, [Old(LATE + 1)]);
    OneRound(LAST, [Old(LATE + 1)]);
    LateIsDispatched();
    TwoSteps(After(LAST, [Old(LATE + 1)]), tail);
  }

  lemma TwoSteps(l: Link, events: seq<Event>)
    requires |events| == 2
    ensures Run(l, 1, events) == Step(Step(l, 1, events[0]), 1, events[1])
  {
    hide Step;
    var l1 := Step(l, 1, events[0]);
    OneStep(l1, events[1..]);
    assert Run(l, 1, events) == Run(l1, 1, events[1..]);
  }

  lemma OneStep(l: Link, events: seq<Event>)
    requires |events| == 1
    ensures Run(l, 1, events) == Step(l, 1, events[0])
  {
    assert events[1..] == [];
    assert Run(Step(l, 1, events[0]), 1, []) == Step(l, 1, events[0]);
  }
}
