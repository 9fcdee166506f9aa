/** Whole runs of the send queue: nothing lost or sent twice, first in first out,
    priority, who may be evicted, and how much leaves in how much time. */
module SendQueueRuns {
  import opened Text
  import opened ModeLines
  import opened SendQueue

  datatype Op =
    | DoEnqueue(line: string, link: Link)
    | DoDrain(link: Link)
    | DoHold
    | DoRelease(link: Link)
    | DoNextMs
    | DoLimits(burst: int, interval: int)
    | DoClear

  /** One call, its time and the server's MODES value then. */
  datatype Call = Call(at: int, modes: int, op: Op)

  function Perform(q: Q, c: Call): Step
    requires Valid(q)
  {
    var limit := ModesLimit(c.modes);
    match c.op
    case DoEnqueue(line, link) => Enqueue(q, line, link, limit, c.at)
    case DoDrain(link) => Drain(q, link, limit, c.at)
    case DoHold => Step(Hold(q), [], 0)
    case DoRelease(link) => Release(q, link, limit, c.at)
    case DoNextMs => NextMs(q, c.at)
    case DoLimits(b, i) => Step(SetLimits(q, b, i), [], 0)
    case DoClear => Step(Clear(q, c.at), [Cleared(q.lanes)], 0)
  }

  // ---- every state reached is valid ------------------------------------------------

  lemma PopPays(q: Q, limit: nat)
    requires Valid(q) && q.total > 0 && q.credit >= q.interval
    ensures var p := PopNext(q, limit).q;
            p.credit == q.credit - q.interval && p.interval == q.interval && 0 <= p.total < q.total
  {
  }

  lemma {:induction false} DrainLoopKeepsValid(q: Q, link: Link, limit: nat, now: int)
    requires Valid(q)
    ensures Valid(DrainLoop(q, link, limit, now).q)
    decreases q.total
  {
    hide PopNext, Valid, Clear;
    TotalIsNat(q);
    if q.total > 0 && q.credit >= q.interval {
      if !link.connected {
        ClearKeepsValid(q, now);
      } else if link.good == 0 {
        ClearKeepsValid(PopNext(q, limit).q, now);
      } else {
        DrainLoopKeepsValid(PopNext(q, limit).q, link.(good := link.good - 1), limit, now);
      }
    }
  }

  lemma DrainKeepsValid(q: Q, link: Link, limit: nat, now: int)
    requires Valid(q)
    ensures Valid(Drain(q, link, limit, now).q)
  {
    if q.total > 0 {
      RefillKeepsValid(q, now);
      DrainLoopKeepsValid(Refill(q, now), link, limit, now);
    }
  }

  lemma PerformKeepsValid(q: Q, c: Call)
    requires Valid(q)
    ensures Valid(Perform(q, c).q)
  {
    var limit := ModesLimit(c.modes);
    match c.op
    case DoEnqueue(line, link) => EnqueueKeepsValid(q, line, link, limit, c.at);
    case DoDrain(link) => DrainKeepsValid(q, link, limit, c.at);
    case DoHold =>
    case DoRelease(link) =>
      if q.hold == 1 {
        DrainKeepsValid(q.(hold := 0), link, limit, c.at);
      }
    case DoNextMs => RefillKeepsValid(q, c.at);
    case DoLimits(b, i) => CapPositive(SetLimits(q, b, i));
    case DoClear => ClearKeepsValid(q, c.at);
  }

  lemma EnqueueKeepsValid(q: Q, line: string, link: Link, limit: nat, now: int)
    requires Valid(q)
    ensures Valid(Enqueue(q, line, link, limit, now).q)
  {
    if |line| >= 2 && !(LaneOf(line) == PROT && Waits(q.lanes[PROT], line)) {
      var room := MakeRoom(q, LaneOf(line));
      if room.Some? {
        PushKeepsValid(q, line);
        DrainKeepsValid(Push(room.value.0, LaneOf(line), Copy(line)), link, limit, now);
      }
    }
  }

  function Run(q: Q, calls: seq<Call>): (Q, seq<Event>)
    requires Valid(q)
    decreases |calls|
  {
    if calls == [] then (q, [])
    else
      PerformKeepsValid(q, calls[0]);
      var s := Perform(q, calls[0]);
      var (q', events) := Run(s.q, calls[1..]);
      (q', s.events + events)
  }

  lemma {:induction false} RunConcat(q: Q, a: seq<Call>, b: seq<Call>)
    requires Valid(q)
    ensures var (q1, first) := Run(q, a);
            Valid(q1) && Run(q, a + b) == (Run(q1, b).0, first + Run(q1, b).1)
    decreases |a|
  {
    hide Valid;
    if a == [] {
      assert a + b == b && [] + Run(q, b).1 == Run(q, b).1;
    } else {
      PerformKeepsValid(q, a[0]);
      assert (a + b)[0] == a[0] && (a + b)[1..] == a[1..] + b;
      var s := Perform(q, a[0]);
      RunConcat(s.q, a[1..], b);
      var (q1, first) := Run(s.q, a[1..]);
      assert s.events + (first + Run(q1, b).1) == (s.events + first) + Run(q1, b).1;
    }
  }

  lemma RunOne(q: Q, c: Call)
    requires Valid(q)
    ensures Run(q, [c]) == (Perform(q, c).q, Perform(q, c).events)
  {
    PerformKeepsValid(q, c);
    assert [c][1..] == [] && Perform(q, c).events + [] == Perform(q, c).events;
  }

  // ---- lines in, lines out -----------------------------------------------------------

  /** Lines that came into a lane, in order. */
  function Ins(events: seq<Event>, lane: Lane): seq<string> {
    if events == [] then []
    else
      var e := events[0];
      (if e.Queued? && e.lane == lane then [e.line] else []) + Ins(events[1..], lane)
  }

  function Left(e: Event, lane: Lane): seq<string> {
    match e
    case Written(l, lines, _, _, _) => if l == lane then lines else []
    case Lost(l, lines, _) => if l == lane then lines else []
    case Evicted(l, line, _) => if l == lane then [line] else []
    case Cleared(all) => if |all| == LANES then all[lane] else []
    case _ => []
  }

  /** Lines that left a lane -- written, lost in a failed write, evicted or cleared. */
  function Outs(events: seq<Event>, lane: Lane): seq<string> {
    if events == [] then [] else Left(events[0], lane) + Outs(events[1..], lane)
  }

  lemma {:induction false} InsConcat(a: seq<Event>, b: seq<Event>, lane: Lane)
    ensures Ins(a + b, lane) == Ins(a, lane) + Ins(b, lane)
  {
    if a == [] {
      assert a + b == b;
    } else {
      assert (a + b)[0] == a[0] && (a + b)[1..] == a[1..] + b;
      InsConcat(a[1..], b, lane);
    }
  }

  lemma {:induction false} OutsConcat(a: seq<Event>, b: seq<Event>, lane: Lane)
    ensures Outs(a + b, lane) == Outs(a, lane) + Outs(b, lane)
  {
    hide Left;
    if a == [] {
      assert a + b == b;
    } else {
      assert (a + b)[0] == a[0] && (a + b)[1..] == a[1..] + b;
      OutsConcat(a[1..], b, lane);
    }
  }

  lemma InOutConcat(a: seq<Event>, b: seq<Event>, lane: Lane)
    ensures Ins(a + b, lane) == Ins(a, lane) + Ins(b, lane)
    ensures Outs(a + b, lane) == Outs(a, lane) + Outs(b, lane)
  {
    InsConcat(a, b, lane);
    OutsConcat(a, b, lane);
  }

  /** What was waiting and what came in, in that order, is what left and what waits. */
  ghost predicate Conserved(q: Q, events: seq<Event>, q': Q, lane: Lane)
    requires |q.lanes| == LANES && |q'.lanes| == LANES
  {
    q.lanes[lane] + Ins(events, lane) == Outs(events, lane) + q'.lanes[lane]
  }

  lemma Chain(l: seq<string>, i1: seq<string>, o1: seq<string>, m: seq<string>, i2: seq<string>, o2: seq<string>, n: seq<string>)
    requires l + i1 == o1 + m && m + i2 == o2 + n
    ensures l + (i1 + i2) == (o1 + o2) + n
  {
    assert l + (i1 + i2) == (l + i1) + i2;
    assert (o1 + m) + i2 == o1 + (m + i2);
    assert o1 + (o2 + n) == (o1 + o2) + n;
  }

  lemma ConservedThen(q: Q, a: seq<Event>, q1: Q, b: seq<Event>, q2: Q, lane: Lane)
    requires |q.lanes| == |q1.lanes| == |q2.lanes| == LANES
    requires Conserved(q, a, q1, lane) && Conserved(q1, b, q2, lane)
    ensures Conserved(q, a + b, q2, lane)
  {
    InOutConcat(a, b, lane);
    Chain(q.lanes[lane], Ins(a, lane), Outs(a, lane), q1.lanes[lane], Ins(b, lane), Outs(b, lane), q2.lanes[lane]);
  }

  lemma OneEvent(q: Q, e: Event, q': Q, lane: Lane)
    requires |q.lanes| == |q'.lanes| == LANES
    requires q.lanes[lane] + (if e.Queued? && e.lane == lane then [e.line] else []) == Left(e, lane) + q'.lanes[lane]
    ensures Conserved(q, [e], q', lane)
  {
    assert [e][1..] == [];
    assert Ins([e][1..], lane) == [] && Outs([e][1..], lane) == [];
  }

  lemma NoEvent(q: Q, q': Q, lane: Lane)
    requires |q.lanes| == |q'.lanes| == LANES && q.lanes[lane] == q'.lanes[lane]
    ensures Conserved(q, [], q', lane)
  {
  }

  lemma PopConserves(q: Q, limit: nat, e: Event, lane: Lane)
    requires Valid(q) && q.total > 0 && q.credit >= q.interval
    requires forall l: Lane :: Left(e, l) == if l == PopNext(q, limit).lane then PopNext(q, limit).lines else []
    requires !e.Queued?
    ensures Conserved(q, [e], PopNext(q, limit).q, lane)
  {
    var p := PopNext(q, limit);
    var used := |p.lines|;
    assert q.lanes[p.lane] == p.lines + q.lanes[p.lane][used..];
    assert p.q.lanes[lane] == if lane == p.lane then q.lanes[lane][used..] else q.lanes[lane];
    OneEvent(q, e, p.q, lane);
  }

  lemma {:induction false} DrainLoopConserves(q: Q, link: Link, limit: nat, now: int, lane: Lane)
    requires Valid(q)
    ensures |DrainLoop(q, link, limit, now).q.lanes| == LANES
    ensures Conserved(q, DrainLoop(q, link, limit, now).events, DrainLoop(q, link, limit, now).q, lane)
    decreases q.total
  {
    hide PopNext, Valid, Conserved;
    TotalIsNat(q);
    var step := DrainLoop(q, link, limit, now);
    if q.total == 0 || q.credit < q.interval {
      NoEvent(q, q, lane);
    } else if !link.connected {
      OneEvent(q, Cleared(q.lanes), step.q, lane);
    } else {
      var p := PopNext(q, limit);
      TotalIsNat(p.q);
      if link.good == 0 {
        var lost := Lost(p.lane, p.lines, Waiting(q.lanes));
        PopConserves(q, limit, lost, lane);
        if link.failClears {
          OneEvent(p.q, Cleared(p.q.lanes), step.q, lane);
          ConservedThen(q, [lost], p.q, [Cleared(p.q.lanes)], step.q, lane);
        }
      } else {
        var written := Written(p.lane, p.lines, p.wire, now, Waiting(q.lanes));
        var rest := DrainLoop(p.q, link.(good := link.good - 1), limit, now);
        PopConserves(q, limit, written, lane);
        DrainLoopConserves(p.q, link.(good := link.good - 1), limit, now, lane);
        ConservedThen(q, [written], p.q, rest.events, rest.q, lane);
      }
    }
  }

  lemma DrainConserves(q: Q, link: Link, limit: nat, now: int, lane: Lane)
    requires Valid(q)
    ensures |Drain(q, link, limit, now).q.lanes| == LANES
    ensures Conserved(q, Drain(q, link, limit, now).events, Drain(q, link, limit, now).q, lane)
  {
    if q.total > 0 {
      RefillKeepsValid(q, now);
      DrainLoopConserves(Refill(q, now), link, limit, now, lane);
    }
  }

  /** Making room and pushing the new line. */
  lemma PushConserves(q: Q, line: string, lane: Lane)
    requires Valid(q) && |line| >= 2 && MakeRoom(q, LaneOf(line)).Some?
    ensures var to, copy := LaneOf(line), Copy(line);
            var (q1, evicted) := MakeRoom(q, to).value;
            |q1.lanes| == LANES && Conserved(q, evicted + [Queued(to, copy)], Push(q1, to, copy), lane)
  {
    var to, copy := LaneOf(line), Copy(line);
    var (q1, evicted) := MakeRoom(q, to).value;
    MakeRoomKeepsValid(q, to);
    if evicted == [] {
      NoEvent(q, q1, lane);
    } else {
      OneEvent(q, evicted[0], q1, lane);
    }
    OneEvent(q1, Queued(to, copy), Push(q1, to, copy), lane);
    ConservedThen(q, evicted, q1, [Queued(to, copy)], Push(q1, to, copy), lane);
  }

  lemma EnqueueConserves(q: Q, line: string, link: Link, limit: nat, now: int, lane: Lane)
    requires Valid(q)
    ensures |Enqueue(q, line, link, limit, now).q.lanes| == LANES
    ensures Conserved(q, Enqueue(q, line, link, limit, now).events, Enqueue(q, line, link, limit, now).q, lane)
  {
    hide Drain, Waits, LaneOf, Conserved;
    var step := Enqueue(q, line, link, limit, now);
    if |line| < 2 || (LaneOf(line) == PROT && Waits(q.lanes[PROT], line)) {
      NoEvent(q, step.q, lane);
    } else {
      var to, copy := LaneOf(line), Copy(line);
      var room := MakeRoom(q, to);
      if room.None? {
        OneEvent(q, Refused(to, copy, Waiting(q.lanes)), step.q, lane);
      } else {
        var (q1, evicted) := room.value;
        var q2 := Push(q1, to, copy);
        PushKeepsValid(q, line);
        PushConserves(q, line, lane);
        if q.hold == 0 {
          DrainConserves(q2, link, limit, now, lane);
          var rest := Drain(q2, link, limit, now);
          ConservedThen(q, evicted + [Queued(to, copy)], q2, rest.events, rest.q, lane);
        }
      }
    }
  }

  lemma PerformConserves(q: Q, c: Call, lane: Lane)
    requires Valid(q)
    ensures |Perform(q, c).q.lanes| == LANES
    ensures Conserved(q, Perform(q, c).events, Perform(q, c).q, lane)
  {
    var limit := ModesLimit(c.modes);
    match c.op
    case DoEnqueue(line, link) => EnqueueConserves(q, line, link, limit, c.at, lane);
    case DoDrain(link) => DrainConserves(q, link, limit, c.at, lane);
    case DoRelease(link) =>
      if q.hold == 1 {
        DrainConserves(q.(hold := 0), link, limit, c.at, lane);
      }
    case DoClear => OneEvent(q, Cleared(q.lanes), Clear(q, c.at), lane);
    case _ => NoEvent(q, Perform(q, c).q, lane);
  }

  /** Over any run each lane is a queue: every accepted line is waiting still or left once,
      and lines leave in the order they came. */
  lemma {:induction false} RunConserves(q: Q, calls: seq<Call>, lane: Lane)
    requires Valid(q)
    ensures Valid(Run(q, calls).0)
    ensures Conserved(q, Run(q, calls).1, Run(q, calls).0, lane)
    decreases |calls|
  {
    if calls == [] {
      NoEvent(q, q, lane);
    } else {
      var s := Perform(q, calls[0]);
      PerformKeepsValid(q, calls[0]);
      PerformConserves(q, calls[0], lane);
      RunConserves(s.q, calls[1..], lane);
      ConservedThen(q, s.events, s.q, Run(s.q, calls[1..]).1, Run(q, calls).0, lane);
    }
  }

  // ---- priority and eviction ---------------------------------------------------------

  /** The wire line a stretch of queued lines turns into. */
  function WireOf(lane: Lane, lines: seq<string>): string
    requires lines != []
  {
    var first := ItemParse(lines[0]);
    if lane != PROT || first.None? then lines[0]
    else LineText(first.value.chan, seq(|lines|, i requires 0 <= i < |lines| => ChangeOf(lines[i])))
  }

  function ChangeOf(line: string): Change {
    match ItemParse(line)
    case None => Change(true, '?', None)
    case Some(it) => it.change
  }

  /** No lane above has a line; the wire carries the lines that left, packed in the
      protection lane when they are all single changes for one channel. */
  ghost predicate FairWrite(lane: Lane, lines: seq<string>, before: seq<nat>) {
    && |before| == LANES && lines != [] && (forall j :: 0 <= j < lane ==> before[j] == 0)
    && (|lines| > 1 ==> lane == PROT && OneChannel(lines))
  }

  /** Every line is a single change, and all are for one channel. */
  ghost predicate OneChannel(lines: seq<string>)
    requires lines != []
  {
    |ItemsOf(lines)| == |lines| && From(ItemsOf(lines), lines, ItemsOf(lines)[0].chan)
  }

  function ItemsOf(lines: seq<string>): seq<Item> {
    if lines == [] then []
    else
      match ItemParse(lines[0])
      case None => []
      case Some(it) => [it] + ItemsOf(lines[1..])
  }

  ghost predicate Fair(e: Event) {
    match e
    case Written(lane, lines, wire, _, before) => FairWrite(lane, lines, before) && wire == WireOf(lane, lines)
    case Lost(lane, lines, before) => FairWrite(lane, lines, before)
    case Evicted(lane, _, before) =>
      |before| == LANES && before[0] + before[1] + before[2] == MAX_SENDQ
      && lane != PROTO && (lane == PROT ==> before[REST] == 0)
    case Refused(lane, _, before) =>
      |before| == LANES && before[0] + before[1] + before[2] == MAX_SENDQ
      && before[REST] == 0 && (lane == REST || before[PROT] == 0)
    case _ => true
  }

  lemma {:induction false} ItemsFrom(items: seq<Item>, lines: seq<string>, chan: string)
    requires From(items, lines, chan) && |items| == |lines|
    ensures ItemsOf(lines) == items
  {
    hide ItemParse, EqIc;
    if items != [] {
      assert From(items[1..], lines[1..], chan) by {
        assert forall j :: 0 <= j < |items[1..]| ==> items[1..][j] == items[j + 1] && lines[1..][j] == lines[j + 1];
      }
      ItemsFrom(items[1..], lines[1..], chan);
      assert items == [items[0]] + items[1..];
    }
  }

  lemma TakeIsFair(lane: seq<string>, limit: nat)
    requires lane != [] && limit >= 1
    ensures var (wire, used) := TakeProtection(lane, limit);
            var lines := lane[..used];
            && wire == WireOf(PROT, lines)
            && (|lines| > 1 ==> OneChannel(lines))
  {
    var items := PackItems(lane, limit);
    if items != [] {
      var used := |items|;
      PackFits(lane, limit);
      var lines := lane[..used];
      assert From(items, lines, items[0].chan);
      ItemsFrom(items, lines, items[0].chan);
      assert Changes(items) == seq(|lines|, i requires 0 <= i < |lines| => ChangeOf(lines[i]));
    }
  }

  lemma PopIsFair(q: Q, limit: nat)
    requires Valid(q) && q.total > 0 && q.credit >= q.interval && limit >= 1
    ensures var p := PopNext(q, limit);
            FairWrite(p.lane, p.lines, Waiting(q.lanes)) && p.wire == WireOf(p.lane, p.lines)
  {
    var lane := NextLane(q);
    if lane == PROT {
      TakeIsFair(q.lanes[PROT], limit);
    }
  }

  ghost predicate AllFair(events: seq<Event>) {
    forall e :: e in events ==> Fair(e)
  }

  lemma {:induction false} DrainLoopIsFair(q: Q, link: Link, limit: nat, now: int)
    requires Valid(q) && limit >= 1
    ensures AllFair(DrainLoop(q, link, limit, now).events)
    decreases q.total
  {
    if q.total > 0 && q.credit >= q.interval && link.connected {
      PopIsFair(q, limit);
      if link.good > 0 {
        DrainLoopIsFair(PopNext(q, limit).q, link.(good := link.good - 1), limit, now);
      }
    }
  }

  lemma PerformIsFair(q: Q, c: Call)
    requires Valid(q)
    ensures AllFair(Perform(q, c).events)
  {
    var limit := ModesLimit(c.modes);
    match c.op
    case DoEnqueue(line, link) => EnqueueIsFair(q, line, link, limit, c.at);
    case DoDrain(link) => DrainIsFair(q, link, limit, c.at);
    case DoRelease(link) =>
      if q.hold == 1 {
        DrainIsFair(q.(hold := 0), link, limit, c.at);
      }
    case _ =>
  }

  lemma DrainIsFair(q: Q, link: Link, limit: nat, now: int)
    requires Valid(q) && limit >= 1
    ensures AllFair(Drain(q, link, limit, now).events)
  {
    if q.total > 0 {
      RefillKeepsValid(q, now);
      DrainLoopIsFair(Refill(q, now), link, limit, now);
    }
  }

  lemma EnqueueIsFair(q: Q, line: string, link: Link, limit: nat, now: int)
    requires Valid(q) && limit >= 1
    ensures AllFair(Enqueue(q, line, link, limit, now).events)
  {
    hide Drain, LaneOf, Waits;
    if |line| >= 2 && !(LaneOf(line) == PROT && Waits(q.lanes[PROT], line)) {
      var room := MakeRoom(q, LaneOf(line));
      if room.Some? {
        PushKeepsValid(q, line);
        if q.hold == 0 {
          DrainIsFair(Push(room.value.0, LaneOf(line), Copy(line)), link, limit, now);
        }
      }
    }
  }

  /** Over any run: no lane is written while one above it waits, a protocol line is never
      evicted, a protection line only with the rest lane empty, a new line is turned away
      only when nothing may give way to it, and every wire line is its queued lines. */
  lemma {:induction false} RunIsFair(q: Q, calls: seq<Call>)
    requires Valid(q)
    ensures AllFair(Run(q, calls).1)
    decreases |calls|
  {
    if calls != [] {
      PerformIsFair(q, calls[0]);
      PerformKeepsValid(q, calls[0]);
      RunIsFair(Perform(q, calls[0]).q, calls[1..]);
    }
  }

  // ---- pacing ------------------------------------------------------------------------

  /** Lines on the wire, what they cost, and whether the queue was never cleared. */
  function Writes(events: seq<Event>): nat {
    if events == [] then 0 else (if events[0].Written? then 1 else 0) + Writes(events[1..])
  }

  function Cost(events: seq<Event>, interval: int): int {
    if events == [] then 0 else (if events[0].Written? then interval else 0) + Cost(events[1..], interval)
  }

  predicate NoClear(events: seq<Event>) {
    events == [] || (!events[0].Cleared? && NoClear(events[1..]))
  }

  lemma {:induction false} CostIs(events: seq<Event>, interval: int)
    ensures Cost(events, interval) == Writes(events) * interval
  {
    if events != [] {
      CostIs(events[1..], interval);
    }
  }

  lemma {:induction false} CostConcat(a: seq<Event>, b: seq<Event>, interval: int)
    ensures Cost(a + b, interval) == Cost(a, interval) + Cost(b, interval)
  {
    if a == [] {
      assert a + b == b;
    } else {
      assert (a + b)[0] == a[0] && (a + b)[1..] == a[1..] + b;
      CostConcat(a[1..], b, interval);
    }
  }

  lemma CostOne(e: Event, interval: int)
    ensures Cost([e], interval) == if e.Written? then interval else 0
  {
    assert [e][1..] == [];
  }

  /** Times do not go back, from `t` on. */
  predicate ClockFrom(t: int, calls: seq<Call>)
    decreases |calls|
  {
    calls == [] || (t <= calls[0].at && ClockFrom(calls[0].at, calls[1..]))
  }

  function EndTime(t: int, calls: seq<Call>): int
    decreases |calls|
  {
    if calls == [] then t else EndTime(calls[0].at, calls[1..])
  }

  /** The credit there would be at time t. */
  function CreditAt(q: Q, t: int): int {
    Refill(q, t).credit
  }

  /** What was paid for and what is still there came from the start and from time. */
  ghost predicate Paid(q: Q, t: int, events: seq<Event>, q': Q, t': int) {
    && q'.burst == q.burst && q'.interval == q.interval && q'.last <= t'
    && Cost(events, q.interval) + CreditAt(q', t') <= CreditAt(q, t) + (t' - t)
  }

  lemma {:induction false} NoClearParts(a: seq<Event>, b: seq<Event>)
    ensures NoClear(a + b) <==> NoClear(a) && NoClear(b)
  {
    if a == [] {
      assert a + b == b;
    } else {
      assert (a + b)[0] == a[0] && (a + b)[1..] == a[1..] + b;
      NoClearParts(a[1..], b);
    }
  }

  ghost predicate SpentOnly(q: Q, events: seq<Event>, q': Q) {
    && q'.burst == q.burst && q'.interval == q.interval && q'.last == q.last
    && Cost(events, q.interval) + q'.credit <= q.credit
  }

  lemma WriteSpends(q: Q, p: Pop, e: Event, events: seq<Event>, q': Q)
    requires p.q.burst == q.burst && p.q.interval == q.interval && p.q.last == q.last
    requires p.q.credit == q.credit - q.interval && SpentOnly(p.q, events, q')
    ensures SpentOnly(q, [e] + events, q') || !e.Written?
  {
    CostOne(e, q.interval);
    CostConcat([e], events, q.interval);
  }

  lemma LossSpends(q: Q, p: Pop, before: seq<nat>)
    requires Valid(q) && p.q.burst == q.burst && p.q.interval == q.interval && p.q.last == q.last
    requires p.q.credit == q.credit - q.interval
    ensures var lost := [Lost(p.lane, p.lines, before)];
            SpentOnly(q, lost, p.q) && !NoClear(lost + [Cleared(p.q.lanes)])
  {
    var lost := [Lost(p.lane, p.lines, before)];
    CostOne(lost[0], q.interval);
    NoClearParts(lost, [Cleared(p.q.lanes)]);
    assert [Cleared(p.q.lanes)][0].Cleared?;
  }

  lemma PopSpends(q: Q, limit: nat)
    requires Valid(q) && q.total > 0 && q.credit >= q.interval
    ensures var p := PopNext(q, limit);
            p.q.burst == q.burst && p.q.interval == q.interval && p.q.last == q.last && p.q.credit == q.credit - q.interval
  {
  }

  lemma {:induction false} DrainLoopPaid(q: Q, link: Link, limit: nat, now: int)
    requires Valid(q)
    ensures NoClear(DrainLoop(q, link, limit, now).events) ==>
              SpentOnly(q, DrainLoop(q, link, limit, now).events, DrainLoop(q, link, limit, now).q)
    decreases q.total, 1
  {
    if q.total == 0 || q.credit < q.interval {
    } else if !link.connected {
    } else if link.good == 0 {
      PopSpends(q, limit);
      LossSpends(q, PopNext(q, limit), Waiting(q.lanes));
    } else {
      WritePaid(q, link, limit, now);
    }
  }

  lemma {:induction false} WritePaid(q: Q, link: Link, limit: nat, now: int)
    requires Valid(q) && q.total > 0 && q.credit >= q.interval && link.connected && link.good > 0
    ensures NoClear(DrainLoop(q, link, limit, now).events) ==>
              SpentOnly(q, DrainLoop(q, link, limit, now).events, DrainLoop(q, link, limit, now).q)
    decreases q.total, 0
  {
    var p := PopNext(q, limit);
    var rest := DrainLoop(p.q, link.(good := link.good - 1), limit, now);
    var e := Written(p.lane, p.lines, p.wire, now, Waiting(q.lanes));
    PopSpends(q, limit);
    DrainLoopPaid(p.q, link.(good := link.good - 1), limit, now);
    NoClearParts([e], rest.events);
    assert DrainLoop(q, link, limit, now).events == [e] + rest.events;
    if NoClear(rest.events) {
      WriteSpends(q, p, e, rest.events, rest.q);
    }
  }

  lemma WaitAccrues(q: Q, t: int, now: int)
    requires Valid(q) && q.last <= t <= now
    ensures CreditAt(q, now) <= CreditAt(q, t) + (now - t)
    ensures 0 <= CreditAt(q, t) <= Cap(q)
  {
  }

  lemma DrainPaid(q: Q, t: int, link: Link, limit: nat, now: int)
    requires Valid(q) && q.last <= t <= now
    ensures var s := Drain(q, link, limit, now);
            NoClear(s.events) ==> Paid(q, t, s.events, s.q, now)
  {
    WaitAccrues(q, t, now);
    if q.total > 0 {
      var r := Refill(q, now);
      RefillKeepsValid(q, now);
      DrainLoopPaid(r, link, limit, now);
      DrainLoopKeepsValid(r, link, limit, now);
    }
  }

  lemma PaidThen(q: Q, t: int, a: seq<Event>, q1: Q, t1: int, b: seq<Event>, q2: Q, t2: int)
    requires Paid(q, t, a, q1, t1) && Paid(q1, t1, b, q2, t2)
    ensures Paid(q, t, a + b, q2, t2)
  {
    CostConcat(a, b, q.interval);
  }

  lemma PushPaid(q: Q, t: int, line: string, now: int)
    requires Valid(q) && q.last <= t <= now && |line| >= 2 && MakeRoom(q, LaneOf(line)).Some?
    ensures var (q1, evicted) := MakeRoom(q, LaneOf(line)).value;
            |q1.lanes| == LANES
            && Paid(q, t, evicted + [Queued(LaneOf(line), Copy(line))], Push(q1, LaneOf(line), Copy(line)), now)
  {
    var (q1, evicted) := MakeRoom(q, LaneOf(line)).value;
    var e := Queued(LaneOf(line), Copy(line));
    MakeRoomKeepsValid(q, LaneOf(line));
    WaitAccrues(q, t, now);
    CostConcat(evicted, [e], q.interval);
    CostOne(e, q.interval);
    if evicted != [] {
      CostOne(evicted[0], q.interval);
    }
  }

  lemma EnqueuePaid(q: Q, t: int, line: string, link: Link, limit: nat, now: int)
    requires Valid(q) && q.last <= t <= now
    ensures var s := Enqueue(q, line, link, limit, now);
            NoClear(s.events) ==> Paid(q, t, s.events, s.q, now)
  {
    var s := Enqueue(q, line, link, limit, now);
    WaitAccrues(q, t, now);
    if |line| >= 2 && !(LaneOf(line) == PROT && Waits(q.lanes[PROT], line)) {
      var to, copy := LaneOf(line), Copy(line);
      var room := MakeRoom(q, to);
      if room.None? {
        CostOne(s.events[0], q.interval);
      } else {
        var (q1, evicted) := room.value;
        var q2 := Push(q1, to, copy);
        PushKeepsValid(q, line);
        PushPaid(q, t, line, now);
        if q.hold == 0 {
          var rest := Drain(q2, link, limit, now);
          DrainPaid(q2, now, link, limit, now);
          NoClearParts(evicted + [Queued(to, copy)], rest.events);
          if NoClear(s.events) {
            PaidThen(q, t, evicted + [Queued(to, copy)], q2, now, rest.events, rest.q, now);
          }
        }
      }
    }
  }

  lemma PerformPaid(q: Q, t: int, c: Call)
    requires Valid(q) && q.last <= t <= c.at && !c.op.DoLimits?
    ensures NoClear(Perform(q, c).events) ==> Paid(q, t, Perform(q, c).events, Perform(q, c).q, c.at)
  {
    var limit := ModesLimit(c.modes);
    WaitAccrues(q, t, c.at);
    match c.op
    case DoEnqueue(line, link) => EnqueuePaid(q, t, line, link, limit, c.at);
    case DoDrain(link) => DrainPaid(q, t, link, limit, c.at);
    case DoRelease(link) =>
      if q.hold == 1 {
        DrainPaid(q.(hold := 0), t, link, limit, c.at);
      }
    case DoClear => assert Perform(q, c).events[0].Cleared?;
    case _ =>
  }

  predicate FixedLimits(calls: seq<Call>) {
    forall c :: c in calls ==> !c.op.DoLimits?
  }

  lemma {:induction false} RunPaid(q: Q, t: int, calls: seq<Call>)
    requires Valid(q) && q.last <= t && ClockFrom(t, calls) && FixedLimits(calls) && NoClear(Run(q, calls).1)
    ensures Paid(q, t, Run(q, calls).1, Run(q, calls).0, EndTime(t, calls))
    decreases |calls|
  {
    if calls != [] {
      var s := Perform(q, calls[0]);
      PerformKeepsValid(q, calls[0]);
      var rest := Run(s.q, calls[1..]);
      NoClearParts(s.events, rest.1);
      assert calls[0] in calls && forall c :: c in calls[1..] ==> c in calls;
      PerformPaid(q, t, calls[0]);
      RunPaid(s.q, calls[0].at, calls[1..]);
      PaidThen(q, t, s.events, s.q, calls[0].at, rest.1, rest.0, EndTime(t, calls));
    }
  }

  /** Between clears, with fixed limits and a positive interval, at most the burst and one
      line per interval leave in any stretch of time. */
  lemma RateBound(q: Q, t: int, calls: seq<Call>)
    requires Valid(q) && q.last <= t && ClockFrom(t, calls) && FixedLimits(calls) && NoClear(Run(q, calls).1)
    requires q.interval > 0
    ensures Writes(Run(q, calls).1) <= q.burst + (EndTime(t, calls) - t) / q.interval
  {
    hide Run, Writes, Cost, NoClear, ClockFrom, FixedLimits, EndTime;
    var q' := Run(q, calls).0;
    RunPaid(q, t, calls);
    RunConserves(q, calls, PROTO);
    WaitAccrues(q, t, t);
    WaitAccrues(q', EndTime(t, calls), EndTime(t, calls));
    CostIs(Run(q, calls).1, q.interval);
    Quotient(Writes(Run(q, calls).1), q.burst, EndTime(t, calls) - t, q.interval);
  }

  lemma Quotient(n: int, b: int, d: int, i: int)
    requires i > 0 && n * i <= b * i + d
    ensures n <= b + d / i
  {
    var m := n - b;
    assert m * i <= d by {
      assert m * i == n * i - b * i;
    }
    var k := d / i;
    assert d == i * k + d % i;
    Mono(m, k + 1, i);
  }

  lemma Mono(a: int, b: int, i: int)
    requires i > 0
    ensures a >= b ==> a * i >= b * i
  {
  }

  /** `NextMs` is the least wait: after it a drain on a good link writes a line, before it
      none. */
  lemma NextMsIsExact(q: Q, now: int, wait: nat, link: Link, modes: int)
    requires Valid(q) && q.total > 0 && q.last <= now && link.connected && link.good > 0
    ensures var asked := NextMs(q, now);
            Valid(asked.q) && asked.ret >= 0
            && (Writes(Drain(asked.q, link, ModesLimit(modes), now + wait).events) > 0 <==> wait >= asked.ret)
  {
    var r := Refill(q, now);
    RefillKeepsValid(q, now);
    CapPositive(q);
    RefillKeepsValid(r, now + wait);
    var r' := Refill(r, now + wait);
    assert r'.credit >= r'.interval <==> wait >= NextMs(q, now).ret;
  }
}
