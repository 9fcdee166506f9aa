/** What the send queue owes its callers: which lines it takes, which it turns away, and how much a
    drain writes. */
module SendQueueAccount {
  import opened Text
  import opened ModeLines
  import opened SendQueue
  import opened SendQueueRuns

  // ---- one line enqueued ---------------------------------------------------------------

  predicate Ended(line: string) {
    |line| >= 2 && line[|line| - 2..] == CRLF
  }

  /** Every line waiting in the protection lane ends as a line does. */
  predicate EndedLines(lane: seq<string>) {
    forall i :: 0 <= i < |lane| ==> Ended(lane[i])
  }

  /** The queued copy is the line itself, or its first 510 bytes with an end. */
  lemma CopyMeans(line: string)
    requires |line| >= 2
    ensures Ended(Copy(line)) && |Copy(line)| <= 512
    ensures Ended(line) && |line| <= 512 ==> Copy(line) == line
    ensures |line| > 512 ==> Copy(line)[..510] == line[..510] && |Copy(line)| == 512
  {
    if |line| <= 512 {
      assert line == line[..|line| - 2] + line[|line| - 2..];
    }
  }

  /** A line waits already exactly when its copy is in the lane. */
  lemma WaitsExactly(lane: seq<string>, line: string)
    requires EndedLines(lane) && |line| >= 2
    ensures Waits(lane, line) <==> Copy(line) in lane
  {
    var body := Min(|line| - 2, LINE_MAX);
    var copy := Copy(line);
    assert copy[..body] == line[..body] && |copy| == body + 2;
    forall i | 0 <= i < |lane|
      ensures (|lane[i]| == body + 2 && lane[i][..body] == line[..body]) <==> lane[i] == copy
    {
      if |lane[i]| == body + 2 && lane[i][..body] == line[..body] {
        assert lane[i] == lane[i][..body] + lane[i][body..];
      }
    }
  }

  /** There is a free place, or a line that gives way: one of the rest lane, or for a line that is not
      of the rest lane one of the protection lane. */
  predicate HasPlace(q: Q, lane: Lane)
    requires |q.lanes| == LANES
  {
    || |q.lanes[0]| + |q.lanes[1]| + |q.lanes[2]| < 256
    || q.lanes[REST] != []
    || (lane != REST && q.lanes[PROT] != [])
  }

  /** Whether a line is queued: not one too short, not one that waits already in the protection lane,
      and not one there is no place for. */
  predicate Taken(q: Q, line: string)
    requires |q.lanes| == LANES
  {
    |line| >= 2 && !Repeats(q, line) && HasPlace(q, LaneOf(line))
  }

  predicate Repeats(q: Q, line: string)
    requires |q.lanes| == LANES
  {
    |line| >= 2 && LaneOf(line) == PROT && Copy(line) in q.lanes[PROT]
  }

  /** The lines turned away, in order. */
  function Turned(events: seq<Event>, lane: Lane): seq<string> {
    if events == [] then []
    else (if events[0].Refused? && events[0].lane == lane then [events[0].line] else []) + Turned(events[1..], lane)
  }

  /** How often a line was lost for want of room. */
  function Losses(events: seq<Event>): nat {
    if events == [] then 0 else (if events[0].Evicted? || events[0].Refused? then 1 else 0) + Losses(events[1..])
  }

  lemma {:induction false} AccountConcat(a: seq<Event>, b: seq<Event>, lane: Lane)
    ensures Turned(a + b, lane) == Turned(a, lane) + Turned(b, lane)
    ensures Losses(a + b) == Losses(a) + Losses(b)
  {
    if a == [] {
      assert a + b == b;
    } else {
      assert (a + b)[0] == a[0] && (a + b)[1..] == a[1..] + b;
      AccountConcat(a[1..], b, lane);
    }
  }

  /** Lines only leave. */
  predicate OnlyLeaves(events: seq<Event>) {
    forall i :: 0 <= i < |events| ==> events[i].Written? || events[i].Lost? || events[i].Cleared?
  }

  lemma {:induction false} LeavingAccounts(events: seq<Event>, lane: Lane)
    requires OnlyLeaves(events)
    ensures Ins(events, lane) == [] && Turned(events, lane) == [] && Losses(events) == 0
  {
    if events != [] {
      LeavingAccounts(events[1..], lane);
    }
  }

  lemma PopLeaves(q: Q, limit: nat)
    requires Valid(q) && q.total > 0 && q.credit >= q.interval
    ensures PopNext(q, limit).q.dropped == q.dropped
    ensures EndedLines(q.lanes[PROT]) ==> EndedLines(PopNext(q, limit).q.lanes[PROT])
  {
  }

  lemma {:induction false} DrainLoopLeaves(q: Q, link: Link, limit: nat, now: int)
    requires Valid(q)
    ensures var s := DrainLoop(q, link, limit, now);
            && OnlyLeaves(s.events) && s.q.dropped == q.dropped && |s.q.lanes| == LANES
            && (EndedLines(q.lanes[PROT]) ==> EndedLines(s.q.lanes[PROT]))
    decreases q.total
  {
    hide PopNext, Valid;
    TotalIsNat(q);
    if q.total > 0 && q.credit >= q.interval && link.connected {
      PopLeaves(q, limit);
      TotalIsNat(PopNext(q, limit).q);
      if link.good > 0 {
        DrainLoopLeaves(PopNext(q, limit).q, link.(good := link.good - 1), limit, now);
      }
    }
  }

  lemma DrainLeaves(q: Q, link: Link, limit: nat, now: int)
    requires Valid(q)
    ensures var s := Drain(q, link, limit, now);
            && OnlyLeaves(s.events) && s.q.dropped == q.dropped && |s.q.lanes| == LANES
            && (EndedLines(q.lanes[PROT]) ==> EndedLines(s.q.lanes[PROT]))
  {
    hide DrainLoop;
    if q.total != 0 {
      RefillKeepsValid(q, now);
      DrainLoopLeaves(Refill(q, now), link, limit, now);
    }
  }

  /** Room is made exactly when there is a place, at the cost of at most one line. */
  lemma RoomMeans(q: Q, lane: Lane)
    requires Valid(q)
    ensures MakeRoom(q, lane).Some? <==> HasPlace(q, lane)
    ensures MakeRoom(q, lane).Some? ==>
              var (q1, evicted) := MakeRoom(q, lane).value;
              && |q1.lanes| == LANES && q1.hold == q.hold && q1.dropped == q.dropped + |evicted|
              && |evicted| <= 1 && (forall i :: 0 <= i < |evicted| ==> evicted[i].Evicted?)
              && (EndedLines(q.lanes[PROT]) ==> EndedLines(q1.lanes[PROT]))
  {
  }

  /** What a call to enqueue does, by whether the line is taken: it is queued, or it repeats a line of
      the protection lane, or it is too short, or it is turned away; and the caller is told. */
  lemma EnqueueMeans(q: Q, line: string, link: Link, limit: nat, now: int, lane: Lane)
    requires Valid(q) && EndedLines(q.lanes[PROT])
    ensures var s := Enqueue(q, line, link, limit, now);
            && Ins(s.events, lane) == (if Taken(q, line) && LaneOf(line) == lane then [Copy(line)] else [])
            && Turned(s.events, lane)
               == (if |line| >= 2 && !Repeats(q, line) && !HasPlace(q, LaneOf(line)) && LaneOf(line) == lane
                   then [Copy(line)] else [])
            && s.ret == (if Taken(q, line) || Repeats(q, line) then |line| else -1)
            && s.q.dropped == q.dropped + Losses(s.events)
            && |s.q.lanes| == LANES && EndedLines(s.q.lanes[PROT])
  {
    hide Drain, LaneOf, Waits, MakeRoom, Valid, HasPlace;
    var s := Enqueue(q, line, link, limit, now);
    TotalIsNat(q);
    if |line| >= 2 {
      WaitsExactly(q.lanes[PROT], line);
      RoomMeans(q, LaneOf(line));
      CopyMeans(line);
      var to, copy := LaneOf(line), Copy(line);
      if !(to == PROT && Waits(q.lanes[PROT], line)) {
        if MakeRoom(q, to).None? {
          OneTurned(Refused(to, copy, Waiting(q.lanes)), lane);
        } else {
          var (q1, evicted) := MakeRoom(q, to).value;
          PushKeepsValid(q, line);
          var q2 := Push(q1, to, copy);
          PushEnds(q1, to, copy);
          OneQueued(evicted, to, copy, lane);
          if q.hold == 0 {
            var rest := Drain(q2, link, limit, now);
            DrainLeaves(q2, link, limit, now);
            LeavingAccounts(rest.events, lane);
            InOutConcat(evicted + [Queued(to, copy)], rest.events, lane);
            AccountConcat(evicted + [Queued(to, copy)], rest.events, lane);
          }
        }
      }
    }
  }

  lemma PushEnds(q: Q, lane: Lane, copy: string)
    requires |q.lanes| == LANES && Ended(copy) && EndedLines(q.lanes[PROT])
    ensures |Push(q, lane, copy).lanes| == LANES && EndedLines(Push(q, lane, copy).lanes[PROT])
  {
  }

  lemma OneTurned(e: Event, lane: Lane)
    requires e.Refused?
    ensures Ins([e], lane) == [] && Turned([e], lane) == (if e.lane == lane then [e.line] else []) && Losses([e]) == 1
  {
    assert [e][1..] == [];
  }

  lemma OneQueued(evicted: seq<Event>, to: Lane, copy: string, lane: Lane)
    requires |evicted| <= 1 && forall i :: 0 <= i < |evicted| ==> evicted[i].Evicted?
    ensures var events := evicted + [Queued(to, copy)];
            && Ins(events, lane) == (if to == lane then [copy] else [])
            && Turned(events, lane) == [] && Losses(events) == |evicted|
  {
    var e := Queued(to, copy);
    assert [e][1..] == [];
    InOutConcat(evicted, [e], lane);
    AccountConcat(evicted, [e], lane);
    if evicted != [] {
      assert evicted == [evicted[0]] && [evicted[0]][1..] == [];
    }
  }

  // ---- whole runs --------------------------------------------------------------------------

  /** The copies of the lines enqueued for a lane and taken, in order. */
  function Came(q: Q, calls: seq<Call>, lane: Lane): seq<string>
    requires Valid(q)
    decreases |calls|
  {
    if calls == [] then []
    else
      PerformKeepsValid(q, calls[0]);
      (match calls[0].op
       case DoEnqueue(line, _) => if Taken(q, line) && LaneOf(line) == lane then [Copy(line)] else []
       case _ => [])
      + Came(Perform(q, calls[0]).q, calls[1..], lane)
  }

  /** The copies of those turned away. */
  function Refusals(q: Q, calls: seq<Call>, lane: Lane): seq<string>
    requires Valid(q)
    decreases |calls|
  {
    if calls == [] then []
    else
      PerformKeepsValid(q, calls[0]);
      (match calls[0].op
       case DoEnqueue(line, _) =>
         if |line| >= 2 && !Repeats(q, line) && !HasPlace(q, LaneOf(line)) && LaneOf(line) == lane then [Copy(line)] else []
       case _ => [])
      + Refusals(Perform(q, calls[0]).q, calls[1..], lane)
  }

  lemma OtherAccounts(q: Q, c: Call, lane: Lane)
    requires Valid(q) && EndedLines(q.lanes[PROT]) && !c.op.DoEnqueue?
    ensures var s := Perform(q, c);
            && Ins(s.events, lane) == [] && Turned(s.events, lane) == []
            && s.q.dropped == q.dropped + Losses(s.events) && |s.q.lanes| == LANES && EndedLines(s.q.lanes[PROT])
  {
    hide Drain;
    var s, limit := Perform(q, c), ModesLimit(c.modes);
    match c.op {
      case DoDrain(link) => DrainLeaves(q, link, limit, c.at);
      case DoRelease(link) =>
        if q.hold == 1 {
          DrainLeaves(q.(hold := 0), link, limit, c.at);
        }
      case _ =>
    }
    assert OnlyLeaves(s.events);
    LeavingAccounts(s.events, lane);
  }

  /** Over any run: what comes into a lane is exactly the lines enqueued for it that were taken, in the
      order of the calls; those turned away are told; and the count of dropped lines grows by the
      lines evicted and turned away. */
  lemma {:induction false} RunAccounts(q: Q, calls: seq<Call>, lane: Lane)
    requires Valid(q) && EndedLines(q.lanes[PROT])
    ensures var (r, events) := Run(q, calls);
            && Ins(events, lane) == Came(q, calls, lane)
            && Turned(events, lane) == Refusals(q, calls, lane)
            && r.dropped == q.dropped + Losses(events)
            && |r.lanes| == LANES && EndedLines(r.lanes[PROT])
    decreases |calls|
  {
    hide Enqueue, Drain, Valid, LaneOf, Taken, Repeats, HasPlace, Copy;
    TotalIsNat(q);
    if calls != [] {
      var c, s := calls[0], Perform(q, calls[0]);
      PerformKeepsValid(q, c);
      if c.op.DoEnqueue? {
        EnqueueMeans(q, c.op.line, c.op.link, ModesLimit(c.modes), c.at, lane);
      } else {
        OtherAccounts(q, c, lane);
      }
      RunAccounts(s.q, calls[1..], lane);
      InOutConcat(s.events, Run(s.q, calls[1..]).1, lane);
      AccountConcat(s.events, Run(s.q, calls[1..]).1, lane);
    }
  }

  // ---- how much a drain writes -------------------------------------------------------------

  function Writes(events: seq<Event>): nat {
    if events == [] then 0 else (if events[0].Written? then 1 else 0) + Writes(events[1..])
  }

  /** With a link that holds, a drain writes until nothing waits or the credit is used up, and pays the
      interval for every line it writes. */
  lemma {:induction false} DrainLoopSpends(q: Q, link: Link, limit: nat, now: int)
    requires Valid(q) && link.connected && link.good >= q.total
    ensures var s := DrainLoop(q, link, limit, now);
            && (s.q.total == 0 || s.q.credit < s.q.interval)
            && s.ret == Writes(s.events) && s.q.interval == q.interval && s.q.credit == q.credit - s.ret * q.interval
    decreases q.total
  {
    hide Valid, PopNext, Writes;
    TotalIsNat(q);
    if q.total > 0 && q.credit >= q.interval {
      PopPays(q, limit);
      var p := PopNext(q, limit);
      var rest := DrainLoop(p.q, link.(good := link.good - 1), limit, now);
      DrainLoopSpends(p.q, link.(good := link.good - 1), limit, now);
      WritesMore(Written(p.lane, p.lines, p.wire, now, Waiting(q.lanes)), rest.events);
      OneMore(rest.ret, q.interval);
    } else {
      NoWrites();
    }
  }

  lemma OneMore(n: int, interval: int)
    ensures (1 + n) * interval == interval + n * interval
  {
  }

  lemma NoWrites()
    ensures Writes([]) == 0
  {
  }

  lemma WritesMore(e: Event, events: seq<Event>)
    ensures Writes([e] + events) == (if e.Written? then 1 else 0) + Writes(events)
  {
    assert ([e] + events)[1..] == events;
  }

  /** A drain at a later time has earned a millisecond of credit for each that passed, up to the cap. */
  lemma DrainSpends(q: Q, link: Link, limit: nat, now: int)
    requires Valid(q) && q.total > 0 && link.connected && link.good >= q.total && now >= q.last
    ensures var s := Drain(q, link, limit, now);
            var earned := if q.credit + (now - q.last) < q.burst * q.interval then q.credit + (now - q.last) else q.burst * q.interval;
            && (s.q.total == 0 || s.q.credit < q.interval)
            && s.ret == Writes(s.events) && s.q.credit == earned - s.ret * q.interval
  {
    RefillKeepsValid(q, now);
    DrainLoopSpends(Refill(q, now), link, limit, now);
  }

  // ---- limits --------------------------------------------------------------------------------

  predicate Nearest(v: int, lo: int, hi: int, r: int) {
    lo <= r <= hi && (lo <= v <= hi ==> r == v) && (v < lo ==> r == lo) && (v > hi ==> r == hi)
  }

  /** New limits are the nearest allowed: a burst of 1 to 100, an interval of up to ten seconds; credit is cut
      to the new cap and never raised. */
  lemma LimitsMean(q: Q, burst: int, interval: int)
    ensures var r := SetLimits(q, burst, interval);
            && Nearest(burst, 1, 100, r.burst) && Nearest(interval, 0, 10000, r.interval)
            && r.credit <= q.credit && r.credit <= r.burst * r.interval
            && (q.credit <= r.burst * r.interval ==> r.credit == q.credit)
            && r == q.(burst := r.burst, interval := r.interval, credit := r.credit)
  {
  }

  /** Changes to a line: what the server says, at most 12, and three where it does not say. */
  lemma ModesLimitMeans(modes: int)
    ensures modes < 1 ==> ModesLimit(modes) == 3
    ensures modes >= 1 ==> Nearest(modes, 1, 12, ModesLimit(modes))
  {
  }

  // ---- holding and losing --------------------------------------------------------------------

  /** Nothing leaves the queue but a line that gives way. */
  predicate NothingLeaves(events: seq<Event>) {
    forall i :: 0 <= i < |events| ==> events[i].Queued? || events[i].Evicted? || events[i].Refused?
  }

  /** While held, lines are taken and none is written. */
  lemma HeldWritesNothing(q: Q, line: string, link: Link, limit: nat, now: int)
    requires Valid(q) && q.hold > 0
    ensures NothingLeaves(Enqueue(q, line, link, limit, now).events) && Enqueue(q, line, link, limit, now).q.hold == q.hold
  {
    hide LaneOf, Waits, MakeRoom, Drain;
    if |line| >= 2 {
      RoomMeans(q, LaneOf(line));
    }
  }

  /** Holds nest: the last release alone drains, as a drain would without any hold. */
  lemma HoldsNest(q: Q, link: Link, limit: nat, now: int)
    requires Valid(q)
    ensures Release(Hold(q), link, limit, now) == if q.hold > 0 then Step(q, [], 0) else Drain(q, link, limit, now)
  {
    assert Hold(q).(hold := q.hold) == q;
  }

  /** Without a link a drain that could write drops everything and leaves a full bucket. */
  lemma DrainDown(q: Q, link: Link, limit: nat, now: int)
    requires Valid(q) && q.total > 0 && !link.connected
    ensures var s, r := Drain(q, link, limit, now), Refill(q, now);
            s == if r.credit < r.interval then Step(r, [], 0)
                 else Step(r.(lanes := [[], [], []], total := 0, credit := r.burst * r.interval), [Cleared(q.lanes)], 0)
  {
    RefillKeepsValid(q, now);
  }

  predicate NoLoss(events: seq<Event>) {
    forall i :: 0 <= i < |events| ==> events[i].Written?
  }

  /** A link that takes `good` writes gets at most that many; the next line is lost, and with it everything
      when the failure closes the link. */
  lemma {:induction false} DrainLoopFails(q: Q, link: Link, limit: nat, now: int)
    requires Valid(q) && link.connected
    ensures var s := DrainLoop(q, link, limit, now);
            && s.ret == Writes(s.events) <= link.good
            && (NoLoss(s.events) ==> s.q.total == 0 || s.q.credit < s.q.interval)
            && (!NoLoss(s.events) ==> s.ret == link.good && (link.failClears ==> s.q.lanes == [[], [], []] && s.q.total == 0))
    decreases q.total
  {
    hide Valid, PopNext, Writes;
    TotalIsNat(q);
    NoWrites();
    if q.total > 0 && q.credit >= q.interval {
      PopPays(q, limit);
      var p := PopNext(q, limit);
      if link.good == 0 {
        LossesWriteNothing(Lost(p.lane, p.lines, Waiting(q.lanes)), Cleared(p.q.lanes));
        assert DrainLoop(q, link, limit, now).events[0].Lost?;
      } else {
        var rest := DrainLoop(p.q, link.(good := link.good - 1), limit, now);
        DrainLoopFails(p.q, link.(good := link.good - 1), limit, now);
        var e := Written(p.lane, p.lines, p.wire, now, Waiting(q.lanes));
        WritesMore(e, rest.events);
        LossMore(e, rest.events);
      }
    }
  }

  lemma LossMore(e: Event, events: seq<Event>)
    requires e.Written?
    ensures NoLoss([e] + events) <==> NoLoss(events)
  {
    assert forall i :: 0 <= i < |events| ==> ([e] + events)[i + 1] == events[i];
  }

  lemma LossesWriteNothing(lost: Event, cleared: Event)
    requires lost.Lost? && cleared.Cleared?
    ensures Writes([lost]) == 0 && Writes([lost] + [cleared]) == 0
  {
    assert [lost][1..] == [] && [cleared][1..] == [];
    assert ([lost] + [cleared])[1..] == [cleared];
  }
}
