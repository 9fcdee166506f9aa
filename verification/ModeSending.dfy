/** Mode changes on their way through the send queue: held, packed on the way out, and read by the
    server as they were queued. */
module ModeSending {
  import opened Text
  import opened ModeLines
  import opened LiveModes
  import opened ModeSync
  import opened ModeParse
  import opened ModePipeline
  import opened SendQueue
  import opened SendQueueRuns
  import opened SendQueueAccount

  // ---- what the server reads -------------------------------------------------------------

  /** The lines written from the protection lane, in order. */
  function ProtWires(events: seq<Event>): seq<string> {
    if events == [] then []
    else (if events[0].Written? && events[0].lane == PROT then [events[0].wire] else []) + ProtWires(events[1..])
  }

  /** Nothing leaves the protection lane but onto the wire. */
  predicate NoneLost(events: seq<Event>) {
    forall i :: 0 <= i < |events| ==> events[i].Written? || Left(events[i], PROT) == []
  }

  predicate AllAgreed(isup: Isupport, lines: seq<string>) {
    forall l :: l in lines ==> Agreed(isup, l)
  }

  lemma WireMeans(isup: Isupport, world: World, lines: seq<string>, wire: string, before: seq<nat>, now: int)
    requires FairWrite(PROT, lines, before) && wire == WireOf(PROT, lines) && AllAgreed(isup, lines)
    ensures Receive(isup, world, wire, now) == ReceiveAll(isup, world, lines, now)
  {
    assert lines[0] in lines;
    if |lines| == 1 {
      assert lines == [lines[0]] && lines[1..] == [];
      if ItemParse(lines[0]).Some? {
        assert seq(|lines|, i requires 0 <= i < |lines| => ChangeOf(lines[i])) == [ItemParse(lines[0]).value.change];
      }
    } else {
      var items := ItemsOf(lines);
      assert Changes(items) == seq(|lines|, i requires 0 <= i < |lines| => ChangeOf(lines[i]));
      PackedReceived(isup, world, items, lines, now);
    }
  }

  lemma {:induction false} EventsMean(isup: Isupport, world: World, events: seq<Event>, now: int)
    requires AllFair(events) && NoneLost(events) && AllAgreed(isup, Outs(events, PROT))
    ensures ReceiveAll(isup, world, ProtWires(events), now) == ReceiveAll(isup, world, Outs(events, PROT), now)
    decreases |events|
  {
    hide Agreed, Receive, FairWrite, WireOf;
    if events != [] {
      var e, rest := events[0], events[1..];
      assert e in events && forall x :: x in rest ==> x in events;
      assert Outs(events, PROT) == Left(e, PROT) + Outs(rest, PROT);
      assert forall l :: l in Outs(rest, PROT) ==> l in Outs(events, PROT);
      assert forall l :: l in Left(e, PROT) ==> l in Outs(events, PROT);
      if e.Written? && e.lane == PROT {
        WireMeans(isup, world, e.lines, e.wire, e.before, now);
        EventsMean(isup, Receive(isup, world, e.wire, now), rest, now);
        ReceiveConcat(isup, world, e.lines, Outs(rest, PROT), now);
        assert ProtWires(events) == [e.wire] + ProtWires(rest);
      } else {
        EventsMean(isup, world, rest, now);
        assert Left(e, PROT) == [] && [] + Outs(rest, PROT) == Outs(rest, PROT);
        assert [] + ProtWires(rest) == ProtWires(rest);
      }
    }
  }

  /** Over any run, whatever else is queued, held or paced: what the server reads on the wire, and then
      in what still waits, is what it would read in the lines as they were queued, one by one. */
  lemma RunKeepsMeaning(isup: Isupport, world: World, q: Q, calls: seq<SendQueueRuns.Call>, now: int)
    requires Valid(q) && NoneLost(SendQueueRuns.Run(q, calls).1)
    requires AllAgreed(isup, q.lanes[PROT] + Ins(SendQueueRuns.Run(q, calls).1, PROT))
    ensures var (r, events) := SendQueueRuns.Run(q, calls);
            |r.lanes| == LANES
            && ReceiveAll(isup, ReceiveAll(isup, world, ProtWires(events), now), r.lanes[PROT], now)
               == ReceiveAll(isup, world, q.lanes[PROT] + Ins(events, PROT), now)
  {
    hide Agreed, Receive, ReceiveAll;
    var (r, events) := SendQueueRuns.Run(q, calls);
    RunConserves(q, calls, PROT);
    RunIsFair(q, calls);
    assert q.lanes[PROT] + Ins(events, PROT) == Outs(events, PROT) + r.lanes[PROT];
    assert forall l :: l in Outs(events, PROT) ==> l in Outs(events, PROT) + r.lanes[PROT];
    EventsMean(isup, world, events, now);
    ReceiveConcat(isup, world, Outs(events, PROT), r.lanes[PROT], now);
  }

  // ---- held, queued, released ------------------------------------------------------------

  function Enqueues(lines: seq<string>, modes: int, link: Link, at: int): (r: seq<SendQueueRuns.Call>)
    ensures |r| == |lines| && forall i :: 0 <= i < |lines| ==> r[i] == SendQueueRuns.Call(at, modes, DoEnqueue(lines[i], link))
  {
    seq(|lines|, i requires 0 <= i < |lines| => SendQueueRuns.Call(at, modes, DoEnqueue(lines[i], link)))
  }

  /** The calls of one mode comparison: hold, a line for each change, release. */
  function HoldAndSend(lines: seq<string>, modes: int, link: Link, at: int): seq<SendQueueRuns.Call> {
    [SendQueueRuns.Call(at, modes, DoHold)] + Enqueues(lines, modes, link, at) + [SendQueueRuns.Call(at, modes, DoRelease(link))]
  }

  /** A line for the protection lane that is queued as it is. */
  predicate ProtLine(line: string) {
    2 <= |line| <= LINE_MAX + 2 && line[|line| - 2..] == CRLF && LaneOf(line) == PROT
  }

  predicate DistinctLines(lines: seq<string>) {
    forall i, j :: 0 <= i < j < |lines| ==> lines[i] != lines[j]
  }

  predicate ProtLines(lines: seq<string>) {
    forall l :: l in lines ==> ProtLine(l)
  }

  function QueuedAll(lines: seq<string>): (r: seq<Event>)
    ensures |r| == |lines| && forall i :: 0 <= i < |lines| ==> r[i] == Queued(PROT, lines[i])
  {
    seq(|lines|, i requires 0 <= i < |lines| => Queued(PROT, lines[i]))
  }

  function WithLines(q: Q, lines: seq<string>): Q
    requires |q.lanes| == LANES
  {
    q.(lanes := q.lanes[PROT := q.lanes[PROT] + lines], total := q.total + |lines|)
  }

  /** While held, a new line waits at the end of its lane and nothing is sent. */
  lemma HeldLine(q: Q, line: string, link: Link, limit: nat, now: int)
    requires Valid(q) && q.hold > 0 && q.total < MAX_SENDQ
    requires ProtLine(line) && ProtLines(q.lanes[PROT]) && line !in q.lanes[PROT]
    ensures Enqueue(q, line, link, limit, now) == Step(WithLines(q, [line]), [Queued(PROT, line)], |line|)
  {
    hide LaneOf, Waits, Copy;
    NewLine(q.lanes[PROT], line);
    PushFresh(q, PROT, line);
    assert Push(q, PROT, line) == WithLines(q, [line]);
    assert [] + [Queued(PROT, line)] == [Queued(PROT, line)];
  }

  /** A line that ends as a line does is queued as it is, and waits exactly when it is there. */
  lemma NewLine(lane: seq<string>, line: string)
    requires ProtLine(line) && ProtLines(lane) && line !in lane
    ensures Copy(line) == line && !Waits(lane, line)
  {
    hide LaneOf;
    forall i | 0 <= i < |lane| ensures Ended(lane[i]) {
      assert lane[i] in lane;
    }
    CopyMeans(line);
    WaitsExactly(lane, line);
  }

  lemma HeldCall(q: Q, line: string, modes: int, link: Link, at: int)
    requires Valid(q) && q.hold > 0 && q.total < MAX_SENDQ
    requires ProtLine(line) && ProtLines(q.lanes[PROT]) && line !in q.lanes[PROT]
    ensures var c := SendQueueRuns.Call(at, modes, DoEnqueue(line, link));
            Perform(q, c) == Step(WithLines(q, [line]), [Queued(PROT, line)], |line|) && Valid(WithLines(q, [line]))
  {
    hide Enqueue, ProtLine, Valid;
    HeldLine(q, line, link, ModesLimit(modes), at);
    PerformKeepsValid(q, SendQueueRuns.Call(at, modes, DoEnqueue(line, link)));
  }

  lemma ValidRoom(q: Q)
    requires Valid(q)
    ensures |q.lanes| == LANES && q.total >= 0
  {
  }

  lemma {:induction false} HeldLines(q: Q, lines: seq<string>, modes: int, link: Link, at: int)
    requires Valid(q) && q.hold > 0 && q.total + |lines| <= MAX_SENDQ
    requires ProtLines(q.lanes[PROT] + lines) && DistinctLines(q.lanes[PROT] + lines)
    ensures Valid(WithLines(q, lines))
    ensures SendQueueRuns.Run(q, Enqueues(lines, modes, link, at)) == (WithLines(q, lines), QueuedAll(lines))
    decreases |lines|
  {
    hide ProtLine, Perform, Valid;
    ValidRoom(q);
    var calls := Enqueues(lines, modes, link, at);
    var all := q.lanes[PROT] + lines;
    if lines == [] {
      assert q.lanes[PROT] + [] == q.lanes[PROT] && q.lanes[PROT := q.lanes[PROT]] == q.lanes;
      assert calls == [] && QueuedAll(lines) == [];
    } else {
      var line, rest := lines[0], lines[1..];
      var n := |q.lanes[PROT]|;
      assert all[n] == line && line in all;
      assert forall l :: l in q.lanes[PROT] ==> l in all;
      forall i | 0 <= i < n ensures q.lanes[PROT][i] != line {
        assert all[i] == q.lanes[PROT][i];
      }
      HeldCall(q, line, modes, link, at);
      var q1 := WithLines(q, [line]);
      assert q1.lanes[PROT] + rest == all;
      HeldLines(q1, rest, modes, link, at);
      assert calls[1..] == Enqueues(rest, modes, link, at);
      assert WithLines(q1, rest) == WithLines(q, lines);
      assert QueuedAll(lines) == [Queued(PROT, line)] + QueuedAll(rest);
    }
  }

  // ---- packed on the way out ---------------------------------------------------------------

  lemma ProtWiresMore(e: Event, events: seq<Event>)
    ensures ProtWires([e] + events) == (if e.Written? && e.lane == PROT then [e.wire] else []) + ProtWires(events)
  {
    assert ([e] + events)[1..] == events;
  }

  /** What a drain with a good link writes from the protection lane, and what stays there, is the lane
      packed. */
  lemma {:induction false} DrainLoopPacks(q: Q, link: Link, limit: nat, now: int)
    requires Valid(q) && limit >= 1 && link.connected && link.good >= q.total
    ensures var s := DrainLoop(q, link, limit, now);
            |s.q.lanes| == LANES && ProtWires(s.events) + PackAll(s.q.lanes[PROT], limit) == PackAll(q.lanes[PROT], limit)
    decreases q.total
  {
    hide Valid, PackAll, PopNext, ProtWires;
    DrainLoopKeepsValid(q, link, limit, now);
    TotalIsNat(DrainLoop(q, link, limit, now).q);
    TotalIsNat(q);
    if q.total > 0 && q.credit >= q.interval {
      var p := PopNext(q, limit);
      var rest := DrainLoop(p.q, link.(good := link.good - 1), limit, now);
      var e := Written(p.lane, p.lines, p.wire, now, Waiting(q.lanes));
      DrainLoopPacks(p.q, link.(good := link.good - 1), limit, now);
      ProtWiresMore(e, rest.events);
      PopPacks(q, limit);
      var out := if p.lane == PROT then [p.wire] else [];
      assert (out + ProtWires(rest.events)) + PackAll(rest.q.lanes[PROT], limit)
             == out + (ProtWires(rest.events) + PackAll(rest.q.lanes[PROT], limit));
    } else {
      NoWires();
    }
  }

  lemma NoWires()
    ensures ProtWires([]) == []
  {
  }

  lemma PopPacks(q: Q, limit: nat)
    requires Valid(q) && q.total > 0 && q.credit >= q.interval
    ensures var p := PopNext(q, limit);
            |p.q.lanes| == LANES
            && PackAll(q.lanes[PROT], limit) == (if p.lane == PROT then [p.wire] else []) + PackAll(p.q.lanes[PROT], limit)
  {
    hide TakeProtection;
  }

  lemma CreditLeft(credit: int, n: nat, m: nat, interval: nat)
    requires m < n && credit >= n * interval
    ensures credit >= interval && credit - interval >= m * interval
  {
    assert n * interval == (n - 1) * interval + interval;
    assert (n - 1 - m) * interval >= 0;
  }

  /** With credit for every line the drain leaves nothing. */
  lemma {:induction false} DrainLoopEmpties(q: Q, link: Link, limit: nat, now: int)
    requires Valid(q) && link.connected && link.good >= q.total && q.credit >= q.total * q.interval
    ensures DrainLoop(q, link, limit, now).q.total == 0
    decreases q.total
  {
    hide PopNext;
    assert q.total >= 0 && q.interval >= 0;
    if q.total > 0 {
      CreditLeft(q.credit, q.total, 0, q.interval);
      PopPays(q, limit);
      var p := PopNext(q, limit).q;
      CreditLeft(q.credit, q.total, p.total, q.interval);
      DrainLoopEmpties(p, link.(good := link.good - 1), limit, now);
    }
  }

  // ---- one comparison, held and released -------------------------------------------------

  /** The protection lane is free, and the queue has room for n lines more. */
  ghost predicate Free(q: Q, n: nat) {
    Valid(q) && q.hold == 0 && q.lanes[PROT] == [] && q.total + n <= MAX_SENDQ
  }

  lemma HeldThenDrained(q: Q, lines: seq<string>, modes: int, link: Link, at: int)
    requires Free(q, |lines|) && ProtLines(lines) && DistinctLines(lines)
    ensures Valid(WithLines(q, lines))
    ensures var s := Drain(WithLines(q, lines), link, ModesLimit(modes), at);
            SendQueueRuns.Run(q, HoldAndSend(lines, modes, link, at)) == (s.q, QueuedAll(lines) + s.events)
  {
    hide Drain, ProtLines, DistinctLines;
    var c, enq, rel := SendQueueRuns.Call(at, modes, DoHold), Enqueues(lines, modes, link, at),
                       SendQueueRuns.Call(at, modes, DoRelease(link));
    assert [] + lines == lines;
    RunOne(q, c);
    RunConcat(q, [c], enq);
    HeldLines(Hold(q), lines, modes, link, at);
    var full := WithLines(Hold(q), lines);
    RunConcat(q, [c] + enq, [rel]);
    RunOne(full, rel);
    assert full.(hold := 0) == WithLines(q, lines);
    assert [] + QueuedAll(lines) == QueuedAll(lines);
  }

  lemma {:induction false} QueuedEvents(lines: seq<string>)
    ensures ProtWires(QueuedAll(lines)) == [] && Ins(QueuedAll(lines), PROT) == lines && Outs(QueuedAll(lines), PROT) == []
  {
    if lines != [] {
      assert QueuedAll(lines)[1..] == QueuedAll(lines[1..]);
      QueuedEvents(lines[1..]);
      assert lines == [lines[0]] + lines[1..];
    }
  }

  lemma {:induction false} ProtWiresConcat(a: seq<Event>, b: seq<Event>)
    ensures ProtWires(a + b) == ProtWires(a) + ProtWires(b)
  {
    if a == [] {
      assert a + b == b;
    } else {
      assert (a + b)[0] == a[0] && (a + b)[1..] == a[1..] + b;
      ProtWiresConcat(a[1..], b);
    }
  }

  /** With a good link and credit enough a drain writes the whole lane, packed. */
  lemma DrainPacks(q: Q, link: Link, limit: nat, now: int)
    requires Valid(q) && limit >= 1 && link.connected && link.good >= q.total
    requires Refill(q, now).credit >= q.total * q.interval
    ensures var s := Drain(q, link, limit, now);
            s.q.total == 0 && ProtWires(s.events) == PackAll(q.lanes[PROT], limit)
  {
    hide DrainLoop, PackAll, ProtWires;
    NothingPacked(limit);
    if q.total > 0 {
      RefillKeepsValid(q, now);
      var f := Refill(q, now);
      DrainLoopPacks(f, link, limit, now);
      DrainLoopEmpties(f, link, limit, now);
      DrainLoopKeepsValid(f, link, limit, now);
      var s := DrainLoop(f, link, limit, now);
      assert s.q.lanes[PROT] == [];
      assert ProtWires(s.events) + [] == ProtWires(s.events);
    }
  }

  /** Held, queued and released with a good link and credit enough, the lines leave packed, and
      nothing waits. */
  lemma HeldLeavePacked(q: Q, lines: seq<string>, modes: int, link: Link, at: int)
    requires Free(q, |lines|) && ProtLines(lines) && DistinctLines(lines)
    requires link.connected && link.good >= q.total + |lines|
    requires Refill(q, at).credit >= (q.total + |lines|) * q.interval
    ensures var (r, events) := SendQueueRuns.Run(q, HoldAndSend(lines, modes, link, at));
            r.total == 0 && ProtWires(events) == PackAll(lines, ModesLimit(modes))
  {
    hide Drain, PackAll, ProtLines, DistinctLines, ProtWires, HoldAndSend, SendQueueRuns.Run;
    var limit, full := ModesLimit(modes), WithLines(q, lines);
    HeldThenDrained(q, lines, modes, link, at);
    assert full.lanes[PROT] == lines by {
      assert [] + lines == lines;
    }
    var s := Drain(full, link, limit, at);
    QueuedEvents(lines);
    ProtWiresConcat(QueuedAll(lines), s.events);
    DrainPacks(full, link, limit, at);
  }

  lemma NothingPacked(limit: nat)
    ensures PackAll([], limit) == [] && ProtWires([]) == []
  {
  }

  // ---- the plan of a comparison ---------------------------------------------------------------

  lemma PlanLine(chan: string, c: Change)
    requires ValidItem(Item(chan, c)) && IsManaged(c.letter)
    ensures ProtLine(LineText(chan, [c]))
  {
    hide LaneOf, ModeIsQuery;
    var line, q := LineText(chan, [c]), SingleTail(c);
    SingleText(chan, c);
    var p := chan + (" " + q);
    assert line == "MODE " + p && line[5..] == p;
    TailIsNoQuery(chan, c, line);
    ModeIsProtected(line, p);
    assert q[|q| - 2..] == CRLF && line[|line| - 2..] == q[|q| - 2..];
  }

  /** A MODE line that does not ask is for the protection lane. */
  lemma ModeIsProtected(line: string, p: string)
    requires line == "MODE " + p && !ModeIsQuery(line)
    ensures LaneOf(line) == PROT
  {
    hide ModeIsQuery;
    assert line == "MODE" + (" " + p);
    SpanAfter("MODE", " " + p);
    var verb := line[..Span(line)];
    assert verb == "MODE" && line[4] == ' ';
    assert Lower(verb)[0] == 'm';
    assert Lower("PONG")[0] == 'p' && Lower("PING")[0] == 'p' && Lower("NICK")[0] == 'n' && Lower("USER")[0] == 'u'
           && Lower("PASS")[0] == 'p' && Lower("QUIT")[0] == 'q' && Lower("CAP")[0] == 'c' && Lower("KICK")[0] == 'k';
  }

  lemma TailIsNoQuery(chan: string, c: Change, line: string)
    requires ValidItem(Item(chan, c)) && IsManaged(c.letter)
    requires |line| >= 5 && line[5..] == chan + (" " + SingleTail(c))
    ensures !ModeIsQuery(line)
  {
    hide SingleTail, Find, EolSpan;
    TailIs(c);
    var q, p := SingleTail(c), line[5..];
    FindAt(chan, q);
    assert p[|chan| + 1..] == q;
    assert !ListLetter(q[1]);
  }

  /** A sign and a letter; then an argument, or the end of the line. */
  lemma TailIs(c: Change)
    requires Writable(NeedsArg, c)
    ensures var q := SingleTail(c);
            && |q| >= 4 && q[0] == Sign(c.adding) && q[1] == c.letter
            && if c.arg.Some? then Find(q, ' ') == 2 && !Stop(q[3]) else Find(q, ' ') == |q| && EolSpan(q) == 2
  {
    var q := SingleTail(c);
    if c.arg.Some? {
      assert q == q[..2] + (" " + q[3..]) && q[3] == c.arg.value[0];
      FindAt(q[..2], q[3..]);
    } else {
      assert q == [Sign(c.adding), c.letter, '\r', '\n'];
      SpanOfTwo(q);
    }
  }

  lemma SpanOfTwo(q: string)
    requires |q| == 4 && q[0] != '\r' && q[0] != '\n' && q[1] != '\r' && q[1] != '\n' && q[2] == '\r'
    ensures EolSpan(q) == 2
  {
    assert q[1..][1..] == q[2..] && EolSpan(q[2..]) == 0;
  }

  lemma FindAt(a: string, b: string)
    requires ' ' !in a
    ensures Find(a + (" " + b), ' ') == |a|
  {
    var s := a + (" " + b);
    assert s[|a|] == ' ' && forall i :: 0 <= i < |a| ==> s[i] == a[i];
  }

  predicate DistinctChanges(cs: seq<Change>) {
    forall i, j :: 0 <= i < j < |cs| ==> cs[i] != cs[j]
  }

  lemma {:induction false} FlagsDistinct(dirs: Dirs, live: Live, letters: string)
    requires Distinct(letters)
    ensures DistinctChanges(FlagChanges(dirs, live, letters))
    ensures forall c :: c in FlagChanges(dirs, live, letters) ==> c.letter in letters
  {
    if letters != "" {
      var rest := letters[1..];
      assert letters == [letters[0]] + rest && letters[0] !in rest;
      FlagsDistinct(dirs, live, rest);
      var cs := FlagChanges(dirs, live, rest);
      assert forall i :: 0 <= i < |cs| ==> cs[i] in cs;
    }
  }

  lemma DistinctConcat(a: seq<Change>, b: seq<Change>)
    requires DistinctChanges(a) && DistinctChanges(b) && forall c :: c in a ==> c !in b
    ensures DistinctChanges(a + b)
  {
    forall i, j | 0 <= i < j < |a + b| ensures (a + b)[i] != (a + b)[j] {
      if i < |a| <= j {
        assert a[i] in a && b[j - |a|] in b;
      }
    }
  }

  /** The lines of a plan all go to the protection lane, and none is there twice. */
  lemma PlanLines(isup: Isupport, chan: string, w: Wanted, key: string, live: Live)
    requires ManagedTable(isup) && Word(chan) && |chan| < MAX_CHAN && |key| < MAX_KEY && w.limit <= LIMIT_MAX
    requires PrintableKey(live)
    ensures var cs := FlagChanges(w.dirs, live, FLAG_LETTERS) + KeyChanges(w.dirs, live, key) + LimitChanges(w, live, false);
            ProtLines(Lines(chan, cs)) && DistinctLines(Lines(chan, cs)) && AllAgreed(isup, Lines(chan, cs))
  {
    hide ProtLine, Agreed, HasArg, ValidItem, FlagChanges;
    var f, k, l := FlagChanges(w.dirs, live, FLAG_LETTERS), KeyChanges(w.dirs, live, key), LimitChanges(w, live, false);
    var cs := f + k + l;
    FlagLettersAre();
    FlagsDistinct(w.dirs, live, FLAG_LETTERS);
    DistinctConcat(f, k);
    DistinctConcat(f + k, l);
    var lines := Lines(chan, cs);
    forall i | 0 <= i < |cs|
      ensures ValidItem(Item(chan, cs[i])) && ProtLine(lines[i]) && ItemParse(lines[i]) == Some(Item(chan, cs[i]))
      ensures HasArg(isup, cs[i].letter, cs[i].adding) <==> NeedsArg(cs[i].letter, cs[i].adding)
    {
      assert cs[i] in cs;
      PlanWritable(isup, chan, w, key, live, cs[i]);
      PlanLine(chan, cs[i]);
      ItemOfLine(Item(chan, cs[i]));
    }
    LinesReceived(isup, map[], chan, cs, 0);
  }

  /** A comparison asks for no more changes than this: six letters, the key twice, the limit. */
  const MAX_PLAN := 9

  lemma {:induction false} FlagsCount(dirs: Dirs, live: Live, letters: string)
    ensures |FlagChanges(dirs, live, letters)| <= |letters|
  {
    if letters != "" {
      FlagsCount(dirs, live, letters[1..]);
    }
  }

  predicate NoneQueued(events: seq<Event>) {
    forall i :: 0 <= i < |events| ==> !events[i].Queued?
  }

  lemma {:induction false} NoneQueuedIns(events: seq<Event>)
    requires NoneQueued(events)
    ensures Ins(events, PROT) == []
  {
    if events != [] {
      NoneQueuedIns(events[1..]);
    }
  }

  lemma {:induction false} DrainQueuesNothing(q: Q, link: Link, limit: nat, now: int)
    requires Valid(q)
    ensures NoneQueued(DrainLoop(q, link, limit, now).events)
    decreases q.total
  {
    hide Valid, PopNext;
    TotalIsNat(q);
    if q.total > 0 && q.credit >= q.interval && link.connected && link.good > 0 {
      DrainQueuesNothing(PopNext(q, limit).q, link.(good := link.good - 1), limit, now);
    }
  }

  /** None of the lines is refused: they are what comes into the lane. */
  lemma LinesComeIn(q: Q, lines: seq<string>, modes: int, link: Link, at: int)
    requires Free(q, |lines|) && ProtLines(lines) && DistinctLines(lines)
    ensures var (r, events) := SendQueueRuns.Run(q, HoldAndSend(lines, modes, link, at));
            Valid(r) && Ins(events, PROT) == lines
  {
    hide Drain, DrainLoop, ProtLines, DistinctLines;
    var limit, full := ModesLimit(modes), WithLines(q, lines);
    HeldThenDrained(q, lines, modes, link, at);
    DrainKeepsValid(full, link, limit, at);
    QueuedEvents(lines);
    var s := Drain(full, link, limit, at);
    InOutConcat(QueuedAll(lines), s.events, PROT);
    DrainIs(full, link, limit, at);
    if full.total != 0 {
      DrainQueuesNothing(Refill(full, at), link, limit, at);
    }
    NoneQueuedIns(s.events);
    assert lines + [] == lines;
  }

  lemma DrainIs(q: Q, link: Link, limit: nat, now: int)
    requires Valid(q)
    ensures Valid(Refill(q, now))
    ensures Drain(q, link, limit, now).events == if q.total == 0 then [] else DrainLoop(Refill(q, now), link, limit, now).events
  {
    RefillKeepsValid(q, now);
  }

  /** Once the lane is empty, nothing of it lost and nothing else queued for it, the server has read
      the lines. */
  lemma LinesArrive(isup: Isupport, world: World, q: Q, lines: seq<string>, link: Link, at: int,
                    later: seq<SendQueueRuns.Call>, now: int)
    requires Free(q, |lines|) && ProtLines(lines) && DistinctLines(lines) && AllAgreed(isup, lines)
    ensures var (q1, first) := SendQueueRuns.Run(q, HoldAndSend(lines, isup.modes, link, at));
            Valid(q1) &&
            var (r, rest) := SendQueueRuns.Run(q1, later);
            |r.lanes| == LANES
            && (NoneLost(first + rest) && Ins(rest, PROT) == [] && r.lanes[PROT] == [] ==>
                  ReceiveAll(isup, world, ProtWires(first + rest), now) == ReceiveAll(isup, world, lines, now))
  {
    hide NoneLost, AllAgreed, ReceiveAll, ProtWires, HoldAndSend;
    var calls := HoldAndSend(lines, isup.modes, link, at);
    LinesComeIn(q, lines, isup.modes, link, at);
    var (q1, first) := SendQueueRuns.Run(q, calls);
    RunConserves(q1, later, PROT);
    var (r, rest) := SendQueueRuns.Run(q1, later);
    RunConcat(q, calls, later);
    InOutConcat(first, rest, PROT);
    assert [] + (lines + []) == lines;
    if NoneLost(first + rest) && Ins(rest, PROT) == [] && r.lanes[PROT] == [] {
      RunKeepsMeaning(isup, world, q, calls + later, now);
      ReceiveNothing(isup, ReceiveAll(isup, world, ProtWires(first + rest), now), now);
    }
  }

  lemma ReceiveNothing(isup: Isupport, world: World, now: int)
    ensures ReceiveAll(isup, world, [], now) == world
  {
  }

  /** The request of an operator, sent through the queue among other traffic: once the protection
      lane is empty, with nothing of it lost and nothing else queued for it, the server has read what
      serves the request in its channel, and no other channel changed. */
  lemma SentThroughQueue(isup: Isupport, world: World, chan: string, modes: string, args: seq<string>, oldKey: string,
                         requireKnown: bool, now: int, q: Q, link: Link, at: int, later: seq<SendQueueRuns.Call>)
    requires Parse(modes, args).Ok? && ManagedTable(isup)
    requires Word(chan) && |chan| < MAX_CHAN && IsChannelName(chan) && |oldKey| < MAX_KEY
    requires Lower(chan) in world && world[Lower(chan)].known && PrintableKey(world[Lower(chan)])
    requires Free(q, MAX_PLAN)
    ensures var p, live := Parse(modes, args).value, world[Lower(chan)];
            var key := StoredKey(p, oldKey);
            var plan := SyncPlan(p.stored, key, live, false, requireKnown);
            plan.Some? &&
            var live' := ApplyAll(isup, live, plan.value, false, now);
            Served(modes, args, key, live, live', requireKnown) &&
            var (q1, first) := SendQueueRuns.Run(q, HoldAndSend(Lines(chan, plan.value), isup.modes, link, at));
            Valid(q1) &&
            var (r, rest) := SendQueueRuns.Run(q1, later);
            |r.lanes| == LANES
            && (NoneLost(first + rest) && Ins(rest, PROT) == [] && r.lanes[PROT] == [] ==>
                  ReceiveAll(isup, world, ProtWires(first + rest), now) == world[Lower(chan) := live'])
  {
    hide Parse, Served, Holds, NoneLost, Agreed, ReceiveAll, Lines, ApplyAll, FlagChanges, KeyChanges, LimitChanges,
         ReadStored, HoldAndSend, ProtWires;
    var p, live := Parse(modes, args).value, world[Lower(chan)];
    var key := StoredKey(p, oldKey);
    Pipeline(isup, world, chan, modes, args, oldKey, 1, requireKnown, now);
    StoredMeans(modes, args);
    KeyFits(modes, args);
    var w := ReadStored(p.stored).value;
    PlanLines(isup, chan, w, key, live);
    var plan := SyncPlan(p.stored, key, live, false, requireKnown).value;
    PlanIsShort(w, key, live);
    LinesArrive(isup, world, q, Lines(chan, plan), link, at, later, now);
  }

  lemma PlanIsShort(w: Wanted, key: string, live: Live)
    ensures |FlagChanges(w.dirs, live, FLAG_LETTERS) + KeyChanges(w.dirs, live, key) + LimitChanges(w, live, false)| <= MAX_PLAN
  {
    FlagsCount(w.dirs, live, FLAG_LETTERS);
  }
}
