/** The queue object the bot keeps, its methods proved against the operations of
    `SendQueue`. */
module SendQueueObject {
  import opened Text
  import opened ModeLines
  import opened SendQueue
  import opened SendQueueRuns

  /** The lines put on the wire, in order. */
  function Wire(events: seq<Event>): seq<string> {
    if events == [] then [] else (if events[0].Written? then [events[0].wire] else []) + Wire(events[1..])
  }

  lemma {:induction false} WireConcat(a: seq<Event>, b: seq<Event>)
    ensures Wire(a + b) == Wire(a) + Wire(b)
  {
    if a == [] {
      assert a + b == b;
    } else {
      assert (a + b)[0] == a[0] && (a + b)[1..] == a[1..] + b;
      WireConcat(a[1..], b);
    }
  }

  /** The items for one line, gathered one by one while they fit. */
  method Gather(lane: seq<string>, first: Item, limit: nat) returns (items: seq<Item>)
    requires lane != [] && ItemParse(lane[0]) == Some(first) && limit >= 1
    ensures items == PackItems(lane, limit)
  {
    hide ItemParse, EqIc, FirstLength, ArgLen;
    items := [first];
    var est: nat := FirstLength(first);
    ghost var all := PackItems(lane, limit);
    while |items| < limit && |items| < |lane|
      invariant 1 <= |items| <= limit
      invariant |items| <= |lane|
      invariant items + More(lane[|items|..], first.chan, limit - |items|, est) == all
      decreases |lane| - |items|
    {
      var it := ItemParse(lane[|items|]);
      if it.None? || !EqIc(it.value.chan, first.chan) {
        break;
      }
      var add := 2 + ArgLen(it.value.change) + 1;
      if est + add > PACK_LIMIT {
        break;
      }
      est := est + add;
      items := items + [it.value];
    }
  }

  class SendQ {
    var lanes: seq<seq<string>>
    var total: int
    var burst: int
    var interval: int
    var credit: int
    var last: int
    var dropped: nat
    var hold: nat

    function State(): Q
      reads this
    {
      Q(lanes, total, burst, interval, credit, last, dropped, hold)
    }

    constructor (now: int)
      ensures Valid(State()) && lanes == EMPTY && credit == Cap(State()) && last == now && hold == 0
    {
      lanes, total := EMPTY, 0;
      burst, interval, credit := 10, 100, 1000;
      last, dropped, hold := now, 0, 0;
    }

    method ClearAll(now: int)
      modifies this`lanes, this`total, this`credit, this`last
      ensures State() == Clear(old(State()), now)
    {
      lanes := EMPTY;
      total := 0;
      credit := burst * interval;
      last := now;
    }

    method Limits(b: int, i: int)
      modifies this`burst, this`interval, this`credit
      ensures State() == SetLimits(old(State()), b, i)
    {
      burst := Clamp(b, MIN_BURST, MAX_BURST);
      interval := Clamp(i, MIN_INTERVAL, MAX_INTERVAL);
      var cap := burst * interval;
      if credit > cap {
        credit := cap;
      }
    }

    method RefillCredit(now: int)
      modifies this`credit, this`last
      ensures State() == Refill(old(State()), now)
    {
      var cap := burst * interval;
      if now > last {
        credit := credit + (now - last);
      }
      last := now;
      if credit > cap {
        credit := cap;
      }
    }

    method Next(now: int) returns (ms: int)
      modifies this`credit, this`last
      ensures State() == NextMs(old(State()), now).q && ms == NextMs(old(State()), now).ret
    {
      if total == 0 {
        return -1;
      }
      RefillCredit(now);
      if credit >= interval {
        return 0;
      }
      ms := interval - credit;
    }

    method LanePop(lane: Lane) returns (line: string)
      requires |lanes| == LANES && lanes[lane] != []
      modifies this`lanes, this`total
      ensures State() == Drop(old(State()), lane, 1) && line == old(lanes)[lane][0]
    {
      line := lanes[lane][0];
      lanes := lanes[lane := lanes[lane][1..]];
      total := total - 1;
    }

    method Room(lane: Lane) returns (ok: bool)
      requires Valid(State())
      modifies this`lanes, this`total, this`dropped
      ensures var room := MakeRoom(old(State()), lane);
              ok == room.Some? && State() == if ok then room.value.0 else old(State())
    {
      if total < MAX_SENDQ {
        return true;
      }
      var victim: Lane;
      if lanes[REST] != [] {
        victim := REST;
      } else if lane != REST && lanes[PROT] != [] {
        victim := PROT;
      } else {
        return false;
      }
      var gone := LanePop(victim);
      dropped := dropped + 1;
      ok := true;
    }

    /** Builds the next protection line from the items that fit, and drops what it used. */
    method TakeLine(limit: nat) returns (line: string)
      requires Valid(State()) && lanes[PROT] != [] && limit >= 1
      modifies this`lanes, this`total
      ensures var (wire, used) := TakeProtection(old(lanes)[PROT], limit);
              line == wire && State() == Drop(old(State()), PROT, used)
    {
      var head := ItemParse(lanes[PROT][0]);
      if head.None? {
        line := LanePop(PROT);
        return;
      }
      var items := Gather(lanes[PROT], head.value, limit);
      PackFits(lanes[PROT], limit);
      line := LineText(items[0].chan, Changes(items));
      lanes := lanes[PROT := lanes[PROT][|items|..]];
      total := total - |items|;
    }

    /** One line taken from the highest lane that has one, and paid for. */
    method TakeNext(limit: nat) returns (line: string)
      requires Valid(State()) && total > 0 && credit >= interval && limit >= 1
      modifies this`lanes, this`total, this`credit
      ensures var p := PopNext(old(State()), limit);
              State() == p.q && line == p.wire
    {
      if lanes[PROTO] != [] {
        line := LanePop(PROTO);
      } else if lanes[PROT] != [] {
        line := TakeLine(limit);
      } else {
        line := LanePop(REST);
      }
      credit := credit - interval;
    }

    /** One round: the link is down or fails, or a line went out. */
    method Round(link: Link, good: nat, limit: nat, now: int, ghost sent: int, ghost wire: seq<string>, ghost final: Step)
      returns (stop: bool, line: string)
      requires Valid(State()) && total > 0 && credit >= interval && limit >= 1
      requires Remaining(DrainLoop(State(), link.(good := good), limit, now), sent, wire, final)
      modifies this`lanes, this`total, this`credit, this`last
      ensures stop ==> State() == final.q && sent == final.ret && wire == Wire(final.events)
      ensures !stop ==> Valid(State()) && good > 0 && total < old(total)
                        && Remaining(DrainLoop(State(), link.(good := good - 1), limit, now), sent + 1, wire + [line], final)
    {
      hide DrainLoop, PopNext, Valid, Remaining, Wire;
      RoundMeans(State(), link.(good := good), limit, now, sent, wire, final);
      if !link.connected {
        ClearAll(now);
        return true, "";
      }
      line := TakeNext(limit);
      if good == 0 {
        if link.failClears {
          ClearAll(now);
        }
        return true, line;
      }
      stop := false;
    }

    /** The rounds of one drain. */
    method DrainRounds(link: Link, limit: nat, now: int) returns (sent: int, wire: seq<string>)
      requires Valid(State()) && limit >= 1
      modifies this`lanes, this`total, this`credit, this`last
      ensures var s := DrainLoop(old(State()), link, limit, now);
              State() == s.q && sent == s.ret && wire == Wire(s.events)
    {
      hide DrainLoop, PopNext, Valid;
      sent, wire := 0, [];
      TotalIsNat(State());
      ghost var final := DrainLoop(State(), link, limit, now);
      assert [] + Wire(final.events) == Wire(final.events);
      var good := link.good;
      while total > 0 && credit >= interval
        invariant Valid(State()) && total >= 0
        invariant Remaining(DrainLoop(State(), link.(good := good), limit, now), sent, wire, final)
        decreases total
      {
        var stop, line := Round(link, good, limit, now, sent, wire, final);
        if stop {
          return;
        }
        TotalIsNat(State());
        good := good - 1;
        sent := sent + 1;
        wire := wire + [line];
      }
      DrainEnds(State(), link.(good := good), limit, now);
      RemainingEnd(DrainLoop(State(), link.(good := good), limit, now), sent, wire, final);
    }

    method DrainNow(link: Link, limit: nat, now: int) returns (sent: int, wire: seq<string>)
      requires Valid(State()) && limit >= 1
      modifies this`lanes, this`total, this`credit, this`last
      ensures var s := Drain(old(State()), link, limit, now);
              State() == s.q && sent == s.ret && wire == Wire(s.events)
    {
      if total == 0 {
        return 0, [];
      }
      RefillKeepsValid(State(), now);
      RefillCredit(now);
      sent, wire := DrainRounds(link, limit, now);
    }

    method Add(line: string, link: Link, limit: nat, now: int) returns (ret: int, wire: seq<string>)
      requires Valid(State()) && limit >= 1
      modifies this`lanes, this`total, this`credit, this`last, this`dropped
      ensures var s := Enqueue(old(State()), line, link, limit, now);
              State() == s.q && ret == s.ret && wire == Wire(s.events)
    {
      hide Drain, Waits, LaneOf, Copy;
      wire := [];
      if |line| < 2 {
        return -1, [];
      }
      var lane := LaneOf(line);
      ghost var q := State();
      if lane == PROT && Waits(lanes[lane], line) {
        return |line|, [];
      }
      var ok := Room(lane);
      if !ok {
        dropped := dropped + 1;
        return -1, [];
      }
      ghost var (q1, evicted) := MakeRoom(q, lane).value;
      lanes := lanes[lane := lanes[lane] + [Copy(line)]];
      total := total + 1;
      PushKeepsValid(q, line);
      ghost var came := evicted + [Queued(lane, Copy(line))];
      QuietWire(evicted, Queued(lane, Copy(line)));
      ret := |line|;
      if hold == 0 {
        var sent;
        ghost var rest := Drain(State(), link, limit, now);
        sent, wire := DrainNow(link, limit, now);
        WireConcat(came, rest.events);
      }
    }

    method HoldOn()
      modifies this`hold
      ensures State() == Hold(old(State()))
    {
      hold := hold + 1;
    }

    method LetGo(link: Link, limit: nat, now: int) returns (wire: seq<string>)
      requires Valid(State()) && limit >= 1
      modifies this`lanes, this`total, this`credit, this`last, this`hold
      ensures var s := Release(old(State()), link, limit, now);
              State() == s.q && wire == Wire(s.events)
    {
      wire := [];
      if hold > 0 {
        hold := hold - 1;
        if hold == 0 {
          var sent;
          sent, wire := DrainNow(link, limit, now);
        }
      }
    }
  }

  /** What is left of a drain, after `sent` lines, completes it. */
  ghost predicate Remaining(s: Step, sent: int, wire: seq<string>, final: Step) {
    s.q == final.q && sent + s.ret == final.ret && wire + Wire(s.events) == Wire(final.events)
  }

  lemma RemainingStep(s: Step, rest: Step, sent: int, wire: seq<string>, line: string, final: Step)
    requires Remaining(s, sent, wire, final)
    requires s.q == rest.q && s.ret == 1 + rest.ret && Wire(s.events) == [line] + Wire(rest.events)
    ensures Remaining(rest, sent + 1, wire + [line], final)
  {
    assert wire + ([line] + Wire(rest.events)) == (wire + [line]) + Wire(rest.events);
  }

  lemma RemainingEnd(s: Step, sent: int, wire: seq<string>, final: Step)
    requires Remaining(s, sent, wire, final) && s.ret == 0 && Wire(s.events) == []
    ensures s.q == final.q && sent == final.ret && wire == Wire(final.events)
  {
    assert wire + [] == wire;
  }

  lemma DrainEnds(q: Q, link: Link, limit: nat, now: int)
    requires Valid(q) && (q.total <= 0 || q.credit < q.interval)
    ensures DrainLoop(q, link, limit, now) == Step(q, [], 0)
  {
  }

  /** One round of the drain: it ends there, or the next line leaves and the rest follows. */
  lemma RoundMeans(q: Q, link: Link, limit: nat, now: int, sent: int, wire: seq<string>, final: Step)
    requires Valid(q) && q.total > 0 && q.credit >= q.interval
    requires Remaining(DrainLoop(q, link, limit, now), sent, wire, final)
    ensures var p := PopNext(q, limit);
            if !link.connected then Clear(q, now) == final.q && sent == final.ret && wire == Wire(final.events)
            else if link.good == 0 then
              (if link.failClears then Clear(p.q, now) else p.q) == final.q && sent == final.ret && wire == Wire(final.events)
            else Remaining(DrainLoop(p.q, link.(good := link.good - 1), limit, now), sent + 1, wire + [p.wire], final)
  {
    hide PopNext, Valid;
    var s := DrainLoop(q, link, limit, now);
    if !link.connected || link.good == 0 {
      WireOfLoss(s.events);
      RemainingEnd(s, sent, wire, final);
    } else {
      var p := PopNext(q, limit);
      var e := Written(p.lane, p.lines, p.wire, now, Waiting(q.lanes));
      var rest := DrainLoop(p.q, link.(good := link.good - 1), limit, now);
      assert [e][1..] == [];
      WireConcat([e], rest.events);
      RemainingStep(s, rest, sent, wire, p.wire, final);
    }
  }

  lemma WireOfLoss(events: seq<Event>)
    requires 1 <= |events| <= 2 && forall i :: 0 <= i < |events| ==> !events[i].Written?
    ensures Wire(events) == []
  {
    assert |events| == 1 ==> events[1..] == [];
    assert |events| == 2 ==> events[1..][1..] == [];
  }

  lemma QuietWire(evicted: seq<Event>, e: Event)
    requires !e.Written? && |evicted| <= 1 && forall i :: 0 <= i < |evicted| ==> !evicted[i].Written?
    ensures Wire(evicted + [e]) == []
  {
    WireOfLoss(evicted + [e]);
  }
}
