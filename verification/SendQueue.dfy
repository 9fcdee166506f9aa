/** The paced send queue: three lanes, a token bucket, room made by eviction, duplicate
    protection lines refused, changes packed on the way out. */
module SendQueue {
  import opened Text
  import opened ModeLines

  const MAX_SENDQ := 256
  const LINE_MAX := 510
  const LANES := 3
  const PROTO := 0
  const PROT := 1
  const REST := 2
  const MIN_BURST := 1
  const MAX_BURST := 100
  const MIN_INTERVAL := 0
  const MAX_INTERVAL := 10000
  const MODES_DEFAULT := 3
  const MODES_MAX := 12

  type Lane = l: int | 0 <= l < LANES witness 0

  // ---- which lane a line takes ---------------------------------------------------

  /** A MODE that asks rather than changes: a mode fetch or a list fetch. */
  predicate ModeIsQuery(line: string) {
    var p := if |line| >= 5 then line[5..] else "";
    var sp := Find(p, ' ');
    if sp == |p| then true
    else
      var m := p[sp + 1..];
      var sp2 := Find(m, ' ');
      var mlen := if sp2 < |m| then sp2 else EolSpan(m);
      var noArg := sp2 == |m| || sp2 + 1 == |m| || m[sp2 + 1] == '\r' || m[sp2 + 1] == '\n';
      noArg && ((mlen == 2 && ListLetter(m[1])) || (mlen == 1 && ListLetter(m[0])))
  }

  predicate ListLetter(c: char) {
    c == 'b' || c == 'e' || c == 'I'
  }

  function EolSpan(s: string): (n: nat)
    ensures n <= |s|
  {
    if s == "" || s[0] == '\r' || s[0] == '\n' then 0 else 1 + EolSpan(s[1..])
  }

  function LaneOf(line: string): Lane {
    var verb := line[..Span(line)];
    if EqIc(verb, "PONG") || EqIc(verb, "PING") || EqIc(verb, "NICK") || EqIc(verb, "USER") || EqIc(verb, "PASS")
       || EqIc(verb, "QUIT") || EqIc(verb, "CAP") then PROTO
    else if EqIc(verb, "KICK") then PROT
    else if EqIc(verb, "MODE") && |line| > 4 && line[4] == ' ' && !ModeIsQuery(line) then PROT
    else REST
  }

  // ---- state -----------------------------------------------------------------------

  datatype Q = Q(lanes: seq<seq<string>>, total: int, burst: int, interval: int,
                 credit: int, last: int, dropped: nat, hold: nat)

  /** The link as this step finds it: up or not, how many writes it still takes, and
      whether the write that fails takes the queue down with it. */
  datatype Link = Link(connected: bool, good: nat, failClears: bool)

  /** What happened to lines, in order; `before` is how many were waiting in each lane. */
  datatype Event =
    | Queued(lane: Lane, line: string)
    | Written(lane: Lane, lines: seq<string>, wire: string, at: int, before: seq<nat>)
    | Lost(lane: Lane, lines: seq<string>, before: seq<nat>)
    | Evicted(lane: Lane, line: string, before: seq<nat>)
    | Refused(lane: Lane, line: string, before: seq<nat>)
    | Cleared(all: seq<seq<string>>)

  datatype Step = Step(q: Q, events: seq<Event>, ret: int)

  function Waiting(lanes: seq<seq<string>>): (r: seq<nat>)
    ensures |r| == |lanes| && forall i :: 0 <= i < |lanes| ==> r[i] == |lanes[i]|
  {
    seq(|lanes|, i requires 0 <= i < |lanes| => |lanes[i]|)
  }

  function Cap(q: Q): int {
    q.burst * q.interval
  }

  /** What every step keeps. */
  ghost predicate Valid(q: Q) {
    && |q.lanes| == LANES
    && q.total == |q.lanes[0]| + |q.lanes[1]| + |q.lanes[2]| <= MAX_SENDQ
    && q.burst >= MIN_BURST && q.interval >= MIN_INTERVAL
    && 0 <= q.credit <= Cap(q)
    && (forall i, j :: 0 <= i < j < |q.lanes[PROT]| ==> q.lanes[PROT][i] != q.lanes[PROT][j])
  }

  // ---- the operations ----------------------------------------------------------------

  const EMPTY: seq<seq<string>> := [[], [], []]

  function Clear(q: Q, now: int): Q {
    q.(lanes := EMPTY, total := 0, credit := Cap(q), last := now)
  }

  function Clamp(v: int, lo: int, hi: int): int {
    if v < lo then lo else if v > hi then hi else v
  }

  function Min(a: int, b: int): int {
    if a <= b then a else b
  }

  function SetLimits(q: Q, burst: int, interval: int): Q {
    var q' := q.(burst := Clamp(burst, MIN_BURST, MAX_BURST), interval := Clamp(interval, MIN_INTERVAL, MAX_INTERVAL));
    q'.(credit := Min(q.credit, Cap(q')))
  }

  function Refill(q: Q, now: int): Q {
    q.(credit := Min(if now > q.last then q.credit + (now - q.last) else q.credit, Cap(q)), last := now)
  }

  /** -1: nothing queued; 0: a line may go now; else the wait. */
  function NextMs(q: Q, now: int): Step {
    if q.total == 0 then Step(q, [], -1)
    else
      var q' := Refill(q, now);
      Step(q', [], if q'.credit >= q'.interval then 0 else q'.interval - q'.credit)
  }

  function Drop(q: Q, lane: Lane, n: nat): Q
    requires |q.lanes| == LANES && n <= |q.lanes[lane]|
  {
    q.(lanes := q.lanes[lane := q.lanes[lane][n..]], total := q.total - n)
  }

  /** Room for one more line of `lane`: the oldest of the rest lane goes, then -- not for a
      rest line -- the oldest protection line; otherwise the new line has to. */
  function Victim(q: Q, lane: Lane): Option<Lane>
    requires |q.lanes| == LANES
  {
    if q.lanes[REST] != [] then Some(REST)
    else if lane != REST && q.lanes[PROT] != [] then Some(PROT)
    else None
  }

  function ModesLimit(isupModes: int): (r: nat)
    ensures 1 <= r <= MODES_MAX
  {
    if isupModes < 1 then MODES_DEFAULT else Min(isupModes, MODES_MAX)
  }

  /** The next lane to write from: never one below a lane that has lines. */
  function NextLane(q: Q): Lane
    requires |q.lanes| == LANES
  {
    if q.lanes[PROTO] != [] then PROTO else if q.lanes[PROT] != [] then PROT else REST
  }

  /** The line to write from a lane and how many queued lines it uses. */
  function Take(q: Q, lane: Lane, limit: nat): (r: (string, nat))
    requires |q.lanes| == LANES && q.lanes[lane] != []
    ensures 1 <= r.1 <= |q.lanes[lane]|
  {
    if lane == PROT then TakeProtection(q.lanes[lane], limit) else (q.lanes[lane][0], 1)
  }

  /** One line taken from the queue and paid for. */
  datatype Pop = Pop(lane: Lane, lines: seq<string>, wire: string, q: Q)

  function PopNext(q: Q, limit: nat): (p: Pop)
    requires Valid(q) && q.total > 0 && q.credit >= q.interval
    ensures Valid(p.q) && p.q.total < q.total
  {
    var lane := NextLane(q);
    var (wire, used) := Take(q, lane, limit);
    DropKeepsValid(q, lane, used);
    Pop(lane, q.lanes[lane][..used], wire, Drop(q, lane, used).(credit := q.credit - q.interval))
  }

  function DrainLoop(q: Q, link: Link, limit: nat, now: int): Step
    requires Valid(q)
    decreases q.total
  {
    if q.total == 0 || q.credit < q.interval then Step(q, [], 0)
    else if !link.connected then Step(Clear(q, now), [Cleared(q.lanes)], 0)
    else
      var p := PopNext(q, limit);
      if link.good == 0 then
        var lost := [Lost(p.lane, p.lines, Waiting(q.lanes))];
        if link.failClears then Step(Clear(p.q, now), lost + [Cleared(p.q.lanes)], 0) else Step(p.q, lost, 0)
      else
        var rest := DrainLoop(p.q, link.(good := link.good - 1), limit, now);
        Step(rest.q, [Written(p.lane, p.lines, p.wire, now, Waiting(q.lanes))] + rest.events, 1 + rest.ret)
  }

  function Drain(q: Q, link: Link, limit: nat, now: int): Step
    requires Valid(q)
  {
    if q.total == 0 then Step(q, [], 0)
    else
      RefillKeepsValid(q, now);
      DrainLoop(Refill(q, now), link, limit, now)
  }

  /** The queued copy: cut at LINE_MAX bytes of body, CRLF put back. */
  function Copy(line: string): string
    requires |line| >= 2
  {
    line[..Min(|line| - 2, LINE_MAX)] + CRLF
  }

  /** The same line is already waiting. */
  predicate Waits(waiting: seq<string>, line: string)
    requires |line| >= 2
  {
    var body := Min(|line| - 2, LINE_MAX);
    exists i :: 0 <= i < |waiting| && |waiting[i]| == body + 2 && waiting[i][..body] == line[..body]
  }

  function Push(q: Q, lane: Lane, copy: string): Q
    requires |q.lanes| == LANES
  {
    q.(lanes := q.lanes[lane := q.lanes[lane] + [copy]], total := q.total + 1)
  }

  /** Room made, or the reason why not. */
  function MakeRoom(q: Q, lane: Lane): (r: Option<(Q, seq<Event>)>)
    requires Valid(q)
  {
    if q.total < MAX_SENDQ then Some((q, []))
    else
      var victim := Victim(q, lane);
      if victim.None? then None
      else
        var v := victim.value;
        Some((Drop(q, v, 1).(dropped := q.dropped + 1), [Evicted(v, q.lanes[v][0], Waiting(q.lanes))]))
  }

  function Enqueue(q: Q, line: string, link: Link, limit: nat, now: int): Step
    requires Valid(q)
  {
    if |line| < 2 then Step(q, [], -1)
    else
      var lane, copy := LaneOf(line), Copy(line);
      if lane == PROT && Waits(q.lanes[PROT], line) then Step(q, [], |line|)
      else
        var room := MakeRoom(q, lane);
        if room.None? then
          Step(q.(dropped := q.dropped + 1), [Refused(lane, copy, Waiting(q.lanes))], -1)
        else
          var (q1, evicted) := room.value;
          var q2 := Push(q1, lane, copy);
          PushKeepsValid(q, line);
          if q.hold == 0 then
            var rest := Drain(q2, link, limit, now);
            Step(rest.q, evicted + [Queued(lane, copy)] + rest.events, |line|)
          else Step(q2, evicted + [Queued(lane, copy)], |line|)
  }

  function Hold(q: Q): Q {
    q.(hold := q.hold + 1)
  }

  function Release(q: Q, link: Link, limit: nat, now: int): Step
    requires Valid(q)
  {
    if q.hold > 1 then Step(q.(hold := q.hold - 1), [], 0)
    else if q.hold == 1 then Drain(q.(hold := 0), link, limit, now)
    else Step(q, [], 0)
  }

  // ---- what the steps keep -------------------------------------------------------------

  lemma TotalIsNat(q: Q)
    requires Valid(q)
    ensures |q.lanes| == LANES && q.total >= 0
  {
  }

  lemma CapPositive(q: Q)
    requires q.burst >= 1 && q.interval >= 0
    ensures Cap(q) >= q.interval
  {
  }

  lemma RefillKeepsValid(q: Q, now: int)
    requires Valid(q)
    ensures Valid(Refill(q, now))
  {
    CapPositive(q);
  }

  lemma DropKeepsValid(q: Q, lane: Lane, n: nat)
    requires Valid(q) && n <= |q.lanes[lane]|
    ensures Valid(Drop(q, lane, n)) && (q.credit >= q.interval ==> Valid(Drop(q, lane, n).(credit := q.credit - q.interval)))
  {
  }

  lemma ClearKeepsValid(q: Q, now: int)
    requires Valid(q)
    ensures Valid(Clear(q, now))
  {
    CapPositive(q);
  }

  lemma NotWaiting(waiting: seq<string>, line: string)
    requires |line| >= 2
    ensures Waits(waiting, line) || Copy(line) !in waiting
  {
    var body := Min(|line| - 2, LINE_MAX);
    assert Copy(line)[..body] == line[..body] && |Copy(line)| == body + 2;
  }

  lemma PushFresh(q: Q, lane: Lane, copy: string)
    requires Valid(q) && q.total < MAX_SENDQ && (lane == PROT ==> copy !in q.lanes[PROT])
    ensures Valid(Push(q, lane, copy))
  {
    assert forall i :: 0 <= i < |q.lanes[PROT]| ==> q.lanes[PROT][i] in q.lanes[PROT];
  }

  lemma MakeRoomKeepsValid(q: Q, lane: Lane)
    requires Valid(q)
    ensures var room := MakeRoom(q, lane);
            room.Some? ==> var q1 := room.value.0;
                           Valid(q1) && q1.total < MAX_SENDQ
                           && (forall l: string :: l in q1.lanes[PROT] ==> l in q.lanes[PROT])
  {
    if q.total == MAX_SENDQ && Victim(q, lane).Some? {
      DropKeepsValid(q, Victim(q, lane).value, 1);
    }
  }

  lemma PushKeepsValid(q: Q, line: string)
    requires Valid(q) && |line| >= 2 && !(LaneOf(line) == PROT && Waits(q.lanes[PROT], line))
    ensures var room := MakeRoom(q, LaneOf(line));
            room.Some? ==> Valid(Push(room.value.0, LaneOf(line), Copy(line)))
  {
    var lane, copy := LaneOf(line), Copy(line);
    var room := MakeRoom(q, lane);
    NotWaiting(q.lanes[PROT], line);
    MakeRoomKeepsValid(q, lane);
    if room.Some? {
      PushFresh(room.value.0, lane, copy);
    }
  }
}
