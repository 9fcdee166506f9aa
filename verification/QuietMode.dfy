/** Quiet mode over whole runs: when the bot is silent. */
module QuietMode {
  import opened Text
  import opened IgnoreTable

  /** Somebody is to be ignored, or the bot asks whether it is quiet. */
  datatype Op = Ignore(key: string, at: int) | Ask(at: int)

  /** The table, and the times at which it was too full to take a key. */
  datatype History = History(table: Table, full: seq<int>)

  function Next(h: History, op: Op, ms: int): History {
    match op
    case Ask(at) => h.(table := QuietAt(h.table, at).0)
    case Ignore(key, at) =>
      var (table, r) := IgnoreAdd(h.table, key, at, ms);
      History(table, if r.Full? then h.full + [at] else h.full)
  }

  function RunOps(h: History, ops: seq<Op>, ms: int): History
    decreases |ops|
  {
    if ops == [] then h else RunOps(Next(h, ops[0], ms), ops[1..], ms)
  }

  /** Positive times that do not go back, up to `end`. */
  predicate ClockTo(now: int, ops: seq<Op>, end: int)
    decreases |ops|
  {
    if ops == [] then now <= end else 0 < ops[0].at && now <= ops[0].at && ClockTo(ops[0].at, ops[1..], end)
  }

  /** The mode stands from the last time the table was full, until asked after its end. */
  predicate Standing(h: History, ms: int, now: int) {
    && h.table.ents != [] && (h.table.quietLogged <==> h.table.quietUntil != 0)
    && (forall i :: 0 <= i < |h.full| ==> 0 < h.full[i] <= now && h.full[i] <= h.full[|h.full| - 1])
    && (if h.full == [] then h.table.quietUntil == 0
        else
          var last := h.full[|h.full| - 1];
          h.table.quietUntil == last + ms || (h.table.quietUntil == 0 && last + ms <= now))
  }

  lemma NextStands(h: History, op: Op, ms: int, now: int)
    requires Standing(h, ms, now) && ms > 0 && 0 < op.at && now <= op.at
    ensures Standing(Next(h, op, ms), ms, op.at)
  {
    hide FreeSlot, Found, Oldest, LiveEnt;
  }

  lemma {:induction false} RunStands(h: History, ops: seq<Op>, ms: int, now: int, end: int)
    requires Standing(h, ms, now) && ms > 0 && ClockTo(now, ops, end)
    ensures Standing(RunOps(h, ops, ms), ms, end)
    decreases |ops|
  {
    if ops != [] {
      NextStands(h, ops[0], ms, now);
      RunStands(Next(h, ops[0], ms), ops[1..], ms, ops[0].at, end);
    }
  }

  /** Over any run, asked at any time: the bot is quiet exactly when the table was too full to take
      a key less than the ignore time ago. */
  lemma QuietExactly(ops: seq<Op>, ms: int, now: int)
    requires ms > 0 && now > 0 && ClockTo(0, ops, now)
    ensures var h := RunOps(History(START, []), ops, ms);
            QuietAt(h.table, now).1 <==> exists i :: 0 <= i < |h.full| && now < h.full[i] + ms
  {
    RunStands(History(START, []), ops, ms, 0, now);
  }
}
