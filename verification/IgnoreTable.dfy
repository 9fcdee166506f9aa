/** The bot's ignore table: a fixed number of keys with an expiry, and quiet mode when it
    fills within a minute. */
module IgnoreTable {
  import opened Text
  import opened Counting

  const MAX_IGNORES := 64
  const QUIET_FILL_MS := 60000

  /** An empty key is a free slot. */
  datatype Ent = Ent(key: string, since: int, until: int)
  datatype Table = Table(ents: seq<Ent>, quietUntil: int, quietLogged: bool)

  /** `Full` carries whether this is the episode's first. */
  datatype Outcome = Added | Full(first: bool)

  const START := Table(Repeat(Ent("", 0, 0), MAX_IGNORES), 0, false)

  // ---- the operations ----------------------------------------------------------------

  predicate LiveEnt(e: Ent, now: int) {
    e.key != "" && e.until > now
  }

  /** `e` is in the table and in force. */
  predicate Live(ents: seq<Ent>, now: int, e: Ent) {
    e in ents && LiveEnt(e, now)
  }

  predicate IgnoreFind(t: Table, key: string, now: int) {
    exists e :: e in t.ents && LiveEnt(e, now) && e.key == key
  }

  /** Quiet mode: on until its time, then cleared. */
  function QuietAt(t: Table, now: int): (Table, bool) {
    var t' := if t.quietUntil != 0 && now >= t.quietUntil then t.(quietUntil := 0, quietLogged := false) else t;
    (t', t'.quietUntil != 0)
  }

  function Clear(e: Ent, now: int): Ent {
    if LiveEnt(e, now) then e else e.(key := "")
  }

  /** The first entry in force for `key`; the table size when there is none. */
  function Found(ents: seq<Ent>, key: string, now: int): (i: nat)
    ensures i <= |ents|
    ensures i < |ents| ==> LiveEnt(ents[i], now) && ents[i].key == key
    ensures forall j :: 0 <= j < i ==> !(LiveEnt(ents[j], now) && ents[j].key == key)
  {
    if ents == [] then 0 else if LiveEnt(ents[0], now) && ents[0].key == key then 0 else 1 + Found(ents[1..], key, now)
  }

  /** Entries before the place where the scan stops, expired ones cleared. */
  function Swept(ents: seq<Ent>, stop: nat, now: int): (r: seq<Ent>)
    requires stop <= |ents|
    ensures |r| == |ents|
    ensures forall i :: 0 <= i < |ents| ==> r[i] == if i < stop then Clear(ents[i], now) else ents[i]
  {
    seq(|ents|, i requires 0 <= i < |ents| => if i < stop then Clear(ents[i], now) else ents[i])
  }

  function FreeSlot(ents: seq<Ent>): (i: nat)
    ensures i <= |ents|
    ensures i < |ents| ==> ents[i].key == ""
    ensures forall j :: 0 <= j < i ==> ents[j].key != ""
  {
    if ents == [] then 0 else if ents[0].key == "" then 0 else 1 + FreeSlot(ents[1..])
  }

  /** The first entry added longest ago. */
  function Oldest(ents: seq<Ent>): (i: nat)
    requires ents != []
    ensures i < |ents|
    ensures forall j :: 0 <= j < |ents| ==> ents[i].since <= ents[j].since
    ensures forall j :: 0 <= j < i ==> ents[i].since < ents[j].since
  {
    if |ents| == 1 then 0
    else
      var r := 1 + Oldest(ents[1..]);
      assert forall j :: 1 <= j < |ents| ==> ents[1..][j - 1] == ents[j];
      if ents[r].since < ents[0].since then r else 0
  }

  function Put(e: Ent, key: string, now: int, ms: int): Ent {
    Ent(key, if e.key == key then e.since else now, now + ms)
  }

  function IgnoreAdd(t: Table, key: string, now: int, ms: int): (Table, Outcome) {
    var found := Found(t.ents, key, now);
    var ents := Swept(t.ents, found, now);
    var free := FreeSlot(ents);
    if found < |ents| then (t.(ents := ents[found := Put(ents[found], key, now, ms)]), Added)
    else if free < |ents| then (t.(ents := ents[free := Put(ents[free], key, now, ms)]), Added)
    else if ents == [] then (t, Full(false))
    else
      var o := Oldest(ents);
      if now - ents[o].since <= QUIET_FILL_MS then
        (Table(ents, now + ms, true), Full(!t.quietLogged))
      else (t.(ents := ents[o := Put(ents[o], key, now, ms)]), Added)
  }

  // ---- the table object ----------------------------------------------------------------

  class BotFlood {
    const ignores: array<Ent>
    var quietUntil: int
    var quietLogged: bool

    function State(): Table
      reads this, ignores
    {
      Table(ignores[..], quietUntil, quietLogged)
    }

    constructor ()
      ensures State() == START && fresh(ignores)
    {
      ignores := new Ent[MAX_IGNORES](_ => Ent("", 0, 0));
      quietUntil, quietLogged := 0, false;
      new;
      assert ignores[..] == START.ents;
    }

    method Quiet(now: int) returns (on: bool)
      modifies this`quietUntil, this`quietLogged
      ensures (State(), on) == QuietAt(old(State()), now)
    {
      if quietUntil != 0 && now >= quietUntil {
        quietUntil := 0;
        quietLogged := false;
      }
      on := quietUntil != 0;
    }

    method Find(key: string, now: int) returns (r: bool)
      ensures r <==> IgnoreFind(State(), key, now)
    {
      for i := 0 to ignores.Length
        invariant forall j :: 0 <= j < i ==> !(LiveEnt(ignores[j], now) && ignores[j].key == key)
      {
        var e := ignores[i];
        if LiveEnt(e, now) && e.key == key {
          assert e in ignores[..];
          return true;
        }
      }
      return false;
    }

    /** Clears what has expired on the way to the key's own entry; the slot to use, if
        any, and the entry added longest ago. */
    method Sweep(key: string, now: int) returns (slot: Option<nat>, oldest: Option<nat>)
      requires key != ""
      modifies ignores
      ensures ignores[..] == Swept(old(ignores[..]), Found(old(ignores[..]), key, now), now)
      ensures slot == SlotFor(ignores[..], Found(old(ignores[..]), key, now))
      ensures slot.None? ==> oldest == if ignores.Length == 0 then None else Some(Oldest(ignores[..]))
    {
      slot, oldest := None, None;
      ghost var was := ignores[..];
      for i := 0 to ignores.Length
        invariant ignores[..] == Swept(was, i, now)
        invariant forall j :: 0 <= j < i ==> !(LiveEnt(was[j], now) && was[j].key == key)
        invariant slot == FreeSoFar(ignores[..i])
        invariant OldestSoFar(ignores[..i], oldest)
      {
        var e := ignores[i];
        if e.key != "" && e.until <= now {
          e := e.(key := "");
          ignores[i] := e;
        }
        assert e == Clear(was[i], now);
        assert ignores[..] == Swept(was, i, now)[i := e];
        SweptMore(was, i, now);
        if e.key != "" && e.key == key {
          FoundIs(was, key, now, i);
          assert Swept(was, i, now)[i := e] == Swept(was, i, now);
          return Some(i), oldest;
        }
        SoFarMore(ignores[..i], e, oldest);
        assert ignores[..i + 1] == ignores[..i] + [e];
        if e.key == "" {
          if slot.None? {
            slot := Some(i);
          }
        } else if oldest.None? || e.since < ignores[oldest.value].since {
          oldest := Some(i);
        }
      }
      NotFound(was, key, now);
      assert ignores[..ignores.Length] == ignores[..];
      SweepEnds(ignores[..], oldest);
    }

    method Add(key: string, now: int, ms: int) returns (r: Outcome)
      requires key != ""
      modifies this`quietUntil, this`quietLogged, ignores
      ensures (State(), r) == IgnoreAdd(old(State()), key, now, ms)
    {
      var slot, oldest := Sweep(key, now);
      if slot.None? {
        if oldest.None? {
          return Full(false);
        }
        if now - ignores[oldest.value].since <= QUIET_FILL_MS {
          quietUntil := now + ms;
          r := Full(!quietLogged);
          quietLogged := true;
          return;
        }
        slot := oldest;
      }
      Store(slot.value, key, now, ms);
      r := Added;
    }

    method Store(i: nat, key: string, now: int, ms: int)
      requires i < ignores.Length
      modifies ignores
      ensures ignores[..] == old(ignores[..])[i := Put(old(ignores[i]), key, now, ms)]
    {
      if ignores[i].key != key {
        ignores[i] := ignores[i].(key := key, since := now);
      }
      ignores[i] := ignores[i].(until := now + ms);
    }
  }

  function SlotFor(ents: seq<Ent>, found: nat): Option<nat> {
    if found < |ents| then Some(found) else FreeSoFar(ents)
  }

  function FreeSoFar(ents: seq<Ent>): Option<nat> {
    if FreeSlot(ents) < |ents| then Some(FreeSlot(ents)) else None
  }

  /** The first of the entries with a key that were added longest ago. */
  ghost predicate OldestSoFar(ents: seq<Ent>, oldest: Option<nat>) {
    match oldest
    case None => forall j :: 0 <= j < |ents| ==> ents[j].key == ""
    case Some(o) =>
      && o < |ents| && ents[o].key != ""
      && (forall j :: 0 <= j < |ents| && ents[j].key != "" ==> ents[o].since <= ents[j].since)
      && (forall j :: 0 <= j < o && ents[j].key != "" ==> ents[o].since < ents[j].since)
  }

  lemma SweptMore(ents: seq<Ent>, i: nat, now: int)
    requires i < |ents|
    ensures Swept(ents, i + 1, now) == Swept(ents, i, now)[i := Clear(ents[i], now)]
  {
  }

  lemma SoFarMore(ents: seq<Ent>, e: Ent, oldest: Option<nat>)
    requires OldestSoFar(ents, oldest)
    ensures FreeSoFar(ents + [e]) == if FreeSoFar(ents).Some? then FreeSoFar(ents) else if e.key == "" then Some(|ents|) else None
    ensures OldestSoFar(ents + [e],
                        if e.key != "" && (oldest.None? || e.since < ents[oldest.value].since) then Some(|ents|) else oldest)
  {
    var more := ents + [e];
    var f := FreeSlot(ents);
    assert forall j :: 0 <= j < |ents| ==> more[j] == ents[j];
    if f < |ents| {
      FreeIs(more, f);
    } else if e.key == "" {
      FreeIs(more, |ents|);
    } else {
      NoFree(more);
    }
  }

  lemma SweepEnds(ents: seq<Ent>, oldest: Option<nat>)
    requires OldestSoFar(ents, oldest)
    ensures FreeSoFar(ents).None? ==> oldest == if ents == [] then None else Some(Oldest(ents))
  {
    if FreeSoFar(ents).None? && oldest.Some? {
      OldestIs(ents, oldest.value);
    }
  }

  lemma {:induction false} FoundIs(ents: seq<Ent>, key: string, now: int, i: nat)
    requires i < |ents| && LiveEnt(ents[i], now) && ents[i].key == key
    requires forall j :: 0 <= j < i ==> !(LiveEnt(ents[j], now) && ents[j].key == key)
    ensures Found(ents, key, now) == i
  {
  }

  lemma NotFound(ents: seq<Ent>, key: string, now: int)
    requires forall j :: 0 <= j < |ents| ==> !(LiveEnt(ents[j], now) && ents[j].key == key)
    ensures Found(ents, key, now) == |ents|
  {
  }

  lemma FreeIs(ents: seq<Ent>, i: nat)
    requires i < |ents| && ents[i].key == "" && forall j :: 0 <= j < i ==> ents[j].key != ""
    ensures FreeSlot(ents) == i
  {
  }

  lemma NoFree(ents: seq<Ent>)
    requires forall j :: 0 <= j < |ents| ==> ents[j].key != ""
    ensures FreeSlot(ents) == |ents|
  {
  }

  lemma OldestIs(ents: seq<Ent>, i: nat)
    requires i < |ents|
    requires forall j :: 0 <= j < |ents| ==> ents[i].since <= ents[j].since
    requires forall j :: 0 <= j < i ==> ents[i].since < ents[j].since
    ensures Oldest(ents) == i
  {
  }

  // ---- what one add does to the entries in force -----------------------------------------

  /** No key twice. */
  ghost predicate Unique(ents: seq<Ent>) {
    forall i, j :: 0 <= i < j < |ents| && ents[i].key != "" ==> ents[i].key != ents[j].key
  }

  /** Every slot is in force for another key. */
  ghost predicate FullOfOthers(ents: seq<Ent>, key: string, now: int) {
    forall i :: 0 <= i < |ents| ==> LiveEnt(ents[i], now) && ents[i].key != key
  }

  lemma AddKeepsUnique(t: Table, key: string, now: int, ms: int)
    requires Unique(t.ents) && key != ""
    ensures Unique(IgnoreAdd(t, key, now, ms).0.ents)
  {
    var found := Found(t.ents, key, now);
    var ents := Swept(t.ents, found, now);
    assert Unique(ents);
    assert found == |t.ents| ==> forall i :: 0 <= i < |ents| ==> ents[i].key != key;
  }

  /** The entry an add gives up: the oldest of a table full of other keys in force, and
      only once that one has had more than its minute. */
  function GivenUp(t: Table, key: string, now: int): Option<Ent> {
    var ents := Swept(t.ents, Found(t.ents, key, now), now);
    if Found(t.ents, key, now) == |t.ents| && FreeSlot(ents) == |ents| && ents != []
       && now - ents[Oldest(ents)].since > QUIET_FILL_MS
    then Some(ents[Oldest(ents)]) else None
  }

  lemma NoFreeMeansFull(t: Table, key: string, now: int)
    requires Found(t.ents, key, now) == |t.ents|
    ensures var ents := Swept(t.ents, |t.ents|, now);
            FreeSlot(ents) == |ents| ==> FullOfOthers(t.ents, key, now) && ents == t.ents
  {
    var ents := Swept(t.ents, |t.ents|, now);
    if FreeSlot(ents) == |ents| {
      forall i | 0 <= i < |ents|
        ensures LiveEnt(t.ents[i], now) && ents[i] == t.ents[i]
      {
        assert ents[i].key != "";
      }
    }
  }

  /** An add puts its key in force and leaves every other entry in force as it was, save the
      one it gives up; when it fails, everything in force stays. */
  lemma AddMeans(t: Table, key: string, now: int, ms: int, e: Ent)
    requires Unique(t.ents) && key != "" && ms > 0
    ensures var (t', r) := IgnoreAdd(t, key, now, ms);
            && (e.key != key ==>
                  (Live(t'.ents, now, e) <==> Live(t.ents, now, e) && (r.Added? ==> Some(e) != GivenUp(t, key, now))))
            && (r.Added? ==> IgnoreFind(t', key, now + ms - 1) && !IgnoreFind(t', key, now + ms))
            && (r.Full? ==> GivenUp(t, key, now) == None && !IgnoreFind(t', key, now))
  {
    hide FreeSlot, Oldest, Found;
    var (t', r) := IgnoreAdd(t, key, now, ms);
    var found := Found(t.ents, key, now);
    var ents := Swept(t.ents, found, now);
    if found == |t.ents| {
      NoFreeMeansFull(t, key, now);
    }
    AddKeepsUnique(t, key, now, ms);
    SweptLive(t.ents, found, now, e);
    if r.Added? {
      var i := if found < |ents| then found else if FreeSlot(ents) < |ents| then FreeSlot(ents) else Oldest(ents);
      assert t'.ents == ents[i := Put(ents[i], key, now, ms)];
      if e.key != key {
        PutLive(ents, i, Put(ents[i], key, now, ms), now, e);
      }
      assert t'.ents[i] in t'.ents && t'.ents[i].key == key;
    }
  }

  lemma SweptLive(ents: seq<Ent>, stop: nat, now: int, e: Ent)
    requires stop <= |ents|
    ensures Live(Swept(ents, stop, now), now, e) <==> Live(ents, now, e)
  {
    var s := Swept(ents, stop, now);
    if Live(ents, now, e) {
      var i :| 0 <= i < |ents| && ents[i] == e;
      assert s[i] == e;
    }
    if Live(s, now, e) {
      var i :| 0 <= i < |s| && s[i] == e;
      assert ents[i] == e;
    }
  }

  lemma PutLive(ents: seq<Ent>, i: nat, p: Ent, now: int, e: Ent)
    requires Unique(ents) && i < |ents| && e.key != p.key
    ensures Live(ents[i := p], now, e) <==> Live(ents, now, e) && e != ents[i]
  {
    var r := ents[i := p];
    if Live(ents, now, e) && e != ents[i] {
      var j :| 0 <= j < |ents| && ents[j] == e;
      assert r[j] == e;
    }
    if Live(r, now, e) {
      var j :| 0 <= j < |r| && r[j] == e;
      assert ents[j] == e;
    }
  }

  /** When an entry is given up, the table was full of other keys in force and it was the
      oldest, more than a minute in it. */
  lemma GivenUpIsOldest(t: Table, key: string, now: int)
    requires GivenUp(t, key, now).Some?
    ensures var g := GivenUp(t, key, now).value;
            && FullOfOthers(t.ents, key, now) && g in t.ents && now - g.since > 60000
            && forall i :: 0 <= i < |t.ents| ==> g.since <= t.ents[i].since
  {
    NoFreeMeansFull(t, key, now);
  }

  /** Quiet mode begins exactly when every slot is in force for another key and was first
      added within the last minute. */
  lemma FullMeans(t: Table, key: string, now: int, ms: int)
    requires t.ents != []
    ensures IgnoreAdd(t, key, now, ms).1.Full? <==>
            FullOfOthers(t.ents, key, now) && forall i :: 0 <= i < |t.ents| ==> now - t.ents[i].since <= 60000
  {
    var found := Found(t.ents, key, now);
    var ents := Swept(t.ents, found, now);
    if found == |t.ents| {
      NoFreeMeansFull(t, key, now);
    }
    if FullOfOthers(t.ents, key, now) {
      NotFound(t.ents, key, now);
      assert ents == t.ents;
      NoFree(ents);
    }
  }

  // ---- runs --------------------------------------------------------------------------------

  datatype Call = Call(key: string, at: int)

  predicate ValidCalls(calls: seq<Call>) {
    forall c :: c in calls ==> c.key != ""
  }

  function Run(t: Table, calls: seq<Call>, ms: int): Table
    decreases |calls|
  {
    if calls == [] then t else Run(IgnoreAdd(t, calls[0].key, calls[0].at, ms).0, calls[1..], ms)
  }

  /** What an unbounded list would hold: per key the latest expiry. */
  function Unbounded(m: map<string, int>, calls: seq<Call>, ms: int): map<string, int>
    decreases |calls|
  {
    if calls == [] then m else Unbounded(m[calls[0].key := calls[0].at + ms], calls[1..], ms)
  }

  lemma {:induction false} RunKeepsUnique(t: Table, calls: seq<Call>, ms: int)
    requires Unique(t.ents) && ValidCalls(calls)
    ensures Unique(Run(t, calls, ms).ents)
    decreases |calls|
  {
    if calls != [] {
      assert calls[0] in calls && forall c :: c in calls[1..] ==> c in calls;
      AddKeepsUnique(t, calls[0].key, calls[0].at, ms);
      RunKeepsUnique(IgnoreAdd(t, calls[0].key, calls[0].at, ms).0, calls[1..], ms);
    }
  }

  /** Every entry stands for a key of the unbounded list, with its expiry. */
  ghost predicate Sound(t: Table, m: map<string, int>) {
    forall e :: e in t.ents && e.key != "" ==> e.key in m && m[e.key] >= e.until
  }

  predicate ClockFrom(now: int, calls: seq<Call>)
    decreases |calls|
  {
    calls == [] || (now <= calls[0].at && ClockFrom(calls[0].at, calls[1..]))
  }

  ghost predicate Ahead(m: map<string, int>, now: int, ms: int) {
    forall k :: k in m ==> m[k] <= now + ms
  }

  lemma StepSound(t: Table, m: map<string, int>, c: Call, ms: int, now: int)
    requires Sound(t, m) && Ahead(m, now, ms) && now <= c.at && c.key != ""
    ensures Sound(IgnoreAdd(t, c.key, c.at, ms).0, m[c.key := c.at + ms])
    ensures Ahead(m[c.key := c.at + ms], c.at, ms)
  {
    hide FreeSlot, Oldest, Found;
    var t' := IgnoreAdd(t, c.key, c.at, ms).0;
    var ents := Swept(t.ents, Found(t.ents, c.key, c.at), c.at);
    forall e | e in t'.ents && e.key != ""
      ensures e.key in m[c.key := c.at + ms] && m[c.key := c.at + ms][e.key] >= e.until
    {
      if e.key != c.key {
        var j :| 0 <= j < |t'.ents| && t'.ents[j] == e;
        assert t.ents[j] == e && t.ents[j] in t.ents;
      } else {
        var j :| 0 <= j < |t'.ents| && t'.ents[j] == e;
        assert e.until == c.at + ms || t.ents[j] == e;
        if e.until != c.at + ms {
          assert t.ents[j] in t.ents;
        }
      }
    }
  }

  /** Over any run with a clock that does not go back, nobody is ignored whom the unbounded
      list would not ignore. */
  lemma {:induction false} NobodyIgnoredTooLong(t: Table, m: map<string, int>, calls: seq<Call>, ms: int, now: int, key: string, at: int)
    requires Sound(t, m) && Ahead(m, now, ms) && ClockFrom(now, calls) && ValidCalls(calls)
    ensures IgnoreFind(Run(t, calls, ms), key, at) ==> key in Unbounded(m, calls, ms) && Unbounded(m, calls, ms)[key] > at
    decreases |calls|
  {
    if calls != [] {
      assert calls[0] in calls && forall c :: c in calls[1..] ==> c in calls;
      StepSound(t, m, calls[0], ms, now);
      NobodyIgnoredTooLong(IgnoreAdd(t, calls[0].key, calls[0].at, ms).0, m[calls[0].key := calls[0].at + ms],
                           calls[1..], ms, calls[0].at, key, at);
    }
  }
}
