/** The flood tracker of a channel: a fixed number of sources, each with one counting
    window per kind of flood. */
module FloodTracker {
  import opened Text
  import opened Counting

  const KINDS := 7

  datatype Window = Window(start: int, count: int)

  /** An empty host is a free slot. */
  datatype Src = Src(host: string, last: int, w: seq<Window>, victims: set<int>)

  /** One counted event and the limits in force: more than n in s seconds. */
  datatype Event = Event(host: string, kind: int, victimAuth: bool, n: int, s: int, now: int)

  const CLOSED := Window(0, 0)
  const FRESH_WINDOWS := [CLOSED, CLOSED, CLOSED, CLOSED, CLOSED, CLOSED, CLOSED]

  predicate ValidEvent(e: Event) {
    e.host != "" && 0 <= e.kind < KINDS
  }

  predicate ValidEvents(events: seq<Event>) {
    forall e :: e in events ==> ValidEvent(e)
  }

  // ---- one window ------------------------------------------------------------------

  /** The window after the event, and whether it tripped. */
  function WindowHit(w: Window, n: int, s: int, now: int): (Window, bool) {
    var w1 := if w.count <= 0 || now - w.start >= s * 1000 then Window(now, 0) else w;
    if w1.count + 1 > n then (Window(0, 0), true) else (w1.(count := w1.count + 1), false)
  }

  /** A source after an event of its own; Some when it tripped, with whether an authorised
      victim was seen since the last trip of that kind. */
  function Hit(f: Src, e: Event): (Src, Option<bool>)
    requires |f.w| == KINDS && ValidEvent(e)
  {
    var victims := if e.victimAuth then f.victims + {e.kind} else f.victims;
    var (w, trip) := WindowHit(f.w[e.kind], e.n, e.s, e.now);
    var f' := f.(last := e.now, w := f.w[e.kind := w]);
    if trip then (f'.(victims := victims - {e.kind}), Some(e.kind in victims))
    else (f'.(victims := victims), None)
  }

  // ---- the table -------------------------------------------------------------------

  predicate Shape(flood: seq<Src>) {
    forall i :: 0 <= i < |flood| ==> |flood[i].w| == KINDS
  }

  /** The slot that holds `host`; the table size when none does. */
  function SlotOf(flood: seq<Src>, host: string): (i: nat)
    ensures i <= |flood|
    ensures i < |flood| ==> flood[i].host == host
    ensures forall j :: 0 <= j < i ==> flood[j].host != host
  {
    if flood == [] then 0 else if flood[0].host == host then 0 else 1 + SlotOf(flood[1..], host)
  }

  /** The first slot idle longest. */
  function Idlest(flood: seq<Src>): (i: nat)
    requires flood != []
    ensures i < |flood|
    ensures forall j :: 0 <= j < |flood| ==> flood[i].last <= flood[j].last
    ensures forall j :: 0 <= j < i ==> flood[i].last < flood[j].last
  {
    if |flood| == 1 then 0
    else
      var r := 1 + Idlest(flood[1..]);
      assert forall j :: 1 <= j < |flood| ==> flood[1..][j - 1] == flood[j];
      if flood[r].last < flood[0].last then r else 0
  }

  /** The slot an event of `host` uses: its own, the first free one, the one idle longest. */
  function Place(flood: seq<Src>, host: string): (i: nat)
    requires flood != []
    ensures i < |flood|
  {
    var own, free := SlotOf(flood, host), SlotOf(flood, "");
    if own < |flood| then own else if free < |flood| then free else Idlest(flood)
  }

  function Source(flood: seq<Src>, host: string): Src
    requires flood != []
  {
    var i := Place(flood, host);
    if flood[i].host == host then flood[i] else Src(host, 0, FRESH_WINDOWS, {})
  }

  function TrackStep(flood: seq<Src>, e: Event): (seq<Src>, Option<bool>)
    requires Shape(flood) && ValidEvent(e)
  {
    if flood == [] then (flood, None)
    else
      var (f, verdict) := Hit(Source(flood, e.host), e);
      (flood[Place(flood, e.host) := f], verdict)
  }

  method Scan(flood: array<Src>, host: string) returns (slot: Option<nat>)
    requires host != ""
    ensures flood.Length == 0 <==> slot.None?
    ensures slot.Some? ==> slot.value == Place(flood[..], host)
  {
    var free: Option<nat>, oldest: Option<nat> := None, None;
    var i := 0;
    while i < flood.Length
      invariant 0 <= i <= flood.Length
      invariant forall j :: 0 <= j < i ==> flood[j].host != host
      invariant free.Some? ==> free.value < i && flood[free.value].host == ""
      invariant forall j :: 0 <= j < i && (free.None? || j < free.value) ==> flood[j].host != ""
      invariant oldest.None? ==> forall j :: 0 <= j < i ==> flood[j].host == ""
      invariant oldest.Some? ==> oldest.value < i && flood[oldest.value].host != ""
      invariant oldest.Some? ==> forall j :: 0 <= j < i && flood[j].host != "" ==> flood[oldest.value].last <= flood[j].last
      invariant oldest.Some? ==> forall j :: 0 <= j < oldest.value && flood[j].host != "" ==> flood[oldest.value].last < flood[j].last
    {
      var f := flood[i];
      if f.host == "" {
        if free.None? {
          free := Some(i);
        }
      } else if f.host == host {
        return Some(i);
      } else if oldest.None? || f.last < flood[oldest.value].last {
        oldest := Some(i);
      }
      i := i + 1;
    }
    NoSlot(flood[..], host);
    if free.Some? {
      return free;
    }
    NoSlot(flood[..], "");
    slot := oldest;
  }

  /** The tracker step on the table itself. */
  method Track(flood: array<Src>, e: Event) returns (verdict: Option<bool>)
    requires Shape(flood[..]) && ValidEvent(e)
    modifies flood
    ensures (flood[..], verdict) == TrackStep(old(flood[..]), e)
  {
    var slot := Scan(flood, e.host);
    if slot.None? {
      return None;
    }
    var i := slot.value;
    ghost var before := flood[..];
    if flood[i].host != e.host {
      flood[i] := Src(e.host, 0, FRESH_WINDOWS, {});
    }
    var f := flood[i].(last := e.now);
    if e.victimAuth {
      f := f.(victims := f.victims + {e.kind});
    }
    var (w, trip) := WindowHit(f.w[e.kind], e.n, e.s, e.now);
    f := f.(w := f.w[e.kind := w]);
    if !trip {
      flood[i] := f;
      assert flood[..] == before[i := f];
      return None;
    }
    var a := e.kind in f.victims;
    f := f.(victims := f.victims - {e.kind});
    flood[i] := f;
    assert flood[..] == before[i := f];
    verdict := Some(a);
  }

  lemma {:induction false} NoSlot(flood: seq<Src>, host: string)
    requires forall j :: 0 <= j < |flood| ==> flood[j].host != host
    ensures SlotOf(flood, host) == |flood|
  {
  }

  // ---- runs ------------------------------------------------------------------------

  function Run(flood: seq<Src>, events: seq<Event>): (seq<Src>, seq<Option<bool>>)
    requires Shape(flood) && ValidEvents(events)
    decreases |events|
  {
    if events == [] then (flood, [])
    else
      var step := TrackStep(flood, events[0]);
      var rest := Run(step.0, events[1..]);
      (rest.0, [step.1] + rest.1)
  }

  function Free(slots: nat): (flood: seq<Src>)
    ensures |flood| == slots && Shape(flood)
  {
    seq(slots, _ => Src("", 0, FRESH_WINDOWS, {}))
  }

  // ---- the unbounded tracker ---------------------------------------------------------

  predicate ShapeMap(m: map<string, Src>) {
    forall h :: h in m ==> |m[h].w| == KINDS
  }

  /** What a source remembers, with no table around it. */
  function Unbounded(m: map<string, Src>, e: Event): (map<string, Src>, Option<bool>)
    requires ValidEvent(e) && ShapeMap(m)
  {
    var (f, v) := Hit(if e.host in m then m[e.host] else Src(e.host, 0, FRESH_WINDOWS, {}), e);
    (m[e.host := f], v)
  }

  function RunUnbounded(m: map<string, Src>, events: seq<Event>): seq<Option<bool>>
    requires ValidEvents(events) && ShapeMap(m)
    decreases |events|
  {
    if events == [] then []
    else
      var step := Unbounded(m, events[0]);
      [step.1] + RunUnbounded(step.0, events[1..])
  }

  function Hosts(events: seq<Event>): set<string> {
    set e | e in events :: e.host
  }

  /** The table holds the map: one slot a host, the rest free. */
  ghost predicate Holds(flood: seq<Src>, m: map<string, Src>) {
    && (forall i :: 0 <= i < |flood| && flood[i].host != "" ==> flood[i].host in m && m[flood[i].host] == flood[i])
    && (forall h :: h in m ==> h != "" && |m[h].w| == KINDS && exists i :: 0 <= i < |flood| && flood[i].host == h)
    && (forall i, j :: 0 <= i < j < |flood| && flood[i].host != "" ==> flood[i].host != flood[j].host)
  }

  /** A full table holds as many hosts as it has slots. */
  lemma FullTable(flood: seq<Src>, m: map<string, Src>)
    requires Holds(flood, m) && forall i :: 0 <= i < |flood| ==> flood[i].host != ""
    ensures |m.Keys| == |flood|
  {
    var hosts := seq(|flood|, i requires 0 <= i < |flood| => flood[i].host);
    assert AllDiffer(hosts);
    DistinctSize(hosts);
    var all := set h | h in hosts;
    assert forall i :: 0 <= i < |flood| ==> hosts[i] in m;
    forall h | h in m
      ensures h in all
    {
      var i :| 0 <= i < |flood| && flood[i].host == h;
      assert hosts[i] == h;
    }
    assert all == m.Keys;
  }

  /** With room for every source the slot is the source's own or a free one. */
  lemma NoEviction(flood: seq<Src>, m: map<string, Src>, host: string, all: set<string>)
    requires Shape(flood) && Holds(flood, m) && host != "" && flood != []
    requires m.Keys <= all && host in all && |all| <= |flood|
    ensures var i := Place(flood, host);
            && (flood[i].host == host || flood[i].host == "")
            && (host in m <==> flood[i].host == host)
            && Source(flood, host) == if host in m then m[host] else Src(host, 0, FRESH_WINDOWS, {})
  {
    if SlotOf(flood, host) == |flood| {
      assert host !in m;
      if SlotOf(flood, "") == |flood| {
        FullTable(flood, m);
        SubsetSize(m.Keys + {host}, all);
      }
    }
  }

  lemma PutHolds(flood: seq<Src>, m: map<string, Src>, i: nat, f: Src)
    requires Holds(flood, m) && i < |flood| && f.host != "" && |f.w| == KINDS
    requires flood[i].host == f.host || (flood[i].host == "" && f.host !in m)
    ensures Holds(flood[i := f], m[f.host := f])
  {
    var flood', m' := flood[i := f], m[f.host := f];
    forall h | h in m'
      ensures exists j :: 0 <= j < |flood'| && flood'[j].host == h
    {
      if h == f.host {
        assert flood'[i].host == h;
      } else {
        var j :| 0 <= j < |flood| && flood[j].host == h;
        assert flood'[j] == flood[j];
      }
    }
  }

  lemma StepHolds(flood: seq<Src>, m: map<string, Src>, e: Event, all: set<string>)
    requires Shape(flood) && Holds(flood, m) && ValidEvent(e) && flood != []
    requires m.Keys <= all && e.host in all && |all| <= |flood|
    ensures TrackStep(flood, e).1 == Unbounded(m, e).1 && Holds(TrackStep(flood, e).0, Unbounded(m, e).0)
  {
    NoEviction(flood, m, e.host, all);
    PutHolds(flood, m, Place(flood, e.host), Hit(Source(flood, e.host), e).0);
  }

  /** With no more sources than slots the table gives the verdicts of the unbounded map. */
  lemma {:induction false} RunsAlike(flood: seq<Src>, m: map<string, Src>, events: seq<Event>, all: set<string>)
    requires Shape(flood) && Holds(flood, m) && flood != [] && ValidEvents(events)
    requires m.Keys <= all && Hosts(events) <= all && |all| <= |flood|
    ensures Run(flood, events).1 == RunUnbounded(m, events)
    decreases |events|
  {
    if events != [] {
      assert events[0] in events && forall e :: e in events[1..] ==> e in events;
      assert events[0].host in Hosts(events);
      StepHolds(flood, m, events[0], all);
      RunsAlike(TrackStep(flood, events[0]).0, Unbounded(m, events[0]).0, events[1..], all);
    }
  }

  lemma EnoughSlots(slots: nat, events: seq<Event>)
    requires slots > 0 && ValidEvents(events) && |Hosts(events)| <= slots
    ensures Run(Free(slots), events).1 == RunUnbounded(map[], events)
  {
    RunsAlike(Free(slots), map[], events, Hosts(events));
  }

  // ---- what a trip means, evictions included -------------------------------------------

  /** Events of `host` and `kind` at or after `from`. */
  function CountFrom(events: seq<Event>, host: string, kind: int, from: int): nat {
    if events == [] then 0
    else
      var e := events[|events| - 1];
      CountFrom(events[..|events| - 1], host, kind, from)
      + if e.host == host && e.kind == kind && e.now >= from then 1 else 0
  }

  /** No window of a source claims more events than there were since it opened, and none
      opened after `t`. */
  ghost predicate SourceBacked(f: Src, past: seq<Event>, t: int) {
    && |f.w| == KINDS
    && forall k :: 0 <= k < KINDS && f.w[k].count > 0 ==>
         f.w[k].start <= t && f.w[k].count <= CountFrom(past, f.host, k, f.w[k].start)
  }

  ghost predicate Backed(flood: seq<Src>, past: seq<Event>, t: int) {
    forall i :: 0 <= i < |flood| && flood[i].host != "" ==> SourceBacked(flood[i], past, t)
  }

  /** At least n + 1 events of the source and kind, the last just now, less than s seconds
      before it. */
  ghost predicate RealFlood(past: seq<Event>, e: Event) {
    exists from :: e.now - e.s * 1000 < from && CountFrom(past, e.host, e.kind, from) >= e.n + 1
  }

  lemma CountMore(past: seq<Event>, e: Event, host: string, kind: int, from: int)
    ensures CountFrom(past + [e], host, kind, from) ==
            CountFrom(past, host, kind, from) + if e.host == host && e.kind == kind && e.now >= from then 1 else 0
  {
    assert (past + [e])[..|past|] == past;
  }

  lemma HitBacked(f: Src, past: seq<Event>, e: Event, t: int)
    requires SourceBacked(f, past, t) && f.host == e.host && ValidEvent(e) && e.s > 0 && t <= e.now
    ensures SourceBacked(Hit(f, e).0, past + [e], e.now)
    ensures Hit(f, e).1.Some? ==> RealFlood(past + [e], e)
  {
    CountMore(past, e, e.host, e.kind, f.w[e.kind].start);
    CountMore(past, e, e.host, e.kind, e.now);
  }

  lemma StepBacked(flood: seq<Src>, past: seq<Event>, e: Event, t: int)
    requires Shape(flood) && Backed(flood, past, t) && ValidEvent(e) && e.s > 0 && t <= e.now
    ensures Backed(TrackStep(flood, e).0, past + [e], e.now)
    ensures TrackStep(flood, e).1.Some? ==> RealFlood(past + [e], e)
  {
    if flood != [] {
      var i, f := Place(flood, e.host), Source(flood, e.host);
      assert SourceBacked(f, past, t);
      HitBacked(f, past, e, t);
      var flood' := flood[i := Hit(f, e).0];
      forall j | 0 <= j < |flood'| && flood'[j].host != ""
        ensures SourceBacked(flood'[j], past + [e], e.now)
      {
      }
    }
  }

  predicate ClockFrom(t: int, events: seq<Event>)
    decreases |events|
  {
    events == [] || (t <= events[0].now && ClockFrom(events[0].now, events[1..]))
  }

  predicate PositiveSpans(events: seq<Event>) {
    forall e :: e in events ==> e.s > 0
  }

  /** Every trip of a run, whoever was evicted before it, is a real flood. */
  lemma {:induction false} TripsAreFloods(flood: seq<Src>, past: seq<Event>, events: seq<Event>, t: int, i: nat)
    requires Shape(flood) && Backed(flood, past, t) && ClockFrom(t, events) && i < |events|
    requires ValidEvents(events) && PositiveSpans(events)
    ensures |Run(flood, events).1| == |events|
    ensures Run(flood, events).1[i].Some? ==> RealFlood(past + events[..i + 1], events[i])
    decreases |events|
  {
    var e, rest := events[0], events[1..];
    assert e in events && forall d :: d in rest ==> d in events;
    StepBacked(flood, past, e, t);
    RunLength(flood, events);
    if i == 0 {
      assert events[..1] == [e];
    } else {
      var step := TrackStep(flood, e);
      TripsAreFloods(step.0, past + [e], rest, e.now, i - 1);
      Shifted(past, events, i);
      assert Run(flood, events).1 == [step.1] + Run(step.0, rest).1;
    }
  }

  lemma Shifted(past: seq<Event>, events: seq<Event>, i: nat)
    requires 0 < i < |events|
    ensures past + events[..i + 1] == past + [events[0]] + events[1..][..i] && events[1..][i - 1] == events[i]
  {
  }

  lemma {:induction false} RunLength(flood: seq<Src>, events: seq<Event>)
    requires Shape(flood) && ValidEvents(events)
    ensures |Run(flood, events).1| == |events|
    decreases |events|
  {
    if events != [] {
      assert events[0] in events && forall d :: d in events[1..] ==> d in events;
      RunLength(TrackStep(flood, events[0]).0, events[1..]);
    }
  }
}
