/** When a flood trips, and what the trip tells: the tracker followed through one source's events. */
module FloodExact {
  import opened Text
  import opened FloodTracker

  /** The events of one source and kind, in order. */
  function Own(events: seq<Event>, host: string, kind: int): seq<Event> {
    if events == [] then []
    else
      var n := |events| - 1;
      Own(events[..n], host, kind) + if events[n].host == host && events[n].kind == kind then [events[n]] else []
  }

  /** The map after a run. */
  function After(m: map<string, Src>, events: seq<Event>): (r: map<string, Src>)
    requires ShapeMap(m) && ValidEvents(events)
    ensures ShapeMap(r)
  {
    if events == [] then m
    else
      var n := |events| - 1;
      assert events == events[..n] + [events[n]];
      Unbounded(After(m, events[..n]), events[n]).0
  }

  /** The window and the victim mark a source has for a kind after its own events. */
  function OwnWindow(es: seq<Event>): Window {
    if es == [] then CLOSED
    else
      var e := es[|es| - 1];
      WindowHit(OwnWindow(es[..|es| - 1]), e.n, e.s, e.now).0
  }

  function Tripped(es: seq<Event>): bool {
    es != [] && WindowHit(OwnWindow(es[..|es| - 1]), es[|es| - 1].n, es[|es| - 1].s, es[|es| - 1].now).1
  }

  function Victim(es: seq<Event>): bool {
    es != [] && !Tripped(es) && (Victim(es[..|es| - 1]) || es[|es| - 1].victimAuth)
  }

  lemma OwnMore(events: seq<Event>, e: Event, host: string, kind: int)
    ensures Own(events + [e], host, kind)
            == Own(events, host, kind) + if e.host == host && e.kind == kind then [e] else []
  {
    assert (events + [e])[..|events|] == events;
  }

  /** What is kept for a source and kind depends on its own events alone. */
  ghost predicate Follows(m: map<string, Src>, events: seq<Event>, host: string, kind: int)
    requires ShapeMap(m) && 0 <= kind < KINDS
  {
    var own := Own(events, host, kind);
    if host in m then m[host].w[kind] == OwnWindow(own) && (kind in m[host].victims <==> Victim(own))
    else own == []
  }

  lemma FollowOwn(m: map<string, Src>, events: seq<Event>, e: Event)
    requires ShapeMap(m) && ValidEvent(e) && Follows(m, events, e.host, e.kind)
    ensures Follows(Unbounded(m, e).0, events + [e], e.host, e.kind)
    ensures var own := Own(events + [e], e.host, e.kind);
            Unbounded(m, e).1 == if Tripped(own) then Some(Victim(Own(events, e.host, e.kind)) || e.victimAuth) else None
  {
    hide WindowHit, Own, OwnWindow, Victim, Tripped;
    OwnMore(events, e, e.host, e.kind);
    OwnStep(Own(events, e.host, e.kind), e);
    NothingOwn();
    assert FRESH_WINDOWS[e.kind] == CLOSED;
  }

  lemma FollowOther(m: map<string, Src>, events: seq<Event>, e: Event, host: string, kind: int)
    requires ShapeMap(m) && ValidEvent(e) && 0 <= kind < KINDS && Follows(m, events, host, kind)
    requires e.host != host || e.kind != kind
    ensures Follows(Unbounded(m, e).0, events + [e], host, kind)
  {
    hide WindowHit, Own, OwnWindow, Victim;
    OwnMore(events, e, host, kind);
    assert Own(events, host, kind) + [] == Own(events, host, kind);
    NothingOwn();
    assert FRESH_WINDOWS[kind] == CLOSED;
  }

  lemma OwnStep(own: seq<Event>, e: Event)
    ensures var hit := WindowHit(OwnWindow(own), e.n, e.s, e.now);
            && OwnWindow(own + [e]) == hit.0 && (Tripped(own + [e]) <==> hit.1)
            && (Victim(own + [e]) <==> !hit.1 && (Victim(own) || e.victimAuth))
  {
    hide WindowHit;
    assert (own + [e])[..|own|] == own;
  }

  lemma NothingOwn()
    ensures OwnWindow([]) == CLOSED && !Victim([])
  {
  }

  lemma {:induction false} FollowRun(events: seq<Event>, host: string, kind: int)
    requires ValidEvents(events) && 0 <= kind < KINDS
    ensures Follows(After(map[], events), events, host, kind)
  {
    if events != [] {
      var n := |events| - 1;
      assert events == events[..n] + [events[n]] && events[n] in events;
      FollowRun(events[..n], host, kind);
      if events[n].host == host && events[n].kind == kind {
        FollowOwn(After(map[], events[..n]), events[..n], events[n]);
      } else {
        FollowOther(After(map[], events[..n]), events[..n], events[n], host, kind);
      }
    }
  }

  lemma {:induction false} VerdictAt(m: map<string, Src>, past: seq<Event>, e: Event)
    requires ShapeMap(m) && ValidEvents(past + [e])
    ensures |RunUnbounded(m, past + [e])| == |past| + 1
    ensures ValidEvents(past) && RunUnbounded(m, past + [e])[|past|] == Unbounded(After(m, past), e).1
    decreases |past|
  {
    assert e in past + [e] && forall d :: d in past ==> d in past + [e];
    if past == [] {
      assert past + [e] == [e] && [e][1..] == [];
    } else {
      var step := Unbounded(m, past[0]);
      assert past[0] in past && (past + [e])[1..] == past[1..] + [e] && (past + [e])[0] == past[0];
      VerdictAt(step.0, past[1..], e);
      AfterFirst(m, past);
    }
  }

  lemma {:induction false} AfterFirst(m: map<string, Src>, events: seq<Event>)
    requires ShapeMap(m) && ValidEvents(events) && events != []
    ensures ValidEvent(events[0]) && ValidEvents(events[1..])
    ensures After(m, events) == After(Unbounded(m, events[0]).0, events[1..])
  {
    hide WindowHit;
    assert events[0] in events;
    var n := |events| - 1;
    if n == 0 {
      assert events[..0] == [] && events[1..] == [];
    } else {
      assert forall d :: d in events[..n] ==> d in events;
      AfterFirst(m, events[..n]);
      assert events[..n][1..] == events[1..][..n - 1];
    }
  }

  /** With a slot for every source, the verdict on an event follows from the source's own events. */
  lemma LastVerdict(slots: nat, past: seq<Event>, e: Event)
    requires slots > 0 && ValidEvents(past + [e]) && |Hosts(past + [e])| <= slots
    ensures |Run(Free(slots), past + [e]).1| == |past| + 1
    ensures Run(Free(slots), past + [e]).1[|past|]
            == if Tripped(Own(past + [e], e.host, e.kind)) then Some(Victim(Own(past, e.host, e.kind)) || e.victimAuth) else None
  {
    hide Run, RunUnbounded, After, Own, Tripped, Victim, Follows, Unbounded;
    assert e in past + [e];
    EnoughSlots(slots, past + [e]);
    VerdictAt(map[], past, e);
    FollowRun(past, e.host, e.kind);
    FollowOwn(After(map[], past), past, e);
  }

  // ---- a flood is noticed -------------------------------------------------------------------

  predicate Rising(es: seq<Event>) {
    forall i, j :: 0 <= i < j < |es| ==> es[i].now <= es[j].now
  }

  /** An open window opened no later than the last event. */
  lemma {:induction false} OpenedBefore(es: seq<Event>)
    requires Rising(es) && es != [] && OwnWindow(es).count > 0
    ensures OwnWindow(es).start <= es[|es| - 1].now
  {
    var n := |es| - 1;
    if OwnWindow(es[..n]).count > 0 && n > 0 {
      OpenedBefore(es[..n]);
    } else if n == 0 {
      assert es[..0] == [];
    }
  }

  /** The last k events of a source, with the same limits, come within the span, after none or a gap. */
  predicate Burst(es: seq<Event>, k: nat, n: int, s: int) {
    && 1 <= k <= |es|
    && (forall i :: |es| - k <= i < |es| ==> es[i].n == n && es[i].s == s)
    && es[|es| - 1].now - es[|es| - k].now < s * 1000
    && (k == |es| || es[|es| - k].now - es[|es| - k - 1].now >= s * 1000)
  }

  lemma {:induction false} BurstCounts(es: seq<Event>, k: nat, n: int, s: int)
    requires Rising(es) && Burst(es, k, n, s) && k <= n
    ensures OwnWindow(es) == Window(es[|es| - k].now, k) && !Tripped(es)
    decreases k
  {
    var m := |es| - 1;
    if k > 1 {
      BurstCounts(es[..m], k - 1, n, s);
    } else {
      FirstOfBurst(es, n, s);
    }
  }

  lemma FirstOfBurst(es: seq<Event>, n: int, s: int)
    requires Rising(es) && Burst(es, 1, n, s)
    ensures var before := OwnWindow(es[..|es| - 1]);
            before.count <= 0 || es[|es| - 1].now - before.start >= s * 1000
  {
    var m := |es| - 1;
    if m == 0 {
      assert es[..0] == [];
    } else if OwnWindow(es[..m]).count > 0 {
      OpenedBefore(es[..m]);
    }
  }

  lemma BurstTrips(es: seq<Event>, n: nat, s: int)
    requires Rising(es) && Burst(es, n + 1, n, s)
    ensures Tripped(es)
  {
    hide OwnWindow;
    var m := |es| - 1;
    if n > 0 {
      BurstCounts(es[..m], n, n, s);
    } else {
      FirstOfBurst(es, n, s);
    }
  }

  lemma {:induction false} OwnRises(events: seq<Event>, host: string, kind: int)
    requires Rising(events)
    ensures Rising(Own(events, host, kind)) && forall e :: e in Own(events, host, kind) ==> e in events
  {
    if events != [] {
      var n := |events| - 1;
      OwnRises(events[..n], host, kind);
      assert events == events[..n] + [events[n]];
      var before := Own(events[..n], host, kind);
      forall i | 0 <= i < |before| ensures before[i].now <= events[n].now {
        assert before[i] in events[..n];
      }
    }
  }

  /** With a slot for every source: when the first n + 1 events of a source and kind, or its first n + 1
      after a gap of the span or more, come within less than the span, the last of them trips. */
  lemma FloodIsNoticed(slots: nat, past: seq<Event>, e: Event)
    requires slots > 0 && ValidEvents(past + [e]) && |Hosts(past + [e])| <= slots && Rising(past + [e])
    requires e.n >= 0 && Burst(Own(past + [e], e.host, e.kind), e.n + 1, e.n, e.s)
    ensures |Run(Free(slots), past + [e]).1| == |past| + 1 && Run(Free(slots), past + [e]).1[|past|].Some?
  {
    hide Run, Own, Tripped, Victim;
    LastVerdict(slots, past, e);
    OwnRises(past + [e], e.host, e.kind);
    BurstTrips(Own(past + [e], e.host, e.kind), e.n, e.s);
  }

  // ---- what a trip tells -----------------------------------------------------------------------

  /** No event of the last k tripped, and before them there was none, or a trip. */
  predicate SinceTrip(es: seq<Event>, k: nat) {
    && k <= |es|
    && (k == |es| || Tripped(es[..|es| - k]))
    && (forall i :: |es| - k < i <= |es| ==> !Tripped(es[..i]))
  }

  lemma {:induction false} VictimSince(es: seq<Event>, k: nat)
    requires SinceTrip(es, k)
    ensures Victim(es) <==> exists i :: |es| - k <= i < |es| && es[i].victimAuth
    decreases k
  {
    hide Tripped;
    assert es[..|es|] == es;
    if k > 0 {
      var m := |es| - 1;
      forall i | 0 <= i <= m ensures es[..m][..i] == es[..i] {
      }
      VictimSince(es[..m], k - 1);
      assert forall i :: 0 <= i < m ==> es[..m][i] == es[i];
    }
  }

  /** A trip tells whether an authorised victim was seen in the events since the last trip of that
      source and kind. */
  lemma TripTells(slots: nat, past: seq<Event>, e: Event, k: nat)
    requires slots > 0 && ValidEvents(past + [e]) && |Hosts(past + [e])| <= slots
    requires SinceTrip(Own(past, e.host, e.kind), k)
    ensures |Run(Free(slots), past + [e]).1| == |past| + 1
    ensures var own, v := Own(past, e.host, e.kind), Run(Free(slots), past + [e]).1[|past|];
            v.Some? ==> (v.value <==> e.victimAuth || exists i :: |own| - k <= i < |own| && own[i].victimAuth)
  {
    hide Run, Own, Tripped, Victim;
    LastVerdict(slots, past, e);
    VictimSince(Own(past, e.host, e.kind), k);
  }

  // ---- who gives way -------------------------------------------------------------------------------

  /** An event of a source without a slot takes a free one, or in a full table that of the source whose last
      event is longest ago; no other source is touched, and the slot is stamped with the event. */
  lemma NewcomerTakes(flood: seq<Src>, e: Event)
    requires Shape(flood) && ValidEvent(e) && flood != [] && forall i :: 0 <= i < |flood| ==> flood[i].host != e.host
    ensures var r := TrackStep(flood, e).0;
            && |r| == |flood|
            && exists i :: 0 <= i < |flood| && r == flood[i := r[i]] && r[i].host == e.host && r[i].last == e.now
                           && (flood[i].host == "" || IdleLongest(flood, i))
  {
    var i := Place(flood, e.host);
    NoSlot(flood, e.host);
    var r := TrackStep(flood, e).0;
    assert r == flood[i := r[i]];
    if flood[i].host != "" {
      assert SlotOf(flood, "") == |flood|;
    }
  }

  predicate IdleLongest(flood: seq<Src>, i: nat) {
    i < |flood| && forall j :: 0 <= j < |flood| ==> flood[j].host != "" && flood[i].last <= flood[j].last
  }
}
