/** Who is ignored, exactly, while the table has a place for everybody. */
module IgnoreExact {
  import opened Text
  import opened Counting
  import opened IgnoreTable

  /** The table the program starts with: 64 free places. */
  lemma StartsFree()
    ensures |START.ents| == 64 && Unique(START.ents) && START.quietUntil == 0 && !START.quietLogged
    ensures forall key, at :: !IgnoreFind(START, key, at)
  {
  }

  /** The entry of a key says when it was first ignored without a break, and until when. */
  lemma AddStamps(t: Table, key: string, now: int, ms: int)
    requires Unique(t.ents) && key != "" && ms > 0 && IgnoreAdd(t, key, now, ms).1.Added?
    ensures var f := Found(t.ents, key, now);
            Live(IgnoreAdd(t, key, now, ms).0.ents, now,
                 Ent(key, if f < |t.ents| then t.ents[f].since else now, now + ms))
  {
    hide FreeSlot, Oldest, Found;
    var t' := IgnoreAdd(t, key, now, ms).0;
    var found := Found(t.ents, key, now);
    var ents := Swept(t.ents, found, now);
    var i := if found < |ents| then found else if FreeSlot(ents) < |ents| then FreeSlot(ents) else Oldest(ents);
    assert t'.ents == ents[i := Put(ents[i], key, now, ms)];
    if found == |ents| {
      SweptOthers(t.ents, key, now, i);
    }
    assert t'.ents[i] in t'.ents;
  }

  lemma SweptOthers(ents: seq<Ent>, key: string, now: int, i: nat)
    requires Found(ents, key, now) == |ents| && i < |ents| && key != ""
    ensures Swept(ents, |ents|, now)[i].key != key
  {
  }

  /** At any time from now on, exactly those are ignored whom the unbounded list ignores. */
  ghost predicate Agrees(t: Table, m: map<string, int>, now: int) {
    forall key, at :: at >= now ==> (IgnoreFind(t, key, at) <==> key in m && m[key] > at)
  }

  function Keys(calls: seq<Call>): set<string> {
    set c | c in calls :: c.key
  }

  /** With a place for everybody the table is never full of others. */
  lemma PlaceLeft(t: Table, m: map<string, int>, key: string, now: int, all: set<string>)
    requires Unique(t.ents) && Agrees(t, m, now) && m.Keys <= all && key in all && |all| <= |t.ents|
    ensures !FullOfOthers(t.ents, key, now)
  {
    if FullOfOthers(t.ents, key, now) {
      var keys := seq(|t.ents|, i requires 0 <= i < |t.ents| => t.ents[i].key);
      DistinctSize(keys);
      var have := set k | k in keys;
      forall k | k in have ensures k in all && k != key {
        var i :| 0 <= i < |keys| && keys[i] == k;
        assert t.ents[i] in t.ents && IgnoreFind(t, k, now);
      }
      assert |have + {key}| == |have| + 1;
      SubsetSize(have + {key}, all);
    }
  }

  lemma FindLater(t: Table, key: string, at: int, later: int)
    requires at <= later && IgnoreFind(t, key, later)
    ensures IgnoreFind(t, key, at)
  {
  }

  lemma StepAgrees(t: Table, m: map<string, int>, c: Call, ms: int, now: int, all: set<string>)
    requires Unique(t.ents) && Agrees(t, m, now) && ms > 0 && now <= c.at && c.key != ""
    requires m.Keys <= all && c.key in all && |all| <= |t.ents|
    ensures Agrees(IgnoreAdd(t, c.key, c.at, ms).0, m[c.key := c.at + ms], c.at)
  {
    hide IgnoreAdd, GivenUp, Unique, FullOfOthers;
    var t' := IgnoreAdd(t, c.key, c.at, ms).0;
    PlaceLeft(t, m, c.key, c.at, all);
    AddsIn(t, c.key, c.at, ms);
    forall key, at | at >= c.at
      ensures IgnoreFind(t', key, at) <==> key in m[c.key := c.at + ms] && m[c.key := c.at + ms][key] > at
    {
      if key == c.key {
        KeyStands(t, c.key, c.at, ms, at);
      } else {
        OthersStand(t, c.key, c.at, ms, key, at);
      }
    }
  }

  lemma AddsIn(t: Table, key: string, now: int, ms: int)
    requires t.ents != [] && !FullOfOthers(t.ents, key, now)
    ensures IgnoreAdd(t, key, now, ms).1.Added? && GivenUp(t, key, now).None?
  {
    hide FullOfOthers, IgnoreAdd, GivenUp;
    FullMeans(t, key, now, ms);
    if GivenUp(t, key, now).Some? {
      GivenUpIsOldest(t, key, now);
    }
    AddedOrFull(t, key, now, ms);
  }

  lemma AddedOrFull(t: Table, key: string, now: int, ms: int)
    ensures IgnoreAdd(t, key, now, ms).1.Added? <==> !IgnoreAdd(t, key, now, ms).1.Full?
  {
  }

  lemma KeyStands(t: Table, key: string, now: int, ms: int, at: int)
    requires Unique(t.ents) && key != "" && ms > 0 && now <= at && IgnoreAdd(t, key, now, ms).1.Added?
    ensures IgnoreFind(IgnoreAdd(t, key, now, ms).0, key, at) <==> now + ms > at
  {
    hide IgnoreAdd, GivenUp, Unique, IgnoreFind;
    AddMeans(t, key, now, ms, Ent("", 0, 0));
    var t' := IgnoreAdd(t, key, now, ms).0;
    if at < now + ms {
      FindLater(t', key, at, now + ms - 1);
    } else if IgnoreFind(t', key, at) {
      FindLater(t', key, now + ms, at);
    }
  }

  lemma OthersStand(t: Table, key: string, now: int, ms: int, other: string, at: int)
    requires Unique(t.ents) && key != "" && ms > 0 && now <= at && other != key
    requires IgnoreAdd(t, key, now, ms).1.Added? && GivenUp(t, key, now).None?
    ensures IgnoreFind(IgnoreAdd(t, key, now, ms).0, other, at) <==> IgnoreFind(t, other, at)
  {
    hide IgnoreAdd, GivenUp, Unique;
    var t' := IgnoreAdd(t, key, now, ms).0;
    forall e: Ent | e.key == other ensures Live(t'.ents, now, e) <==> Live(t.ents, now, e) {
      AddMeans(t, key, now, ms, e);
    }
    if IgnoreFind(t', other, at) {
      var e :| e in t'.ents && LiveEnt(e, at) && e.key == other;
      assert Live(t'.ents, now, e);
    }
    if IgnoreFind(t, other, at) {
      var e :| e in t.ents && LiveEnt(e, at) && e.key == other;
      assert Live(t.ents, now, e);
    }
  }

  lemma AddKeepsSize(t: Table, key: string, now: int, ms: int)
    ensures |IgnoreAdd(t, key, now, ms).0.ents| == |t.ents|
  {
  }

  lemma {:induction false} RunAgrees(t: Table, m: map<string, int>, calls: seq<Call>, ms: int, now: int, end: int, all: set<string>)
    requires Unique(t.ents) && Agrees(t, m, now) && ms > 0 && ClockFrom(now, calls) && ValidCalls(calls)
    requires m.Keys <= all && Keys(calls) <= all && |all| <= |t.ents|
    requires now <= end && forall c :: c in calls ==> c.at <= end
    ensures Agrees(Run(t, calls, ms), Unbounded(m, calls, ms), end)
    decreases |calls|
  {
    hide IgnoreAdd, Unique;
    if calls != [] {
      var c, rest := calls[0], calls[1..];
      assert c in calls && c.key in Keys(calls) && forall d :: d in rest ==> d in calls;
      StepAgrees(t, m, c, ms, now, all);
      AddKeepsUnique(t, c.key, c.at, ms);
      AddKeepsSize(t, c.key, c.at, ms);
      RunAgrees(IgnoreAdd(t, c.key, c.at, ms).0, m[c.key := c.at + ms], rest, ms, c.at, end, all);
    }
  }

  /** Over any run with no more keys than places, at any time after it: a key is ignored exactly when its
      last add is less than the ignore time ago. */
  lemma IgnoredExactly(calls: seq<Call>, ms: int, key: string, at: int)
    requires ms > 0 && ClockFrom(0, calls) && ValidCalls(calls) && |Keys(calls)| <= 64
    requires 0 <= at && forall c :: c in calls ==> c.at <= at
    ensures IgnoreFind(Run(START, calls, ms), key, at)
            <==> exists i :: LastAdd(calls, key, i) && at < calls[i].at + ms
  {
    StartsFree();
    RunAgrees(START, map[], calls, ms, 0, at, Keys(calls));
    UnboundedIs(map[], calls, ms, key);
  }

  predicate LastAdd(calls: seq<Call>, key: string, i: int) {
    0 <= i < |calls| && calls[i].key == key && forall j :: i < j < |calls| ==> calls[j].key != key
  }

  lemma {:induction false} UnboundedIs(m: map<string, int>, calls: seq<Call>, ms: int, key: string)
    ensures forall i :: LastAdd(calls, key, i) ==> key in Unbounded(m, calls, ms) && Unbounded(m, calls, ms)[key] == calls[i].at + ms
    ensures (forall i :: !LastAdd(calls, key, i)) ==>
              (key in Unbounded(m, calls, ms) <==> key in m)
              && (key in m ==> Unbounded(m, calls, ms)[key] == m[key])
    decreases |calls|
  {
    if calls != [] {
      var m', rest := m[calls[0].key := calls[0].at + ms], calls[1..];
      UnboundedIs(m', rest, ms, key);
      forall i ensures LastAdd(rest, key, i) ==> LastAdd(calls, key, i + 1) {
      }
      if forall i :: !LastAdd(rest, key, i) {
        NeverAdded(rest, key);
        if calls[0].key == key {
          assert LastAdd(calls, key, 0);
        }
      }
    }
  }

  lemma {:induction false} NeverAdded(calls: seq<Call>, key: string)
    requires forall i :: !LastAdd(calls, key, i)
    ensures forall i :: 0 <= i < |calls| ==> calls[i].key != key
  {
    if calls != [] {
      var n := |calls| - 1;
      assert !LastAdd(calls, key, n);
      forall i ensures !LastAdd(calls[..n], key, i) {
        assert LastAdd(calls[..n], key, i) ==> LastAdd(calls, key, i);
      }
      NeverAdded(calls[..n], key);
      forall i | 0 <= i < |calls| ensures calls[i].key != key {
        assert i < n ==> calls[..n][i] == calls[i];
      }
    }
  }
}
