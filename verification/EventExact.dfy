/** Exactly which channel events reach the hub, over whole runs. */
module EventExact {
  import opened Text
  import opened Numbers
  import opened EventLimiter
  import opened EventRuns

  /** What an event is about: the channel, the action and the target as it is shown. */
  datatype What = What(chan: string, action: string, target: string)

  function WhatOf(c: Call): What {
    What(c.chan, c.action, Clean(121, c.target))
  }

  /** The same event: equal but for the case of letters. */
  predicate SameWhat(a: What, b: What) {
    SameButCase(a.chan, b.chan) && SameButCase(a.action, b.action) && SameButCase(a.target, b.target)
  }

  /** An event of a channel with a known action and somebody it is about, while the hub is there. */
  predicate Proper(c: Call) {
    && 1 <= |c.chan| < 65 && (c.chan[0] == '#' || c.chan[0] == '&')
    && c.action in {"deop", "reop", "kick", "ban", "unban", "moderevert", "limit", "floodtrip", "ignore"}
    && c.target != "" && c.ready
  }

  lemma ProperExactly(c: Call)
    ensures Admissible(c) <==> Proper(c)
  {
    var a := ACTIONS;
    assert a == ["deop", "reop", "kick", "ban", "unban", "moderevert", "limit", "floodtrip", "ignore"];
  }

  // ---- the key tells the event ------------------------------------------------------------

  function KeyText(w: What): string {
    Lower(w.chan + "|" + w.action + "|" + w.target)
  }

  lemma LowerBar(s: string)
    requires '|' !in s
    ensures '|' !in Lower(s)
  {
    forall i | 0 <= i < |s| ensures Lower(s)[i] != '|' {
      assert s[i] in s;
    }
  }

  lemma LowerConcat(a: string, b: string)
    ensures Lower(a + b) == Lower(a) + Lower(b)
  {
  }

  lemma LastBar(a: string, b: string)
    requires '|' !in b
    ensures forall k :: |a| < k < |a + "|" + b| ==> (a + "|" + b)[k] != '|'
  {
    forall k | |a| < k < |a + "|" + b| ensures (a + "|" + b)[k] != '|' {
      assert (a + "|" + b)[k] == b[k - |a| - 1];
    }
  }

  /** What follows the last bar is the same in equal texts. */
  lemma LastPart(a: string, b: string, c: string, d: string)
    requires '|' !in b && '|' !in d && a + "|" + b == c + "|" + d
    ensures a == c && b == d
  {
    var s, t := a + "|" + b, c + "|" + d;
    assert s[|a|] == '|' && t[|c|] == '|';
    LastBar(a, b);
    LastBar(c, d);
    assert a == s[..|a|] && c == t[..|c|] && b == s[|a| + 1..] && d == t[|c| + 1..];
  }

  lemma LowerKey(w: What)
    ensures KeyText(w) == Lower(w.chan) + "|" + Lower(w.action) + "|" + Lower(w.target)
  {
    LowerConcat(w.chan + "|" + w.action + "|", w.target);
    LowerConcat(w.chan + "|" + w.action, "|");
    LowerConcat(w.chan + "|", w.action);
    LowerConcat(w.chan, "|");
  }

  predicate BarFree(w: What) {
    '|' !in w.action && '|' !in w.target
  }

  lemma KeyTells(a: What, b: What)
    requires BarFree(a) && BarFree(b)
    ensures KeyText(a) == KeyText(b) <==> SameWhat(a, b)
  {
    LowerKey(a);
    LowerKey(b);
    EqIcExactly(a.chan, b.chan);
    EqIcExactly(a.action, b.action);
    EqIcExactly(a.target, b.target);
    LowerBar(a.action);
    LowerBar(a.target);
    LowerBar(b.action);
    LowerBar(b.target);
    if KeyText(a) == KeyText(b) {
      LastPart(Lower(a.chan) + "|" + Lower(a.action), Lower(a.target), Lower(b.chan) + "|" + Lower(b.action), Lower(b.target));
      LastPart(Lower(a.chan), Lower(a.action), Lower(b.chan), Lower(b.action));
    }
  }

  lemma ActionsBarFree(action: string)
    requires action in {"deop", "reop", "kick", "ban", "unban", "moderevert", "limit", "floodtrip", "ignore"}
    ensures '|' !in action
  {
  }

  lemma CallBarFree(c: Call)
    requires Admissible(c)
    ensures BarFree(WhatOf(c)) && KeyOf(c) == KeyText(WhatOf(c))
  {
    ProperExactly(c);
    ActionsBarFree(c.action);
    var t := Clean(121, c.target);
    assert forall i :: 0 <= i < |t| ==> t[i] != '|';
  }

  // ---- what was sent -----------------------------------------------------------------------

  /** The frames of a run: an event, or None for a summary; and when. */
  datatype Frame = Frame(at: int, what: Option<What>)

  function FramesOf(c: Call, v: Verdict): seq<Frame> {
    if !v.Told? then []
    else [Frame(c.at, Some(WhatOf(c)))] + (if v.summary.Some? then [Frame(c.at, None)] else [])
  }

  function Log(h: History, calls: seq<Call>): seq<Frame>
    requires Shape(h.lim) && |h.slotSend| == TRACK
    decreases |calls|
  {
    if calls == [] then [] else FramesOf(calls[0], ChanEvent(h.lim, calls[0]).1) + Log(Next(h, calls[0]), calls[1..])
  }

  ghost predicate Records(sends: seq<Send>, log: seq<Frame>) {
    && |sends| == |log|
    && forall k :: 0 <= k < |log| ==>
         && sends[k].at == log[k].at
         && (log[k].what.None? ==> sends[k].key.None?)
         && (log[k].what.Some? ==> BarFree(log[k].what.value) && sends[k].key == Some(KeyText(log[k].what.value)))
  }

  lemma RecordsConcat(a: seq<Send>, b: seq<Send>, x: seq<Frame>, y: seq<Frame>)
    requires Records(a, x) && Records(b, y)
    ensures Records(a + b, x + y)
  {
  }

  lemma NextRecords(h: History, c: Call)
    requires Shape(h.lim) && |h.slotSend| == TRACK
    ensures var sends := Next(h, c).sends;
            h.sends <= sends && Records(sends[|h.sends|..], FramesOf(c, ChanEvent(h.lim, c).1))
  {
    var v := ChanEvent(h.lim, c).1;
    if v.Told? {
      CallBarFree(c);
      var sends := Next(h, c).sends;
      assert sends[|h.sends|..] == [Send(c.at, Some(KeyOf(c)))] + SummarySend(c.at, v);
    }
  }

  lemma {:induction false} RunRecords(h: History, calls: seq<Call>, log: seq<Frame>)
    requires Shape(h.lim) && |h.slotSend| == TRACK && Records(h.sends, log)
    ensures Records(Run(h, calls).sends, log + Log(h, calls))
    decreases |calls|
  {
    hide Records, Next, FramesOf, ChanEvent;
    if calls == [] {
      assert log + [] == log;
    } else {
      var c := calls[0];
      var more, next := FramesOf(c, ChanEvent(h.lim, c).1), Next(h, c);
      NextRecords(h, c);
      RecordsConcat(h.sends, next.sends[|h.sends|..], log, more);
      assert h.sends + next.sends[|h.sends|..] == next.sends;
      RunRecords(next, calls[1..], log + more);
      assert log + more + Log(next, calls[1..]) == log + (more + Log(next, calls[1..]));
    }
  }

  lemma SentRecords(calls: seq<Call>)
    ensures Records(Run(FIRST, calls).sends, Log(FIRST, calls))
  {
    RunRecords(FIRST, calls, []);
    assert [] + Log(FIRST, calls) == Log(FIRST, calls);
  }

  // ---- when an event is sent --------------------------------------------------------------

  /** The frame is of this event, less than ten seconds before. */
  predicate Lately(f: Frame, w: What, t: int) {
    f.what.Some? && SameWhat(f.what.value, w) && t - f.at < 10
  }

  /** An event like this one went out less than ten seconds ago. */
  predicate SentLately(log: seq<Frame>, c: Call) {
    exists k :: 0 <= k < |log| && Lately(log[k], WhatOf(c), c.at)
  }

  /** Fewer than 20 frames went out, or the 20th last a minute ago. */
  predicate Room(log: seq<Frame>, t: int) {
    |log| < 20 || t - log[|log| - 20].at >= 60
  }

  /** The ring's oldest entry is the 20th last frame. */
  lemma RingTells(h: History, log: seq<Frame>, t: int, now: int)
    requires Inv(h, now) && Records(h.sends, log)
    ensures var first := h.lim.window[h.lim.widx];
            Room(log, t) <==> (first == 0 || t - first >= 60)
  {
    assert Rotated(h.lim)[0] == TimeAt(h.sends, |h.sends| - WINDOW_MAX);
  }

  /** The frames of this event are those with its key. */
  lemma SameKeys(sends: seq<Send>, log: seq<Frame>, c: Call, k: nat)
    requires Records(sends, log) && Admissible(c) && k < |log|
    ensures log[k].what.Some? && SameWhat(log[k].what.value, WhatOf(c)) <==> sends[k].key == Some(KeyOf(c))
  {
    hide SameWhat, KeyText, KeyOf;
    CallBarFree(c);
    if log[k].what.Some? {
      KeyTells(log[k].what.value, WhatOf(c));
    }
  }

  lemma RecentSlot(lim: Lim, sends: seq<Send>, slotSend: seq<int>, s: Send, key: string, t: int, now: int)
    requires EventLimiter.Shape(lim) && Spaced(sends, now) && now <= t && SlotsStand(lim, sends, slotSend)
    requires Remembered(lim, sends, s) && s.key == Some(key) && t - s.at < 10
    ensures var i := SlotOf(lim.seen, key); i < TRACK && t - lim.seen[i].when < 10
  {
    var i :| 0 <= i < TRACK && lim.seen[i].when != 0 && Some(lim.seen[i].key) == s.key && lim.seen[i].when >= s.at;
    assert lim.seen[i].key == key;
  }

  /** Sent lately, the event has a live slot from then. */
  lemma LateHasSlot(h: History, log: seq<Frame>, c: Call, now: int)
    requires Inv(h, now) && Records(h.sends, log) && now <= c.at && Admissible(c) && SentLately(log, c)
    ensures var s := SlotOf(h.lim.seen, KeyOf(c)); s < TRACK && c.at - h.lim.seen[s].when < 10
  {
    hide SameWhat, KeyText, KeyOf, RingHolds, KeysApart, Spaced, SlotsStand, Remembered, SlotOf;
    var k :| 0 <= k < |log| && Lately(log[k], WhatOf(c), c.at);
    SameKeys(h.sends, log, c, k);
    RecentSlot(h.lim, h.sends, h.slotSend, h.sends[k], KeyOf(c), c.at, now);
  }

  /** A live slot of the key that is not ten seconds old stands for such a frame. */
  lemma SlotIsLate(h: History, log: seq<Frame>, c: Call, now: int)
    requires Inv(h, now) && Records(h.sends, log) && Admissible(c)
    requires var s := SlotOf(h.lim.seen, KeyOf(c)); s < TRACK && c.at - h.lim.seen[s].when < 10
    ensures SentLately(log, c)
  {
    hide SameWhat, KeyText, KeyOf, RingHolds, KeysApart, Remembered, Spaced;
    var s := SlotOf(h.lim.seen, KeyOf(c));
    var k := h.slotSend[s];
    assert h.sends[k] == Send(h.lim.seen[s].when, Some(KeyOf(c)));
    SameKeys(h.sends, log, c, k);
    assert Lately(log[k], WhatOf(c), c.at);
  }

  /** Over any run: an event is sent exactly when it is a proper one, none like it went out less than ten
      seconds ago, and the last minute has room for it. */
  lemma ToldExactly(calls: seq<Call>, c: Call)
    requires ClockFrom(0, calls) && 0 < c.at && EndTime(0, calls) <= c.at
    ensures ChanEvent(Run(FIRST, calls).lim, c).1.Told?
            <==> Proper(c) && !SentLately(Log(FIRST, calls), c) && Room(Log(FIRST, calls), c.at)
  {
    hide Inv, Records, SentLately, Room, Proper, SlotOf, Oldest, KeyOf, EventText, Summarise;
    RunKeeps(FIRST, calls, 0);
    SentRecords(calls);
    var h, now := Run(FIRST, calls), EndTime(0, calls);
    ProperExactly(c);
    RingTells(h, Log(FIRST, calls), c.at, now);
    if Admissible(c) {
      TextFits(c);
      if SentLately(Log(FIRST, calls), c) {
        LateHasSlot(h, Log(FIRST, calls), c, now);
      } else if SlotOf(h.lim.seen, KeyOf(c)) < TRACK && c.at - h.lim.seen[SlotOf(h.lim.seen, KeyOf(c))].when < 10 {
        SlotIsLate(h, Log(FIRST, calls), c, now);
      }
    }
  }

  /** And it is held back, and counted, exactly when it is a proper one that is not sent. */
  lemma HeldExactly(calls: seq<Call>, c: Call)
    requires ClockFrom(0, calls) && 0 < c.at && EndTime(0, calls) <= c.at
    ensures ChanEvent(Run(FIRST, calls).lim, c).1.Held?
            <==> Proper(c) && (SentLately(Log(FIRST, calls), c) || !Room(Log(FIRST, calls), c.at))
  {
    hide Proper, SentLately, Room, Inv;
    ToldExactly(calls, c);
    ProperExactly(c);
    if Admissible(c) {
      TextFits(c);
    }
  }

  /** The same channel, action and target, up to case, are never sent twice within ten seconds. */
  lemma SameNeverTwice(calls: seq<Call>, i: nat, j: nat)
    requires ClockFrom(0, calls) && i < j < |Log(FIRST, calls)|
    requires Log(FIRST, calls)[i].what.Some? && Log(FIRST, calls)[j].what.Some?
    requires SameWhat(Log(FIRST, calls)[i].what.value, Log(FIRST, calls)[j].what.value)
    ensures Log(FIRST, calls)[j].at - Log(FIRST, calls)[i].at >= 10
  {
    SentRecords(calls);
    KeyTells(Log(FIRST, calls)[i].what.value, Log(FIRST, calls)[j].what.value);
    NeverTwice(calls, i, j);
  }

  /** No stretch of frames within less than a minute is longer than 20. */
  lemma TwentyAMinute(calls: seq<Call>, i: nat, j: nat)
    requires ClockFrom(0, calls) && i <= j < |Log(FIRST, calls)|
    ensures Log(FIRST, calls)[j].at - Log(FIRST, calls)[i].at < 60 ==> j - i + 1 <= 20
  {
    SentRecords(calls);
    WindowBound(calls, i, j);
  }

  // ---- what is sent ------------------------------------------------------------------------

  /** The frame of an event, field by field. */
  lemma FrameFields(c: Call)
    requires Admissible(c) && '|' !in c.chan
    ensures Split(EventText(c), '|') == [c.chan, c.action, Clean(121, c.target), Clean(161, c.detail)]
  {
    hide Split;
    var t, d := Clean(121, c.target), Clean(161, c.detail);
    CallBarFree(c);
    assert forall i :: 0 <= i < |d| ==> d[i] != '|';
    FourFields(c.chan, c.action, t, d);
  }

  lemma FourFields(a: string, b: string, c: string, d: string)
    requires '|' !in a && '|' !in b && '|' !in c && '|' !in d
    ensures Split(a + "|" + b + "|" + c + "|" + d, '|') == [a, b, c, d]
  {
    hide Split;
    var r2 := c + ['|'] + d;
    var r1 := b + ['|'] + r2;
    assert a + "|" + b + "|" + c + "|" + d == a + ['|'] + r1;
    SplitAtSeparator(a, '|', r1);
    SplitAtSeparator(b, '|', r2);
    SplitAtSeparator(c, '|', d);
    SplitNoSeparator(a, '|');
    SplitNoSeparator(b, '|');
    SplitNoSeparator(c, '|');
    SplitNoSeparator(d, '|');
  }

  /** A summary follows an event that got through exactly when something is counted and the minute has
      room for one more frame; it tells the count. */
  lemma SummaryExactly(calls: seq<Call>, c: Call)
    requires ClockFrom(0, calls) && 0 < c.at && EndTime(0, calls) <= c.at
    requires Run(FIRST, calls).lim.suppressed < 0x1_0000_0000
    requires ChanEvent(Run(FIRST, calls).lim, c).1.Told?
    ensures var h := Run(FIRST, calls);
            var v := ChanEvent(h.lim, c).1;
            && v.frame == EventText(c) && v.sent == c.eventOk
            && (v.summary.Some? <==>
                  c.eventOk && h.lim.suppressed > 0 && Room(Log(FIRST, calls) + [Frame(c.at, Some(WhatOf(c)))], c.at))
            && (v.summary.Some? ==>
                  v.summary.value.0 == h.lim.supChan + "|" + h.lim.supAction + "|*|" + Dec(h.lim.suppressed) + " events suppressed")
  {
    hide Inv, Records, KeyOf, EventText, SlotOf, Oldest, Chosen, Room;
    RunKeeps(FIRST, calls, 0);
    SentRecords(calls);
    var h, now := Run(FIRST, calls), EndTime(0, calls);
    LengthChecksNeverBite(h, c, now);
    RoomAfter(h, Log(FIRST, calls), c, now);
  }

  /** The room once an event has gone out. */
  lemma RoomAfter(h: History, log: seq<Frame>, c: Call, now: int)
    requires Inv(h, now) && Records(h.sends, log) && 0 < c.at && now <= c.at && Admissible(c)
    requires !Limited(h.lim, KeyOf(c), c.at)
    ensures var marked := h.lim.(seen := h.lim.seen[Chosen(h.lim, KeyOf(c)) := Seen(KeyOf(c), c.at)]);
            var told := Stamp(marked, c.at);
            var first := told.window[told.widx];
            Room(log + [Frame(c.at, Some(WhatOf(c)))], c.at) <==> (first == 0 || c.at - first >= 60)
  {
    hide KeyOf, Chosen, SlotsStand, Remembered, KeysApart, Rotated;
    var marked := h.lim.(seen := h.lim.seen[Chosen(h.lim, KeyOf(c)) := Seen(KeyOf(c), c.at)]);
    RotatedSeen(h.lim, marked.seen);
    StampKeeps(marked, h.sends, c.at, Some(KeyOf(c)), now);
    var told, sends := Stamp(marked, c.at), h.sends + [Send(c.at, Some(KeyOf(c)))];
    assert Rotated(told)[0] == TimeAt(sends, |sends| - WINDOW_MAX);
    var more := log + [Frame(c.at, Some(WhatOf(c)))];
    assert forall k :: 0 <= k < |sends| ==> sends[k].at == more[k].at;
  }

  lemma RotatedSeen(lim: Lim, seen: seq<Seen>)
    requires Shape(lim) && |seen| == TRACK
    ensures Rotated(lim.(seen := seen)) == Rotated(lim)
  {
  }
}
