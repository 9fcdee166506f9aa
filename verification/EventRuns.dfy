/** Whole runs of the event limiter: how many frames in a minute, and how often the
    same event. */
module EventRuns {
  import opened Text
  import opened Numbers
  import opened Counting
  import opened EventLimiter

  /** A frame handed to the link, by its time; `key` is None for a summary. */
  datatype Send = Send(at: int, key: Option<string>)

  /** The limiter with everything it ever sent, which send each live slot stands for, and
      the events held back and reported so far. */
  datatype History = History(lim: Lim, sends: seq<Send>, slotSend: seq<int>, held: nat, reported: nat)

  const FIRST := History(START, [], Repeat(-1, TRACK), 0, 0)

  /** What the summary adds to the sends. */
  function SummarySend(t: int, v: Verdict): seq<Send> {
    if v.Told? && v.summary.Some? then [Send(t, None)] else []
  }

  /** The history after an event that passed the limiter. */
  function AfterTell(h: History, c: Call, key: string, slot: nat, out: string): History
    requires Shape(h.lim) && |h.slotSend| == TRACK && slot < TRACK
  {
    var (lim, v) := Tell(h.lim, c, slot, key, out);
    History(lim, h.sends + [Send(c.at, Some(key))] + SummarySend(c.at, v), h.slotSend[slot := |h.sends|], h.held,
            if v.Told? && v.summary.Some? && v.summary.value.1 then h.reported + h.lim.suppressed else h.reported)
  }

  function Next(h: History, c: Call): (r: History)
    requires Shape(h.lim) && |h.slotSend| == TRACK
    ensures Shape(r.lim) && |r.slotSend| == TRACK
  {
    var (lim, v) := ChanEvent(h.lim, c);
    KeepsShape(h.lim, c);
    if v.Told? then AfterTell(h, c, KeyOf(c), Chosen(h.lim, KeyOf(c)), EventText(c))
    else h.(lim := lim, held := if v.Held? then h.held + 1 else h.held)
  }

  // ---- the invariant -----------------------------------------------------------------

  /** The ring read from its oldest entry on. */
  function Rotated(lim: Lim): (r: seq<int>)
    requires Shape(lim)
    ensures |r| == WINDOW_MAX && r[0] == lim.window[lim.widx]
  {
    lim.window[lim.widx..] + lim.window[..lim.widx]
  }

  /** Time of send m, 0 before the first. */
  function TimeAt(sends: seq<Send>, m: int): int
    requires m < |sends|
  {
    if m < 0 then 0 else sends[m].at
  }

  /** The ring holds the times of the last sends. */
  ghost predicate RingHolds(lim: Lim, sends: seq<Send>)
    requires Shape(lim)
  {
    forall k :: 0 <= k < WINDOW_MAX ==> Rotated(lim)[k] == TimeAt(sends, |sends| - WINDOW_MAX + k)
  }

  /** Times rise from 1, and any send and the 20th after it are a window apart. */
  ghost predicate Spaced(sends: seq<Send>, now: int) {
    && (forall m :: 0 <= m < |sends| ==> 0 < sends[m].at <= now)
    && (forall m, n :: 0 <= m < n < |sends| ==> sends[m].at <= sends[n].at)
    && (forall m :: 0 <= m < |sends| - WINDOW_MAX ==> sends[m].at + WINDOW_SECS <= sends[m + WINDOW_MAX].at)
  }

  /** Every live slot stands for one send of its key, no two for the same. */
  ghost predicate SlotsStand(lim: Lim, sends: seq<Send>, slotSend: seq<int>)
    requires Shape(lim)
  {
    && |slotSend| == TRACK
    && (forall i :: 0 <= i < TRACK && lim.seen[i].when != 0 ==>
          0 <= slotSend[i] < |sends| && sends[slotSend[i]] == Send(lim.seen[i].when, Some(lim.seen[i].key)))
    && (forall i, j :: 0 <= i < j < TRACK && lim.seen[i].when != 0 && lim.seen[j].when != 0 ==>
          slotSend[i] != slotSend[j] && lim.seen[i].key != lim.seen[j].key)
  }

  /** An event still has its slot, with a time no earlier, or its slot went a window ago. */
  ghost predicate Remembered(lim: Lim, sends: seq<Send>, s: Send)
    requires Shape(lim)
  {
    || (exists i :: 0 <= i < TRACK && lim.seen[i].when != 0 && Some(lim.seen[i].key) == s.key && lim.seen[i].when >= s.at)
    || (sends != [] && s.at + WINDOW_SECS <= sends[|sends| - 1].at)
  }

  /** Events with one key are far apart. */
  ghost predicate KeysApart(sends: seq<Send>) {
    forall m, n :: 0 <= m < n < |sends| && sends[m].key.Some? && sends[m].key == sends[n].key ==>
      sends[m].at + DEDUPE_SECS <= sends[n].at
  }

  ghost predicate Inv(h: History, now: int) {
    && Shape(h.lim)
    && RingHolds(h.lim, h.sends) && Spaced(h.sends, now) && SlotsStand(h.lim, h.sends, h.slotSend)
    && (forall m :: 0 <= m < |h.sends| && h.sends[m].key.Some? ==> Remembered(h.lim, h.sends, h.sends[m]))
    && KeysApart(h.sends)
    && h.held == h.reported + h.lim.suppressed
    && |h.lim.supChan| < MAX_CHAN && |h.lim.supAction| < ACTION_MAX
  }

  // ---- one send ------------------------------------------------------------------------

  lemma StampRotates(lim: Lim, t: int)
    requires Shape(lim)
    ensures Rotated(Stamp(lim, t)) == Rotated(lim)[1..] + [t]
  {
    var i := lim.widx;
    RingStamps(lim.window, i, t);
    if i + 1 == WINDOW_MAX {
      var w := lim.window[i := t];
      assert w[WINDOW_MAX..] + w[..WINDOW_MAX] == w == w[0..] + w[..0];
    }
  }

  lemma RingStamps(w: seq<int>, i: nat, t: int)
    requires i < |w|
    ensures w[i := t][i + 1..] + w[i := t][..i + 1] == (w[i..] + w[..i])[1..] + [t]
  {
    assert w[i := t][i + 1..] == w[i..][1..];
    assert w[i := t][..i + 1] == w[..i] + [t];
  }

  /** A stamp where the window allows it keeps the ring and the spacing. */
  lemma StampKeeps(lim: Lim, sends: seq<Send>, t: int, key: Option<string>, now: int)
    requires Shape(lim) && RingHolds(lim, sends) && Spaced(sends, now) && 0 < t && now <= t
    requires lim.window[lim.widx] == 0 || t - lim.window[lim.widx] >= WINDOW_SECS
    ensures RingHolds(Stamp(lim, t), sends + [Send(t, key)]) && Spaced(sends + [Send(t, key)], t)
  {
    hide Rotated;
    var n := |sends|;
    var sends' := sends + [Send(t, key)];
    StampRotates(lim, t);
    assert Rotated(lim)[0] == TimeAt(sends, n - WINDOW_MAX);
    assert forall m :: m < n ==> TimeAt(sends', m) == TimeAt(sends, m);
    forall k | 0 <= k < WINDOW_MAX
      ensures Rotated(Stamp(lim, t))[k] == TimeAt(sends', n + 1 - WINDOW_MAX + k)
    {
      if k + 1 < WINDOW_MAX {
        assert Rotated(lim)[k + 1] == TimeAt(sends, n - WINDOW_MAX + (k + 1));
      }
    }
    forall m | 0 <= m < n + 1 - WINDOW_MAX
      ensures sends'[m].at + WINDOW_SECS <= sends'[m + WINDOW_MAX].at
    {
      if m == n - WINDOW_MAX {
        assert sends'[n] == Send(t, key);
      }
    }
  }

  /** With all slots live the oldest is a full window old: 32 sends cannot be closer. */
  lemma OldestIsStale(lim: Lim, sends: seq<Send>, slotSend: seq<int>, now: int)
    requires Shape(lim) && Spaced(sends, now) && SlotsStand(lim, sends, slotSend)
    requires forall i :: 0 <= i < TRACK ==> lim.seen[i].when != 0
    ensures var w := lim.seen[Oldest(lim.seen)].when;
            sends != [] && w + WINDOW_SECS <= sends[|sends| - 1].at
  {
    var w := lim.seen[Oldest(lim.seen)].when;
    var first := FirstFrom(sends, w);
    assert slotSend[0] >= 0;
    forall i | 0 <= i < TRACK
      ensures first <= slotSend[i] < |sends|
    {
      assert lim.seen[i].when >= w;
    }
    assert AllDiffer(slotSend);
    Pigeonhole(slotSend, first, |sends|);
    assert sends[first].at + WINDOW_SECS <= sends[first + WINDOW_MAX].at <= sends[|sends| - 1].at;
  }

  /** The first send at or after `w`. */
  function FirstFrom(sends: seq<Send>, w: int): (f: nat)
    ensures f <= |sends|
    ensures forall m :: 0 <= m < f ==> sends[m].at < w
    ensures f < |sends| ==> sends[f].at >= w
  {
    if sends == [] || sends[0].at >= w then 0 else 1 + FirstFrom(sends[1..], w)
  }

  /** The slot an event takes: its own from long ago, a free one, or one a window old. */
  lemma ChosenSlot(h: History, key: string, t: int, now: int)
    requires Inv(h, now) && now <= t && !Limited(h.lim, key, t)
    ensures var i := Chosen(h.lim, key);
            || h.lim.seen[i].when == 0
            || (h.lim.seen[i].key == key && h.lim.seen[i].when + DEDUPE_SECS <= t)
            || (h.lim.seen[i].when + WINDOW_SECS <= t)
    ensures forall j :: 0 <= j < TRACK && j != Chosen(h.lim, key) && h.lim.seen[j].when != 0 ==>
              h.lim.seen[j].key != key
  {
    var i, s := Chosen(h.lim, key), SlotOf(h.lim.seen, key);
    if s == TRACK && h.lim.seen[i].when != 0 {
      forall j | 0 <= j < TRACK
        ensures h.lim.seen[j].when != 0
      {
        assert h.lim.seen[i].when <= h.lim.seen[j].when;
        assert 0 <= h.slotSend[i] < |h.sends|;
      }
      OldestIsStale(h.lim, h.sends, h.slotSend, now);
    }
  }

  /** What the slots know once the event has its slot. */
  lemma SlotsAfter(h: History, key: string, t: int, now: int, sends': seq<Send>)
    requires Inv(h, now) && 0 < t && now <= t && !Limited(h.lim, key, t)
    requires |sends'| > |h.sends| && sends'[..|h.sends|] == h.sends && sends'[|h.sends|] == Send(t, Some(key))
    requires sends'[|sends'| - 1].at == t
    ensures var i := Chosen(h.lim, key);
            var lim' := h.lim.(seen := h.lim.seen[i := Seen(key, t)]);
            && SlotsStand(lim', sends', h.slotSend[i := |h.sends|])
            && (forall m :: 0 <= m < |h.sends| && sends'[m].key.Some? ==> Remembered(lim', sends', sends'[m]))
            && Remembered(lim', sends', sends'[|h.sends|])
  {
    hide Chosen, Limited, SlotOf, Oldest, RingHolds, KeysApart;
    var i := Chosen(h.lim, key);
    var lim' := h.lim.(seen := h.lim.seen[i := Seen(key, t)]);
    ChosenSlot(h, key, t, now);
    assert forall m :: 0 <= m < |h.sends| ==> sends'[m] == h.sends[m];
    forall m | 0 <= m < |h.sends| && h.sends[m].key.Some?
      ensures Remembered(lim', sends', h.sends[m])
    {
      assert Remembered(h.lim, h.sends, h.sends[m]);
      if j :| 0 <= j < TRACK && h.lim.seen[j].when != 0 && Some(h.lim.seen[j].key) == h.sends[m].key
              && h.lim.seen[j].when >= h.sends[m].at {
        if j != i {
          assert lim'.seen[j] == h.lim.seen[j];
        } else {
          assert lim'.seen[i] == Seen(key, t);
        }
      }
    }
    assert lim'.seen[i].when != 0;
  }

  // ---- every call keeps it ---------------------------------------------------------------

  /** Nothing sent, no slot and no ring entry changed. */
  lemma QuietKeeps(h: History, lim: Lim, held: nat, now: int, t: int)
    requires Inv(h, now) && now <= t
    requires lim.seen == h.lim.seen && lim.window == h.lim.window && lim.widx == h.lim.widx
    requires held == h.reported + lim.suppressed && |lim.supChan| < MAX_CHAN && |lim.supAction| < ACTION_MAX
    ensures Inv(h.(lim := lim, held := held), t)
  {
    assert Rotated(lim) == Rotated(h.lim);
    forall m | 0 <= m < |h.sends| && h.sends[m].key.Some?
      ensures Remembered(lim, h.sends, h.sends[m])
    {
      assert Remembered(h.lim, h.sends, h.sends[m]);
    }
  }

  /** The summary takes its own place in the window. */
  lemma SummaryStamps(told: Lim, sends: seq<Send>, c: Call)
    requires Shape(told) && RingHolds(told, sends) && Spaced(sends, c.at) && 0 < c.at
    ensures var (after, summary) := Summarise(told, c);
            var sends' := sends + (if summary.Some? then [Send(c.at, None)] else []);
            && Shape(after) && RingHolds(after, sends') && Spaced(sends', c.at) && after.seen == told.seen
            && after.supChan == told.supChan && after.supAction == told.supAction
            && (if summary.Some? && summary.value.1 then after.suppressed == 0 else after.suppressed == told.suppressed)
  {
    var (after, summary) := Summarise(told, c);
    if summary.Some? {
      StampKeeps(told, sends, c.at, None, c.at);
      assert Rotated(after) == Rotated(Stamp(told, c.at));
    } else {
      assert sends + [] == sends;
    }
  }

  /** The ring and the spacing after the event and the summary it may bring. */
  lemma TellStamps(h: History, c: Call, key: string, slot: nat, out: string, now: int)
    requires Inv(h, now) && 0 < c.at && now <= c.at && slot < TRACK && |out| < OUT_BUF
    requires !Limited(h.lim, key, c.at)
    ensures var h' := AfterTell(h, c, key, slot, out);
            && Shape(h'.lim) && RingHolds(h'.lim, h'.sends) && Spaced(h'.sends, c.at)
            && h'.held == h'.reported + h'.lim.suppressed && h'.lim.seen == h.lim.seen[slot := Seen(key, c.at)]
            && h'.lim.supChan == h.lim.supChan && h'.lim.supAction == h.lim.supAction
  {
    var marked := h.lim.(seen := h.lim.seen[slot := Seen(key, c.at)]);
    assert Rotated(marked) == Rotated(h.lim);
    StampKeeps(marked, h.sends, c.at, Some(key), now);
    SummaryStamps(Stamp(marked, c.at), h.sends + [Send(c.at, Some(key))], c);
  }

  lemma ApartAfter(h: History, key: string, t: int, now: int, more: seq<Send>)
    requires Inv(h, now) && now <= t && !Limited(h.lim, key, t)
    requires forall i :: 0 <= i < |more| ==> more[i].key.None?
    ensures KeysApart(h.sends + [Send(t, Some(key))] + more)
  {
    hide Spaced, SlotsStand, Remembered, RingHolds, Limited;
    var n, sends' := |h.sends|, h.sends + [Send(t, Some(key))] + more;
    forall m, k | 0 <= m < k < |sends'| && sends'[m].key.Some? && sends'[m].key == sends'[k].key
      ensures sends'[m].at + DEDUPE_SECS <= sends'[k].at
    {
      if k == n {
        NotLately(h.lim, h.sends, h.slotSend, h.sends[m], key, t, now);
      } else {
        assert sends'[m] == h.sends[m] && sends'[k] == h.sends[k];
      }
    }
  }

  /** An event that is not held back went out last at least ten seconds ago. */
  lemma NotLately(lim: Lim, sends: seq<Send>, slotSend: seq<int>, s: Send, key: string, t: int, now: int)
    requires Shape(lim) && Spaced(sends, now) && SlotsStand(lim, sends, slotSend) && now <= t && !Limited(lim, key, t)
    requires Remembered(lim, sends, s) && s.key == Some(key)
    ensures s.at + DEDUPE_SECS <= t
  {
    if i :| 0 <= i < TRACK && lim.seen[i].when != 0 && Some(lim.seen[i].key) == s.key && lim.seen[i].when >= s.at {
      assert lim.seen[i].key == key;
    }
  }

  lemma TellKeeps(h: History, c: Call, key: string, out: string, now: int)
    requires Inv(h, now) && 0 < c.at && now <= c.at && |out| < OUT_BUF && !Limited(h.lim, key, c.at)
    ensures Inv(AfterTell(h, c, key, Chosen(h.lim, key), out), c.at)
  {
    var i, n := Chosen(h.lim, key), |h.sends|;
    var v := Tell(h.lim, c, i, key, out).1;
    var h' := AfterTell(h, c, key, i, out);
    TellStamps(h, c, key, i, out, now);
    SlotsAfter(h, key, c.at, now, h'.sends);
    ApartAfter(h, key, c.at, now, SummarySend(c.at, v));
  }

  lemma NextKeeps(h: History, c: Call, now: int)
    requires Inv(h, now) && 0 < c.at && now <= c.at
    ensures Inv(Next(h, c), c.at)
  {
    hide RingHolds, Spaced, Remembered, KeysApart;
    if Admissible(c) {
      TextFits(c);
    }
    if ChanEvent(h.lim, c).1.Told? {
      TellKeeps(h, c, KeyOf(c), EventText(c), now);
    } else {
      QuietKeeps(h, Next(h, c).lim, Next(h, c).held, now, c.at);
    }
  }

  // ---- runs --------------------------------------------------------------------------------

  /** A positive clock that does not go back. */
  predicate ClockFrom(now: int, calls: seq<Call>)
    decreases |calls|
  {
    calls == [] || (0 < calls[0].at && now <= calls[0].at && ClockFrom(calls[0].at, calls[1..]))
  }

  function EndTime(now: int, calls: seq<Call>): int
    decreases |calls|
  {
    if calls == [] then now else EndTime(calls[0].at, calls[1..])
  }

  function Run(h: History, calls: seq<Call>): (r: History)
    requires Shape(h.lim) && |h.slotSend| == TRACK
    ensures Shape(r.lim) && |r.slotSend| == TRACK
    decreases |calls|
  {
    if calls == [] then h
    else
      Run(Next(h, calls[0]), calls[1..])
  }

  lemma {:induction false} RunKeeps(h: History, calls: seq<Call>, now: int)
    requires Inv(h, now) && ClockFrom(now, calls)
    ensures Inv(Run(h, calls), EndTime(now, calls))
    decreases |calls|
  {
    if calls != [] {
      NextKeeps(h, calls[0], now);
      RunKeeps(Next(h, calls[0]), calls[1..], calls[0].at);
    }
  }

  /** Over any run, any stretch of sends within less than a minute, summaries included, is
      at most 20 long. */
  lemma WindowBound(calls: seq<Call>, i: nat, j: nat)
    requires ClockFrom(0, calls)
    requires i <= j < |Run(FIRST, calls).sends|
    ensures Run(FIRST, calls).sends[j].at - Run(FIRST, calls).sends[i].at < WINDOW_SECS ==> j - i + 1 <= WINDOW_MAX
  {
    RunKeeps(FIRST, calls, 0);
    var sends := Run(FIRST, calls).sends;
    if j - i >= WINDOW_MAX {
      assert sends[i].at + WINDOW_SECS <= sends[i + WINDOW_MAX].at;
      assert i + WINDOW_MAX < j ==> sends[i + WINDOW_MAX].at <= sends[j].at;
    }
  }

  /** Over any run the same event -- channel, action and target, up to case -- is never sent
      twice within ten seconds, however full the dedupe table was in between. */
  lemma NeverTwice(calls: seq<Call>, i: nat, j: nat)
    requires ClockFrom(0, calls)
    requires i < j < |Run(FIRST, calls).sends|
    requires Run(FIRST, calls).sends[i].key.Some? && Run(FIRST, calls).sends[i].key == Run(FIRST, calls).sends[j].key
    ensures Run(FIRST, calls).sends[j].at - Run(FIRST, calls).sends[i].at >= DEDUPE_SECS
  {
    RunKeeps(FIRST, calls, 0);
  }

  /** Over any run every event held back is reported by a summary that got through or still
      counted. */
  lemma HeldIsCounted(calls: seq<Call>)
    requires ClockFrom(0, calls)
    ensures var h := Run(FIRST, calls);
            h.held == h.reported + h.lim.suppressed
  {
    RunKeeps(FIRST, calls, 0);
  }

  /** A live slot given up for another key is a minute old. */
  lemma EvictionIsLate(calls: seq<Call>, c: Call)
    requires ClockFrom(0, calls) && 0 < c.at && EndTime(0, calls) <= c.at
    requires Admissible(c) && !Limited(Run(FIRST, calls).lim, KeyOf(c), c.at)
    ensures var lim := Run(FIRST, calls).lim;
            var slot := lim.seen[Chosen(lim, KeyOf(c))];
            slot.when != 0 && slot.key != KeyOf(c) ==> slot.when + WINDOW_SECS <= c.at
  {
    RunKeeps(FIRST, calls, 0);
    ChosenSlot(Run(FIRST, calls), KeyOf(c), c.at, EndTime(0, calls));
  }

  /** While fewer than 2^32 events are held back, no length check ever stops a frame: an
      event that passes the limiter is always told, a summary that is due always goes. */
  lemma LengthChecksNeverBite(h: History, c: Call, now: int)
    requires Inv(h, now) && h.lim.suppressed < 0x1_0000_0000
    ensures Admissible(c) && !Limited(h.lim, KeyOf(c), c.at) ==> ChanEvent(h.lim, c).1.Told?
    ensures Admissible(c) ==> |SummaryText(h.lim)| < OUT_BUF
  {
    if Admissible(c) {
      TextFits(c);
      assert Pow10(10) == 10 * Pow10(9) == 100 * Pow10(8) == 1000 * Pow10(7) == 10000 * Pow10(6);
      assert Pow10(6) == 10 * Pow10(5) == 100 * Pow10(4) == 1000 * Pow10(3) == 10000 * Pow10(2) == 1000000 * Pow10(0);
      DecLength(h.lim.suppressed, 10);
    }
  }
}
