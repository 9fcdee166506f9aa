/** The limiter of channel events to the hub: a ring of send times, dedupe slots, and a
    count of what was held back. */
module EventLimiter {
  import opened Text
  import opened Numbers
  import opened Counting

  const TARGET_MAX := 120
  const DETAIL_MAX := 160
  const DEDUPE_SECS := 10
  const WINDOW_SECS := 60
  const WINDOW_MAX := 20
  const TRACK := 32
  const ACTION_MAX := 16
  const KEY_BUF := MAX_CHAN + 16 + TARGET_MAX + 4
  const OUT_BUF := MAX_CHAN + 16 + TARGET_MAX + DETAIL_MAX + 8

  const ACTIONS := ["deop", "reop", "kick", "ban", "unban", "moderevert", "limit", "floodtrip", "ignore"]

  datatype Seen = Seen(key: string, when: int)
  datatype Lim = Lim(seen: seq<Seen>, window: seq<int>, widx: nat, suppressed: nat, supChan: string, supAction: string)

  /** One call: the event, the time, whether the hub link is ready, and what the link
      answers to an event frame and to a summary frame. */
  datatype Call = Call(chan: string, action: string, target: string, detail: string,
                       at: int, ready: bool, eventOk: bool, summaryOk: bool)

  const START := Lim(Repeat(Seen("", 0), TRACK), Repeat(0, WINDOW_MAX), 0, 0, "", "")

  predicate Shape(lim: Lim) {
    |lim.seen| == TRACK && |lim.window| == WINDOW_MAX && lim.widx < WINDOW_MAX
  }

  // ---- text --------------------------------------------------------------------

  function CleanByte(c: char): char {
    if c < ' ' || c == '\U{7F}' || c == '|' then ' ' else c
  }

  /** At most cap - 1 bytes, with control bytes and the record delimiter blanked. */
  function Clean(cap: nat, src: string): (r: string)
    requires cap > 0
    ensures |r| == if |src| < cap then |src| else cap - 1
    ensures forall i :: 0 <= i < |r| ==>
              r[i] == if src[i] < ' ' || src[i] == 0x7f as char || src[i] == '|' then ' ' else src[i]
  {
    var n := if |src| < cap then |src| else cap - 1;
    seq(n, i requires 0 <= i < n => CleanByte(src[i]))
  }

  method EventClean(cap: nat, src: string) returns (out: string)
    requires cap > 0
    ensures out == Clean(cap, src)
  {
    out := "";
    for i := 0 to |src|
      invariant |out| == i < cap
      invariant forall k :: 0 <= k < i ==> out[k] == CleanByte(src[k])
    {
      if |out| + 1 + 1 > cap {
        break;
      }
      out := out + [CleanByte(src[i])];
    }
  }

  function KeyOf(c: Call): string {
    Lower(c.chan + "|" + c.action + "|" + Clean(TARGET_MAX + 1, c.target))
  }

  function EventText(c: Call): string {
    c.chan + "|" + c.action + "|" + Clean(TARGET_MAX + 1, c.target) + "|" + Clean(DETAIL_MAX + 1, c.detail)
  }

  function SummaryText(lim: Lim): string {
    lim.supChan + "|" + lim.supAction + "|*|" + Dec(lim.suppressed) + " events suppressed"
  }

  /** The call names a channel, a known action and somebody, and there is a hub to tell. */
  predicate Admissible(c: Call) {
    && c.chan != "" && (c.chan[0] == '#' || c.chan[0] == '&')
    && c.action in ACTIONS && |c.chan| < MAX_CHAN
    && c.ready && Clean(TARGET_MAX + 1, c.target) != ""
  }

  /** The two length checks on an event never fail. */
  lemma TextFits(c: Call)
    requires Admissible(c)
    ensures |KeyOf(c)| < KEY_BUF && |EventText(c)| < OUT_BUF
  {
  }

  // ---- the limiter ---------------------------------------------------------------

  /** The first live slot for `key`; the table size when there is none. */
  function SlotOf(seen: seq<Seen>, key: string): (i: nat)
    ensures i <= |seen|
    ensures i < |seen| ==> seen[i].when != 0 && seen[i].key == key
    ensures forall j :: 0 <= j < i ==> !(seen[j].when != 0 && seen[j].key == key)
  {
    if seen == [] then 0
    else if seen[0].when != 0 && seen[0].key == key then 0
    else 1 + SlotOf(seen[1..], key)
  }

  /** The first slot with the least time. */
  function Oldest(seen: seq<Seen>): (i: nat)
    requires seen != []
    ensures i < |seen|
    ensures forall j :: 0 <= j < |seen| ==> seen[i].when <= seen[j].when
    ensures forall j :: 0 <= j < i ==> seen[i].when < seen[j].when
  {
    if |seen| == 1 then 0
    else
      var r := 1 + Oldest(seen[1..]);
      assert forall j :: 1 <= j < |seen| ==> seen[1..][j - 1] == seen[j];
      if seen[r].when < seen[0].when then r else 0
  }

  function Chosen(lim: Lim, key: string): (i: nat)
    requires Shape(lim)
    ensures i < TRACK
  {
    var s := SlotOf(lim.seen, key);
    if s < TRACK then s else Oldest(lim.seen)
  }

  /** The same event too recently, or too many frames lately. */
  predicate Limited(lim: Lim, key: string, t: int)
    requires Shape(lim)
  {
    var s := SlotOf(lim.seen, key);
    var first := lim.window[lim.widx];
    (s < TRACK && t - lim.seen[s].when < DEDUPE_SECS) || (first != 0 && t - first < WINDOW_SECS)
  }

  function Stamp(lim: Lim, t: int): Lim
    requires Shape(lim)
  {
    lim.(window := lim.window[lim.widx := t], widx := (lim.widx + 1) % WINDOW_MAX)
  }

  /** A summary may go out: something was held back and the window has room. */
  predicate SummaryDue(lim: Lim, t: int)
    requires Shape(lim)
  {
    var first := lim.window[lim.widx];
    lim.suppressed > 0 && (first == 0 || t - first >= WINDOW_SECS)
  }

  datatype Verdict =
    | Ignored
    | Held
    | Told(frame: string, sent: bool, summary: Option<(string, bool)>)

  /** The summary after an event that went out. */
  function Summarise(told: Lim, c: Call): (Lim, Option<(string, bool)>)
    requires Shape(told)
  {
    if c.eventOk && SummaryDue(told, c.at) && |SummaryText(told)| < OUT_BUF then
      var after := Stamp(told, c.at);
      (if c.summaryOk then after.(suppressed := 0) else after, Some((SummaryText(told), c.summaryOk)))
    else (told, None)
  }

  /** The event goes out: its slot and the window are stamped, a summary may follow. */
  function Tell(lim: Lim, c: Call, slot: nat, key: string, out: string): (Lim, Verdict)
    requires Shape(lim) && slot < TRACK
  {
    var marked := lim.(seen := lim.seen[slot := Seen(key, c.at)]);
    if |out| >= OUT_BUF then (marked, Ignored)
    else
      var (after, summary) := Summarise(Stamp(marked, c.at), c);
      (after, Told(out, c.eventOk, summary))
  }

  function ChanEvent(lim: Lim, c: Call): (Lim, Verdict)
    requires Shape(lim)
  {
    if !Admissible(c) || |KeyOf(c)| >= KEY_BUF then (lim, Ignored)
    else if Limited(lim, KeyOf(c), c.at) then
      (lim.(suppressed := lim.suppressed + 1, supChan := c.chan, supAction := c.action), Held)
    else Tell(lim, c, Chosen(lim, KeyOf(c)), KeyOf(c), EventText(c))
  }

  /** The frames handed to the link. */
  function Frames(v: Verdict): seq<string> {
    if !v.Told? then [] else if v.summary.None? then [v.frame] else [v.frame, v.summary.value.0]
  }

  lemma KeepsShape(lim: Lim, c: Call)
    requires Shape(lim)
    ensures Shape(ChanEvent(lim, c).0)
  {
  }

  // ---- the limiter object ----------------------------------------------------------

  class ChanEventLim {
    const seen: array<Seen>
    const window: array<int>
    var widx: nat
    var suppressed: nat
    var supChan: string
    var supAction: string

    predicate Valid()
      reads this
    {
      seen.Length == TRACK && window.Length == WINDOW_MAX && widx < WINDOW_MAX
    }

    function State(): Lim
      reads this, seen, window
    {
      Lim(seen[..], window[..], widx, suppressed, supChan, supAction)
    }

    constructor ()
      ensures Valid() && State() == START && fresh(seen) && fresh(window)
    {
      seen := new Seen[TRACK](_ => Seen("", 0));
      window := new int[WINDOW_MAX](_ => 0);
      widx, suppressed, supChan, supAction := 0, 0, "", "";
      new;
      assert seen[..] == START.seen && window[..] == START.window;
    }

    /** Slot of a key and, when there is none, the oldest slot. */
    method Scan(key: string) returns (slot: Option<nat>, oldest: nat)
      requires Valid()
      ensures slot == (if SlotOf(seen[..], key) < TRACK then Some(SlotOf(seen[..], key)) else None)
      ensures slot.None? ==> oldest == Oldest(seen[..])
    {
      slot, oldest := None, 0;
      for i := 0 to seen.Length
        invariant slot == None && oldest < TRACK && (i > 0 ==> oldest < i) && (i == 0 ==> oldest == 0)
        invariant forall j :: 0 <= j < i ==> !(seen[j].when != 0 && seen[j].key == key)
        invariant forall j :: 0 <= j < i ==> seen[oldest].when <= seen[j].when
        invariant forall j :: 0 <= j < oldest ==> seen[oldest].when < seen[j].when
      {
        var e := seen[i];
        if e.when != 0 && e.key == key {
          return Some(i), oldest;
        }
        if e.when < seen[oldest].when {
          oldest := i;
        }
      }
    }

    /** One event of this bot; the frames handed to the link. */
    method Emit(c: Call) returns (sent: bool, frames: seq<string>)
      requires Valid()
      modifies this`widx, this`suppressed, this`supChan, this`supAction, seen, window
      ensures Valid()
      ensures var (lim, v) := ChanEvent(old(State()), c);
              State() == lim && sent == (v.Told? && v.sent) && frames == Frames(v)
    {
      if !Admissible(c) {
        return false, [];
      }
      var key := KeyOf(c);
      if |key| >= KEY_BUF {
        return false, [];
      }
      var found, oldest := Scan(key);
      var first := window[widx];
      if (found.Some? && c.at - seen[found.value].when < DEDUPE_SECS) || (first != 0 && c.at - first < WINDOW_SECS) {
        suppressed := suppressed + 1;
        supChan, supAction := c.chan, c.action;
        return false, [];
      }
      sent, frames := Send(c, found.GetOr(oldest), key, EventText(c));
    }

    method Send(c: Call, slot: nat, key: string, out: string) returns (sent: bool, frames: seq<string>)
      requires Valid() && slot < TRACK
      modifies this`widx, this`suppressed, seen, window
      ensures Valid()
      ensures var (lim, v) := Tell(old(State()), c, slot, key, out);
              State() == lim && sent == (v.Told? && v.sent) && frames == Frames(v)
    {
      ghost var before := seen[..];
      seen[slot] := Seen(key, c.at);
      assert seen[..] == before[slot := Seen(key, c.at)];
      if |out| >= OUT_BUF {
        return false, [];
      }
      Mark(c.at);
      var summary := Sum(c);
      sent := c.eventOk;
      frames := if summary.Some? then [out, summary.value.0] else [out];
    }

    method Mark(t: int)
      requires Valid()
      modifies this`widx, window
      ensures Valid() && seen[..] == old(seen[..]) && State() == Stamp(old(State()), t)
    {
      window[widx] := t;
      widx := (widx + 1) % WINDOW_MAX;
    }

    method Sum(c: Call) returns (summary: Option<(string, bool)>)
      requires Valid()
      modifies this`widx, this`suppressed, window
      ensures Valid() && seen[..] == old(seen[..])
      ensures (State(), summary) == Summarise(old(State()), c)
    {
      summary := None;
      if c.eventOk && suppressed > 0 {
        var first := window[widx];
        if first == 0 || c.at - first >= WINDOW_SECS {
          var text := SummaryText(State());
          if |text| < OUT_BUF {
            Mark(c.at);
            if c.summaryOk {
              suppressed := 0;
            }
            summary := Some((text, c.summaryOk));
          }
        }
      }
    }
  }
}
