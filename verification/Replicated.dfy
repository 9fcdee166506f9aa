/** Records every node keeps its own copy of: the network defaults and the channel records.
    Each arrives in any order, any number of times. */
module Replicated {
  import opened Text
  import opened Numbers
  import opened Stamps
  import opened BanCodec

  const C_LINE_MAX := 2 + MAX_CHAN + 1 + C_MODES_MAX + 1 + SETTINGS_MAX + 24
  const D_LINE_MAX := 2 + C_MODES_MAX + 1 + SETTINGS_MAX + 24

  // ---- the network defaults ----------------------------------------------------------------

  /** A D| record.  Stamp 0: none yet. */
  datatype NetRec = NetRec(ts: int, modes: string, settings: string)

  function RecText(r: NetRec): string {
    r.modes + "|" + r.settings
  }

  function RecKey(r: NetRec): (int, string) {
    (r.ts, RecText(r))
  }

  predicate ValidModesField(s: string) {
    |s| <= C_MODES_MAX && forall c :: c in s ==> ' ' <= c <= '~' && c != '|'
  }

  /** The body of a D| line, if every field of it may be stored. */
  function ParseD(data: string): Option<NetRec> {
    var f := SplitN(data, '|', 3);
    if |data| > D_LINE_MAX || |f| < 3 then None
    else
      match ParseLL(f[2])
      case None => None
      case Some(ts) =>
        if ValidModesField(f[0]) && |f[1]| <= SETTINGS_MAX && PlainText(f[1]) && ts > 0
        then Some(NetRec(ts, f[0], f[1])) else None
  }

  function ApplyD(cur: NetRec, data: string): NetRec {
    match ParseD(data)
    case None => cur
    case Some(r) => if TextAccepts(r.ts, RecText(r), cur.ts, RecText(cur)) then r else cur
  }

  function FoldD(cur: NetRec, lines: seq<string>): NetRec {
    if lines == [] then cur else ApplyD(FoldD(cur, lines[..|lines| - 1]), lines[|lines| - 1])
  }

  class NetDefaults {
    var modes: string
    var settings: string
    var ts: int

    constructor ()
      ensures Rec() == NetRec(0, "", "")
    {
      modes, settings, ts := "", "", 0;
    }

    function Rec(): NetRec
      reads this
    {
      NetRec(ts, modes, settings)
    }

    method ApplyLine(data: string) returns (changed: bool)
      modifies this
      ensures Rec() == ApplyD(old(Rec()), data)
      ensures changed ==> ParseD(data).Some? && Rec() == ParseD(data).value != old(Rec())
      ensures !changed ==> Rec() == old(Rec())
    {
      if |data| > D_LINE_MAX {
        return false;
      }
      var f := SplitN(data, '|', 3);
      if |f| < 3 {
        return false;
      }
      var stamp := ParseLL(f[2]);
      if stamp.None? || !ValidModesField(f[0]) || |f[1]| > SETTINGS_MAX || !PlainText(f[1]) || stamp.value <= 0 {
        return false;
      }
      if stamp.value < ts {
        return false;
      }
      if stamp.value == ts {
        var cur := modes + "|" + settings;
        var inc := f[0] + "|" + f[1];
        LessTotal(inc, cur);
        if !Less(cur, inc) {
          return false;
        }
      }
      modes, settings, ts := f[0], f[1], stamp.value;
      changed := true;
    }
  }

  /** No bar in either field: the text of a record tells which record it is. */
  predicate CleanRec(r: NetRec) {
    '|' !in r.modes && '|' !in r.settings
  }

  lemma KeyTells(a: NetRec, b: NetRec)
    requires CleanRec(a) && CleanRec(b) && RecKey(a) == RecKey(b)
    ensures a == b
  {
    SplitAtSeparator(a.modes, '|', a.settings);
    SplitAtSeparator(b.modes, '|', b.settings);
    SplitNoSeparator(a.modes, '|');
    SplitNoSeparator(a.settings, '|');
    SplitNoSeparator(b.modes, '|');
    SplitNoSeparator(b.settings, '|');
    var x, y := Split(RecText(a), '|'), Split(RecText(b), '|');
    assert x == [a.modes] + [a.settings] && y == [b.modes] + [b.settings];
    assert x[0] == y[0] && x[1] == y[1];
  }

  /** The keys of the lines that may be stored, in order. */
  function Keys(lines: seq<string>): (r: seq<(int, string)>)
    ensures forall k :: k in r <==> exists l :: l in lines && ParseD(l).Some? && RecKey(ParseD(l).value) == k
  {
    if lines == [] then []
    else
      var l := lines[|lines| - 1];
      assert lines == lines[..|lines| - 1] + [l];
      Keys(lines[..|lines| - 1]) + if ParseD(l).Some? then [RecKey(ParseD(l).value)] else []
  }

  lemma {:induction false} FoldDKeeps(cur: NetRec, lines: seq<string>)
    requires CleanRec(cur)
    ensures CleanRec(FoldD(cur, lines))
    ensures RecKey(FoldD(cur, lines)) == Keep(TextLess(), RecKey(cur), Keys(lines))
  {
    if lines != [] {
      var n := |lines| - 1;
      FoldDKeeps(cur, lines[..n]);
      var before := Keys(lines[..n]);
      var p := ParseD(lines[n]);
      if p.Some? {
        assert (before + [RecKey(p.value)])[..|before|] == before;
      } else {
        assert Keys(lines) == before;
      }
    }
  }

  /** Any order and any repeats of the same D| lines end in the same stored record. */
  lemma NetConverges(cur: NetRec, a: seq<string>, b: seq<string>)
    requires CleanRec(cur)
    requires forall l :: l in a <==> l in b
    ensures FoldD(cur, a) == FoldD(cur, b)
  {
    FoldDKeeps(cur, a);
    FoldDKeeps(cur, b);
    TextIsOrder();
    KeepConverges(TextLess(), RecKey(cur), Keys(a), Keys(b));
    KeyTells(FoldD(cur, a), FoldD(cur, b));
  }

  /** It is the greatest of them: one of those offered, or the one already there, and none of
      them would be accepted over it. */
  lemma NetIsGreatest(cur: NetRec, lines: seq<string>, l: string)
    requires CleanRec(cur)
    ensures var m := FoldD(cur, lines);
            && (m == cur || exists x :: x in lines && ParseD(x) == Some(m))
            && (l in lines ==> ApplyD(m, l) == m)
            && !TextAccepts(cur.ts, RecText(cur), m.ts, RecText(m))
  {
    FoldDKeeps(cur, lines);
    TextIsOrder();
    KeepIsGreatest(TextLess(), RecKey(cur), Keys(lines));
    FoldDFrom(cur, lines);
    if l in lines && ParseD(l).Some? {
      assert RecKey(ParseD(l).value) in Keys(lines);
    }
  }

  lemma {:induction false} FoldDFrom(cur: NetRec, lines: seq<string>)
    ensures var m := FoldD(cur, lines); m == cur || exists x :: x in lines && ParseD(x) == Some(m)
  {
    if lines != [] {
      var n := |lines| - 1;
      FoldDFrom(cur, lines[..n]);
      assert lines[n] in lines && forall x :: x in lines[..n] ==> x in lines;
    }
  }

  // ---- the channel records -------------------------------------------------------------------

  /** A C| record; a channel known but without one has stamp 0 and is not active. */
  datatype ChanRec = ChanRec(ts: int, active: bool, modes: string, settings: string)

  const NO_RECORD := ChanRec(0, false, "", "")

  /** The channel and record of a C| line, if every field of it may be stored. */
  function ParseC(data: string): Option<(string, ChanRec)> {
    var f := SplitN(data, '|', 6);
    if |data| > C_LINE_MAX || |f| < 5 then None
    else
      match (AddOp(f[3]), ParseLL(f[4]))
      case (Some(add), Some(ts)) =>
        if ValidChanName(f[0]) && ValidModesField(f[1]) && |f[2]| <= SETTINGS_MAX && PlainText(f[2]) && ts > 0
        then Some((f[0], ChanRec(ts, add, f[1], f[2]))) else None
      case _ => None
  }

  /** A channel never heard of is made by its first add; a delete for it is nothing. */
  function ApplyC(cur: Option<ChanRec>, r: ChanRec): Option<ChanRec> {
    if cur.None? && !r.active then None
    else
      var c := cur.GetOr(NO_RECORD);
      if LwwAccepts(r.ts, r.active, c.ts, c.active) then Some(r) else Some(c)
  }

  function FoldC(cur: Option<ChanRec>, rs: seq<ChanRec>): Option<ChanRec> {
    if rs == [] then cur else ApplyC(FoldC(cur, rs[..|rs| - 1]), rs[|rs| - 1])
  }

  /** What a C| line does to the channel of this name. */
  function ApplyChanLine(name: string, cur: Option<ChanRec>, data: string): Option<ChanRec> {
    match ParseC(data)
    case None => cur
    case Some((chan, r)) => if EqIc(chan, name) then ApplyC(cur, r) else cur
  }

  function FoldChanLines(name: string, cur: Option<ChanRec>, lines: seq<string>): Option<ChanRec> {
    if lines == [] then cur else ApplyChanLine(name, FoldChanLines(name, cur, lines[..|lines| - 1]), lines[|lines| - 1])
  }

  class ChanConfig {
    const name: string
    var known: bool
    var modes: string
    var settings: string
    var ts: int
    var active: bool

    /** Nothing is set before the channel is known. */
    predicate Valid()
      reads this
    {
      !known ==> modes == "" && settings == "" && ts == 0 && !active
    }

    constructor (chan: string)
      ensures name == chan && Valid() && Rec() == None
    {
      name := chan;
      known, modes, settings, ts, active := false, "", "", 0, false;
    }

    function Rec(): Option<ChanRec>
      reads this
    {
      if known then Some(ChanRec(ts, active, modes, settings)) else None
    }

    method ApplyLine(data: string) returns (changed: bool)
      requires Valid()
      modifies this
      ensures Valid() && Rec() == ApplyChanLine(name, old(Rec()), data)
      ensures changed ==> ParseC(data).Some? && Rec() == Some(ParseC(data).value.1)
    {
      if |data| > C_LINE_MAX {
        return false;
      }
      var f := SplitN(data, '|', 6);
      if |f| < 5 {
        return false;
      }
      var add, stamp := AddOp(f[3]), ParseLL(f[4]);
      if add.None? || stamp.None? {
        return false;
      }
      if !ValidChanName(f[0]) || !ValidModesField(f[1]) || |f[2]| > SETTINGS_MAX || !PlainText(f[2])
         || stamp.value <= 0 {
        return false;
      }
      if !EqIc(f[0], name) {
        return false;
      }
      if !known {
        if !add.value {
          return false;
        }
        known := true;
      }
      if !LwwAccepts(stamp.value, add.value, ts, active) {
        return false;
      }
      modes, settings, ts, active := f[1], f[2], stamp.value, add.value;
      changed := true;
    }
  }
}
