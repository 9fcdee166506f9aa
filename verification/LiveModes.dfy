/** Live channel state: how MODE text changes it, and which changes move it to
    the stored modes. */
module LiveModes {
  import Counting
  import opened Text
  import opened Numbers
  import opened ModeLines

  const MAX_KEY := 31
  const MAXLIST_DEFAULT := 100
  const BAN_LIST_CAP := 200
  const SPEC_LIMIT := 128
  const LIMIT_MAX := 99999

  // ---- the server's mode table -------------------------------------------------

  datatype Isupport = Isupport(modes: int, maxlistB: int, prefixModes: string, cmA: string, cmB: string, cmC: string)

  const DEFAULT_ISUPPORT := Isupport(3, 0, "ov", "beI", "k", "l")

  predicate IsPrefixMode(isup: Isupport, m: char) {
    m != '\0' && m in isup.prefixModes
  }

  predicate HasArg(isup: Isupport, m: char, adding: bool) {
    IsPrefixMode(isup, m) || m in isup.cmA || m in isup.cmB || (m in isup.cmC && adding)
  }

  function Rule(isup: Isupport): ArgRule {
    (m, adding) => HasArg(isup, m, adding)
  }

  function BanCap(isup: Isupport): nat {
    var n := if isup.maxlistB > 0 then isup.maxlistB else MAXLIST_DEFAULT;
    if n < BAN_LIST_CAP then n else BAN_LIST_CAP
  }

  // ---- live state ----------------------------------------------------------------

  datatype LiveBan = LiveBan(mask: string, setter: string, when: int)
  datatype Member = Member(nick: string, halfop: bool, voice: bool)
  datatype Live = Live(flags: set<char>, key: string, limit: int, known: bool,
                       bans: seq<LiveBan>, overflow: bool, roster: seq<Member>)

  predicate IsLetter(m: char) {
    'a' <= m <= 'z' || 'A' <= m <= 'Z'
  }

  /** 1 to 6 digits. */
  predicate ShortDigits(s: string) {
    Digits(s) && |s| <= 6
  }

  /** The first entry for `mask`, up to case; the length when there is none. */
  function BanIndex(bans: seq<LiveBan>, mask: string): (i: nat)
    ensures i <= |bans|
    ensures i < |bans| ==> EqIc(bans[i].mask, mask)
    ensures forall j :: 0 <= j < i ==> !EqIc(bans[j].mask, mask)
  {
    if bans == [] then 0 else if EqIc(bans[0].mask, mask) then 0 else 1 + BanIndex(bans[1..], mask)
  }

  function MemberIndex(roster: seq<Member>, nick: string): (i: nat)
    ensures i <= |roster|
  {
    if roster == [] then 0 else if EqIc(roster[0].nick, nick) then 0 else 1 + MemberIndex(roster[1..], nick)
  }

  function WithBan(isup: Isupport, live: Live, mask: string, when: int): Live {
    if mask == "" || |mask| >= MAX_MASK_LEN || BanIndex(live.bans, mask) < |live.bans| then live
    else if |live.bans| >= BanCap(isup) then live.(overflow := true)
    else live.(bans := live.bans + [LiveBan(mask, "", when)])
  }

  function WithoutBan(live: Live, mask: string): Live {
    var i := BanIndex(live.bans, mask);
    if i < |live.bans| then live.(bans := Counting.SwapRemove(live.bans, i)) else live
  }

  function WithStatus(live: Live, letter: char, adding: bool, arg: Option<string>): Live {
    if arg.None? then live
    else
      var i := MemberIndex(live.roster, arg.value);
      if i == |live.roster| then live
      else if letter == 'h' then live.(roster := live.roster[i := live.roster[i].(halfop := adding)])
      else if letter == 'v' then live.(roster := live.roster[i := live.roster[i].(voice := adding)])
      else live
  }

  function WithKey(live: Live, adding: bool, arg: Option<string>): Live {
    if adding then
      live.(flags := live.flags + {'k'}, key := if arg.Some? then Trunc(arg.value, MAX_KEY) else live.key)
    else live.(flags := live.flags - {'k'}, key := "")
  }

  function WithLimit(live: Live, adding: bool, arg: Option<string>): Live {
    if adding && arg.Some? && ShortDigits(arg.value) then live.(flags := live.flags + {'l'}, limit := Val(arg.value))
    else if !adding then live.(flags := live.flags - {'l'}, limit := 0)
    else live
  }

  /** What one change read from MODE text does. */
  function ApplyChange(isup: Isupport, live: Live, c: Change, from324: bool, now: int): Live {
    var hasArg := HasArg(isup, c.letter, c.adding);
    if hasArg && c.arg.None? && c.letter != 'k' then live
    else if c.letter == 'b' then
      if c.arg.None? || from324 then live
      else if c.adding then WithBan(isup, live, c.arg.value, now)
      else WithoutBan(live, c.arg.value)
    else if c.letter == 'k' then WithKey(live, c.adding, c.arg)
    else if c.letter == 'l' then WithLimit(live, c.adding, c.arg)
    else if IsPrefixMode(isup, c.letter) then WithStatus(live, c.letter, c.adding, c.arg)
    else if !hasArg && IsLetter(c.letter) then
      live.(flags := if c.adding then live.flags + {c.letter} else live.flags - {c.letter})
    else live
  }

  function ApplyAll(isup: Isupport, live: Live, cs: seq<Change>, from324: bool, now: int): Live
    decreases |cs|
  {
    if cs == [] then live
    else ApplyAll(isup, ApplyChange(isup, live, cs[0], from324, now), cs[1..], from324, now)
  }

  function Reset(live: Live): Live {
    live.(flags := {}, key := "", limit := 0, known := true)
  }

  /** "<modes> [args...]" of a MODE or a 324 applied to the live state. */
  function ApplyText(isup: Isupport, live: Live, modes: string, args: string, from324: bool, now: int): Live {
    ApplyAll(isup, if from324 then Reset(live) else live, Read(Rule(isup), modes, Tokens(args), true), from324, now)
  }

  lemma {:induction false} ApplyConcat(isup: Isupport, live: Live, a: seq<Change>, b: seq<Change>, from324: bool, now: int)
    ensures ApplyAll(isup, live, a + b, from324, now)
            == ApplyAll(isup, ApplyAll(isup, live, a, from324, now), b, from324, now)
    decreases |a|
  {
    if a == [] {
      assert a + b == b;
    } else {
      assert (a + b)[0] == a[0] && (a + b)[1..] == a[1..] + b;
      ApplyConcat(isup, ApplyChange(isup, live, a[0], from324, now), a[1..], b, from324, now);
    }
  }

  // ---- the stored form -------------------------------------------------------------

  const FLAG_LETTERS := "imnpst"

  predicate IsFlagLetter(m: char) {
    m == 'i' || m == 'm' || m == 'n' || m == 'p' || m == 's' || m == 't'
  }

  predicate IsManaged(m: char) {
    IsFlagLetter(m) || m == 'k' || m == 'l'
  }

  type Dirs = map<char, bool>

  /** Per letter the last sign it stands under, starting from `acc`. */
  function DirsFrom(letters: string, adding: bool, acc: Dirs): Dirs {
    if letters == "" then acc
    else if letters[0] == '+' then DirsFrom(letters[1..], true, acc)
    else if letters[0] == '-' then DirsFrom(letters[1..], false, acc)
    else DirsFrom(letters[1..], adding, acc[letters[0] := adding])
  }

  predicate OnlyManaged(letters: string) {
    forall i :: 0 <= i < |letters| ==> letters[i] == '+' || letters[i] == '-' || IsManaged(letters[i])
  }

  /** The stored limit argument, when it is one: 1..99999. */
  function LimitArg(arg: Option<string>): Option<nat> {
    if arg.Some? && ShortDigits(arg.value) && 1 <= Val(arg.value) <= LIMIT_MAX then Some(Val(arg.value)) else None
  }

  /** Stored modes as they are read: directions per letter and the limit wanted. */
  datatype Wanted = Wanted(dirs: Dirs, limit: nat)

  function ReadStored(spec: string): Option<Wanted> {
    var t := Tokens(spec);
    if |spec| >= SPEC_LIMIT || t == [] || !OnlyManaged(t[0]) then None
    else
      var dirs := DirsFrom(t[0], true, map[]);
      var arg := if |t| > 1 then Some(t[1]) else None;
      if 'l' in dirs && dirs['l'] then
        var limit := LimitArg(arg);
        if limit.None? then None else Some(Wanted(dirs, limit.value))
      else Some(Wanted(dirs, 0))
  }

  // ---- the changes that move the live modes to the stored ones ---------------------

  predicate Wants(dirs: Dirs, letter: char, adding: bool) {
    letter in dirs && dirs[letter] == adding
  }

  function FlagChange(dirs: Dirs, live: Live, p: char): seq<Change> {
    if Wants(dirs, p, true) && (!live.known || p !in live.flags) then [Change(true, p, None)]
    else if Wants(dirs, p, false) && (!live.known || p in live.flags) then [Change(false, p, None)]
    else []
  }

  function FlagChanges(dirs: Dirs, live: Live, letters: string): seq<Change> {
    if letters == "" then [] else FlagChange(dirs, live, letters[0]) + FlagChanges(dirs, live, letters[1..])
  }

  /** A key that can stand on a line. */
  predicate SendableKey(key: string) {
    key != "" && forall i :: 0 <= i < |key| ==> !Stop(key[i]) && key[i] != ',' && key[i] != '\t'
  }

  /** The server let us see the key it has. */
  predicate VisibleKey(live: Live) {
    'k' in live.flags && live.key != "" && live.key != "*"
  }

  function KeyChanges(dirs: Dirs, live: Live, key: string): seq<Change> {
    if Wants(dirs, 'k', true) && SendableKey(key) then
      if !live.known || 'k' !in live.flags || live.key != key then
        (if VisibleKey(live) && live.key != key then [Change(false, 'k', Some(live.key))] else [])
        + [Change(true, 'k', Some(key))]
      else []
    else if Wants(dirs, 'k', false) && live.known && VisibleKey(live) then [Change(false, 'k', Some(live.key))]
    else []
  }

  function LimitChanges(w: Wanted, live: Live, skipLimit: bool): seq<Change> {
    if skipLimit then []
    else if Wants(w.dirs, 'l', true) then
      if !live.known || 'l' !in live.flags || live.limit != w.limit then [Change(true, 'l', Some(Dec(w.limit)))]
      else []
    else if Wants(w.dirs, 'l', false) && (!live.known || 'l' in live.flags) then [Change(false, 'l', None)]
    else []
  }

  /** The single changes to send; None when there is nothing usable to act on. */
  function SyncPlan(spec: string, key: string, live: Live, skipLimit: bool, requireKnown: bool): Option<seq<Change>> {
    var w := ReadStored(spec);
    if w.None? || (requireKnown && !live.known) then None
    else Some(FlagChanges(w.value.dirs, live, FLAG_LETTERS) + KeyChanges(w.value.dirs, live, key)
              + LimitChanges(w.value, live, skipLimit))
  }

  function Lines(chan: string, cs: seq<Change>): (r: seq<string>)
    ensures |r| == |cs|
  {
    seq(|cs|, i requires 0 <= i < |cs| => LineText(chan, [cs[i]]))
  }

  // ---- the channel object ------------------------------------------------------------

  class Channel {
    var name: string
    var key: string
    var flags: set<char>
    var liveKey: string
    var limit: int
    var known: bool
    var bans: seq<LiveBan>
    var overflow: bool
    var roster: seq<Member>

    function State(): Live
      reads this
    {
      Live(flags, liveKey, limit, known, bans, overflow, roster)
    }

    method BanAdd(isup: Isupport, mask: string, when: int)
      modifies this`bans, this`overflow
      ensures State() == WithBan(isup, old(State()), mask, when)
    {
      if mask == "" || |mask| >= MAX_MASK_LEN {
        return;
      }
      if BanIndex(bans, mask) < |bans| {
        return;
      }
      if |bans| >= BanCap(isup) {
        overflow := true;
        return;
      }
      bans := bans + [LiveBan(mask, "", when)];
    }

    method BanDel(mask: string)
      modifies this`bans
      ensures State() == WithoutBan(old(State()), mask)
    {
      var i := BanIndex(bans, mask);
      if i < |bans| {
        bans := Counting.SwapRemove(bans, i);
      }
    }

    method ApplyOne(isup: Isupport, ch: char, adding: bool, a: Option<string>, from324: bool, now: int)
      modifies this`flags, this`liveKey, this`limit, this`bans, this`overflow, this`roster
      ensures State() == ApplyChange(isup, old(State()), Change(adding, ch, a), from324, now)
    {
      var hasArg := HasArg(isup, ch, adding);
      if hasArg && a.None? && ch != 'k' {
        return;
      }
      if ch == 'b' {
        if a.Some? && !from324 {
          if adding {
            BanAdd(isup, a.value, now);
          } else {
            BanDel(a.value);
          }
        }
      } else if ch == 'k' {
        if adding {
          flags := flags + {'k'};
          if a.Some? {
            liveKey := Trunc(a.value, MAX_KEY);
          }
        } else {
          flags := flags - {'k'};
          liveKey := "";
        }
      } else if ch == 'l' {
        if adding && a.Some? && ShortDigits(a.value) {
          flags := flags + {'l'};
          limit := Val(a.value);
        } else if !adding {
          flags := flags - {'l'};
          limit := 0;
        }
      } else if IsPrefixMode(isup, ch) {
        if a.Some? {
          var i := MemberIndex(roster, a.value);
          if i < |roster| {
            if ch == 'h' {
              roster := roster[i := roster[i].(halfop := adding)];
            } else if ch == 'v' {
              roster := roster[i := roster[i].(voice := adding)];
            }
          }
        }
      } else if !hasArg && IsLetter(ch) {
        flags := if adding then flags + {ch} else flags - {ch};
      }
    }

    method NextToken(s: string) returns (tok: Option<string>, rest: string)
      ensures Tokens(s) == if tok.Some? then [tok.value] + Tokens(rest) else []
    {
      match TokNext(s) {
        case None => return None, s;
        case Some((t, r)) => return Some(t), r;
      }
    }

    method Apply(isup: Isupport, modes: string, args: string, from324: bool, now: int)
      modifies this`flags, this`liveKey, this`limit, this`known, this`bans, this`overflow, this`roster
      ensures State() == ApplyText(isup, old(State()), modes, args, from324, now)
    {
      if from324 {
        flags := {};
        liveKey := "";
        limit := 0;
        known := true;
      }
      hide HasArg, Tokens, TokNext, ApplyChange;
      var rule := Rule(isup);
      ghost var left := Tokens(args);
      ghost var start := State();
      ghost var final := ApplyText(isup, old(State()), modes, args, from324, now);
      var arg, rest := NextToken(args);
      var adding := true;
      assert modes[0..] == modes;
      for i := 0 to |modes|
        invariant left == if arg.Some? then [arg.value] + Tokens(rest) else []
        invariant ApplyAll(isup, State(), Read(rule, modes[i..], left, adding), from324, now) == final
      {
        var ch := modes[i];
        ghost var todo := Read(rule, modes[i..], left, adding);
        assert modes[i..][1..] == modes[i + 1..];
        if ch == '+' {
          adding := true;
        } else if ch == '-' {
          adding := false;
        } else {
          var a := None;
          if HasArg(isup, ch, adding) && arg.Some? {
            a := arg;
            assert left[1..] == Tokens(rest);
            left := Tokens(rest);
            arg, rest := NextToken(rest);
          }
          assert todo == [Change(adding, ch, a)] + Read(rule, modes[i + 1..], left, adding);
          assert todo[0] == Change(adding, ch, a) && todo[1..] == Read(rule, modes[i + 1..], left, adding);
          ApplyOne(isup, ch, adding, a, from324, now);
        }
      }
    }

    /** The directions in a letters token, one byte per letter; not ok at a foreign letter. */
    method ReadDirs(letters: string) returns (ok: bool, dir: array<char>)
      ensures ok <==> OnlyManaged(letters)
      ensures fresh(dir) && dir.Length == 128
      ensures ok ==> Held(dir[..], DirsFrom(letters, true, map[]))
    {
      dir := new char[128](_ => '\0');
      var adding := true;
      ghost var acc: Dirs := map[];
      assert letters[0..] == letters;
      for i := 0 to |letters|
        invariant DirsFrom(letters[i..], adding, acc) == DirsFrom(letters, true, map[])
        invariant OnlyManaged(letters[..i]) && Held(dir[..], acc)
      {
        var m := letters[i];
        assert letters[i..][1..] == letters[i + 1..];
        if m == '+' || m == '-' {
          adding := m == '+';
        } else if !IsManaged(m) {
          return false, dir;
        } else {
          dir[m as int] := Sign(adding);
          acc := acc[m := adding];
        }
      }
      assert letters[..|letters|] == letters;
      ok := true;
    }

    /** Counts the changes that move the live modes to the stored ones, and writes their
        lines unless `dry`; -1 when there is nothing usable to act on. */
    method ModeSync(spec: string, skipLimit: bool, dry: bool, requireKnown: bool)
      returns (queued: int, lines: seq<string>)
      ensures var plan := SyncPlan(spec, key, State(), skipLimit, requireKnown);
              match plan
              case None => queued == -1 && lines == []
              case Some(cs) => queued == |cs| && lines == if dry then [] else Lines(name, cs)
    {
      if |spec| >= SPEC_LIMIT {
        return -1, [];
      }
      hide Tokens, TokNext, DirsFrom, OnlyManaged, LimitArg, ReadStored, FlagChanges, KeyChanges, LimitChanges, Lines;
      var first, rest := NextToken(spec);
      if first.None? {
        return -1, [];
      }
      var letters := first.value;
      var limitArg, _ := NextToken(rest);
      ghost var t := Tokens(spec);
      assert limitArg == if |t| > 1 then Some(t[1]) else None;
      StoredBy(spec, letters, limitArg);

      var ok, dir := ReadDirs(letters);
      if !ok {
        return -1, [];
      }
      ghost var dirs := DirsFrom(letters, true, map[]);
      assert dir[..]['l' as int] == DirByte(dirs, 'l');
      var wantLimit := 0;
      if dir['l' as int] == '+' {
        var v := LimitArg(limitArg);
        if v.None? {
          return -1, [];
        }
        wantLimit := v.value;
      }
      if requireKnown && !known {
        return -1, [];
      }
      queued, lines := SendAll(dir, dirs, wantLimit, skipLimit, dry);
    }

    method SendAll(dir: array<char>, ghost dirs: Dirs, wantLimit: nat, skipLimit: bool, dry: bool)
      returns (queued: int, lines: seq<string>)
      requires Held(dir[..], dirs)
      ensures var cs := FlagChanges(dirs, State(), FLAG_LETTERS) + KeyChanges(dirs, State(), key)
                        + LimitChanges(Wanted(dirs, wantLimit), State(), skipLimit);
              queued == |cs| && lines == if dry then [] else Lines(name, cs)
    {
      assert dir[..]['l' as int] == DirByte(dirs, 'l') && dir[..]['k' as int] == DirByte(dirs, 'k');
      ghost var flagChanges := FlagChanges(dirs, State(), FLAG_LETTERS);
      ghost var keyChanges := KeyChanges(dirs, State(), key);
      queued, lines := SendFlags(FLAG_LETTERS, dir, dirs, dry);
      var n, more := SendKey(dir['k' as int], dirs, dry);
      queued, lines := queued + n, lines + more;
      n, more := SendLimit(if skipLimit then '\0' else dir['l' as int], wantLimit, dirs, skipLimit, dry);
      queued, lines := queued + n, lines + more;
      LinesConcat(name, flagChanges, keyChanges);
      LinesConcat(name, flagChanges + keyChanges, LimitChanges(Wanted(dirs, wantLimit), State(), skipLimit));
    }

    method SendFlags(letters: string, dir: array<char>, ghost dirs: Dirs, dry: bool)
      returns (queued: int, lines: seq<string>)
      requires Held(dir[..], dirs) && forall i :: 0 <= i < |letters| ==> IsFlagLetter(letters[i])
      ensures var cs := FlagChanges(dirs, State(), letters);
              queued == |cs| && lines == if dry then [] else Lines(name, cs)
    {
      queued, lines := 0, [];
      for i := 0 to |letters|
        invariant queued == |FlagChanges(dirs, State(), letters[..i])|
        invariant lines == if dry then [] else Lines(name, FlagChanges(dirs, State(), letters[..i]))
      {
        assert dir[..][letters[i] as int] == DirByte(dirs, letters[i]);
        var n, more := SendFlag(letters[i], dir[letters[i] as int], dirs, dry);
        FlagChangesMore(dirs, State(), letters, i);
        LinesConcat(name, FlagChanges(dirs, State(), letters[..i]), FlagChange(dirs, State(), letters[i]));
        queued, lines := queued + n, lines + more;
      }
      assert letters[..|letters|] == letters;
    }

    method SendFlag(p: char, d: char, ghost dirs: Dirs, dry: bool) returns (queued: int, lines: seq<string>)
      requires d == DirByte(dirs, p)
      ensures var cs := FlagChange(dirs, State(), p);
              queued == |cs| && lines == if dry then [] else Lines(name, cs)
    {
      queued, lines := 0, [];
      var h := p in flags;
      if d == '+' && (!known || !h) {
        if !dry {
          lines := [LineText(name, [Change(true, p, None)])];
        }
        queued := 1;
      } else if d == '-' && (!known || h) {
        if !dry {
          lines := [LineText(name, [Change(false, p, None)])];
        }
        queued := 1;
      }
    }

    method SendKey(kd: char, ghost dirs: Dirs, dry: bool) returns (queued: int, lines: seq<string>)
      requires kd == DirByte(dirs, 'k')
      ensures var cs := KeyChanges(dirs, State(), key);
              queued == |cs| && lines == if dry then [] else Lines(name, cs)
    {
      queued, lines := 0, [];
      var liveK := 'k' in flags;
      if kd == '+' && SendableKey(key) {
        if !known || !liveK || liveKey != key {
          if liveK && liveKey != "" && liveKey != "*" && liveKey != key {
            if !dry {
              lines := lines + [LineText(name, [Change(false, 'k', Some(liveKey))])];
            }
            queued := queued + 1;
          }
          if !dry {
            lines := lines + [LineText(name, [Change(true, 'k', Some(key))])];
          }
          queued := queued + 1;
        }
      } else if kd == '-' && known && liveK && liveKey != "" && liveKey != "*" {
        if !dry {
          lines := lines + [LineText(name, [Change(false, 'k', Some(liveKey))])];
        }
        queued := queued + 1;
      }
    }

    method SendLimit(ld: char, wantLimit: nat, ghost dirs: Dirs, ghost skipLimit: bool, dry: bool) returns (queued: int, lines: seq<string>)
      requires ld == if skipLimit then '\0' else DirByte(dirs, 'l')
      ensures var cs := LimitChanges(Wanted(dirs, wantLimit), State(), skipLimit);
              queued == |cs| && lines == if dry then [] else Lines(name, cs)
    {
      queued, lines := 0, [];
      var liveL := 'l' in flags;
      if ld == '+' {
        if !known || !liveL || limit != wantLimit {
          if !dry {
            lines := [LineText(name, [Change(true, 'l', Some(Dec(wantLimit)))])];
          }
          queued := 1;
        }
      } else if ld == '-' && (!known || liveL) {
        if !dry {
          lines := [LineText(name, [Change(false, 'l', None)])];
        }
        queued := 1;
      }
    }
  }

  lemma {:induction false} FlagChangesMore(dirs: Dirs, live: Live, letters: string, i: nat)
    requires i < |letters|
    ensures FlagChanges(dirs, live, letters[..i + 1])
            == FlagChanges(dirs, live, letters[..i]) + FlagChange(dirs, live, letters[i])
  {
    if i == 0 {
      assert letters[..1][1..] == "";
    } else {
      FlagChangesMore(dirs, live, letters[1..], i - 1);
      assert letters[..i + 1][1..] == letters[1..][..i] && letters[..i][1..] == letters[1..][..i - 1];
    }
  }

  lemma LinesConcat(chan: string, a: seq<Change>, b: seq<Change>)
    ensures Lines(chan, a + b) == Lines(chan, a) + Lines(chan, b)
  {
  }

  lemma StoredBy(spec: string, letters: string, arg: Option<string>)
    requires var t := Tokens(spec); t != [] && t[0] == letters && arg == if |t| > 1 then Some(t[1]) else None
    ensures ReadStored(spec)
            == if |spec| >= SPEC_LIMIT || !OnlyManaged(letters) then None
               else
                 var dirs := DirsFrom(letters, true, map[]);
                 if !Wants(dirs, 'l', true) then Some(Wanted(dirs, 0))
                 else if LimitArg(arg).Some? then Some(Wanted(dirs, LimitArg(arg).value)) else None
  {
    hide Tokens, DirsFrom, OnlyManaged, LimitArg;
  }

  function DirByte(dirs: Dirs, m: char): char {
    if m in dirs then Sign(dirs[m]) else '\0'
  }

  /** The per-letter array holds the directions collected so far. */
  ghost predicate Held(dir: seq<char>, dirs: Dirs) {
    |dir| == 128 && forall m: char :: IsManaged(m) ==> dir[m as int] == DirByte(dirs, m)
  }
}
