/** The settings field of a C| or D| record: "name=value" tokens between commas, read as
    overrides, and the edit that sets or drops one of them. */
module Settings {
  import opened Text
  import opened Numbers

  const OUT_CAP := SETTINGS_MAX + 64

  /** What a name takes: a number, or two numbers.  Only the send queue's pair cannot be off. */
  datatype Item =
    | Setting(name: string, lo: nat, hi: nat, netOnly: bool)
    | Flood(name: string, nlo: nat, nhi: nat, slo: nat, shi: nat, offOk: bool, netOnly: bool)
  {
    predicate IsSendq() {
      Flood? && !offOk
    }
  }

  type Table = seq<Item>

  const GUARD_FLAGS: Table := [
    Setting("enforcemodes", 0, 1, false),
    Setting("bitch", 0, 1, false),
    Setting("protectops", 0, 1, false),
    Setting("revenge", 0, 1, false),
    Setting("stopnethack", 0, 1, false)
  ]
  const UPKEEP_FLAGS: Table := [
    Setting("enforcebans", 0, 1, false),
    Setting("dynamicbans", 0, 1, false),
    Setting("dontkickops", 0, 1, false),
    Setting("cycle", 0, 1, false),
    Setting("dynamiclimit", 0, 1, false)
  ]
  const NUMBERS: Table := [
    Setting("bantime", 0, 525600, false),
    Setting("bantype", 0, 9, false),
    Setting("banidle", 1, 10080, false),
    Setting("limitgap", 1, 1000, false),
    Setting("limitdelay", 10, 3600, false),
    Setting("ignoretime", 1, 1440, true)
  ]
  const CHANNEL_FLOODS: Table := [
    Flood("flood chan", 1, 1000, 1, 3600, true, false),
    Flood("flood ctcp", 1, 1000, 1, 3600, true, false),
    Flood("flood join", 1, 1000, 1, 3600, true, false),
    Flood("flood nick", 1, 1000, 1, 3600, true, false),
    Flood("flood deop", 1, 1000, 1, 3600, true, false),
    Flood("flood kick", 1, 1000, 1, 3600, true, false),
    Flood("flood ban", 1, 1000, 1, 3600, true, false)
  ]
  const BOT_FLOODS: Table := [
    Flood("bflood cmd", 1, 1000, 1, 3600, true, true),
    Flood("bflood msg", 1, 1000, 1, 3600, true, true),
    Flood("bflood ctcp", 1, 1000, 1, 3600, true, true),
    Flood("sendq", 1, 100, 0, 10000, false, true)
  ]
  const ITEMS: Table := GUARD_FLAGS + UPKEEP_FLAGS + NUMBERS + CHANNEL_FLOODS + BOT_FLOODS

  datatype Value = Num(n: nat) | Pair(a: nat, b: nat) | Off

  /** The overrides a field names, by item; and whether it holds a bad sendq token. */
  datatype Overrides = Overrides(vals: map<nat, Value>, badSendq: bool)

  datatype Reason = UnknownName | BadValue | Full
  datatype Result = Ok(text: string) | Err(reason: Reason)

  // ---- names and values ----------------------------------------------------------------

  function Position(items: Table, name: string): (i: nat)
    ensures i <= |items|
    ensures i < |items| ==> items[i].name == name
    ensures forall j :: 0 <= j < i ==> items[j].name != name
  {
    if items == [] then 0 else if items[0].name == name then 0 else 1 + Position(items[1..], name)
  }

  /** The item of that name, if this level of settings has it. */
  function ItemIndex(items: Table, name: string, net: bool): (r: Option<nat>)
    ensures r.Some? ==> r.value < |items| && items[r.value].name == name
  {
    var i := Position(items, name);
    if i < |items| && (net || !items[i].netOnly) then Some(i) else None
  }

  /** The value a text gives an item; none when it is malformed or out of bounds. */
  function ValueOf(item: Item, text: string): Option<Value> {
    match item
    case Setting(_, lo, hi, _) =>
      (match ParseLL(text)
       case Some(v) => if lo <= v <= hi then Some(Num(v)) else None
       case None => None)
    case Flood(_, nlo, nhi, slo, shi, offOk, _) =>
      if offOk && text == "off" then Some(Off)
      else
        var colon := Find(text, ':');
        if colon == |text| then None
        else
          match (ParseLL(text[..colon]), ParseLL(text[colon + 1..]))
          case (Some(a), Some(b)) => if nlo <= a <= nhi && slo <= b <= shi then Some(Pair(a, b)) else None
          case _ => None
  }

  /** A value as it is written back. */
  function ValueText(v: Value): string {
    match v
    case Num(n) => Dec(n)
    case Pair(a, b) => Dec(a) + ":" + Dec(b)
    case Off => "off"
  }

  function Token(name: string, v: Value): string {
    name + "=" + ValueText(v)
  }

  // ---- reading a field -------------------------------------------------------------------

  /** What one token does: nothing, or names an item and gives it a value or a bad one. */
  function Take(items: Table, o: Overrides, tok: string, net: bool): Overrides {
    var eq := Find(tok, '=');
    if eq == |tok| || eq == 0 then o
    else
      match ItemIndex(items, tok[..eq], net)
      case None => o
      case Some(i) =>
        match ValueOf(items[i], tok[eq + 1..])
        case Some(v) => o.(vals := o.vals[i := v])
        case None => if items[i].IsSendq() then o.(badSendq := true) else o
  }

  const NOTHING := Overrides(map[], false)

  function Read(items: Table, toks: seq<string>, net: bool): Overrides {
    if toks == [] then NOTHING else Take(items, Read(items, toks[..|toks| - 1], net), toks[|toks| - 1], net)
  }

  /** Too long a field reads as nothing. */
  function Parse(items: Table, s: string, net: bool): Overrides {
    if |s| > SETTINGS_MAX then NOTHING else Read(items, Split(s, ','), net)
  }

  method ParseSettings(items: Table, s: string, net: bool) returns (out: Overrides)
    ensures out == Parse(items, s, net)
  {
    out := NOTHING;
    if |s| > SETTINGS_MAX {
      return;
    }
    var toks := Split(s, ',');
    var k := 0;
    while k < |toks|
      invariant k <= |toks| && out == Read(items, toks[..k], net)
    {
      assert toks[..k + 1][..k] == toks[..k];
      var tok := toks[k];
      k := k + 1;
      var eq := Find(tok, '=');
      if eq == |tok| || eq == 0 {
        continue;
      }
      var name, val := tok[..eq], tok[eq + 1..];
      var i := Position(items, name);
      if i == |items| || (items[i].netOnly && !net) {
        continue;
      }
      var v := ValueOf(items[i], val);
      if v.Some? {
        out := out.(vals := out.vals[i := v.value]);
      } else if items[i].IsSendq() {
        out := out.(badSendq := true);
      }
    }
    assert toks[..k] == toks;
  }

  // ---- editing a field -------------------------------------------------------------------

  /** The token sets `name`. */
  predicate Sets(tok: string, name: string) {
    |tok| > |name| && tok[..|name|] == name && tok[|name|] == '='
  }

  /** The tokens that are not empty and do not set `name`, as they stand. */
  function Kept(toks: seq<string>, name: string): (r: seq<string>)
    ensures forall t :: t in r <==> t in toks && t != "" && !Sets(t, name)
  {
    if toks == [] then []
    else
      var t := toks[|toks| - 1];
      assert toks == toks[..|toks| - 1] + [t];
      Kept(toks[..|toks| - 1], name) + if t == "" || Sets(t, name) then [] else [t]
  }

  /** The value an edit asks for: none at all, the item dropped, or a value. */
  function Wanted(item: Item, value: string): Option<Option<Value>> {
    if value == "default" then Some(None)
    else match ValueOf(item, value) case None => None case Some(v) => Some(Some(v))
  }

  /** What is kept, then the new token if there is one. */
  function Edited(toks: seq<string>, name: string, add: Option<string>): string {
    Join(Kept(toks, name) + if add.Some? then [add.value] else [], ',')
  }

  function Replaced(toks: seq<string>, cap: nat, name: string, add: Option<string>): Result {
    var out := Edited(toks, name, add);
    if |out| >= cap || |out| > SETTINGS_MAX then Err(Full) else Ok(out)
  }

  function Edit(items: Table, settings: string, cap: nat, net: bool, name: string, value: string): Result {
    match ItemIndex(items, name, net)
    case None => Err(UnknownName)
    case Some(i) =>
      match Wanted(items[i], value)
      case None => Err(BadValue)
      case Some(None) => Replaced(Split(settings, ','), cap, name, None)
      case Some(Some(v)) => Replaced(Split(settings, ','), cap, name, Some(Token(name, v)))
  }

  lemma {:induction false} JoinMore(fields: seq<string>, f: string, sep: char)
    ensures Join(fields + [f], sep) == if fields == [] then f else Join(fields, sep) + [sep] + f
  {
    if |fields| == 0 {
      assert fields + [f] == [f];
    } else {
      assert (fields + [f])[1..] == fields[1..] + [f];
      JoinMore(fields[1..], f, sep);
    }
  }

  lemma {:induction false} JoinEmpty(fields: seq<string>, sep: char)
    requires "" !in fields
    ensures Join(fields, sep) == "" <==> fields == []
  {
    if fields != [] {
      assert fields[0] in fields;
    }
  }

  /** More fields never make a shorter text. */
  lemma {:induction false} JoinGrows(a: seq<string>, b: seq<string>, sep: char)
    ensures |Join(a + b, sep)| >= |Join(a, sep)|
  {
    if b == [] {
      assert a + b == a;
    } else {
      var n := |b| - 1;
      JoinGrows(a, b[..n], sep);
      assert a + b == (a + b[..n]) + [b[n]];
      JoinMore(a + b[..n], b[n], sep);
    }
  }

  lemma {:induction false} KeptPrefix(toks: seq<string>, k: nat, name: string)
    requires k <= |toks|
    ensures Kept(toks[..k], name) <= Kept(toks, name)
  {
    hide Sets;
    if k < |toks| {
      var n := |toks| - 1;
      KeptPrefix(toks[..n], k, name);
      assert toks[..n][..k] == toks[..k];
    } else {
      assert toks[..k] == toks;
    }
  }

  /** A part that is already too long leaves no room for the whole. */
  lemma PartTooLong(toks: seq<string>, k: nat, name: string, more: seq<string>)
    requires k <= |toks|
    ensures |Join(Kept(toks, name) + more, ',')| >= |Join(Kept(toks[..k], name), ',')|
  {
    hide Kept, Join;
    KeptPrefix(toks, k, name);
    var part, all := Kept(toks[..k], name), Kept(toks, name) + more;
    assert all == part + all[|part|..];
    JoinGrows(part, all[|part|..], ',');
  }

  /** The kept tokens put back together; nothing as soon as they cannot fit. */
  method Rebuild(toks: seq<string>, name: string) returns (r: Option<string>)
    ensures r.Some? ==> r.value == Join(Kept(toks, name), ',')
    ensures r.None? ==> |Join(Kept(toks, name), ',')| > SETTINGS_MAX
  {
    var out, k := "", 0;
    while k < |toks|
      invariant k <= |toks| && out == Join(Kept(toks[..k], name), ',')
    {
      var tok := toks[k];
      assert toks[..k + 1][..k] == toks[..k] && toks[..k + 1][k] == tok;
      assert Kept(toks[..k + 1], name) == Kept(toks[..k], name) + if tok == "" || Sets(tok, name) then [] else [tok];
      k := k + 1;
      if tok == "" || Sets(tok, name) {
        assert Kept(toks[..k], name) == Kept(toks[..k - 1], name);
        continue;
      }
      JoinMore(Kept(toks[..k - 1], name), tok, ',');
      JoinEmpty(Kept(toks[..k - 1], name), ',');
      if |out| + |tok| + 2 >= OUT_CAP {
        PartTooLong(toks, k, name, []);
        assert Kept(toks, name) + [] == Kept(toks, name);
        return None;
      }
      out := (if out != "" then out + "," else "") + tok;
    }
    assert toks[..k] == toks;
    r := Some(out);
  }

  lemma EditedIs(toks: seq<string>, name: string, add: Option<string>)
    ensures var out := Join(Kept(toks, name), ',');
            Edited(toks, name, add) == if add.None? then out
                                       else out + (if out == "" then "" else ",") + add.value
  {
    var kept := Kept(toks, name);
    JoinEmpty(kept, ',');
    if add.None? {
      assert kept + [] == kept;
    } else {
      JoinMore(kept, add.value, ',');
    }
  }

  /** The room checks on the way only cut short what the last one refuses. */
  method Replace(toks: seq<string>, cap: nat, name: string, add: Option<string>) returns (r: Result)
    ensures r == Replaced(toks, cap, name, add)
  {
    hide Kept, Join, Edited;
    EditedIs(toks, name, add);
    var kept := Rebuild(toks, name);
    if kept.None? {
      return Err(Full);
    }
    var out := kept.value;
    if add.Some? {
      var more := (if out == "" then "" else ",") + add.value;
      if |out| + |more| >= OUT_CAP {
        return Err(Full);
      }
      out := out + more;
    }
    if |out| >= cap || |out| > SETTINGS_MAX {
      return Err(Full);
    }
    r := Ok(out);
  }

  class Field {
    var text: string

    constructor (s: string)
      ensures text == s
    {
      text := s;
    }

    method EditField(items: Table, cap: nat, net: bool, name: string, value: string) returns (r: Result)
      modifies this
      ensures r == Edit(items, old(text), cap, net, name, value)
      ensures text == if r.Ok? then r.text else old(text)
    {
      var idx := ItemIndex(items, name, net);
      if idx.None? {
        return Err(UnknownName);
      }
      var wanted := Wanted(items[idx.value], value);
      if wanted.None? {
        return Err(BadValue);
      }
      var add := if wanted.value.None? then None else Some(Token(name, wanted.value.value));
      r := Replace(Split(text, ','), cap, name, add);
      if r.Ok? {
        text := r.text;
      }
    }
  }

  // ---- what an edit means ------------------------------------------------------------------

  predicate Plain(s: string) {
    '=' !in s && ',' !in s
  }

  /** Names are not empty and hold neither separator. */
  predicate PlainNames(items: Table) {
    forall i :: 0 <= i < |items| ==> items[i].name != "" && Plain(items[i].name)
  }

  lemma GuardFlagsTexts()
    ensures Plain("enforcemodes") && Plain("bitch") && Plain("protectops")
    ensures Plain("revenge") && Plain("stopnethack")
  {
  }

  lemma PlainGuardFlags()
    ensures PlainNames(GUARD_FLAGS)
  {
    hide Plain;
    GuardFlagsTexts();
  }

  lemma UpkeepFlagsTexts()
    ensures Plain("enforcebans") && Plain("dynamicbans") && Plain("dontkickops")
    ensures Plain("cycle") && Plain("dynamiclimit")
  {
  }

  lemma PlainUpkeepFlags()
    ensures PlainNames(UPKEEP_FLAGS)
  {
    hide Plain;
    UpkeepFlagsTexts();
  }

  lemma NumbersTexts()
    ensures Plain("bantime") && Plain("bantype") && Plain("banidle")
    ensures Plain("limitgap") && Plain("limitdelay") && Plain("ignoretime")
  {
  }

  lemma PlainNumbers()
    ensures PlainNames(NUMBERS)
  {
    hide Plain;
    NumbersTexts();
  }

  lemma ChannelFloodsTexts()
    ensures Plain("flood chan") && Plain("flood ctcp") && Plain("flood join")
    ensures Plain("flood nick") && Plain("flood deop") && Plain("flood kick")
    ensures Plain("flood ban")
  {
  }

  lemma PlainChannelFloods()
    ensures PlainNames(CHANNEL_FLOODS)
  {
    hide Plain;
    ChannelFloodsTexts();
  }

  lemma BotFloodsTexts()
    ensures Plain("bflood cmd") && Plain("bflood msg") && Plain("bflood ctcp")
    ensures Plain("sendq")
  {
  }

  lemma PlainBotFloods()
    ensures PlainNames(BOT_FLOODS)
  {
    hide Plain;
    BotFloodsTexts();
  }

  lemma PlainBoth(a: Table, b: Table)
    requires PlainNames(a) && PlainNames(b)
    ensures PlainNames(a + b)
  {
  }

  /** The names of this build. */
  lemma TableIsPlain()
    ensures PlainNames(ITEMS)
  {
    PlainGuardFlags();
    PlainUpkeepFlags();
    PlainNumbers();
    PlainChannelFloods();
    PlainBotFloods();
    PlainBoth(GUARD_FLAGS, UPKEEP_FLAGS);
    PlainBoth(GUARD_FLAGS + UPKEEP_FLAGS, NUMBERS);
    PlainBoth(GUARD_FLAGS + UPKEEP_FLAGS + NUMBERS, CHANNEL_FLOODS);
    PlainBoth(GUARD_FLAGS + UPKEEP_FLAGS + NUMBERS + CHANNEL_FLOODS, BOT_FLOODS);
  }

  // ---- one token --------------------------------------------------------------------------

  lemma ValTextRound(item: Item, text: string)
    requires ValueOf(item, text).Some?
    ensures var v := ValueOf(item, text).value;
            ValueOf(item, ValueText(v)) == Some(v) && Plain(ValueText(v))
  {
    var v := ValueOf(item, text).value;
    match v
    case Num(n) =>
      ParsedAgain(text);
    case Pair(a, b) =>
      var colon := Find(text, ':');
      ParsedAgain(text[..colon]);
      ParsedAgain(text[colon + 1..]);
      PairText(Dec(a), Dec(b));
    case Off =>
  }

  lemma ParsedAgain(text: string)
    requires ParseLL(text).Some?
    ensures ParseLL(Dec(ParseLL(text).value)) == ParseLL(text)
    ensures var d := Dec(ParseLL(text).value); Plain(d) && ':' !in d
  {
    ParsedBound(text);
    ParseDec(Val(text));
  }

  lemma PairText(x: string, y: string)
    requires Digits(x) && Digits(y)
    ensures var t := x + ":" + y;
            Find(t, ':') == |x| && t[..|x|] == x && t[|x| + 1..] == y && t != "off" && Plain(t)
  {
    var t := x + ":" + y;
    FindAfter(x, ':', ":" + y);
    assert t == x + (":" + y);
    assert t[0] == x[0];
  }

  lemma SetsMeans(tok: string, name: string)
    requires name != "" && Plain(name)
    ensures Sets(tok, name) <==> Find(tok, '=') == |name| < |tok| && tok[..|name|] == name
  {
    if Sets(tok, name) {
      assert tok == name + tok[|name|..];
      FindAfter(name, '=', tok[|name|..]);
    }
  }

  lemma TokenReads(items: Table, o: Overrides, i: nat, name: string, net: bool, text: string)
    requires PlainNames(items) && ItemIndex(items, name, net) == Some(i)
    requires ValueOf(items[i], text).Some?
    ensures var v := ValueOf(items[i], text).value;
            var tok := Token(name, v);
            Take(items, o, tok, net) == o.(vals := o.vals[i := v]) && Sets(tok, name) && ',' !in tok
  {
    var v := ValueOf(items[i], text).value;
    ValTextRound(items[i], text);
    var tok := name + ("=" + ValueText(v));
    assert tok == Token(name, v);
    FindAfter(name, '=', "=" + ValueText(v));
    assert tok[..|name|] == name && tok[|name| + 1..] == ValueText(v);
  }

  // ---- the field without one item ------------------------------------------------------------

  /** Only one item can leave the bad send queue mark. */
  predicate OneSendq(items: Table) {
    forall i, j :: 0 <= i < |items| && 0 <= j < |items| && items[i].IsSendq() && items[j].IsSendq() ==> i == j
  }

  /** What `o` says of everything but item `i`. */
  function Without(items: Table, o: Overrides, i: nat): Overrides
    requires i < |items|
  {
    Overrides(o.vals - {i}, o.badSendq && !items[i].IsSendq())
  }

  lemma TakeWithout(items: Table, o: Overrides, tok: string, net: bool, name: string, i: nat)
    requires PlainNames(items) && OneSendq(items) && ItemIndex(items, name, net) == Some(i)
    ensures Without(items, Take(items, o, tok, net), i)
            == if Sets(tok, name) then Without(items, o, i) else Take(items, Without(items, o, i), tok, net)
  {
    SetsMeans(tok, name);
    var eq := Find(tok, '=');
    if 0 < eq < |tok| {
      var at := ItemIndex(items, tok[..eq], net);
      if at.Some? {
        var v := ValueOf(items[at.value], tok[eq + 1..]);
        if v.Some? && at.value != i {
          assert o.vals[at.value := v.value] - {i} == (o.vals - {i})[at.value := v.value];
        } else if v.Some? {
          assert o.vals[i := v.value] - {i} == o.vals - {i};
        }
      }
    }
  }

  /** Taking a name's tokens out takes out what they said and nothing else. */
  lemma {:induction false} KeptReads(items: Table, toks: seq<string>, net: bool, name: string, i: nat)
    requires PlainNames(items) && OneSendq(items) && ItemIndex(items, name, net) == Some(i)
    ensures Read(items, Kept(toks, name), net) == Without(items, Read(items, toks, net), i)
  {
    if toks == [] {
      assert NOTHING.vals - {i} == NOTHING.vals;
    } else {
      var n := |toks| - 1;
      var t, rest := toks[n], Kept(toks[..n], name);
      KeptReads(items, toks[..n], net, name, i);
      TakeWithout(items, Read(items, toks[..n], net), t, net, name, i);
      if t != "" && !Sets(t, name) {
        assert (rest + [t])[..|rest|] == rest;
      } else {
        assert Kept(toks, name) == rest;
        assert t == "" ==> Find(t, '=') == |t|;
      }
    }
  }

  lemma {:induction false} KeptTwice(toks: seq<string>, more: seq<string>, name: string)
    requires |more| <= 1 && (more != [] ==> Sets(more[0], name))
    ensures Kept(Kept(toks, name) + more, name) == Kept(toks, name)
    decreases |toks|, |more|
  {
    var kept := Kept(toks, name);
    if more != [] {
      assert (kept + more)[..|kept|] == kept;
      KeptTwice(toks, [], name);
      assert kept + [] == kept;
    } else {
      assert kept + more == kept;
      if toks != [] {
        var n := |toks| - 1;
        KeptTwice(toks[..n], [], name);
        assert Kept(toks[..n], name) + [] == Kept(toks[..n], name);
        if toks[n] != "" && !Sets(toks[n], name) {
          assert kept[..|kept| - 1] == Kept(toks[..n], name);
        }
      }
    }
  }

  // ---- what an edit means --------------------------------------------------------------------

  ghost predicate WellFormed(items: Table) {
    PlainNames(items) && OneSendq(items)
  }

  /** The tokens of a field written by an edit. */
  lemma SplitEdited(toks: seq<string>, name: string, add: Option<string>)
    requires forall t :: t in toks ==> ',' !in t
    requires add.Some? ==> ',' !in add.value
    ensures var all := Kept(toks, name) + if add.Some? then [add.value] else [];
            Split(Edited(toks, name, add), ',') == if all == [] then [""] else all
  {
    var all := Kept(toks, name) + if add.Some? then [add.value] else [];
    if all != [] {
      SplitJoin(all, ',');
    }
  }

  function NewToken(name: string, v: Option<Value>): Option<string> {
    if v.None? then None else Some(Token(name, v.value))
  }

  function NewTokens(kept: seq<string>, add: Option<string>): seq<string> {
    if add.Some? then kept + [add.value] else if kept == [] then [""] else kept
  }

  /** An accepted edit, token by token: the others stay as they were and in their order; the
      new one, if any, comes last. */
  lemma EditTokens(items: Table, settings: string, cap: nat, net: bool, name: string, value: string)
    requires WellFormed(items)
    requires Edit(items, settings, cap, net, name, value).Ok?
    ensures ItemIndex(items, name, net).Some?
    ensures Wanted(items[ItemIndex(items, name, net).value], value).Some?
    ensures var out := Edit(items, settings, cap, net, name, value).text;
            var want := Wanted(items[ItemIndex(items, name, net).value], value).value;
            && |out| <= SETTINGS_MAX && |out| < cap
            && Kept(Split(out, ','), name) == Kept(Split(settings, ','), name)
            && Split(out, ',') == NewTokens(Kept(Split(settings, ','), name), NewToken(name, want))
  {
    var i := ItemIndex(items, name, net).value;
    var want := Wanted(items[i], value).value;
    SplitFieldsPlain(settings, ',');
    if want.Some? {
      TokenReads(items, NOTHING, i, name, net, value);
    }
    EditedTokens(Split(settings, ','), name, NewToken(name, want));
  }

  lemma EditedTokens(toks: seq<string>, name: string, add: Option<string>)
    requires forall t :: t in toks ==> ',' !in t
    requires add.Some? ==> ',' !in add.value && Sets(add.value, name)
    ensures var out := Split(Edited(toks, name, add), ',');
            out == NewTokens(Kept(toks, name), add) && Kept(out, name) == Kept(toks, name)
  {
    var kept := Kept(toks, name);
    SplitEdited(toks, name, add);
    KeptTwice(toks, if add.Some? then [add.value] else [], name);
    assert kept + [] == kept;
    if add.None? && kept == [] {
      assert [""][..0] == [] && Kept([""], name) == [];
    }
  }

  /** `before` with one item set, or dropped. */
  function With(items: Table, before: Overrides, i: nat, want: Option<Value>): Overrides
    requires i < |items|
  {
    var rest := Without(items, before, i);
    if want.None? then rest else rest.(vals := rest.vals[i := want.value])
  }

  /** An accepted edit, as the field is read: the item has exactly the value asked for, or is
      absent; every other item and the bad send queue mark of another edit are as the tokens
      had them. */
  lemma EditMeans(items: Table, settings: string, cap: nat, net: bool, name: string, value: string)
    requires WellFormed(items)
    requires Edit(items, settings, cap, net, name, value).Ok?
    ensures ItemIndex(items, name, net).Some?
    ensures Wanted(items[ItemIndex(items, name, net).value], value).Some?
    ensures var i := ItemIndex(items, name, net).value;
            Parse(items, Edit(items, settings, cap, net, name, value).text, net)
            == With(items, Read(items, Split(settings, ','), net), i, Wanted(items[i], value).value)
  {
    EditTokens(items, settings, cap, net, name, value);
    var i := ItemIndex(items, name, net).value;
    var want := Wanted(items[i], value).value;
    var kept := Kept(Split(settings, ','), name);
    KeptReads(items, Split(settings, ','), net, name, i);
    if want.Some? {
      TokenReads(items, Read(items, kept, net), i, name, net, value);
    }
  }

  /** An edit depends on the field only through the tokens it keeps. */
  lemma EditOfKept(items: Table, s: string, t: string, cap: nat, net: bool, name: string, value: string)
    requires Kept(Split(s, ','), name) == Kept(Split(t, ','), name)
    ensures Edit(items, s, cap, net, name, value) == Edit(items, t, cap, net, name, value)
  {
    forall add: Option<string>
      ensures Replaced(Split(s, ','), cap, name, add) == Replaced(Split(t, ','), cap, name, add)
    {
    }
  }

  /** Editing the same item again is editing it once: the same edit twice changes nothing. */
  lemma EditOverwrites(items: Table, settings: string, cap: nat, net: bool, name: string, first: string, then_: string)
    requires WellFormed(items)
    requires Edit(items, settings, cap, net, name, first).Ok?
    ensures Edit(items, Edit(items, settings, cap, net, name, first).text, cap, net, name, then_)
            == Edit(items, settings, cap, net, name, then_)
  {
    EditTokens(items, settings, cap, net, name, first);
    EditOfKept(items, Edit(items, settings, cap, net, name, first).text, settings, cap, net, name, then_);
  }

  /** Exactly when an accepted edit leaves what was in force of the other items as it was: the
      field was not over its limit (such a field reads as nothing), or nothing else it holds
      means anything. */
  lemma EditKeepsOthers(items: Table, settings: string, cap: nat, net: bool, name: string, value: string)
    requires WellFormed(items)
    requires Edit(items, settings, cap, net, name, value).Ok?
    ensures var i := ItemIndex(items, name, net).value;
            Without(items, Parse(items, Edit(items, settings, cap, net, name, value).text, net), i)
            == Without(items, Parse(items, settings, net), i)
            <==> |settings| <= SETTINGS_MAX || Read(items, Kept(Split(settings, ','), name), net) == NOTHING
  {
    EditMeans(items, settings, cap, net, name, value);
    var i := ItemIndex(items, name, net).value;
    var want := Wanted(items[i], value).value;
    var before := Read(items, Split(settings, ','), net);
    KeptReads(items, Split(settings, ','), net, name, i);
    var rest := Without(items, before, i);
    if want.Some? {
      assert rest.vals[i := want.value] - {i} == rest.vals;
    } else {
      assert rest.vals - {i} == rest.vals;
    }
    assert NOTHING.vals - {i} == NOTHING.vals;
  }

  // ---- the field that is over its limit ------------------------------------------------------

  /** One token followed by n copies of another. */
  function Padded(base: string, fill: string, n: nat): string {
    if n == 0 then base else Padded(base, fill, n - 1) + "," + fill
  }

  lemma {:induction false} PaddedLength(base: string, fill: string, n: nat)
    requires |fill| == 7
    ensures |Padded(base, fill, n)| == |base| + 8 * n
  {
    if n > 0 {
      PaddedLength(base, fill, n - 1);
    }
  }

  lemma KeptMore(toks: seq<string>, t: string, name: string)
    ensures Kept(toks + [t], name) == Kept(toks, name) + if t == "" || Sets(t, name) then [] else [t]
  {
    assert (toks + [t])[..|toks|] == toks;
  }

  lemma KeptOne(t: string, name: string)
    ensures Kept([t], name) == if t == "" || Sets(t, name) then [] else [t]
  {
    assert [t][..0] == [];
  }

  lemma SplitLast(s: string, t: string)
    requires ',' !in t
    ensures Split(s + "," + t, ',') == Split(s, ',') + [t]
  {
    SplitAtSeparator(s, ',', t);
    SplitNoSeparator(t, ',');
  }

  lemma {:induction false} PaddedKept(base: string, fill: string, n: nat, name: string)
    requires ',' !in base && ',' !in fill && base != "" && !Sets(base, name) && Sets(fill, name)
    ensures Kept(Split(Padded(base, fill, n), ','), name) == [base]
  {
    hide Kept, Split, Sets;
    if n == 0 {
      SplitNoSeparator(base, ',');
      KeptOne(base, name);
    } else {
      PaddedKept(base, fill, n - 1, name);
      SplitLast(Padded(base, fill, n - 1), fill);
      KeptMore(Split(Padded(base, fill, n - 1), ','), fill, name);
    }
  }

  lemma OneTokenReads(items: Table, tok: string, net: bool)
    ensures Read(items, [tok], net) == Take(items, NOTHING, tok, net)
  {
    assert [tok][..0] == [];
  }

  /** Dropping one setting of an over-long field brings another into force. */
  lemma OverlongRevives(items: Table)
    requires WellFormed(items)
    requires ItemIndex(items, "cycle", false).Some? && ItemIndex(items, "bitch", false).Some?
    requires items[ItemIndex(items, "bitch", false).value] == Setting("bitch", 0, 1, false)
    ensures var at := ItemIndex(items, "bitch", false).value;
            var field := Padded(Token("bitch", Num(1)), "cycle=1", 64);
            var r := Edit(items, field, SETTINGS_MAX + 1, false, "cycle", "default");
            && r.Ok?
            && at !in Parse(items, field, false).vals
            && at in Parse(items, r.text, false).vals
  {
    hide Split, Kept, Replaced, Take;
    var at := ItemIndex(items, "bitch", false).value;
    var base, fill := Token("bitch", Num(1)), "cycle=1";
    TokenReads(items, NOTHING, at, "bitch", false, "1");
    PaddedOver(base, fill);
    SplitNoSeparator(base, ',');
    OneTokenReads(items, base, false);
  }

  lemma PaddedOver(base: string, fill: string)
    requires base == "bitch=" + "1" && fill == "cycle=1" && ',' !in base
    ensures var field := Padded(base, fill, 64);
            |field| > SETTINGS_MAX && Replaced(Split(field, ','), SETTINGS_MAX + 1, "cycle", None) == Ok(base)
  {
    assert base[0] == 'b' && base[..5][0] == 'b';
    assert Sets(fill, "cycle") && !Sets(base, "cycle");
    PaddedLength(base, fill, 64);
    PaddedKept(base, fill, 64, "cycle");
    EditedIs(Split(Padded(base, fill, 64), ','), "cycle", None);
    assert Join([base], ',') == base;
  }

  lemma TableIsWellFormed()
    ensures WellFormed(ITEMS)
  {
    TableIsPlain();
    assert forall i :: 0 <= i < |CHANNEL_FLOODS| ==> !CHANNEL_FLOODS[i].IsSendq();
    assert forall i :: 0 <= i < |ITEMS| && ITEMS[i].IsSendq() ==> i == 26;
  }

  lemma ItemsHere()
    ensures ItemIndex(ITEMS, "cycle", false).Some?
    ensures ItemIndex(ITEMS, "bitch", false) == Some(1) && ITEMS[1] == Setting("bitch", 0, 1, false)
  {
    NamedEarly(ITEMS, "bitch", 1);
    NamedEarly(ITEMS, "cycle", 8);
    assert ITEMS[0] == GUARD_FLAGS[0] && |ITEMS[0].name| != |"bitch"|;
  }

  lemma NamedEarly(items: Table, name: string, at: nat)
    requires at < |items| && items[at].name == name
    requires forall i :: 0 <= i <= at ==> !items[i].netOnly
    ensures ItemIndex(items, name, false).Some? && ItemIndex(items, name, false).value <= at
  {
  }

  /** A field of this build's own names that is over its limit: taking "cycle" out of it
      brings "bitch" into force. */
  lemma OverlongField()
    ensures var field := Padded(Token("bitch", Num(1)), "cycle=1", 64);
            var r := Edit(ITEMS, field, SETTINGS_MAX + 1, false, "cycle", "default");
            && r.Ok?
            && 1 !in Parse(ITEMS, field, false).vals
            && 1 in Parse(ITEMS, r.text, false).vals
  {
    ItemsHere();
    TableIsWellFormed();
    OverlongRevives(ITEMS);
  }
}
