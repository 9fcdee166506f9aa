/** MODE lines: single changes, several changes packed into one line, and how a
    line is read back from left to right. */
module ModeLines {
  import opened Text

  const ARG_LIMIT := 300
  const PACK_LIMIT := 400
  const CRLF := "\r\n"

  /** One mode letter set or cleared, with its argument if it has one. */
  datatype Change = Change(adding: bool, letter: char, arg: Option<string>)

  /** Whether a letter takes an argument when set / cleared. */
  type ArgRule = (char, bool) -> bool

  function Sign(adding: bool): char {
    if adding then '+' else '-'
  }

  // ---- reading -----------------------------------------------------------------

  /** A letters token and its arguments, read from left to right. */
  function Read(rule: ArgRule, modes: string, args: seq<string>, adding: bool): seq<Change>
    decreases |modes|
  {
    if modes == "" then []
    else if modes[0] == '+' then Read(rule, modes[1..], args, true)
    else if modes[0] == '-' then Read(rule, modes[1..], args, false)
    else if rule(modes[0], adding) && args != [] then
      [Change(adding, modes[0], Some(args[0]))] + Read(rule, modes[1..], args[1..], adding)
    else
      [Change(adding, modes[0], None)] + Read(rule, modes[1..], args, adding)
  }

  datatype ModeLine = ModeLine(chan: string, modes: string, args: seq<string>)

  /** The channel, the letters and the arguments of "MODE ..." as the line handler cuts it. */
  function ReadLine(line: string): Option<ModeLine> {
    if |line| < 2 || line[|line| - 2..] != CRLF then None
    else
      var t := Tokens(line[..|line| - 2]);
      if |t| < 3 || t[0] != "MODE" then None else Some(ModeLine(t[1], t[2], t[3..]))
  }

  /** The changes a MODE line asks for under an argument rule. */
  function Decode(rule: ArgRule, line: string): Option<seq<Change>> {
    match ReadLine(line)
    case None => None
    case Some(l) => Some(Read(rule, l.modes, l.args, true))
  }

  // ---- writing -----------------------------------------------------------------

  /** The letters token: a sign is written only where it changes. */
  function ModesText(cs: seq<Change>, cur: Option<bool>): string {
    if cs == [] then ""
    else
      (if cur == Some(cs[0].adding) then "" else [Sign(cs[0].adding)])
      + [cs[0].letter] + ModesText(cs[1..], Some(cs[0].adding))
  }

  function Args(cs: seq<Change>): seq<string> {
    if cs == [] then []
    else ArgOf(cs[0]) + Args(cs[1..])
  }

  function LineBody(chan: string, cs: seq<Change>): string {
    Join(["MODE", chan, ModesText(cs, None)] + Args(cs), ' ')
  }

  function LineText(chan: string, cs: seq<Change>): string {
    LineBody(chan, cs) + CRLF
  }

  predicate Word(s: string) {
    s != "" && NoStop(s)
  }

  /** A change that can be written: a letter, and an argument exactly when the rule wants one. */
  predicate Writable(rule: ArgRule, c: Change) {
    && c.letter != '+' && c.letter != '-' && !Stop(c.letter)
    && (c.arg.Some? <==> rule(c.letter, c.adding))
    && (c.arg.Some? ==> Word(c.arg.value))
  }

  function ArgOf(c: Change): seq<string> {
    if c.arg.Some? then [c.arg.value] else []
  }

  lemma ReadHead(rule: ArgRule, c: Change, modes: string, args: seq<string>)
    requires Writable(rule, c)
    ensures Read(rule, [c.letter] + modes, ArgOf(c) + args, c.adding) == [c] + Read(rule, modes, args, c.adding)
  {
    var m, all := [c.letter] + modes, ArgOf(c) + args;
    assert m[1..] == modes;
    if c.arg.Some? {
      assert all[0] == c.arg.value && all[1..] == args;
    } else {
      assert all == args;
    }
  }

  lemma TextHead(c: Change, rest: seq<Change>, cur: Option<bool>)
    ensures var text := [c.letter] + ModesText(rest, Some(c.adding));
            ModesText([c] + rest, cur) == if cur == Some(c.adding) then text else [Sign(c.adding)] + text
    ensures Args([c] + rest) == ArgOf(c) + Args(rest)
  {
    var cs := [c] + rest;
    assert cs[1..] == rest;
  }

  /** What is written is what is read. */
  lemma {:induction false} ReadWritten(rule: ArgRule, cs: seq<Change>, cur: Option<bool>, adding: bool)
    requires forall c :: c in cs ==> Writable(rule, c)
    requires cur.Some? ==> adding == cur.value
    ensures Read(rule, ModesText(cs, cur), Args(cs), adding) == cs
  {
    if cs != [] {
      var c, rest := cs[0], cs[1..];
      assert c in cs && forall d :: d in rest ==> d in cs;
      ReadWritten(rule, rest, Some(c.adding), c.adding);
      var text := ModesText(rest, Some(c.adding));
      ReadHead(rule, c, text, Args(rest));
      TextHead(c, rest, cur);
      assert cs == [c] + rest;
    }
  }

  lemma {:induction false} ArgsAreWords(rule: ArgRule, cs: seq<Change>)
    requires forall c :: c in cs ==> Writable(rule, c)
    ensures forall a :: a in Args(cs) ==> Word(a)
  {
    if cs != [] {
      assert cs[0] in cs && forall d :: d in cs[1..] ==> d in cs;
      ArgsAreWords(rule, cs[1..]);
    }
  }

  lemma {:induction false} ModesTextIsWord(rule: ArgRule, cs: seq<Change>, cur: Option<bool>)
    requires forall c :: c in cs ==> Writable(rule, c)
    ensures NoStop(ModesText(cs, cur))
    ensures cs != [] ==> ModesText(cs, cur) != ""
  {
    if cs != [] {
      assert cs[0] in cs && forall d :: d in cs[1..] ==> d in cs;
      ModesTextIsWord(rule, cs[1..], Some(cs[0].adding));
    }
  }

  /** A written line decodes to its channel and exactly its changes, in order. */
  lemma LineDecodes(rule: ArgRule, chan: string, cs: seq<Change>)
    requires Word(chan) && cs != [] && forall c :: c in cs ==> Writable(rule, c)
    ensures ReadLine(LineText(chan, cs)) == Some(ModeLine(chan, ModesText(cs, None), Args(cs)))
    ensures Decode(rule, LineText(chan, cs)) == Some(cs)
  {
    var toks := ["MODE", chan, ModesText(cs, None)] + Args(cs);
    ArgsAreWords(rule, cs);
    ModesTextIsWord(rule, cs, None);
    assert forall w :: Word(w) ==> IsToken(w);
    TokensJoin(toks);
    var line := LineText(chan, cs);
    assert line[..|line| - 2] == LineBody(chan, cs) && line[|line| - 2..] == CRLF;
    assert toks[3..] == Args(cs);
    ReadWritten(rule, cs, None, true);
  }

  // ---- single changes in the queue -----------------------------------------------

  datatype Item = Item(chan: string, change: Change)

  /** Letters the packer knows; the value says whether an argument is wanted. */
  function KnownLetter(letter: char, adding: bool): Option<bool> {
    match letter
    case 'o' | 'v' | 'h' | 'b' | 'e' | 'I' | 'k' => Some(true)
    case 'l' => Some(adding)
    case 'i' | 'm' | 'n' | 'p' | 's' | 't' => Some(false)
    case _ => None
  }

  predicate NeedsArg(letter: char, adding: bool) {
    KnownLetter(letter, adding) == Some(true)
  }

  /** "MODE <chan> <+|-><letter> [arg]" for a known letter; anything else is no item. */
  function ItemParse(line: string): Option<Item> {
    if |line| < 5 || !EqIc(line[..5], "MODE ") then None
    else
      var p := line[5..];
      var cl := Span(p);
      if cl == 0 || cl >= MAX_CHAN || ByteAt(p, cl) != ' ' then None
      else ItemTail(p[..cl], p[cl + 1..])
  }

  function ItemTail(chan: string, p: string): Option<Item> {
    if (ByteAt(p, 0) != '+' && ByteAt(p, 0) != '-')
       || ByteAt(p, 1) == '\0' || ByteAt(p, 1) == '\r' || ByteAt(p, 1) == '\n'
       || (ByteAt(p, 2) != ' ' && ByteAt(p, 2) != '\r')
    then None
    else
      var adding, letter := p[0] == '+', p[1];
      var a := if p[2] == ' ' then p[3..] else p[2..];
      var al := Span(a);
      var needs := KnownLetter(letter, adding);
      if ByteAt(a, al) == ' ' || needs.None? || needs.value != (al > 0) || al >= ARG_LIMIT then None
      else Some(Item(chan, Change(adding, letter, if needs.value then Some(a[..al]) else None)))
  }

  predicate ValidItem(it: Item) {
    && Word(it.chan) && |it.chan| < MAX_CHAN
    && KnownLetter(it.change.letter, it.change.adding).Some?
    && Writable(NeedsArg, it.change)
    && (it.change.arg.Some? ==> |it.change.arg.value| < ARG_LIMIT)
  }

  lemma ItemIsValid(line: string)
    requires ItemParse(line).Some?
    ensures ValidItem(ItemParse(line).value)
  {
    var p := line[5..];
    var cl := Span(p);
    assert ItemParse(line) == ItemTail(p[..cl], p[cl + 1..]);
  }

  /** The line written for one change is recognised as that change. */
  lemma ItemOfLine(it: Item)
    requires ValidItem(it)
    ensures ItemParse(LineText(it.chan, [it.change])) == Some(it)
  {
    var q := SingleTail(it.change);
    var line, p := LineText(it.chan, [it.change]), it.chan + (" " + q);
    SingleText(it.chan, it.change);
    assert line[..5] == "MODE " && line[5..] == p;
    SpanAfter(it.chan, " " + q);
    assert p[..|it.chan|] == it.chan && p[|it.chan| + 1..] == q;
    TailOfSingle(it);
  }

  function SingleTail(c: Change): string {
    [Sign(c.adding), c.letter] + (if c.arg.Some? then " " + c.arg.value else "") + CRLF
  }

  lemma TailOfSingle(it: Item)
    requires ValidItem(it)
    ensures ItemTail(it.chan, SingleTail(it.change)) == Some(it)
  {
    var c, q := it.change, SingleTail(it.change);
    if c.arg.Some? {
      var a := q[3..];
      assert a == c.arg.value + CRLF;
      SpanAfter(c.arg.value, CRLF);
      assert a[..|c.arg.value|] == c.arg.value;
    } else {
      assert q[2..] == "" + CRLF;
      SpanAfter("", CRLF);
    }
  }

  lemma SingleText(chan: string, c: Change)
    ensures LineText(chan, [c]) == "MODE " + (chan + (" " + SingleTail(c)))
  {
    var m := [Sign(c.adding), c.letter];
    assert ModesText([c][1..], Some(c.adding)) == "";
    assert ModesText([c], None) == m;
    assert Args([c][1..]) == [];
    JoinThree("MODE", chan, m, Args([c]));
  }

  lemma JoinMore(word: string, words: seq<string>)
    requires words != []
    ensures Join([word] + words, ' ') == word + " " + Join(words, ' ')
  {
    assert ([word] + words)[1..] == words;
  }

  /** The words of a line one after the other. */
  lemma JoinThree(a: string, b: string, m: string, args: seq<string>)
    ensures Join([a, b, m] + args, ' ') ==
            a + " " + b + " " + m + (if args == [] then "" else " " + Join(args, ' '))
  {
    if args == [] {
      assert [m] + args == [m];
    } else {
      JoinMore(m, args);
    }
    JoinMore(b, [m] + args);
    JoinMore(a, [b] + ([m] + args));
    assert [a, b, m] + args == [a] + ([b] + ([m] + args));
  }

  // ---- packing -------------------------------------------------------------------

  function ArgLen(c: Change): nat {
    if c.arg.Some? then |c.arg.value| else 0
  }

  /** The further items that follow into the same line: same channel, below the limit,
      within the length. */
  function More(lane: seq<string>, chan: string, room: nat, est: nat): seq<Item>
    decreases |lane|
  {
    if room == 0 || lane == [] then []
    else
      var it := ItemParse(lane[0]);
      if it.None? || !EqIc(it.value.chan, chan) || est + 2 + ArgLen(it.value.change) + 1 > PACK_LIMIT then []
      else [it.value] + More(lane[1..], chan, room - 1, est + 2 + ArgLen(it.value.change) + 1)
  }

  function FirstLength(it: Item): nat {
    5 + |it.chan| + 3 + ArgLen(it.change) + 1
  }

  /** The items the head of the lane gives to one line; none when it is sent as it stands. */
  function PackItems(lane: seq<string>, limit: nat): seq<Item>
    requires lane != []
  {
    match ItemParse(lane[0])
    case None => []
    case Some(first) => [first] + More(lane[1..], first.chan, if limit > 0 then limit - 1 else 0, FirstLength(first))
  }

  function Changes(items: seq<Item>): (cs: seq<Change>)
    ensures |cs| == |items|
    ensures forall i :: 0 <= i < |items| ==> cs[i] == items[i].change
  {
    seq(|items|, i requires 0 <= i < |items| => items[i].change)
  }

  /** The next protection line and how many queued lines it uses up. */
  function TakeProtection(lane: seq<string>, limit: nat): (r: (string, nat))
    requires lane != []
    ensures 1 <= r.1 <= |lane|
  {
    var items := PackItems(lane, limit);
    if items == [] then (lane[0], 1)
    else
      MoreFits(lane[1..], items[0].chan, if limit > 0 then limit - 1 else 0, FirstLength(items[0]));
      (LineText(items[0].chan, Changes(items)), |items|)
  }

  /** Item j of the line comes from queued line j and is for the same channel. */
  ghost predicate From(items: seq<Item>, lane: seq<string>, chan: string) {
    && |items| <= |lane|
    && forall j :: 0 <= j < |items| ==> ItemParse(lane[j]) == Some(items[j]) && EqIc(items[j].chan, chan)
  }

  lemma FromMore(first: Item, items: seq<Item>, lane: seq<string>, chan: string)
    requires lane != [] && ItemParse(lane[0]) == Some(first) && EqIc(first.chan, chan)
    requires From(items, lane[1..], chan)
    ensures From([first] + items, lane, chan)
  {
    var all := [first] + items;
    forall j | 0 <= j < |all|
      ensures ItemParse(lane[j]) == Some(all[j]) && EqIc(all[j].chan, chan)
    {
      if j > 0 {
        assert all[j] == items[j - 1] && lane[j] == lane[1..][j - 1];
      }
    }
  }

  lemma FromNothing(lane: seq<string>, chan: string)
    ensures From([], lane, chan)
  {
  }

  lemma {:induction false} MoreFits(lane: seq<string>, chan: string, room: nat, est: nat)
    ensures From(More(lane, chan, room, est), lane, chan)
    ensures |More(lane, chan, room, est)| <= room
    decreases |lane|
  {
    hide ArgLen, From;
    FromNothing(lane, chan);
    var m := More(lane, chan, room, est);
    if m != [] {
      var est' := est + 2 + ArgLen(m[0].change) + 1;
      MoreFits(lane[1..], chan, room - 1, est');
      FromMore(m[0], More(lane[1..], chan, room - 1, est'), lane, chan);
    }
  }

  lemma {:induction false} MoreLength(lane: seq<string>, chan: string, room: nat, est: nat)
    requires est <= PACK_LIMIT
    ensures est + PackedLength(Changes(More(lane, chan, room, est))) <= PACK_LIMIT
    decreases |lane|
  {
    var m := More(lane, chan, room, est);
    if m != [] {
      var est' := est + 2 + ArgLen(m[0].change) + 1;
      MoreLength(lane[1..], chan, room - 1, est');
      assert Changes(m)[1..] == Changes(More(lane[1..], chan, room - 1, est'));
    }
  }

  /** Room set aside for the changes after the first: sign, letter, space, argument. */
  function PackedLength(cs: seq<Change>): nat {
    if cs == [] then 0 else 2 + ArgLen(cs[0]) + 1 + PackedLength(cs[1..])
  }

  function Total(words: seq<string>): nat {
    if words == [] then 0 else 1 + |words[0]| + Total(words[1..])
  }

  lemma {:induction false} JoinLength(words: seq<string>)
    requires words != []
    ensures |Join(words, ' ')| + 1 == Total(words)
  {
    if |words| > 1 {
      JoinLength(words[1..]);
    }
  }

  lemma {:induction false} TextLength(cs: seq<Change>, cur: Option<bool>)
    ensures |ModesText(cs, cur)| + Total(Args(cs)) <= PackedLength(cs)
  {
    if cs != [] {
      TextLength(cs[1..], Some(cs[0].adding));
      if cs[0].arg.Some? {
        assert Args(cs)[1..] == Args(cs[1..]);
      } else {
        assert Args(cs) == Args(cs[1..]);
      }
    }
  }

  lemma FirstFits(lane: seq<string>)
    requires lane != [] && ItemParse(lane[0]).Some?
    ensures FirstLength(ItemParse(lane[0]).value) <= PACK_LIMIT
  {
    ItemIsValid(lane[0]);
  }

  lemma PackFits(lane: seq<string>, limit: nat)
    requires lane != [] && PackItems(lane, limit) != [] && limit >= 1
    ensures var items := PackItems(lane, limit);
            From(items, lane, items[0].chan) && |items| <= limit && (forall it :: it in items ==> ValidItem(it))
    ensures var items := PackItems(lane, limit);
            FirstLength(items[0]) + PackedLength(Changes(items)[1..]) <= PACK_LIMIT
  {
    hide More, ItemParse, PackedLength;
    var items := PackItems(lane, limit);
    var first := items[0];
    var rest := More(lane[1..], first.chan, limit - 1, FirstLength(first));
    FirstFits(lane);
    MoreFits(lane[1..], first.chan, limit - 1, FirstLength(first));
    FromMore(first, rest, lane, first.chan);
    MoreLength(lane[1..], first.chan, limit - 1, FirstLength(first));
    assert Changes(items)[1..] == Changes(rest);
    FromIsValid(items, lane, first.chan);
  }

  lemma FromIsValid(items: seq<Item>, lane: seq<string>, chan: string)
    requires From(items, lane, chan)
    ensures forall it :: it in items ==> ValidItem(it)
  {
    forall j | 0 <= j < |items|
      ensures ValidItem(items[j])
    {
      ItemIsValid(lane[j]);
    }
  }

  lemma BodyLength(chan: string, cs: seq<Change>)
    requires cs != []
    ensures |LineBody(chan, cs)| <= 5 + |chan| + 3 + ArgLen(cs[0]) + 1 + PackedLength(cs[1..])
  {
    JoinThree("MODE", chan, ModesText(cs, None), Args(cs));
    TextLength(cs, None);
    if Args(cs) != [] {
      JoinLength(Args(cs));
    }
  }

  /** The packed line: it decodes to exactly the single changes it used up, in order, for
      their channel; it holds no more of them than the server allows; its body fits. */
  lemma PackedLineDecodes(lane: seq<string>, limit: nat)
    requires lane != [] && PackItems(lane, limit) != [] && limit >= 1
    ensures var items, line := PackItems(lane, limit), TakeProtection(lane, limit).0;
            && TakeProtection(lane, limit).1 == |items| <= limit && From(items, lane, items[0].chan)
            && Decode(NeedsArg, line) == Some(Changes(items))
            && ReadLine(line).value.chan == items[0].chan
            && |line| - |CRLF| <= PACK_LIMIT
  {
    var items := PackItems(lane, limit);
    var cs := Changes(items);
    PackFits(lane, limit);
    forall c | c in cs
      ensures Writable(NeedsArg, c)
    {
      var j :| 0 <= j < |cs| && cs[j] == c;
      assert items[j] in items;
    }
    assert items[0] in items;
    LineDecodes(NeedsArg, items[0].chan, cs);
    BodyLength(items[0].chan, cs);
  }

  /** Packing stops only where it must. */
  lemma {:induction false} MoreIsGreedy(lane: seq<string>, chan: string, room: nat, est: nat)
    ensures var m := More(lane, chan, room, est);
            |m| <= |lane| &&
            (|m| < room && |m| < |lane| ==>
               var next := ItemParse(lane[|m|]);
               next.None? || !EqIc(next.value.chan, chan)
               || est + PackedLength(Changes(m)) + 2 + ArgLen(next.value.change) + 1 > PACK_LIMIT)
    decreases |lane|
  {
    hide ItemParse, EqIc;
    var m := More(lane, chan, room, est);
    if m != [] {
      var est' := est + 2 + ArgLen(m[0].change) + 1;
      var rest := More(lane[1..], chan, room - 1, est');
      MoreIsGreedy(lane[1..], chan, room - 1, est');
      assert m == [m[0]] + rest;
      assert Changes(m)[1..] == Changes(rest);
    }
  }
}
