/** From the operator's string to the live modes: stored, compared, sent one change at
    a time or packed, and read back. */
module ModePipeline {
  import opened Text
  import opened Numbers
  import opened ModeLines
  import opened LiveModes
  import opened ModeSync
  import opened ModeParse

  // ---- lines reaching the channels -------------------------------------------------

  /** The channels the bot is in, by lower-cased name. */
  type World = map<string, Live>

  predicate IsChannelName(s: string) {
    s != "" && (s[0] == '#' || s[0] == '&')
  }

  function Change1(isup: Isupport, world: World, chan: string, cs: seq<Change>, now: int): World {
    var k := Lower(chan);
    if IsChannelName(chan) && k in world then world[k := ApplyAll(isup, world[k], cs, false, now)] else world
  }

  /** A MODE line the server sends: it changes the channel it names. */
  function Receive(isup: Isupport, world: World, line: string, now: int): World {
    match ReadLine(line)
    case None => world
    case Some(l) => Change1(isup, world, l.chan, Read(Rule(isup), l.modes, l.args, true), now)
  }

  function ReceiveAll(isup: Isupport, world: World, lines: seq<string>, now: int): World
    decreases |lines|
  {
    if lines == [] then world else ReceiveAll(isup, Receive(isup, world, lines[0], now), lines[1..], now)
  }

  lemma {:induction false} ReceiveConcat(isup: Isupport, world: World, a: seq<string>, b: seq<string>, now: int)
    ensures ReceiveAll(isup, world, a + b, now) == ReceiveAll(isup, ReceiveAll(isup, world, a, now), b, now)
    decreases |a|
  {
    if a == [] {
      assert a + b == b;
    } else {
      assert (a + b)[0] == a[0] && (a + b)[1..] == a[1..] + b;
      ReceiveConcat(isup, Receive(isup, world, a[0], now), a[1..], b, now);
    }
  }

  // ---- packing keeps the meaning -----------------------------------------------------

  /** All the lines a protection lane gives, packed. */
  function PackAll(lane: seq<string>, limit: nat): seq<string>
    decreases |lane|
  {
    if lane == [] then []
    else
      var (line, used) := TakeProtection(lane, limit);
      [line] + PackAll(lane[used..], limit)
  }

  /** A single change as this bot writes it, for a letter the server's table and the
      packer's agree on; any other line is no item and is sent as it stands. */
  predicate Agreed(isup: Isupport, line: string) {
    var it := ItemParse(line);
    it.Some? ==> line == LineText(it.value.chan, [it.value.change])
                 && (HasArg(isup, it.value.change.letter, it.value.change.adding)
                     <==> NeedsArg(it.value.change.letter, it.value.change.adding))
  }

  lemma SingleReceived(isup: Isupport, world: World, line: string, it: Item, chan: string, now: int)
    requires Agreed(isup, line) && ItemParse(line) == Some(it) && EqIc(it.chan, chan)
    ensures Receive(isup, world, line, now) == Change1(isup, world, chan, [it.change], now)
  {
    ItemIsValid(line);
    LineDecodes(Rule(isup), it.chan, [it.change]);
    SameChannel(it.chan, chan);
  }

  lemma Change1Concat(isup: Isupport, world: World, chan: string, a: seq<Change>, b: seq<Change>, now: int)
    ensures Change1(isup, Change1(isup, world, chan, a, now), chan, b, now) == Change1(isup, world, chan, a + b, now)
  {
    if Lower(chan) in world {
      ApplyConcat(isup, world[Lower(chan)], a, b, false, now);
    }
  }

  lemma NoChange1(isup: Isupport, world: World, chan: string, now: int)
    ensures Change1(isup, world, chan, [], now) == world
  {
    assert Lower(chan) in world ==> world[Lower(chan) := world[Lower(chan)]] == world;
  }

  /** Single changes for one channel, received one after the other. */
  lemma {:induction false} SinglesReceived(isup: Isupport, world: World, items: seq<Item>, lane: seq<string>, chan: string, now: int)
    requires From(items, lane, chan) && |items| == |lane| && forall l :: l in lane ==> Agreed(isup, l)
    ensures ReceiveAll(isup, world, lane, now) == Change1(isup, world, chan, Changes(items), now)
    decreases |lane|
  {
    hide Change1, Receive, Agreed, EqIc, ItemParse, Lower;
    if items == [] {
      NoChange1(isup, world, chan, now);
    } else {
      var c, rest := items[0].change, items[1..];
      assert lane[0] in lane;
      SingleReceived(isup, world, lane[0], items[0], chan, now);
      SinglesReceived(isup, Change1(isup, world, chan, [c], now), rest, lane[1..], chan, now);
      assert Changes(items) == [c] + Changes(rest);
      Change1Concat(isup, world, chan, [c], Changes(rest), now);
    }
  }

  lemma SameChannel(a: string, b: string)
    requires EqIc(a, b)
    ensures IsChannelName(a) <==> IsChannelName(b)
  {
    assert |Lower(a)| == |Lower(b)|;
    assert a != "" ==> Lower(a)[0] == Lower(b)[0];
  }

  /** Single changes for one channel, packed into one line. */
  lemma PackedReceived(isup: Isupport, world: World, items: seq<Item>, lane: seq<string>, now: int)
    requires items != [] && |items| == |lane| && From(items, lane, items[0].chan) && forall l :: l in lane ==> Agreed(isup, l)
    ensures Receive(isup, world, LineText(items[0].chan, Changes(items)), now) == ReceiveAll(isup, world, lane, now)
  {
    var cs, chan := Changes(items), items[0].chan;
    forall j | 0 <= j < |items| ensures ValidItem(items[j]) {
      ItemIsValid(lane[j]);
    }
    forall c | c in cs
      ensures Writable(Rule(isup), c)
    {
      var j :| 0 <= j < |cs| && cs[j] == c;
      assert lane[j] in lane && ValidItem(items[j]);
    }
    LineDecodes(Rule(isup), chan, cs);
    SinglesReceived(isup, world, items, lane, chan, now);
  }

  lemma HeadReceived(isup: Isupport, world: World, lane: seq<string>, limit: nat, now: int)
    requires lane != [] && limit >= 1 && forall l :: l in lane ==> Agreed(isup, l)
    ensures var (line, used) := TakeProtection(lane, limit);
            Receive(isup, world, line, now) == ReceiveAll(isup, world, lane[..used], now)
  {
    var items := PackItems(lane, limit);
    var (line, used) := TakeProtection(lane, limit);
    if items == [] {
      assert lane[..1] == [lane[0]] && [lane[0]][1..] == [];
    } else {
      PackFits(lane, limit);
      assert From(items, lane[..used], items[0].chan);
      PackedReceived(isup, world, items, lane[..used], now);
    }
  }

  /** Packed or one by one, the lane has the same effect on every channel. */
  lemma {:induction false} PackingKeepsMeaning(isup: Isupport, world: World, lane: seq<string>, limit: nat, now: int)
    requires limit >= 1 && forall l :: l in lane ==> Agreed(isup, l)
    ensures ReceiveAll(isup, world, PackAll(lane, limit), now) == ReceiveAll(isup, world, lane, now)
    decreases |lane|
  {
    hide TakeProtection, Receive, Agreed;
    if lane != [] {
      var (line, used) := TakeProtection(lane, limit);
      HeadReceived(isup, world, lane, limit, now);
      assert lane == lane[..used] + lane[used..];
      ReceiveConcat(isup, world, lane[..used], lane[used..], now);
      assert forall l :: l in lane[used..] ==> l in lane;
      PackingKeepsMeaning(isup, Receive(isup, world, line, now), lane[used..], limit, now);
    }
  }

  // ---- the pipeline --------------------------------------------------------------------

  /** The channel key once the request is stored. */
  function StoredKey(p: ParsedModes, oldKey: string): string {
    if p.key.Some? then p.key.value else if p.keyClear then "" else oldKey
  }

  /** The change the operator asked for holds. */
  predicate Holds(r: Live, c: Change) {
    && (c.letter in r.flags <==> c.adding)
    && (c.letter == 'k' && c.adding ==> c.arg == Some(r.key))
    && (c.letter == 'l' && c.adding ==> c.arg.Some? && LimitOf(c.arg.value).Some? && LimitOf(c.arg.value).value == r.limit)
  }

  /** A key that a line can carry back to the server. */
  predicate PrintableKey(live: Live) {
    VisibleKey(live) ==> Word(live.key) && |live.key| < MAX_KEY
  }

  /** So is any key that came with MODE text. */
  predicate KeyOfText(live: Live) {
    live.key != "" ==> Word(live.key) && |live.key| < MAX_KEY
  }

  /** What a line from the server cannot hold inside. */
  predicate OneLine(s: string) {
    '\r' !in s && '\n' !in s
  }

  lemma {:induction false} TokensOfLine(s: string)
    requires OneLine(s)
    ensures forall t :: t in Tokens(s) ==> Word(t)
    decreases |s|
  {
    if TokNext(s).Some? {
      var u := SkipSpaces(s);
      var (tok, rest) := TokNext(s).value;
      SkipPart(s);
      var i := Find(u, ' ');
      assert tok == u[..i] && forall k :: 0 <= k < i ==> u[k] in s;
      assert forall c :: c in rest ==> c in u;
      TokensOfLine(rest);
    }
  }

  lemma {:induction false} SkipPart(s: string)
    ensures forall c :: c in SkipSpaces(s) ==> c in s
  {
    if s != "" {
      SkipPart(s[1..]);
    }
  }

  lemma {:induction false} ReadArgs(rule: ArgRule, modes: string, args: seq<string>, adding: bool)
    ensures forall c :: c in Read(rule, modes, args, adding) && c.arg.Some? ==> c.arg.value in args
    decreases |modes|
  {
    if modes != "" {
      ReadArgs(rule, modes[1..], args, true);
      ReadArgs(rule, modes[1..], args, false);
      if args != [] {
        ReadArgs(rule, modes[1..], args[1..], adding);
        assert forall a :: a in args[1..] ==> a in args;
      }
    }
  }

  lemma {:induction false} ChangesKeepKey(isup: Isupport, live: Live, cs: seq<Change>, from324: bool, now: int)
    requires KeyOfText(live) && forall c :: c in cs && c.arg.Some? ==> Word(c.arg.value)
    ensures KeyOfText(ApplyAll(isup, live, cs, from324, now))
    decreases |cs|
  {
    if cs != [] {
      assert cs[0] in cs && forall c :: c in cs[1..] ==> c in cs;
      ChangesKeepKey(isup, ApplyChange(isup, live, cs[0], from324, now), cs[1..], from324, now);
    }
  }

  /** Whatever MODE text or mode reply comes, the live key stays one that a line can carry. */
  lemma TextKeepsKey(isup: Isupport, live: Live, modes: string, args: string, from324: bool, now: int)
    requires KeyOfText(live) && OneLine(args)
    ensures var r := ApplyText(isup, live, modes, args, from324, now);
            KeyOfText(r) && PrintableKey(r)
  {
    TokensOfLine(args);
    ReadArgs(Rule(isup), modes, Tokens(args), true);
    ChangesKeepKey(isup, if from324 then Reset(live) else live, Read(Rule(isup), modes, Tokens(args), true), from324, now);
  }

  /** And so on every channel, whatever lines the server sends. */
  lemma {:induction false} LinesKeepKeys(isup: Isupport, world: World, lines: seq<string>, now: int)
    requires forall k :: k in world ==> KeyOfText(world[k])
    requires forall l :: l in lines && |l| >= 2 ==> OneLine(l[..|l| - 2])
    ensures var r := ReceiveAll(isup, world, lines, now);
            r.Keys == world.Keys && forall k :: k in r ==> KeyOfText(r[k]) && PrintableKey(r[k])
    decreases |lines|
  {
    hide HasArg, ApplyAll, Tokens, Read;
    if lines != [] {
      assert lines[0] in lines && forall l :: l in lines[1..] ==> l in lines;
      if ReadLine(lines[0]).Some? {
        var l := ReadLine(lines[0]).value;
        var t := Tokens(lines[0][..|lines[0]| - 2]);
        TokensOfLine(lines[0][..|lines[0]| - 2]);
        assert l.args == t[3..] && forall a :: a in l.args ==> a in t;
        ReadArgs(Rule(isup), l.modes, l.args, true);
        var k := Lower(l.chan);
        if k in world {
          ChangesKeepKey(isup, world[k], Read(Rule(isup), l.modes, l.args, true), false, now);
        }
      }
      LinesKeepKeys(isup, Receive(isup, world, lines[0], now), lines[1..], now);
    }
  }

  lemma AskedHolds(modes: string, args: seq<string>, oldKey: string, live: Live, r: Live, c: Change)
    requires Parse(modes, args).Ok? && c in Asked(modes, args)
    requires var p := Parse(modes, args).value;
             ReadStored(p.stored).Some? && Reached(live, r, ReadStored(p.stored).value, StoredKey(p, oldKey))
    ensures Holds(r, c) <==> !(c.letter == 'k' && !c.adding && HiddenKey(live))
  {
    var p, cs := Parse(modes, args).value, Asked(modes, args);
    StoredMeans(modes, args);
    var w := ReadStored(p.stored).value;
    DirsOfGood(cs, {}, map[]);
    GoodMember(cs, {}, c);
    LeftBy(cs, {}, c, None, false, 0);
    assert Wants(w.dirs, c.letter, c.adding);
  }

  lemma PlanWritable(isup: Isupport, chan: string, w: Wanted, key: string, live: Live, c: Change)
    requires ManagedTable(isup) && Word(chan) && |chan| < MAX_CHAN && |key| < MAX_KEY && w.limit <= LIMIT_MAX
    requires PrintableKey(live)
    requires c in FlagChanges(w.dirs, live, FLAG_LETTERS) + KeyChanges(w.dirs, live, key) + LimitChanges(w, live, false)
    ensures ValidItem(Item(chan, c)) && IsManaged(c.letter)
    ensures HasArg(isup, c.letter, c.adding) <==> NeedsArg(c.letter, c.adding)
  {
    if c in FlagChanges(w.dirs, live, FLAG_LETTERS) {
      FlagChangesPlain(w.dirs, live, FLAG_LETTERS, c);
    } else if c in LimitChanges(w, live, false) {
      LimitDigits(w.limit);
    } else {
      assert c in KeyChanges(w.dirs, live, key);
    }
  }

  lemma {:induction false} FlagChangesPlain(dirs: Dirs, live: Live, letters: string, c: Change)
    requires (forall i :: 0 <= i < |letters| ==> IsFlagLetter(letters[i])) && c in FlagChanges(dirs, live, letters)
    ensures IsFlagLetter(c.letter) && c.arg.None?
  {
    if c !in FlagChange(dirs, live, letters[0]) {
      FlagChangesPlain(dirs, live, letters[1..], c);
    }
  }

  /** The lines of a plan, received, do what the plan's changes do. */
  lemma LinesReceived(isup: Isupport, world: World, chan: string, cs: seq<Change>, now: int)
    requires forall c :: c in cs ==> ValidItem(Item(chan, c))
                                     && (HasArg(isup, c.letter, c.adding) <==> NeedsArg(c.letter, c.adding))
    ensures forall l :: l in Lines(chan, cs) ==> Agreed(isup, l)
    ensures ReceiveAll(isup, world, Lines(chan, cs), now) == Change1(isup, world, chan, cs, now)
  {
    var lines := Lines(chan, cs);
    var items := seq(|cs|, i requires 0 <= i < |cs| => Item(chan, cs[i]));
    forall i | 0 <= i < |cs|
      ensures ItemParse(lines[i]) == Some(items[i]) && Agreed(isup, lines[i])
    {
      assert cs[i] in cs;
      ItemOfLine(items[i]);
    }
    assert From(items, lines, chan);
    SinglesReceived(isup, world, items, lines, chan, now);
    assert Changes(items) == cs;
  }

  /** Where a request leaves a channel whose live modes were known: every change asked for
      is in force, letters not named are as they were, nothing is left to send.  The one
      exception is -k while the server hides the key. */
  ghost predicate Served(modes: string, args: seq<string>, key: string, live: Live, r: Live, requireKnown: bool)
    requires Parse(modes, args).Ok?
  {
    && (forall c :: c in Asked(modes, args) ==>
          (Holds(r, c) <==> !(c.letter == 'k' && !c.adding && HiddenKey(live))))
    && (forall m :: (forall c :: c in Asked(modes, args) ==> c.letter != m) ==> (m in r.flags <==> m in live.flags))
    && SyncPlan(Parse(modes, args).value.stored, key, r, false, requireKnown) == Some([])
  }

  lemma PlanServes(isup: Isupport, modes: string, args: seq<string>, oldKey: string, live: Live, requireKnown: bool, now: int)
    requires Parse(modes, args).Ok? && ManagedTable(isup) && |oldKey| < MAX_KEY && live.known
    ensures var p := Parse(modes, args).value;
            var key := StoredKey(p, oldKey);
            var plan := SyncPlan(p.stored, key, live, false, requireKnown);
            plan.Some? && Served(modes, args, key, live, ApplyAll(isup, live, plan.value, false, now), requireKnown)
  {
    hide Parse, Asked, ReadStored, Holds, HiddenKey, KeyOk, ApplyAll;
    var p, cs := Parse(modes, args).value, Asked(modes, args);
    var key := StoredKey(p, oldKey);
    StoredMeans(modes, args);
    var w := ReadStored(p.stored).value;
    KeyFits(modes, args);
    SyncReaches(isup, live, w, key, now);
    var r := ApplyAll(isup, live, SyncPlan(p.stored, key, live, false, requireKnown).value, false, now);
    forall c | c in cs
      ensures Holds(r, c) <==> !(c.letter == 'k' && !c.adding && HiddenKey(live))
    {
      AskedHolds(modes, args, oldKey, live, r, c);
    }
    DirsOfGood(cs, {}, map[]);
    SyncFixpoint(live, r, p.stored, key, requireKnown);
  }

  lemma PlanSent(isup: Isupport, world: World, chan: string, w: Wanted, key: string, plan: seq<Change>, limit: nat, now: int)
    requires ManagedTable(isup) && limit >= 1 && |key| < MAX_KEY && w.limit <= LIMIT_MAX
    requires Word(chan) && |chan| < MAX_CHAN && IsChannelName(chan)
    requires Lower(chan) in world && PrintableKey(world[Lower(chan)])
    requires var live := world[Lower(chan)];
             plan == FlagChanges(w.dirs, live, FLAG_LETTERS) + KeyChanges(w.dirs, live, key) + LimitChanges(w, live, false)
    ensures var lines := Lines(chan, plan);
            && ReceiveAll(isup, world, PackAll(lines, limit), now) == ReceiveAll(isup, world, lines, now)
            && ReceiveAll(isup, world, lines, now) == Change1(isup, world, chan, plan, now)
  {
    forall c | c in plan
      ensures ValidItem(Item(chan, c)) && (HasArg(isup, c.letter, c.adding) <==> NeedsArg(c.letter, c.adding))
    {
      PlanWritable(isup, chan, w, key, world[Lower(chan)], c);
    }
    LinesReceived(isup, world, chan, plan, now);
    PackingKeepsMeaning(isup, world, Lines(chan, plan), limit, now);
  }

  /** Every accepted mode string, stored, compared with a known live picture and sent --
      one change a line or packed -- serves the request in its channel and touches no other. */
  lemma Pipeline(isup: Isupport, world: World, chan: string, modes: string, args: seq<string>, oldKey: string,
                 limit: nat, requireKnown: bool, now: int)
    requires Parse(modes, args).Ok? && ManagedTable(isup) && limit >= 1
    requires Word(chan) && |chan| < MAX_CHAN && IsChannelName(chan) && |oldKey| < MAX_KEY
    requires Lower(chan) in world && world[Lower(chan)].known && PrintableKey(world[Lower(chan)])
    ensures var p, live := Parse(modes, args).value, world[Lower(chan)];
            var key := StoredKey(p, oldKey);
            var plan := SyncPlan(p.stored, key, live, false, requireKnown);
            plan.Some? &&
            var lines := Lines(chan, plan.value);
            var live' := ApplyAll(isup, live, plan.value, false, now);
            && ReceiveAll(isup, world, lines, now) == world[Lower(chan) := live']
            && ReceiveAll(isup, world, PackAll(lines, limit), now) == world[Lower(chan) := live']
            && Served(modes, args, key, live, live', requireKnown)
  {
    var p, live := Parse(modes, args).value, world[Lower(chan)];
    var key := StoredKey(p, oldKey);
    StoredMeans(modes, args);
    KeyFits(modes, args);
    PlanServes(isup, modes, args, oldKey, live, requireKnown, now);
    var plan := SyncPlan(p.stored, key, live, false, requireKnown).value;
    PlanSent(isup, world, chan, ReadStored(p.stored).value, key, plan, limit, now);
  }

  lemma KeyFits(modes: string, args: seq<string>)
    requires Parse(modes, args).Ok?
    ensures Parse(modes, args).value.key.Some? ==> KeyOk(Parse(modes, args).value.key.value)
  {
    var cs := Asked(modes, args);
    StoredMeans(modes, args);
    if c :| c in cs && c.letter == 'k' {
      LeftBy(cs, {}, c, None, false, 0);
      GoodMember(cs, {}, c);
    } else {
      Untouched(cs, None, false, 0);
    }
  }

  /** When there is a plan, and what leaving the limit alone leaves out of it. */
  lemma PlanOptions(spec: string, key: string, live: Live, requireKnown: bool)
    ensures forall skip :: SyncPlan(spec, key, live, skip, requireKnown).Some? <==> ReadStored(spec).Some? && (requireKnown ==> live.known)
    ensures SyncPlan(spec, key, live, true, requireKnown).Some? ==>
              var all, some := SyncPlan(spec, key, live, false, requireKnown).value, SyncPlan(spec, key, live, true, requireKnown).value;
              && some <= all && (forall c :: c in some ==> c.letter != 'l') && (forall c :: c in all[|some|..] ==> c.letter == 'l')
  {
    if SyncPlan(spec, key, live, true, requireKnown).Some? {
      var w := ReadStored(spec).value;
      var most := FlagChanges(w.dirs, live, FLAG_LETTERS) + KeyChanges(w.dirs, live, key);
      assert most + [] == most;
      FlagLettersAre();
      forall c | c in most ensures c.letter != 'l' {
        if c in FlagChanges(w.dirs, live, FLAG_LETTERS) {
          FlagChangesPlain(w.dirs, live, FLAG_LETTERS, c);
        }
      }
      assert (most + LimitChanges(w, live, false))[|most|..] == LimitChanges(w, live, false);
    }
  }

  // ---- where the conditions bite ---------------------------------------------------------

  /** With a live picture that was never received, a second sync finds as much to send as
      the first: it settles only if there was nothing to send at all. */
  lemma UnknownNeverSettles(spec: string, key: string, live: Live, r: Live)
    requires !live.known && !r.known && ReadStored(spec).Some?
    ensures SyncPlan(spec, key, live, false, false) == Some([]) <==> SyncPlan(spec, key, r, false, false) == Some([])
  {
    SameFlagChanges(ReadStored(spec).value.dirs, live, r, FLAG_LETTERS);
  }

  lemma {:induction false} SameFlagChanges(dirs: Dirs, a: Live, b: Live, letters: string)
    requires !a.known && !b.known
    ensures FlagChanges(dirs, a, letters) == FlagChanges(dirs, b, letters)
  {
    if letters != "" {
      SameFlagChanges(dirs, a, b, letters[1..]);
    }
  }
}
