/** Packing single MODE changes into fewer lines: for which servers it keeps what is said. */
module ModePacking {
  import opened Text
  import opened ModeLines
  import LiveModes
  import ModePipeline

  // ---- what a server reads ---------------------------------------------------------

  /** A change and the channel it is for, up to case. */
  datatype Said = Said(chan: string, change: Change)

  function Tagged(chan: string, cs: seq<Change>): (r: seq<Said>)
    ensures |r| == |cs| && forall i :: 0 <= i < |cs| ==> r[i] == Said(Lower(chan), cs[i])
  {
    seq(|cs|, i requires 0 <= i < |cs| => Said(Lower(chan), cs[i]))
  }

  function LineSays(rule: ArgRule, line: string): seq<Said> {
    match ReadLine(line)
    case None => []
    case Some(l) => Tagged(l.chan, Read(rule, l.modes, l.args, true))
  }

  /** All the changes a server with this argument rule reads from the lines. */
  function Reading(rule: ArgRule, lines: seq<string>): seq<Said> {
    if lines == [] then [] else LineSays(rule, lines[0]) + Reading(rule, lines[1..])
  }

  /** One line a change, as this bot queues them. */
  function LaneText(items: seq<Item>): (r: seq<string>)
    ensures |r| == |items| && forall i :: 0 <= i < |items| ==> r[i] == LineText(items[i].chan, [items[i].change])
  {
    seq(|items|, i requires 0 <= i < |items| => LineText(items[i].chan, [items[i].change]))
  }

  predicate ValidItems(items: seq<Item>) {
    forall i :: 0 <= i < |items| ==> ValidItem(items[i])
  }

  ghost predicate KeepsReading(rule: ArgRule, limit: nat) {
    forall items :: ValidItems(items) ==>
                      Reading(rule, ModePipeline.PackAll(LaneText(items), limit)) == Reading(rule, LaneText(items))
  }

  /** No letter the packer knows without an argument takes one; and those it knows with one all
      take it, or none does. */
  ghost predicate OneMind(rule: ArgRule) {
    && (forall m, adding :: KnownLetter(m, adding) == Some(false) ==> !rule(m, adding))
    && ((forall m, adding :: KnownLetter(m, adding) == Some(true) ==> rule(m, adding))
        || (forall m, adding :: KnownLetter(m, adding) == Some(true) ==> !rule(m, adding)))
  }

  // ---- reading what was packed -------------------------------------------------------

  lemma ReadStep(rule: ArgRule, c: Change, rest: seq<Change>, cur: Option<bool>, adding: bool, args: seq<string>)
    requires c.letter != '+' && c.letter != '-' && (cur.Some? ==> adding == cur.value)
    ensures var tail := ModesText(rest, Some(c.adding));
            Read(rule, ModesText([c] + rest, cur), args, adding)
            == if rule(c.letter, c.adding) && args != []
               then [c.(arg := Some(args[0]))] + Read(rule, tail, args[1..], c.adding)
               else [c.(arg := None)] + Read(rule, tail, args, c.adding)
  {
    var text := [c.letter] + ModesText(rest, Some(c.adding));
    TextHead(c, rest, cur);
    assert text[1..] == ModesText(rest, Some(c.adding)) && ([Sign(c.adding)] + text)[1..] == text;
  }

  /** How a server reads a change that comes alone. */
  function Alone(rule: ArgRule, c: Change): Change {
    if rule(c.letter, c.adding) then c else c.(arg := None)
  }

  function AllAlone(rule: ArgRule, cs: seq<Change>): (r: seq<Change>)
    ensures |r| == |cs| && forall i :: 0 <= i < |cs| ==> r[i] == Alone(rule, cs[i])
  {
    seq(|cs|, i requires 0 <= i < |cs| => Alone(rule, cs[i]))
  }

  /** Changes whose letters all agree with the packer's rule, or none of which takes an argument. */
  ghost predicate Uniform(rule: ArgRule, cs: seq<Change>) {
    || (forall i :: 0 <= i < |cs| ==> Writable(rule, cs[i]))
    || (forall i :: 0 <= i < |cs| ==> TakesNone(rule, cs[i]))
  }

  predicate TakesNone(rule: ArgRule, c: Change) {
    c.letter != '+' && c.letter != '-' && !rule(c.letter, c.adding)
  }

  lemma ReadPast(rule: ArgRule, c: Change, rest: seq<Change>, cur: Option<bool>, adding: bool, args: seq<string>)
    requires TakesNone(rule, c) && (cur.Some? ==> adding == cur.value)
    ensures Read(rule, ModesText([c] + rest, cur), args, adding)
            == [Alone(rule, c)] + Read(rule, ModesText(rest, Some(c.adding)), args, c.adding)
  {
    ReadStep(rule, c, rest, cur, adding, args);
  }

  lemma AllAloneCons(rule: ArgRule, c: Change, rest: seq<Change>)
    ensures AllAlone(rule, [c] + rest) == [Alone(rule, c)] + AllAlone(rule, rest)
  {
  }

  lemma ReadNothing(rule: ArgRule, cur: Option<bool>, adding: bool, args: seq<string>)
    ensures Read(rule, ModesText([], cur), args, adding) == []
  {
  }

  lemma {:induction false} ReadNone(rule: ArgRule, cs: seq<Change>, cur: Option<bool>, adding: bool, args: seq<string>)
    requires forall i :: 0 <= i < |cs| ==> TakesNone(rule, cs[i])
    requires cur.Some? ==> adding == cur.value
    ensures Read(rule, ModesText(cs, cur), args, adding) == AllAlone(rule, cs)
    decreases |cs|
  {
    hide Read, ModesText, TakesNone, Alone, AllAlone;
    if cs == [] {
      ReadNothing(rule, cur, adding, args);
    } else {
      var c, rest := cs[0], cs[1..];
      assert cs == [c] + rest;
      ReadPast(rule, c, rest, cur, adding, args);
      ReadNone(rule, rest, Some(c.adding), c.adding, args);
      AllAloneCons(rule, c, rest);
    }
  }

  lemma ReadUniform(rule: ArgRule, cs: seq<Change>)
    requires Uniform(rule, cs)
    ensures Read(rule, ModesText(cs, None), Args(cs), true) == AllAlone(rule, cs)
  {
    if forall i :: 0 <= i < |cs| ==> Writable(rule, cs[i]) {
      ReadWritten(rule, cs, None, true);
    } else {
      ReadNone(rule, cs, None, true, Args(cs));
    }
  }

  lemma LineReads(rule: ArgRule, chan: string, cs: seq<Change>)
    requires Word(chan) && cs != [] && forall i :: 0 <= i < |cs| ==> Writable(NeedsArg, cs[i])
    ensures LineSays(rule, LineText(chan, cs)) == Tagged(chan, Read(rule, ModesText(cs, None), Args(cs), true))
  {
    LineDecodes(NeedsArg, chan, cs);
  }

  lemma ItemsUniform(rule: ArgRule, items: seq<Item>)
    requires OneMind(rule) && ValidItems(items)
    ensures Uniform(rule, Changes(items))
  {
    var cs := Changes(items);
    forall i | 0 <= i < |cs| ensures Writable(NeedsArg, cs[i]) && KnownLetter(cs[i].letter, cs[i].adding).Some? {
      assert ValidItem(items[i]);
    }
  }

  // ---- one line for several -------------------------------------------------------------

  lemma {:induction false} ReadingConcat(rule: ArgRule, a: seq<string>, b: seq<string>)
    ensures Reading(rule, a + b) == Reading(rule, a) + Reading(rule, b)
  {
    if a == [] {
      assert a + b == b;
    } else {
      assert (a + b)[1..] == a[1..] + b;
      ReadingConcat(rule, a[1..], b);
    }
  }

  lemma OneReads(rule: ArgRule, it: Item)
    requires OneMind(rule) && ValidItem(it)
    ensures LineSays(rule, LineText(it.chan, [it.change])) == Tagged(it.chan, [Alone(rule, it.change)])
  {
    LineReads(rule, it.chan, [it.change]);
    assert Changes([it]) == [it.change];
    ItemsUniform(rule, [it]);
    ReadUniform(rule, [it.change]);
    assert AllAlone(rule, [it.change]) == [Alone(rule, it.change)];
  }

  lemma LaneCons(rule: ArgRule, it: Item, rest: seq<Item>)
    ensures Reading(rule, LaneText([it] + rest))
            == LineSays(rule, LineText(it.chan, [it.change])) + Reading(rule, LaneText(rest))
  {
    var lane := LaneText([it] + rest);
    assert lane[0] == LineText(it.chan, [it.change]) && lane[1..] == LaneText(rest);
  }

  lemma AloneCons(rule: ArgRule, chan: string, it: Item, rest: seq<Item>)
    requires EqIc(it.chan, chan)
    ensures Tagged(chan, AllAlone(rule, Changes([it] + rest)))
            == Tagged(it.chan, [Alone(rule, it.change)]) + Tagged(chan, AllAlone(rule, Changes(rest)))
  {
    assert Changes([it] + rest) == [it.change] + Changes(rest);
  }

  /** Changes of one channel, line by line. */
  lemma {:induction false} SinglesRead(rule: ArgRule, items: seq<Item>, chan: string)
    requires OneMind(rule) && ValidItems(items)
    requires forall i :: 0 <= i < |items| ==> EqIc(items[i].chan, chan)
    ensures Reading(rule, LaneText(items)) == Tagged(chan, AllAlone(rule, Changes(items)))
  {
    hide EqIc, ValidItem, OneMind, LineSays, LineText, Alone;
    if items != [] {
      SinglesRead(rule, items[1..], chan);
      OneReads(rule, items[0]);
      assert items == [items[0]] + items[1..];
      LaneCons(rule, items[0], items[1..]);
      AloneCons(rule, chan, items[0], items[1..]);
    }
  }

  /** The items of a lane the packer takes are the first ones. */
  lemma TakesFirst(items: seq<Item>, limit: nat)
    requires ValidItems(items) && items != [] && limit >= 1
    ensures var lane := LaneText(items);
            var used := TakeProtection(lane, limit).1;
            && 1 <= used <= |items| && PackItems(lane, limit) == items[..used]
            && TakeProtection(lane, limit).0 == LineText(items[0].chan, Changes(items[..used]))
            && forall i :: 0 <= i < used ==> EqIc(items[i].chan, items[0].chan)
  {
    var lane := LaneText(items);
    var taken := PackItems(lane, limit);
    ItemOfLine(items[0]);
    assert lane[0] == LineText(items[0].chan, [items[0].change]);
    PackFits(lane, limit);
    forall j | 0 <= j < |taken| ensures taken[j] == items[j] {
      ItemOfLine(items[j]);
    }
    assert taken == items[..|taken|];
  }

  lemma HeadReads(rule: ArgRule, items: seq<Item>, limit: nat)
    requires OneMind(rule) && ValidItems(items) && items != [] && limit >= 1
    ensures var (line, used) := TakeProtection(LaneText(items), limit);
            1 <= used <= |items| && LineSays(rule, line) == Reading(rule, LaneText(items[..used]))
  {
    TakesFirst(items, limit);
    var (line, used) := TakeProtection(LaneText(items), limit);
    var head := items[..used];
    hide OneMind, EqIc;
    HeadLine(rule, head, items[0].chan);
    SinglesRead(rule, head, items[0].chan);
  }

  lemma HeadLine(rule: ArgRule, head: seq<Item>, chan: string)
    requires OneMind(rule) && ValidItems(head) && head != [] && Word(chan)
    ensures LineSays(rule, LineText(chan, Changes(head))) == Tagged(chan, AllAlone(rule, Changes(head)))
  {
    var cs := Changes(head);
    forall i | 0 <= i < |cs| ensures Writable(NeedsArg, cs[i]) {
      assert ValidItem(head[i]);
    }
    hide OneMind, ValidItem, Writable;
    LineReads(rule, chan, cs);
    ItemsUniform(rule, head);
    ReadUniform(rule, cs);
  }

  lemma {:induction false} PackedReads(rule: ArgRule, items: seq<Item>, limit: nat)
    requires OneMind(rule) && ValidItems(items) && limit >= 1
    ensures Reading(rule, ModePipeline.PackAll(LaneText(items), limit)) == Reading(rule, LaneText(items))
    decreases |items|
  {
    hide OneMind, TakeProtection, LineSays, ValidItem;
    var lane := LaneText(items);
    if items != [] {
      HeadReads(rule, items, limit);
      var (line, used) := TakeProtection(lane, limit);
      assert LaneText(items[..used]) + LaneText(items[used..]) == lane;
      assert lane[used..] == LaneText(items[used..]);
      ReadingConcat(rule, LaneText(items[..used]), LaneText(items[used..]));
      PackedReads(rule, items[used..], limit);
      assert ([line] + ModePipeline.PackAll(lane[used..], limit))[1..] == ModePipeline.PackAll(lane[used..], limit);
    }
  }

  // ---- servers it misleads ------------------------------------------------------------

  /** Two changes of a channel that fit into one line. */
  predicate Pair(chan: string, x: Change, y: Change) {
    && ValidItem(Item(chan, x)) && ValidItem(Item(chan, y))
    && FirstLength(Item(chan, x)) + 2 + ArgLen(y) + 1 <= PACK_LIMIT
  }

  lemma BothPacked(chan: string, x: Change, y: Change, limit: nat)
    requires Pair(chan, x, y) && limit >= 2
    ensures ModePipeline.PackAll(LaneText([Item(chan, x), Item(chan, y)]), limit) == [LineText(chan, [x, y])]
  {
    var a, b := Item(chan, x), Item(chan, y);
    var lane := LaneText([a, b]);
    ItemOfLine(a);
    ItemOfLine(b);
    assert lane[0] == LineText(chan, [x]) && lane[1] == LineText(chan, [y]);
    BothTaken(lane, a, b, limit);
    assert Changes([a, b]) == [x, y];
    assert lane[2..] == [];
    assert [LineText(chan, [x, y])] + [] == [LineText(chan, [x, y])];
  }

  lemma BothTaken(lane: seq<string>, a: Item, b: Item, limit: nat)
    requires |lane| == 2 && ItemParse(lane[0]) == Some(a) && ItemParse(lane[1]) == Some(b) && a.chan == b.chan
    requires limit >= 2 && FirstLength(a) + 2 + ArgLen(b.change) + 1 <= PACK_LIMIT
    ensures PackItems(lane, limit) == [a, b]
  {
    hide ItemParse, FirstLength, ArgLen;
    assert lane[1..][0] == lane[1] && lane[1..][1..] == [];
    assert More([], a.chan, limit - 2, FirstLength(a) + 2 + ArgLen(b.change) + 1) == [];
    assert More(lane[1..], a.chan, limit - 1, FirstLength(a)) == [b] + [];
    assert [a] + [b] == [a, b];
  }

  lemma ArgsOne(c: Change)
    ensures Args([c]) == ArgOf(c)
  {
    assert [c][1..] == [];
  }

  lemma OneLineReading(rule: ArgRule, line: string)
    ensures Reading(rule, [line]) == LineSays(rule, line)
  {
    assert [line][1..] == [];
  }

  lemma OneRead(rule: ArgRule, chan: string, c: Change)
    requires ValidItem(Item(chan, c))
    ensures LineSays(rule, LineText(chan, [c])) == Tagged(chan, [Alone(rule, c)])
  {
    assert [c] == [c] + [];
    ArgsOne(c);
    ReadStep(rule, c, [], None, true, ArgOf(c));
    LineReads(rule, chan, [c]);
  }

  lemma PairReads(rule: ArgRule, chan: string, x: Change, y: Change)
    requires Pair(chan, x, y)
    ensures Reading(rule, [LineText(chan, [x, y])])
            == Tagged(chan, Read(rule, ModesText([x, y], None), Args([x, y]), true))
  {
    PairWritable(chan, x, y);
    hide Read, ModesText, LineText, LineSays, ValidItem, Writable, Reading;
    LineReads(rule, chan, [x, y]);
    OneLineReading(rule, LineText(chan, [x, y]));
  }

  lemma PairAlone(rule: ArgRule, chan: string, x: Change, y: Change)
    requires ValidItem(Item(chan, x)) && ValidItem(Item(chan, y))
    ensures Reading(rule, LaneText([Item(chan, x), Item(chan, y)])) == Tagged(chan, [Alone(rule, x), Alone(rule, y)])
  {
    hide LineText, LineSays, ValidItem, Alone, Reading;
    OneRead(rule, chan, x);
    OneRead(rule, chan, y);
    OneLineReading(rule, LineText(chan, [y]));
    assert [Item(chan, x), Item(chan, y)] == [Item(chan, x)] + [Item(chan, y)];
    LaneCons(rule, Item(chan, x), [Item(chan, y)]);
    assert LaneText([Item(chan, y)]) == [LineText(chan, [y])];
    assert Tagged(chan, [Alone(rule, x)]) + Tagged(chan, [Alone(rule, y)]) == Tagged(chan, [Alone(rule, x), Alone(rule, y)]);
  }

  /** What the two become in one line: the first may take the argument of the second. */
  lemma TwoRead(rule: ArgRule, x: Change, y: Change)
    requires Writable(NeedsArg, x) && Writable(NeedsArg, y)
    ensures var args := ArgOf(x) + ArgOf(y);
            var took := rule(x.letter, x.adding) && args != [];
            var left := if took then args[1..] else args;
            Read(rule, ModesText([x, y], None), Args([x, y]), true)
            == [x.(arg := if took then Some(args[0]) else None),
                y.(arg := if rule(y.letter, y.adding) && left != [] then Some(left[0]) else None)]
  {
    var args := Args([x, y]);
    assert [x, y] == [x] + [y] && [y] == [y] + [];
    TextHead(x, [y], None);
    ArgsOne(y);
    assert args == ArgOf(x) + ArgOf(y);
    ReadStep(rule, x, [y], None, true, args);
    var took := rule(x.letter, x.adding) && args != [];
    ReadStep(rule, y, [], Some(x.adding), x.adding, if took then args[1..] else args);
  }

  /** Two changes of one channel that read differently in one line than alone. */
  lemma PairMisread(rule: ArgRule, chan: string, x: Change, y: Change, limit: nat)
    requires Pair(chan, x, y) && limit >= 2
    requires Read(rule, ModesText([x, y], None), Args([x, y]), true) != [Alone(rule, x), Alone(rule, y)]
    ensures !KeepsReading(rule, limit)
  {
    hide Read, ModesText, ValidItem, LineText, Alone, LineSays;
    var items := [Item(chan, x), Item(chan, y)];
    BothPacked(chan, x, y, limit);
    PairReads(rule, chan, x, y);
    PairAlone(rule, chan, x, y);
    TaggedTells(chan, Read(rule, ModesText([x, y], None), Args([x, y]), true), [Alone(rule, x), Alone(rule, y)]);
    assert ValidItems(items);
  }

  lemma PairWritable(chan: string, x: Change, y: Change)
    requires Pair(chan, x, y)
    ensures Writable(NeedsArg, x) && Writable(NeedsArg, y)
  {
  }

  lemma TaggedTells(chan: string, a: seq<Change>, b: seq<Change>)
    ensures Tagged(chan, a) == Tagged(chan, b) ==> a == b
  {
    assert forall i :: 0 <= i < |a| ==> Tagged(chan, a)[i].change == a[i];
    assert forall i :: 0 <= i < |b| ==> Tagged(chan, b)[i].change == b[i];
  }

  /** A change of a known letter, with a short argument where the packer wants one. */
  function Sample(letter: char, adding: bool, arg: string): Change {
    Change(adding, letter, if NeedsArg(letter, adding) then Some(arg) else None)
  }

  lemma SamplesPair(m: char, a: bool, n: char, b: bool)
    requires KnownLetter(m, a).Some? && KnownLetter(n, b).Some?
    ensures Pair("#c", Sample(m, a, "x"), Sample(n, b, "y"))
  {
  }

  /** A letter that takes an argument the packer does not give it takes the next one's. */
  lemma TakesTooMuch(rule: ArgRule, m: char, a: bool, limit: nat)
    requires KnownLetter(m, a) == Some(false) && rule(m, a) && limit >= 2
    ensures !KeepsReading(rule, limit)
  {
    var x, y := Sample(m, a, "x"), Sample('o', true, "y");
    SamplesPair(m, a, 'o', true);
    TwoRead(rule, x, y);
    PairMisread(rule, "#c", x, y, limit);
  }

  /** A letter that takes no argument leaves its own to the next one that does. */
  lemma TakesTooLittle(rule: ArgRule, m: char, a: bool, n: char, b: bool, limit: nat)
    requires KnownLetter(m, a) == Some(true) && !rule(m, a) && limit >= 2
    requires KnownLetter(n, b) == Some(true) && rule(n, b)
    ensures !KeepsReading(rule, limit)
  {
    var x, y := Sample(m, a, "x"), Sample(n, b, "y");
    SamplesPair(m, a, n, b);
    TwoRead(rule, x, y);
    PairMisread(rule, "#c", x, y, limit);
  }

  /** For which servers packing keeps what every lane of single changes says. */
  lemma PackingExactly(rule: ArgRule, limit: nat)
    requires limit >= 2
    ensures KeepsReading(rule, limit) <==> OneMind(rule)
  {
    if OneMind(rule) {
      forall items | ValidItems(items)
        ensures Reading(rule, ModePipeline.PackAll(LaneText(items), limit)) == Reading(rule, LaneText(items))
      {
        PackedReads(rule, items, limit);
      }
    } else if m: char, a: bool :| KnownLetter(m, a) == Some(false) && rule(m, a) {
      TakesTooMuch(rule, m, a, limit);
    } else {
      var m: char, a: bool :| KnownLetter(m, a) == Some(true) && !rule(m, a);
      var n: char, b: bool :| KnownLetter(n, b) == Some(true) && rule(n, b);
      TakesTooLittle(rule, m, a, n, b, limit);
    }
  }

  /** A server that takes the key only when it is set: the bot's own change of a key, packed, sets
      the old one again. */
  lemma KeyChangeMisread(rule: ArgRule, dirs: LiveModes.Dirs, live: LiveModes.Live, key: string, limit: nat)
    requires rule('k', true) && !rule('k', false) && limit >= 2
    requires LiveModes.Wants(dirs, 'k', true) && LiveModes.SendableKey(key) && Word(key) && |key| < LiveModes.MAX_KEY
    requires live.known && LiveModes.VisibleKey(live) && Word(live.key) && |live.key| < LiveModes.MAX_KEY && live.key != key
    ensures var plan := LiveModes.KeyChanges(dirs, live, key);
            var lines := LiveModes.Lines("#c", plan);
            var del, add := Change(false, 'k', None), Change(true, 'k', Some(live.key));
            && plan == [Change(false, 'k', Some(live.key)), Change(true, 'k', Some(key))]
            && Reading(rule, lines) == Tagged("#c", [del, add.(arg := Some(key))])
            && Reading(rule, ModePipeline.PackAll(lines, limit)) == Tagged("#c", [del, add])
  {
    var x, y := Change(false, 'k', Some(live.key)), Change(true, 'k', Some(key));
    var plan := LiveModes.KeyChanges(dirs, live, key);
    assert plan == [x, y];
    assert LiveModes.Lines("#c", plan) == LaneText([Item("#c", x), Item("#c", y)]);
    BothPacked("#c", x, y, limit);
    PairReads(rule, "#c", x, y);
    PairAlone(rule, "#c", x, y);
    TwoRead(rule, x, y);
  }
}
