/** The bounds of packing: which lines are single changes, and where a packed line has to end. */
module PackLimits {
  import opened Text
  import opened ModeLines

  /** Letters that come with an argument, letters that do not, and the limit that comes with one when set. */
  lemma LettersKnown(m: char, adding: bool)
    ensures KnownLetter(m, adding) == Some(true) <==> m in {'o', 'v', 'h', 'b', 'e', 'I', 'k'} || (m == 'l' && adding)
    ensures KnownLetter(m, adding) == Some(false) <==> m in {'i', 'm', 'n', 'p', 's', 't'} || (m == 'l' && !adding)
  {
  }

  /** A change the packer takes: a letter it knows, with a word of less than 300 bytes exactly when the
      letter wants one, for a channel name of less than 65. */
  predicate Packable(chan: string, c: Change) {
    && Word(chan) && |chan| < 65
    && (if c.letter in {'o', 'v', 'h', 'b', 'e', 'I', 'k'} || (c.letter == 'l' && c.adding)
        then c.arg.Some? && Word(c.arg.value) && |c.arg.value| < 300
        else c.letter in {'i', 'm', 'n', 'p', 's', 't', 'l'} && c.arg.None?)
  }

  lemma PackableExactly(chan: string, c: Change)
    ensures ValidItem(Item(chan, c)) <==> Packable(chan, c)
  {
    LettersKnown(c.letter, c.adding);
  }

  /** The line of a change is recognised exactly when the packer takes the change. */
  lemma SingleIsItem(chan: string, c: Change)
    ensures Packable(chan, c) ==> ItemParse(LineText(chan, [c])) == Some(Item(chan, c))
    ensures ItemParse(LineText(chan, [c])) == Some(Item(chan, c)) ==> Packable(chan, c)
  {
    hide ItemParse, ValidItem, Packable;
    PackableExactly(chan, c);
    if Packable(chan, c) {
      ItemOfLine(Item(chan, c));
    }
    if ItemParse(LineText(chan, [c])) == Some(Item(chan, c)) {
      ItemIsValid(LineText(chan, [c]));
    }
  }

  /** Room counted for changes: three bytes each, and the argument. */
  function Weight(cs: seq<Change>): nat {
    if cs == [] then 0 else 3 + (if cs[0].arg.Some? then |cs[0].arg.value| else 0) + Weight(cs[1..])
  }

  lemma {:induction false} WeightIs(cs: seq<Change>)
    ensures PackedLength(cs) == Weight(cs)
  {
    if cs != [] {
      WeightIs(cs[1..]);
    }
  }

  lemma {:induction false} WeightMore(cs: seq<Change>, c: Change)
    ensures Weight(cs + [c]) == Weight(cs) + 3 + if c.arg.Some? then |c.arg.value| else 0
  {
    if cs == [] {
      assert cs + [c] == [c] && Weight([c][1..]) == 0;
    } else {
      assert (cs + [c])[1..] == cs[1..] + [c];
      WeightMore(cs[1..], c);
    }
  }

  /** The next line ends before the lane and below the server's limit only at a line that is no single
      change, at one for another channel, or where the next change could make it longer than 400 bytes. */
  lemma PackStops(lane: seq<string>, limit: nat)
    requires lane != [] && ItemParse(lane[0]).Some? && limit >= 1
    ensures var items := PackItems(lane, limit);
            && 1 <= |items| <= limit && |items| <= |lane|
            && (|items| < limit && |items| < |lane| ==>
                  var next := ItemParse(lane[|items|]);
                  || next.None? || !SameButCase(next.value.chan, items[0].chan)
                  || 6 + |items[0].chan| + Weight(Changes(items) + [next.value.change]) > 400)
  {
    hide ItemParse, More, SameButCase, EqIc, PackedLength, Weight;
    var first := ItemParse(lane[0]).value;
    var est := FirstLength(first);
    var more := More(lane[1..], first.chan, limit - 1, est);
    MoreIsGreedy(lane[1..], first.chan, limit - 1, est);
    MoreFits(lane[1..], first.chan, limit - 1, est);
    var items := PackItems(lane, limit);
    assert items == [first] + more;
    if |items| < limit && |items| < |lane| {
      assert lane[1..][|more|] == lane[|items|];
      var next := ItemParse(lane[|items|]);
      if next.Some? {
        EqIcExactly(next.value.chan, first.chan);
        assert Changes(items) == [first.change] + Changes(more);
        WeightIs(Changes(more));
        WeightFirst(first.change, Changes(more));
        WeightMore(Changes(items), next.value.change);
      }
    }
  }

  lemma WeightFirst(c: Change, cs: seq<Change>)
    ensures Weight([c] + cs) == 3 + (if c.arg.Some? then |c.arg.value| else 0) + Weight(cs)
  {
    assert ([c] + cs)[1..] == cs;
  }

  /** And what it holds is at most 400 bytes before its end, and as many changes as it used up lines. */
  lemma PackFits400(lane: seq<string>, limit: nat)
    requires lane != [] && ItemParse(lane[0]).Some? && limit >= 1
    ensures var (line, used) := TakeProtection(lane, limit);
            && |line| <= 402 && used == |PackItems(lane, limit)| <= limit
            && Decode(NeedsArg, line) == Some(Changes(PackItems(lane, limit)))
  {
    hide ItemParse;
    PackedLineDecodes(lane, limit);
  }

  /** A line that is no single change goes as it stands. */
  lemma OthersAsTheyStand(lane: seq<string>, limit: nat)
    requires lane != [] && ItemParse(lane[0]).None?
    ensures TakeProtection(lane, limit) == (lane[0], 1)
  {
  }
}
