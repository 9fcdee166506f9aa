/** Which lane a line takes, from its text. */
module SendLanes {
  import opened Text
  import opened ModeLines
  import opened SendQueue

  predicate Is(verb: string, words: seq<string>) {
    exists i :: 0 <= i < |words| && SameButCase(verb, words[i])
  }

  const PROTO_VERBS := ["PONG", "PING", "NICK", "USER", "PASS", "QUIT", "CAP"]

  lemma ProtoVerbs(verb: string)
    ensures Is(verb, PROTO_VERBS)
            <==> EqIc(verb, "PONG") || EqIc(verb, "PING") || EqIc(verb, "NICK") || EqIc(verb, "USER") || EqIc(verb, "PASS")
                 || EqIc(verb, "QUIT") || EqIc(verb, "CAP")
  {
    hide EqIc, SameButCase;
    var w := PROTO_VERBS;
    forall i | 0 <= i < |w| ensures EqIc(verb, w[i]) <==> SameButCase(verb, w[i]) {
      EqIcExactly(verb, w[i]);
    }
    assert w[0] == "PONG" && w[1] == "PING" && w[2] == "NICK" && w[3] == "USER" && w[4] == "PASS" && w[5] == "QUIT"
           && w[6] == "CAP";
    if Is(verb, w) {
      var i :| 0 <= i < |w| && SameButCase(verb, w[i]);
    }
  }

  /** By its first word, in any case: the protocol's own lines first, kicks and mode changes next,
      everything else last. */
  lemma LaneByVerb(verb: string, rest: string)
    requires NoStop(verb) && (rest == "" || Stop(rest[0]))
    ensures LaneOf(verb + rest)
            == if Is(verb, PROTO_VERBS) then 0
               else if SameButCase(verb, "KICK") then 1
               else if SameButCase(verb, "MODE") && rest != "" && rest[0] == ' ' && !ModeIsQuery(verb + rest) then 1
               else 2
  {
    hide EqIc, SameButCase, Is, ModeIsQuery;
    var line := verb + rest;
    SpanAfter(verb, rest);
    assert line[..|verb|] == verb;
    ProtoVerbs(verb);
    EqIcExactly(verb, "KICK");
    EqIcExactly(verb, "MODE");
    if SameButCase(verb, "MODE") {
      SameLength(verb, "MODE");
      assert rest != "" ==> line[4] == rest[0];
    }
  }

  lemma SameLength(a: string, b: string)
    requires SameButCase(a, b)
    ensures |a| == |b|
  {
  }

  // ---- MODE: changes and questions ----------------------------------------------------------

  lemma {:induction false} SpanToEnd(a: string, b: string)
    requires NoStop(a) && b != "" && b[0] == '\r'
    ensures EolSpan(a + b) == |a|
  {
    if a == "" {
      assert a + b == b;
    } else {
      assert !Stop(a[0]) && (a + b)[1..] == a[1..] + b;
      assert NoStop(a[1..]);
      SpanToEnd(a[1..], b);
    }
  }

  lemma FirstSpace(a: string, b: string)
    requires ' ' !in a
    ensures Find(a + " " + b, ' ') == |a| && (a + " " + b)[|a| + 1..] == b
  {
    assert a + " " + b == a + (" " + b);
    FindAfter(a, ' ', " " + b);
    assert Find(" " + b, ' ') == 0;
  }

  lemma NoSpaceIn(a: string)
    requires NoStop(a)
    ensures ' ' !in a && ' ' !in a + CRLF
  {
  }

  /** The text after the channel: letters alone. */
  lemma LettersAsk(line: string, chan: string, letters: string)
    requires Word(chan) && NoStop(letters) && |line| >= 5 && line[5..] == chan + " " + (letters + CRLF)
    ensures ModeIsQuery(line)
            <==> (|letters| == 2 && letters[1] in {'b', 'e', 'I'}) || (|letters| == 1 && letters[0] in {'b', 'e', 'I'})
  {
    hide Find, EolSpan;
    NoSpaceIn(chan);
    FirstSpace(chan, letters + CRLF);
    NoSpaceIn(letters);
    SpanToEnd(letters, CRLF);
    FindNone(letters + CRLF);
  }

  lemma FindNone(s: string)
    requires ' ' !in s
    ensures Find(s, ' ') == |s|
  {
  }

  /** Letters with an argument are a change. */
  lemma ArgumentsChange(line: string, chan: string, letters: string, args: string)
    requires Word(chan) && NoStop(letters) && args != "" && args[0] != '\r' && args[0] != '\n'
    requires |line| >= 5 && line[5..] == chan + " " + (letters + " " + args)
    ensures !ModeIsQuery(line)
  {
    hide Find, EolSpan;
    NoSpaceIn(chan);
    NoSpaceIn(letters);
    FirstSpace(chan, letters + " " + args);
    FirstSpace(letters, args);
  }

  /** A fetch of the modes or of a list is no change: it waits in the last lane. */
  lemma FetchesAsk(chan: string, letter: char)
    requires Word(chan) && letter in {'b', 'e', 'I'}
    ensures LaneOf("MODE " + chan + CRLF) == 2
    ensures LaneOf("MODE " + chan + " " + [letter] + CRLF) == 2
    ensures LaneOf("MODE " + chan + " " + ['+', letter] + CRLF) == 2
  {
    hide ModeIsQuery, LaneOf;
    NoSpaceIn(chan);
    var bare := "MODE " + chan + CRLF;
    assert bare[5..] == chan + CRLF;
    BareAsks(bare, chan);
    ModeLane(bare, chan + CRLF);
    var one := "MODE " + chan + " " + [letter] + CRLF;
    assert one[5..] == chan + " " + ([letter] + CRLF);
    LettersAsk(one, chan, [letter]);
    ModeLane(one, chan + " " + [letter] + CRLF);
    var two := "MODE " + chan + " " + ['+', letter] + CRLF;
    assert two[5..] == chan + " " + (['+', letter] + CRLF);
    LettersAsk(two, chan, ['+', letter]);
    ModeLane(two, chan + " " + ['+', letter] + CRLF);
  }

  lemma BareAsks(line: string, chan: string)
    requires ' ' !in chan && |line| >= 5 && line[5..] == chan + CRLF
    ensures ModeIsQuery(line)
  {
    FindNone(chan + CRLF);
  }

  lemma ModeLane(line: string, p: string)
    requires line == "MODE " + p
    ensures LaneOf(line) == if ModeIsQuery(line) then 2 else 1
  {
    hide ModeIsQuery, LaneOf, Is, SameButCase;
    assert line == "MODE" + (" " + p);
    LaneByVerb("MODE", " " + p);
    ModeIsMode();
  }

  lemma ModeIsMode()
    ensures SameButCase("MODE", "MODE") && !SameButCase("MODE", "KICK") && !Is("MODE", PROTO_VERBS)
  {
    var w := PROTO_VERBS;
    assert "MODE"[0] == 'M' && "KICK"[0] == 'K';
    forall i | 0 <= i < |w| ensures !SameButCase("MODE", w[i]) {
      assert w[i][0] in {'P', 'N', 'U', 'Q', 'C'};
    }
  }

  /** A line of changes is for the protection lane, unless it is a single list letter without a mask. */
  lemma ChangesAreProtected(chan: string, cs: seq<Change>, rule: ArgRule)
    requires Word(chan) && cs != [] && forall c :: c in cs ==> Writable(rule, c)
    ensures LaneOf(LineText(chan, cs))
            == if |cs| == 1 && cs[0].letter in {'b', 'e', 'I'} && cs[0].arg.None? then 2 else 1
  {
    hide ModeIsQuery, LaneOf, ModesText;
    var line, letters := LineText(chan, cs), ModesText(cs, None);
    JoinThree("MODE", chan, letters, Args(cs));
    ModesTextIsWord(rule, cs, None);
    ArgsAreWords(rule, cs);
    LettersLength(cs);
    if Args(cs) == [] {
      assert line == "MODE " + (chan + " " + (letters + CRLF));
      ModeLane(line, chan + " " + (letters + CRLF));
      assert line[5..] == chan + " " + (letters + CRLF);
      LettersAsk(line, chan, letters);
      if |cs| == 1 {
        NoArgs(cs);
      }
    } else {
      var args := Join(Args(cs), ' ') + CRLF;
      assert line == "MODE " + (chan + " " + (letters + " " + args));
      ModeLane(line, chan + " " + (letters + " " + args));
      assert line[5..] == chan + " " + (letters + " " + args);
      FirstWord(Args(cs));
      ArgumentsChange(line, chan, letters, args);
      if |cs| == 1 {
        NoArgs(cs);
      }
    }
  }

  lemma NoArgs(cs: seq<Change>)
    requires |cs| == 1
    ensures Args(cs) == ArgOf(cs[0])
  {
    assert Args(cs[1..]) == [];
    assert ArgOf(cs[0]) + [] == ArgOf(cs[0]);
  }

  lemma FirstWord(words: seq<string>)
    requires words != [] && forall w :: w in words ==> Word(w)
    ensures var s := Join(words, ' ') + CRLF; s != "" && s[0] != '\r' && s[0] != '\n'
  {
    assert words[0] in words && !Stop(words[0][0]);
    assert Join(words, ' ')[0] == words[0][0];
  }

  // ---- the letters token ---------------------------------------------------------------------

  /** How often the sign turns, the first one counted. */
  function Turns(cs: seq<Change>, cur: Option<bool>): nat {
    if cs == [] then 0 else (if cur == Some(cs[0].adding) then 0 else 1) + Turns(cs[1..], Some(cs[0].adding))
  }

  /** One byte a letter, and one a turn of the sign: no sign is written twice. */
  lemma {:induction false} ModesTextLength(cs: seq<Change>, cur: Option<bool>)
    ensures |ModesText(cs, cur)| == |cs| + Turns(cs, cur)
  {
    if cs != [] {
      ModesTextLength(cs[1..], Some(cs[0].adding));
    }
  }

  lemma LettersLength(cs: seq<Change>)
    requires cs != []
    ensures |ModesText(cs, None)| >= 2 && (|ModesText(cs, None)| == 2 <==> |cs| == 1)
    ensures |cs| == 1 ==> ModesText(cs, None)[1] == cs[0].letter
  {
    ModesTextLength(cs, None);
    assert |cs| == 1 ==> ModesText(cs[1..], Some(cs[0].adding)) == "";
  }
}
