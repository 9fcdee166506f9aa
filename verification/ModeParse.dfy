/** The operator's mode string: what is accepted and the normal form that is stored. */
module ModeParse {
  import Counting
  import opened Text
  import opened Numbers
  import opened ModeLines
  import opened LiveModes
  import opened ModeSync

  const LETTERS_CAP := 40

  datatype ParsedModes = ParsedModes(stored: string, key: Option<string>, keyClear: bool)

  datatype ParseError =
    | NotManaged(letter: char)
    | GivenTwice(letter: char)
    | TooLong
    | KeyNeeded
    | LimitNeeded
    | BadLimit
    | NoModes
    | WrongArguments
    | SecretAndPrivate

  datatype Result<+T> = Ok(value: T) | Err(error: ParseError)

  predicate KeyOk(k: string) {
    0 < |k| < MAX_KEY && forall i :: 0 <= i < |k| ==> k[i] > ' ' && k[i] != '\U{7F}' && k[i] != ',' && k[i] != '|'
  }

  /** A limit as the operator writes it: at most 5 bytes, a sign allowed, 1..99999. */
  function LimitOf(a: string): Option<nat> {
    var digits := if a != "" && (a[0] == '+' || a[0] == '-') then a[1..] else a;
    if |a| <= 5 && Digits(digits) && a[0] != '-' && 1 <= Val(digits) <= LIMIT_MAX then Some(Val(digits)) else None
  }

  // ---- the scan, one letter at a time ----------------------------------------------

  datatype Scan = Scan(seen: set<char>, letters: string, sign: Option<bool>, ai: nat, limit: nat,
                       plusS: bool, plusP: bool, key: Option<string>, keyClear: bool)

  const START := Scan({}, "", None, 0, 0, false, false, None, false)

  function ArgAt(args: seq<string>, i: nat): Option<string> {
    if i < |args| then Some(args[i]) else None
  }

  function ScanLetter(st: Scan, m: char, adding: bool, args: seq<string>): Result<Scan> {
    if !IsManaged(m) then Err(NotManaged(m))
    else if m in st.seen then Err(GivenTwice(m))
    else if |st.letters| + 3 >= LETTERS_CAP then Err(TooLong)
    else
      var letters := st.letters + (if st.sign == Some(adding) then "" else [Sign(adding)]) + [m];
      var st' := st.(seen := st.seen + {m}, letters := letters, sign := Some(adding),
                     plusS := st.plusS || (adding && m == 's'), plusP := st.plusP || (adding && m == 'p'));
      var arg := ArgAt(args, st.ai);
      if m == 'k' && adding then
        if arg.Some? && KeyOk(arg.value) then Ok(st'.(key := arg, ai := st.ai + 1)) else Err(KeyNeeded)
      else if m == 'k' then Ok(st'.(keyClear := true))
      else if m == 'l' && adding then
        if arg.None? then Err(LimitNeeded)
        else if LimitOf(arg.value).None? then Err(BadLimit)
        else Ok(st'.(limit := LimitOf(arg.value).value, ai := st.ai + 1))
      else Ok(st')
  }

  function ScanAll(st: Scan, modes: string, adding: bool, args: seq<string>): Result<Scan>
    decreases |modes|
  {
    if modes == "" then Ok(st)
    else if modes[0] == '+' then ScanAll(st, modes[1..], true, args)
    else if modes[0] == '-' then ScanAll(st, modes[1..], false, args)
    else
      match ScanLetter(st, modes[0], adding, args)
      case Err(e) => Err(e)
      case Ok(st') => ScanAll(st', modes[1..], adding, args)
  }

  function Finish(st: Scan, args: seq<string>): Result<ParsedModes> {
    if st.letters == "" then Err(NoModes)
    else if st.ai != |args| then Err(WrongArguments)
    else if st.plusS && st.plusP then Err(SecretAndPrivate)
    else
      var stored := if st.limit > 0 then st.letters + " " + Dec(st.limit) else st.letters;
      if |stored| > C_MODES_MAX then Err(TooLong) else Ok(ParsedModes(stored, st.key, st.keyClear))
  }

  function Parse(modes: string, args: seq<string>): Result<ParsedModes> {
    match ScanAll(START, modes, true, args)
    case Err(e) => Err(e)
    case Ok(st) => Finish(st, args)
  }

  method ParseModes(modes: string, args: seq<string>) returns (r: Result<ParsedModes>)
    ensures r == Parse(modes, args)
  {
    var seen: set<char> := {};
    var letters, sign, ai, limit := "", None, 0, 0;
    var plusS, plusP := false, false;
    var key, keyClear := None, false;
    var adding := true;
    assert modes[0..] == modes;
    for i := 0 to |modes|
      invariant ScanAll(Scan(seen, letters, sign, ai, limit, plusS, plusP, key, keyClear), modes[i..], adding, args)
                == ScanAll(START, modes, true, args)
    {
      var m := modes[i];
      ghost var before := Scan(seen, letters, sign, ai, limit, plusS, plusP, key, keyClear);
      assert modes[i..][1..] == modes[i + 1..];
      if m == '+' || m == '-' {
        adding := m == '+';
        continue;
      }
      if !IsManaged(m) {
        return Err(NotManaged(m));
      }
      if m in seen {
        return Err(GivenTwice(m));
      }
      seen := seen + {m};
      if |letters| + 3 >= LETTERS_CAP {
        return Err(TooLong);
      }
      if sign != Some(adding) {
        letters := letters + [Sign(adding)];
        sign := Some(adding);
      }
      letters := letters + [m];
      if adding && m == 's' {
        plusS := true;
      }
      if adding && m == 'p' {
        plusP := true;
      }
      if m == 'k' {
        if adding {
          if ai >= |args| || !KeyOk(args[ai]) {
            return Err(KeyNeeded);
          }
          key := Some(args[ai]);
          ai := ai + 1;
        } else {
          keyClear := true;
        }
      } else if m == 'l' && adding {
        if ai >= |args| {
          return Err(LimitNeeded);
        }
        var v := LimitOf(args[ai]);
        ai := ai + 1;
        if v.None? {
          return Err(BadLimit);
        }
        limit := v.value;
      }
      ghost var after := Scan(seen, letters, sign, ai, limit, plusS, plusP, key, keyClear);
      assert before.letters + "" == before.letters;
      assert ScanLetter(before, m, adding, args) == Ok(after);
    }
    if letters == "" {
      return Err(NoModes);
    }
    if ai != |args| {
      return Err(WrongArguments);
    }
    if plusS && plusP {
      return Err(SecretAndPrivate);
    }
    var stored := if limit > 0 then letters + " " + Dec(limit) else letters;
    if |stored| > C_MODES_MAX {
      return Err(TooLong);
    }
    r := Ok(ParsedModes(stored, key, keyClear));
  }

  // ---- what an accepted string means -----------------------------------------------

  /** The operator's rule: +k and +l take an argument, nothing else does. */
  predicate Asks(m: char, adding: bool) {
    adding && (m == 'k' || m == 'l')
  }

  /** The changes the operator wrote, read from left to right. */
  function Asked(modes: string, args: seq<string>): seq<Change> {
    Read(Asks, modes, args, true)
  }

  predicate GoodChange(c: Change) {
    && c.letter in {'i', 'm', 'n', 'p', 's', 't', 'k', 'l'}
    && (c.arg.Some? <==> Asks(c.letter, c.adding))
    && (c.arg.Some? && c.letter == 'k' ==> KeyOk(c.arg.value))
    && (c.arg.Some? && c.letter == 'l' ==> LimitOf(c.arg.value).Some?)
  }

  /** No letter twice, none of `seen`, and the arguments acceptable. */
  ghost predicate GoodChanges(cs: seq<Change>, seen: set<char>) {
    cs == [] || (GoodChange(cs[0]) && cs[0].letter !in seen && GoodChanges(cs[1..], seen + {cs[0].letter}))
  }

  /** The key, the clear mark and the limit left by reading `cs`. */
  function KeyStep(c: Change, key: Option<string>): Option<string> {
    if c.letter == 'k' && c.adding then c.arg else key
  }

  function ClearStep(c: Change, clear: bool): bool {
    clear || (c.letter == 'k' && !c.adding)
  }

  function LimitStep(c: Change, limit: nat): nat {
    if c.letter == 'l' && c.arg.Some? then LimitOf(c.arg.value).GetOr(0) else limit
  }

  function KeyAfter(cs: seq<Change>, key: Option<string>): Option<string> {
    if cs == [] then key else KeyAfter(cs[1..], KeyStep(cs[0], key))
  }

  function ClearAfter(cs: seq<Change>, clear: bool): bool {
    if cs == [] then clear else ClearAfter(cs[1..], ClearStep(cs[0], clear))
  }

  function LimitAfter(cs: seq<Change>, limit: nat): nat {
    if cs == [] then limit else LimitAfter(cs[1..], LimitStep(cs[0], limit))
  }

  /** A letter is asked for. */
  predicate AsksFor(cs: seq<Change>, letter: char) {
    exists c :: c in cs && c.adding && c.letter == letter
  }

  ghost predicate Collected(st: Scan, cs: seq<Change>, st': Scan) {
    && st'.letters == st.letters + ModesText(cs, st.sign)
    && st'.ai == st.ai + |Args(cs)|
    && st'.key == KeyAfter(cs, st.key)
    && st'.keyClear == ClearAfter(cs, st.keyClear)
    && st'.limit == LimitAfter(cs, st.limit)
    && st'.plusS == (st.plusS || AsksFor(cs, 's')) && st'.plusP == (st.plusP || AsksFor(cs, 'p'))
  }

  /** One letter read by the scan: `c` is the change it stands for. */
  ghost predicate Stepped(st: Scan, c: Change, st1: Scan) {
    && GoodChange(c) && c.letter !in st.seen && st1.seen == st.seen + {c.letter}
    && st1.letters == st.letters + (if st.sign == Some(c.adding) then "" else [Sign(c.adding)]) + [c.letter]
    && st1.sign == Some(c.adding) && st1.ai == st.ai + |ArgOf(c)|
    && st1.key == KeyStep(c, st.key) && st1.keyClear == ClearStep(c, st.keyClear)
    && st1.limit == LimitStep(c, st.limit)
    && st1.plusS == (st.plusS || (c.adding && c.letter == 's'))
    && st1.plusP == (st.plusP || (c.adding && c.letter == 'p'))
  }

  lemma LetterSteps(st: Scan, m: char, adding: bool, args: seq<string>)
    requires ScanLetter(st, m, adding, args).Ok?
    ensures var c := Change(adding, m, if Asks(m, adding) then ArgAt(args, st.ai) else None);
            Stepped(st, c, ScanLetter(st, m, adding, args).value)
  {
  }

  lemma CollectedMore(st: Scan, c: Change, st1: Scan, cs: seq<Change>, st': Scan)
    requires Stepped(st, c, st1) && Collected(st1, cs, st')
    ensures Collected(st, [c] + cs, st')
  {
    hide ModesText, GoodChange, LimitOf, KeyStep, ClearStep, LimitStep;
    TextHead(c, cs, st.sign);
    assert ([c] + cs)[1..] == cs;
    AsksMore(c, cs, 's');
    AsksMore(c, cs, 'p');
    TextMore(st.letters, if st.sign == Some(c.adding) then "" else [Sign(c.adding)], [c.letter],
             ModesText(cs, Some(c.adding)));
  }

  lemma AsksMore(c: Change, cs: seq<Change>, letter: char)
    ensures AsksFor([c] + cs, letter) <==> (c.adding && c.letter == letter) || AsksFor(cs, letter)
  {
    assert c in [c] + cs && forall d :: d in cs ==> d in [c] + cs;
  }

  lemma TextMore(a: string, b: string, c: string, d: string)
    ensures a + (b + (c + d)) == a + b + c + d
  {
  }

  /** The scan accepts exactly as it reads: the changes are the ones left-to-right reading
      gives, each letter once, and the letters collected are their normal form. */
  lemma {:induction false} ScanMeans(st: Scan, modes: string, adding: bool, args: seq<string>)
    requires st.ai <= |args| && ScanAll(st, modes, adding, args).Ok?
    ensures var cs := Read(Asks, modes, args[st.ai..], adding);
            GoodChanges(cs, st.seen) && Collected(st, cs, ScanAll(st, modes, adding, args).value)
    decreases |modes|, 1
  {
    if modes == "" {
      assert st.letters + "" == st.letters;
    } else if modes[0] == '+' || modes[0] == '-' {
      ScanMeans(st, modes[1..], modes[0] == '+', args);
    } else {
      ScanMeansLetter(st, modes, adding, args);
    }
  }

  lemma {:induction false} ScanMeansLetter(st: Scan, modes: string, adding: bool, args: seq<string>)
    requires st.ai <= |args| && ScanAll(st, modes, adding, args).Ok?
    requires modes != "" && modes[0] != '+' && modes[0] != '-'
    ensures var cs := Read(Asks, modes, args[st.ai..], adding);
            GoodChanges(cs, st.seen) && Collected(st, cs, ScanAll(st, modes, adding, args).value)
    decreases |modes|, 0
  {
    var m, rest := modes[0], args[st.ai..];
    var st1, st' := ScanLetter(st, m, adding, args).value, ScanAll(st, modes, adding, args).value;
    var c := Change(adding, m, if Asks(m, adding) then ArgAt(args, st.ai) else None);
    LetterSteps(st, m, adding, args);
    ScanMeans(st1, modes[1..], adding, args);
    var cs := Read(Asks, modes[1..], args[st1.ai..], adding);
    assert c.arg.Some? ==> rest[0] == c.arg.value && rest[1..] == args[st1.ai..];
    assert Read(Asks, modes, rest, adding) == [c] + cs;
    assert ([c] + cs)[1..] == cs;
    CollectedMore(st, c, st1, cs, st');
  }

  lemma {:induction false} GoodMember(cs: seq<Change>, seen: set<char>, c: Change)
    requires GoodChanges(cs, seen) && c in cs
    ensures GoodChange(c) && c.letter !in seen
  {
    if c != cs[0] {
      GoodMember(cs[1..], seen + {cs[0].letter}, c);
    }
  }

  lemma {:induction false} Untouched(cs: seq<Change>, key: Option<string>, clear: bool, limit: nat)
    ensures (forall c :: c in cs ==> c.letter != 'k') ==> KeyAfter(cs, key) == key && ClearAfter(cs, clear) == clear
    ensures (forall c :: c in cs ==> c.letter != 'l') ==> LimitAfter(cs, limit) == limit
  {
    if cs != [] {
      assert cs[0] in cs && forall c :: c in cs[1..] ==> c in cs;
      Untouched(cs[1..], KeyStep(cs[0], key), ClearStep(cs[0], clear), LimitStep(cs[0], limit));
    }
  }

  lemma OthersDiffer(cs: seq<Change>, seen: set<char>)
    requires cs != [] && GoodChanges(cs, seen)
    ensures forall d :: d in cs[1..] ==> d.letter != cs[0].letter
  {
    forall d | d in cs[1..]
      ensures d.letter != cs[0].letter
    {
      GoodMember(cs[1..], seen + {cs[0].letter}, d);
    }
  }

  /** What the one change of a letter leaves behind. */
  lemma {:induction false} LeftBy(cs: seq<Change>, seen: set<char>, c: Change, key: Option<string>, clear: bool, limit: nat)
    requires GoodChanges(cs, seen) && c in cs
    ensures c.letter == 'k' ==> KeyAfter(cs, key) == (if c.adding then c.arg else key)
    ensures c.letter == 'k' ==> ClearAfter(cs, clear) == (clear || !c.adding)
    ensures c.letter == 'l' ==> LimitAfter(cs, limit) == (if c.arg.Some? then LimitOf(c.arg.value).GetOr(0) else limit)
  {
    var h := cs[0];
    var key1, clear1, limit1 := KeyStep(h, key), ClearStep(h, clear), LimitStep(h, limit);
    OthersDiffer(cs, seen);
    if c == h {
      Untouched(cs[1..], key1, clear1, limit1);
    } else {
      LeftBy(cs[1..], seen + {h.letter}, c, key1, clear1, limit1);
    }
  }

  // ---- what is accepted ------------------------------------------------------------

  /** A number as the operator may write it: one to 99999, in at most five bytes, perhaps after a plus. */
  predicate LimitText(a: string, n: nat) {
    && 1 <= n <= 99999 && |a| <= 5
    && ((Digits(a) && Val(a) == n) || (a != "" && a[0] == '+' && Digits(a[1..]) && Val(a[1..]) == n))
  }

  lemma LimitOfExactly(a: string, n: nat)
    ensures LimitOf(a) == Some(n) <==> LimitText(a, n)
  {
  }

  /** One to 30 visible bytes without a comma or a bar. */
  lemma KeyOkExactly(k: string)
    ensures KeyOk(k) <==> 1 <= |k| <= 30 && forall c :: c in k ==> c > ' ' && c != 0x7f as char && c !in {',', '|'}
  {
    assert forall i :: 0 <= i < |k| ==> k[i] in k;
  }

  const MANAGED := {'i', 'm', 'n', 'p', 's', 't', 'k', 'l'}

  /** The letters seen so far and what was written for them. */
  ghost predicate Short(st: Scan) {
    st.seen <= MANAGED && |st.letters| <= 2 * |st.seen|
  }

  lemma SeenFew(seen: set<char>, m: char)
    requires seen <= MANAGED && m in MANAGED && m !in seen
    ensures |seen| <= 7 && |seen + {m}| == |seen| + 1
  {
    Counting.SubsetSize(seen + {m}, MANAGED);
  }

  lemma LetterIsShort(st: Scan, m: char, adding: bool, args: seq<string>)
    requires Short(st)
    ensures ScanLetter(st, m, adding, args) != Err(TooLong)
    ensures ScanLetter(st, m, adding, args).Ok? ==> Short(ScanLetter(st, m, adding, args).value)
  {
    if IsManaged(m) && m !in st.seen {
      SeenFew(st.seen, m);
    }
  }

  lemma {:induction false} ScanIsShort(st: Scan, modes: string, adding: bool, args: seq<string>)
    requires Short(st)
    ensures ScanAll(st, modes, adding, args) != Err(TooLong)
    ensures ScanAll(st, modes, adding, args).Ok? ==> Short(ScanAll(st, modes, adding, args).value)
    decreases |modes|
  {
    hide ScanLetter, Short;
    if modes != "" {
      if modes[0] == '+' || modes[0] == '-' {
        ScanIsShort(st, modes[1..], modes[0] == '+', args);
      } else {
        LetterIsShort(st, modes[0], adding, args);
        match ScanLetter(st, modes[0], adding, args)
        case Err(_) =>
        case Ok(st') => ScanIsShort(st', modes[1..], adding, args);
      }
    }
  }

  /** Good changes are scanned without an error. */
  lemma {:induction false} ScanAccepts(st: Scan, modes: string, adding: bool, args: seq<string>)
    requires Short(st) && st.ai <= |args|
    requires GoodChanges(Read(Asks, modes, args[st.ai..], adding), st.seen)
    ensures ScanAll(st, modes, adding, args).Ok?
    decreases |modes|
  {
    if modes != "" {
      var m, rest := modes[0], args[st.ai..];
      if m == '+' || m == '-' {
        ScanAccepts(st, modes[1..], m == '+', args);
      } else {
        LetterIsShort(st, m, adding, args);
        var cs := Read(Asks, modes, rest, adding);
        if Asks(m, adding) && rest != [] {
          assert rest[0] == args[st.ai] && rest[1..] == args[st.ai + 1..];
          assert cs == [Change(adding, m, Some(rest[0]))] + Read(Asks, modes[1..], rest[1..], adding);
        } else {
          assert cs == [Change(adding, m, None)] + Read(Asks, modes[1..], rest, adding);
        }
        assert GoodChange(cs[0]);
        var st' := ScanLetter(st, m, adding, args).value;
        assert cs[1..] == Read(Asks, modes[1..], args[st'.ai..], adding);
        ScanAccepts(st', modes[1..], adding, args);
      }
    }
  }

  /** What an operator's string may be: at least one change, every letter managed and given once, a
      usable key and limit, no argument left over, and not both +s and +p. */
  ghost predicate Acceptable(cs: seq<Change>, args: seq<string>) {
    cs != [] && GoodChanges(cs, {}) && |Args(cs)| == |args| && !(AsksFor(cs, 's') && AsksFor(cs, 'p'))
  }

  /** A string is accepted exactly when it is that; none is ever refused for its length. */
  lemma AcceptedExactly(modes: string, args: seq<string>)
    ensures Parse(modes, args).Ok? <==> Acceptable(Asked(modes, args), args)
    ensures Parse(modes, args) != Err(TooLong)
  {
    var cs := Asked(modes, args);
    assert args[0..] == args;
    ScanIsShort(START, modes, true, args);
    if GoodChanges(cs, {}) {
      ScanAccepts(START, modes, true, args);
    }
    if ScanAll(START, modes, true, args).Ok? {
      var st := ScanAll(START, modes, true, args).value;
      ScanMeans(START, modes, true, args);
      ScanStored(modes, args);
      LimitWanted(cs);
      LimitDigits(st.limit);
      Counting.SubsetSize(st.seen, MANAGED);
      TextEmpty(cs);
    }
  }

  lemma TextEmpty(cs: seq<Change>)
    ensures ModesText(cs, None) == "" <==> cs == []
  {
  }

  // ---- the normal form keeps the meaning -------------------------------------------

  function DirsOf(cs: seq<Change>, acc: Dirs): Dirs {
    if cs == [] then acc else DirsOf(cs[1..], acc[cs[0].letter := cs[0].adding])
  }

  lemma DirsOfSigned(adding: bool, before: bool, m: char, tail: string, acc: Dirs)
    requires IsManaged(m)
    ensures DirsFrom([m] + tail, adding, acc) == DirsFrom(tail, adding, acc[m := adding])
    ensures DirsFrom([Sign(adding)] + ([m] + tail), before, acc) == DirsFrom([m] + tail, adding, acc)
  {
    assert ([m] + tail)[1..] == tail && ([Sign(adding)] + ([m] + tail))[1..] == [m] + tail;
  }

  lemma {:induction false} DirsOfText(cs: seq<Change>, cur: Option<bool>, adding: bool, acc: Dirs)
    requires forall c :: c in cs ==> IsManaged(c.letter)
    requires cur.Some? ==> adding == cur.value
    ensures DirsFrom(ModesText(cs, cur), adding, acc) == DirsOf(cs, acc)
    ensures OnlyManaged(ModesText(cs, cur))
  {
    if cs != [] {
      var c, rest := cs[0], cs[1..];
      assert c in cs && forall d :: d in rest ==> d in cs;
      assert cs == [c] + rest;
      DirsOfText(rest, Some(c.adding), c.adding, acc[c.letter := c.adding]);
      var tail := ModesText(rest, Some(c.adding));
      TextHead(c, rest, cur);
      DirsOfSigned(c.adding, adding, c.letter, tail, acc);
      ManagedMore(c.adding, c.letter, tail);
    }
  }

  lemma ManagedMore(adding: bool, m: char, tail: string)
    requires IsManaged(m) && OnlyManaged(tail)
    ensures OnlyManaged([m] + tail) && OnlyManaged([Sign(adding)] + ([m] + tail))
  {
  }

  lemma {:induction false} DirsOfGood(cs: seq<Change>, seen: set<char>, acc: Dirs)
    requires GoodChanges(cs, seen)
    ensures forall m :: m in seen ==> (m in DirsOf(cs, acc) <==> m in acc)
    ensures forall m :: m in seen && m in acc ==> DirsOf(cs, acc)[m] == acc[m]
    ensures forall c :: c in cs ==> Wants(DirsOf(cs, acc), c.letter, c.adding)
    ensures forall m :: m in DirsOf(cs, acc) ==> m in acc || exists c :: c in cs && c.letter == m
  {
    if cs != [] {
      var c := cs[0];
      DirsOfGood(cs[1..], seen + {c.letter}, acc[c.letter := c.adding]);
      assert c.letter in seen + {c.letter};
    }
  }

  lemma StoredTokens(letters: string, limit: nat)
    requires IsToken(letters)
    ensures Tokens(letters) == [letters]
    ensures Tokens(letters + " " + Dec(limit)) == [letters, Dec(limit)]
  {
    assert IsToken(Dec(limit));
    TokenThen(letters, Dec(limit));
    TokenThen(Dec(limit), "");
    TokenThen(letters, "");
  }

  lemma ReadStoredOf(letters: string, limit: nat)
    requires OnlyManaged(letters) && letters != "" && |letters| + 1 + |Dec(limit)| < SPEC_LIMIT && limit <= LIMIT_MAX
    requires Wants(DirsFrom(letters, true, map[]), 'l', true) <==> limit > 0
    ensures ReadStored(if limit > 0 then letters + " " + Dec(limit) else letters)
            == Some(Wanted(DirsFrom(letters, true, map[]), limit))
  {
    hide Tokens, OnlyManaged, DirsFrom;
    NoSpace(letters);
    StoredTokens(letters, limit);
    if limit > 0 {
      LimitDigits(limit);
      DecRoundTrip(limit);
      assert LimitArg(Some(Dec(limit))) == Some(limit);
    }
  }

  /** The stored text of good changes reads back as their directions and limit. */
  lemma StoredReads(cs: seq<Change>, limit: nat)
    requires GoodChanges(cs, {}) && ModesText(cs, None) != "" && limit == LimitAfter(cs, 0)
    requires |ModesText(cs, None)| + 1 + |Dec(limit)| < SPEC_LIMIT
    ensures ReadStored(if limit > 0 then ModesText(cs, None) + " " + Dec(limit) else ModesText(cs, None))
            == Some(Wanted(DirsOf(cs, map[]), limit))
  {
    forall c | c in cs
      ensures IsManaged(c.letter)
    {
      GoodMember(cs, {}, c);
    }
    DirsOfText(cs, None, true, map[]);
    LimitWanted(cs);
    ReadStoredOf(ModesText(cs, None), limit);
  }

  lemma ScanStored(modes: string, args: seq<string>)
    requires ScanAll(START, modes, true, args).Ok?
    ensures var st, cs := ScanAll(START, modes, true, args).value, Asked(modes, args);
            && GoodChanges(cs, {}) && st.letters == ModesText(cs, None)
            && st.key == KeyAfter(cs, None) && st.keyClear == ClearAfter(cs, false) && st.limit == LimitAfter(cs, 0)
  {
    assert args[0..] == args;
    ScanMeans(START, modes, true, args);
    assert "" + ModesText(Asked(modes, args), None) == ModesText(Asked(modes, args), None);
  }

  /** What is stored reads back as the request: the same direction for every letter, the
      same limit; and key and limit are the ones asked for. */
  lemma StoredMeans(modes: string, args: seq<string>)
    requires Parse(modes, args).Ok?
    ensures var p, cs := Parse(modes, args).value, Asked(modes, args);
            && GoodChanges(cs, {})
            && p.key == KeyAfter(cs, None) && p.keyClear == ClearAfter(cs, false)
            && ReadStored(p.stored) == Some(Wanted(DirsOf(cs, map[]), LimitAfter(cs, 0)))
            && LimitAfter(cs, 0) <= LIMIT_MAX
  {
    var cs := Asked(modes, args);
    ScanStored(modes, args);
    LimitWanted(cs);
    LimitDigits(LimitAfter(cs, 0));
    StoredReads(cs, LimitAfter(cs, 0));
  }

  lemma NoSpace(letters: string)
    requires OnlyManaged(letters) && letters != ""
    ensures IsToken(letters)
  {
  }

  lemma LimitWanted(cs: seq<Change>)
    requires GoodChanges(cs, {})
    ensures Wants(DirsOf(cs, map[]), 'l', true) <==> LimitAfter(cs, 0) > 0
    ensures LimitAfter(cs, 0) <= LIMIT_MAX
  {
    DirsOfGood(cs, {}, map[]);
    if c :| c in cs && c.letter == 'l' {
      LeftBy(cs, {}, c, None, false, 0);
      GoodMember(cs, {}, c);
    } else {
      Untouched(cs, None, false, 0);
    }
  }
}
