/** Where MODE text leaves a channel: everything stands as the last change of it asked, or as before. */
module LiveExact {
  import opened Text
  import opened Numbers
  import opened ModeLines
  import opened LiveModes
  import opened ModeSync
  import opened LiveList

  // ---- members ---------------------------------------------------------------------------

  predicate UniqueNicks(roster: seq<Member>) {
    forall i, j :: 0 <= i < j < |roster| ==> !SameButCase(roster[i].nick, roster[j].nick)
  }

  /** The change gives this nick the status, or takes it. */
  predicate About(c: Change, letter: char, nick: string) {
    c.letter == letter && c.arg.Some? && SameButCase(nick, c.arg.value)
  }

  /** What the last change of this letter for this nick asked; else as before. */
  function LastStatus(cs: seq<Change>, letter: char, nick: string, before: bool): bool {
    if cs == [] then before
    else if About(cs[|cs| - 1], letter, nick) then cs[|cs| - 1].adding
    else LastStatus(cs[..|cs| - 1], letter, nick, before)
  }

  lemma {:induction false} IndexIs(roster: seq<Member>, i: nat, nick: string)
    requires UniqueNicks(roster) && i < |roster|
    ensures MemberIndex(roster, nick) == i <==> SameButCase(roster[i].nick, nick)
  {
    EqIcExactly(roster[0].nick, nick);
    if i > 0 {
      if SameButCase(roster[0].nick, nick) && SameButCase(roster[i].nick, nick) {
        SameTwice(roster[0].nick, roster[i].nick, nick);
      }
      if !EqIc(roster[0].nick, nick) {
        IndexIs(roster[1..], i - 1, nick);
      }
    }
  }

  lemma SameTwice(a: string, b: string, c: string)
    requires SameButCase(a, c) && SameButCase(b, c)
    ensures SameButCase(a, b)
  {
    EqIcExactly(a, c);
    EqIcExactly(b, c);
    EqIcExactly(a, b);
  }

  /** One change: the roster keeps its nicks, and each member the status not asked about. */
  lemma StatusStep(isup: Isupport, live: Live, c: Change, from324: bool, now: int, i: nat)
    requires UniqueNicks(live.roster) && i < |live.roster|
    requires IsPrefixMode(isup, 'v') && IsPrefixMode(isup, 'h')
    ensures var m, r := live.roster[i], ApplyChange(isup, live, c, from324, now).roster;
            && |r| == |live.roster| && (forall k :: 0 <= k < |r| ==> r[k].nick == live.roster[k].nick)
            && r[i].voice == (if About(c, 'v', m.nick) then c.adding else m.voice)
            && r[i].halfop == (if About(c, 'h', m.nick) then c.adding else m.halfop)
  {
    hide MemberIndex, SameButCase, ShortDigits, WithBan, WithoutBan;
    BansAlone(isup, live, c, now);
    if c.arg.Some? {
      IndexIs(live.roster, i, c.arg.value);
    }
  }

  lemma {:induction false} StatusAll(isup: Isupport, live: Live, cs: seq<Change>, from324: bool, now: int, i: nat)
    requires UniqueNicks(live.roster) && i < |live.roster|
    requires IsPrefixMode(isup, 'v') && IsPrefixMode(isup, 'h')
    ensures var m, r := live.roster[i], ApplyAll(isup, live, cs, from324, now).roster;
            && |r| == |live.roster| && (forall k :: 0 <= k < |r| ==> r[k].nick == live.roster[k].nick)
            && r[i].voice == LastStatus(cs, 'v', m.nick, m.voice)
            && r[i].halfop == LastStatus(cs, 'h', m.nick, m.halfop)
    decreases |cs|
  {
    hide ApplyChange, SameButCase;
    if cs != [] {
      var n := |cs| - 1;
      assert cs == cs[..n] + [cs[n]];
      StatusAll(isup, live, cs[..n], from324, now, i);
      var before := ApplyAll(isup, live, cs[..n], from324, now);
      ApplyConcat(isup, live, cs[..n], [cs[n]], from324, now);
      OneApplied(isup, before, cs[n], from324, now);
      forall j, k | 0 <= j < k < |before.roster| ensures !SameButCase(before.roster[j].nick, before.roster[k].nick) {
        assert before.roster[j].nick == live.roster[j].nick;
      }
      StatusStep(isup, before, cs[n], from324, now, i);
    }
  }

  lemma OneApplied(isup: Isupport, s: Live, c: Change, from324: bool, now: int)
    ensures ApplyAll(isup, s, [c], from324, now) == ApplyChange(isup, s, c, from324, now)
  {
    assert [c][1..] == [];
  }

  /** After any MODE text, voice and halfop of a member are each what the last change of that letter for
      that nick asked, or as before; nobody joins or leaves by it. */
  lemma TextStatus(isup: Isupport, live: Live, modes: string, args: string, from324: bool, now: int, i: nat)
    requires UniqueNicks(live.roster) && i < |live.roster|
    requires IsPrefixMode(isup, 'v') && IsPrefixMode(isup, 'h')
    ensures var m, r := live.roster[i], ApplyText(isup, live, modes, args, from324, now).roster;
            var cs := Read(Rule(isup), modes, Tokens(args), true);
            && |r| == |live.roster| && r[i].nick == m.nick
            && r[i].voice == LastStatus(cs, 'v', m.nick, m.voice)
            && r[i].halfop == LastStatus(cs, 'h', m.nick, m.halfop)
  {
    StatusAll(isup, if from324 then Reset(live) else live, Read(Rule(isup), modes, Tokens(args), true), from324, now, i);
  }

  // ---- letters, key and limit -----------------------------------------------------------------

  /** What the last change of this letter asked; else as before. */
  function LastSet(cs: seq<Change>, m: char, before: bool): bool {
    if cs == [] then before
    else if cs[|cs| - 1].letter == m then cs[|cs| - 1].adding
    else LastSet(cs[..|cs| - 1], m, before)
  }

  /** The key left: of the last +k that came with one, or none after a -k. */
  function LastKey(cs: seq<Change>, before: string): string {
    if cs == [] then before
    else
      var c := cs[|cs| - 1];
      if c.letter == 'k' && !c.adding then ""
      else if c.letter == 'k' && c.arg.Some? then c.arg.value[..if |c.arg.value| < 30 then |c.arg.value| else 30]
      else LastKey(cs[..|cs| - 1], before)
  }

  /** A +l counts with a number of at most six digits, a -l always. */
  predicate LimitCounts(c: Change) {
    c.letter == 'l' && (!c.adding || (c.arg.Some? && Digits(c.arg.value) && |c.arg.value| <= 6))
  }

  /** Whether a limit stands, and which: by the last change that counts. */
  function LastLimit(cs: seq<Change>, set_: bool, before: int): (bool, int) {
    if cs == [] then (set_, before)
    else
      var c := cs[|cs| - 1];
      if LimitCounts(c) then (c.adding, if c.adding then Val(c.arg.value) else 0)
      else LastLimit(cs[..|cs| - 1], set_, before)
  }

  /** A letter that is set and cleared by itself. */
  predicate PlainLetter(isup: Isupport, m: char) {
    && ('a' <= m <= 'z' || 'A' <= m <= 'Z') && m != 'b' && m != 'k' && m != 'l'
    && !HasArg(isup, m, true) && !HasArg(isup, m, false)
  }

  lemma LettersStep(isup: Isupport, live: Live, c: Change, from324: bool, now: int, m: char)
    ensures var r := ApplyChange(isup, live, c, from324, now);
            && (PlainLetter(isup, m) ==> (m in r.flags <==> if c.letter == m then c.adding else m in live.flags))
            && ('k' in r.flags <==> if c.letter == 'k' then c.adding else 'k' in live.flags)
            && r.key == LastKey([c], live.key)
            && (ManagedTable(isup) ==> ('l' in r.flags, r.limit) == LastLimit([c], 'l' in live.flags, live.limit))
            && r.known == live.known
  {
    hide WithBan, WithoutBan, MemberIndex;
    assert [c][..0] == [];
    assert LastKey([], live.key) == live.key;
    assert LastLimit([], 'l' in live.flags, live.limit) == ('l' in live.flags, live.limit);
    BansAlone(isup, live, c, now);
    if c.letter == 'l' && ManagedTable(isup) {
      assert IsManaged('l');
    }
  }

  lemma BansAlone(isup: Isupport, live: Live, c: Change, now: int)
    ensures c.arg.Some? ==>
              var r := WithBan(isup, live, c.arg.value, now); r == live.(bans := r.bans, overflow := r.overflow)
    ensures c.arg.Some? ==> var r := WithoutBan(live, c.arg.value); r == live.(bans := r.bans)
  {
  }

  lemma LastMore(cs: seq<Change>, c: Change, m: char, b: bool, key: string, limit: int)
    ensures LastSet(cs + [c], m, b) == if c.letter == m then c.adding else LastSet(cs, m, b)
    ensures LastKey(cs + [c], key) == LastKey([c], LastKey(cs, key))
    ensures LastLimit(cs + [c], b, limit) == LastLimit([c], LastLimit(cs, b, limit).0, LastLimit(cs, b, limit).1)
  {
    assert (cs + [c])[..|cs|] == cs && [c][..0] == [];
    assert LastKey([], LastKey(cs, key)) == LastKey(cs, key);
    var before := LastLimit(cs, b, limit);
    assert LastLimit([], before.0, before.1) == before;
  }

  lemma {:induction false} LettersAll(isup: Isupport, live: Live, cs: seq<Change>, from324: bool, now: int, m: char)
    ensures var r := ApplyAll(isup, live, cs, from324, now);
            && (PlainLetter(isup, m) ==> (m in r.flags <==> LastSet(cs, m, m in live.flags)))
            && ('k' in r.flags <==> LastSet(cs, 'k', 'k' in live.flags))
            && r.key == LastKey(cs, live.key)
            && (ManagedTable(isup) ==> ('l' in r.flags, r.limit) == LastLimit(cs, 'l' in live.flags, live.limit))
            && r.known == live.known
    decreases |cs|
  {
    hide ApplyChange, ManagedTable, PlainLetter;
    if cs != [] {
      var n := |cs| - 1;
      assert cs == cs[..n] + [cs[n]];
      LettersAll(isup, live, cs[..n], from324, now, m);
      var before := ApplyAll(isup, live, cs[..n], from324, now);
      ApplyConcat(isup, live, cs[..n], [cs[n]], from324, now);
      OneApplied(isup, before, cs[n], from324, now);
      LettersStep(isup, before, cs[n], from324, now, m);
      LastMore(cs[..n], cs[n], m, m in live.flags, live.key, live.limit);
      LastMore(cs[..n], cs[n], 'k', 'k' in live.flags, live.key, live.limit);
      LastMore(cs[..n], cs[n], 'l', 'l' in live.flags, live.key, live.limit);
    }
  }

  /** After any MODE text, every plain letter, the key and the limit stand as the last change of them
      asked, or as before; a mode reply tells them all anew. */
  lemma TextLetters(isup: Isupport, live: Live, modes: string, args: string, from324: bool, now: int, m: char)
    ensures var r := ApplyText(isup, live, modes, args, from324, now);
            var cs := Read(Rule(isup), modes, Tokens(args), true);
            && (PlainLetter(isup, m) ==> (m in r.flags <==> LastSet(cs, m, !from324 && m in live.flags)))
            && ('k' in r.flags <==> LastSet(cs, 'k', !from324 && 'k' in live.flags))
            && r.key == LastKey(cs, if from324 then "" else live.key)
            && (ManagedTable(isup) ==>
                  ('l' in r.flags, r.limit) == LastLimit(cs, !from324 && 'l' in live.flags, if from324 then 0 else live.limit))
            && (r.known <==> from324 || live.known)
  {
    LettersAll(isup, if from324 then Reset(live) else live, Read(Rule(isup), modes, Tokens(args), true), from324, now, m);
  }

  // ---- bans ------------------------------------------------------------------------------------

  /** The change sets or lifts this ban. */
  predicate OfBan(c: Change, mask: string) {
    c.letter == 'b' && c.arg.Some? && SameButCase(mask, c.arg.value)
  }

  /** What the last change of this ban asked; else as before. */
  function LastBan(cs: seq<Change>, mask: string, before: bool): bool {
    if cs == [] then before
    else if OfBan(cs[|cs| - 1], mask) then cs[|cs| - 1].adding
    else LastBan(cs[..|cs| - 1], mask, before)
  }

  lemma BanStep(isup: Isupport, live: Live, c: Change, now: int, mask: string)
    requires ListOk(isup, live.bans) && |live.bans| < BanCap(isup) && 0 < |mask| < 256
    ensures var r := ApplyChange(isup, live, c, false, now);
            && ListOk(isup, r.bans) && |r.bans| <= |live.bans| + 1
            && (Listed(r.bans, mask) <==> if OfBan(c, mask) then c.adding else Listed(live.bans, mask))
  {
    hide ListOk, Listed, WithBan, WithoutBan, EqIc, MemberIndex;
    var r := ApplyChange(isup, live, c, false, now);
    ChangeKeeps(isup, live, c, false, now);
    if c.letter == 'b' && c.arg.Some? {
      var m := c.arg.value;
      EqIcExactly(mask, m);
      EqIcExactly(m, mask);
      BanSizes(isup, live, m, now);
      if c.adding {
        BanAddMeans(isup, live, m, now);
        AddedOther(live.bans, WithBan(isup, live, m, now).bans, m, mask, now);
      } else {
        BanDelMeans(isup, live, m, mask);
      }
    } else {
      OtherKeepsBans(isup, live, c, false, now);
    }
  }

  lemma OtherKeepsBans(isup: Isupport, live: Live, c: Change, from324: bool, now: int)
    requires from324 || c.letter != 'b' || c.arg.None?
    ensures ApplyChange(isup, live, c, from324, now).bans == live.bans
  {
  }

  lemma BanSizes(isup: Isupport, live: Live, mask: string, now: int)
    ensures var r := WithBan(isup, live, mask, now).bans;
            r == live.bans || (r == live.bans + [LiveBan(mask, "", now)] && !Listed(live.bans, mask))
    ensures |WithoutBan(live, mask).bans| <= |live.bans|
  {
  }

  /** Adding one mask does not change whether another is listed. */
  lemma AddedOther(bans: seq<LiveBan>, r: seq<LiveBan>, m: string, mask: string, now: int)
    requires r == bans || r == bans + [LiveBan(m, "", now)]
    ensures Listed(bans, mask) ==> Listed(r, mask)
    ensures !EqIc(m, mask) ==> (Listed(r, mask) <==> Listed(bans, mask))
    ensures EqIc(m, mask) && Listed(r, m) ==> Listed(r, mask)
  {
    hide EqIc;
    assert EqIc(m, mask) ==> forall b: LiveBan :: EqIc(b.mask, m) ==> EqIc(b.mask, mask) by {
      SameListed(m, mask);
    }
    if Listed(bans, mask) {
      var i :| 0 <= i < |bans| && EqIc(bans[i].mask, mask);
      assert r[i] == bans[i];
    }
  }

  lemma SameListed(m: string, mask: string)
    ensures EqIc(m, mask) ==> forall b: LiveBan :: EqIc(b.mask, m) ==> EqIc(b.mask, mask)
  {
  }

  lemma {:induction false} BansAll(isup: Isupport, live: Live, cs: seq<Change>, now: int, mask: string)
    requires ListOk(isup, live.bans) && |live.bans| + |cs| <= BanCap(isup) && 0 < |mask| < 256
    ensures var r := ApplyAll(isup, live, cs, false, now);
            && ListOk(isup, r.bans) && |r.bans| <= |live.bans| + |cs|
            && (Listed(r.bans, mask) <==> LastBan(cs, mask, Listed(live.bans, mask)))
    decreases |cs|
  {
    hide ApplyChange, Listed, ListOk, OfBan, BanCap;
    if cs != [] {
      var n := |cs| - 1;
      assert cs == cs[..n] + [cs[n]];
      BansAll(isup, live, cs[..n], now, mask);
      var before := ApplyAll(isup, live, cs[..n], false, now);
      ApplyConcat(isup, live, cs[..n], [cs[n]], false, now);
      OneApplied(isup, before, cs[n], false, now);
      BanStep(isup, before, cs[n], now, mask);
    }
  }

  /** After any MODE text with room for its changes, a ban is listed exactly when the last change of it set
      it, or it was listed and none spoke of it. */
  lemma TextBans(isup: Isupport, live: Live, modes: string, args: string, now: int, mask: string)
    requires ListOk(isup, live.bans) && 0 < |mask| < 256
    requires |live.bans| + |Read(Rule(isup), modes, Tokens(args), true)| <= BanCap(isup)
    ensures Listed(ApplyText(isup, live, modes, args, false, now).bans, mask)
            <==> LastBan(Read(Rule(isup), modes, Tokens(args), true), mask, Listed(live.bans, mask))
  {
    BansAll(isup, live, Read(Rule(isup), modes, Tokens(args), true), now, mask);
  }

  lemma {:induction false} RepliesKeepBans(isup: Isupport, live: Live, cs: seq<Change>, now: int)
    ensures ApplyAll(isup, live, cs, true, now).bans == live.bans
    decreases |cs|
  {
    hide ApplyChange;
    if cs != [] {
      OtherKeepsBans(isup, live, cs[0], true, now);
      RepliesKeepBans(isup, ApplyChange(isup, live, cs[0], true, now), cs[1..], now);
    }
  }

  /** A mode reply tells nothing of bans and changes none. */
  lemma ReplyKeepsBans(isup: Isupport, live: Live, modes: string, args: string, now: int)
    ensures ApplyText(isup, live, modes, args, true, now).bans == live.bans
  {
    RepliesKeepBans(isup, Reset(live), Read(Rule(isup), modes, Tokens(args), true), now);
  }
}
