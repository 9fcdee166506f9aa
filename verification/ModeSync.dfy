/** What the changes of a sync do to the live modes they were computed from. */
module ModeSync {
  import opened Text
  import opened Numbers
  import opened ModeLines
  import opened LiveModes

  /** The server's table gives the managed letters the arguments RFC 2812 does. */
  ghost predicate ManagedTable(isup: Isupport) {
    forall m: char, adding: bool :: IsManaged(m) ==>
      !IsPrefixMode(isup, m) && (HasArg(isup, m, adding) <==> m == 'k' || (m == 'l' && adding))
  }

  lemma DefaultTable(isup: Isupport)
    requires isup == DEFAULT_ISUPPORT
    ensures ManagedTable(isup)
  {
    assert isup.prefixModes == ['o', 'v'] && isup.cmA == ['b', 'e', 'I'] && isup.cmB == ['k'] && isup.cmC == ['l'];
    forall m: char | IsManaged(m)
      ensures !IsPrefixMode(isup, m) && (m in isup.cmB <==> m == 'k') && (m in isup.cmC <==> m == 'l') && m !in isup.cmA
    {
    }
  }

  // ---- one phase at a time -------------------------------------------------------

  /** `r` is `s` but for the flags of `letters`, and those stand as wanted. */
  ghost predicate FlagsSet(s: Live, r: Live, dirs: Dirs, letters: string) {
    && r == s.(flags := r.flags)
    && (forall m :: m in letters ==> (m in r.flags <==> if m in dirs then dirs[m] else m in s.flags))
    && (forall m :: m !in letters ==> (m in r.flags <==> m in s.flags))
  }

  predicate Distinct(letters: string) {
    forall i, j :: 0 <= i < j < |letters| ==> letters[i] != letters[j]
  }

  lemma {:induction false} FlagPhase(isup: Isupport, live: Live, s: Live, dirs: Dirs, letters: string, now: int)
    requires ManagedTable(isup) && live.known && Distinct(letters)
    requires forall i :: 0 <= i < |letters| ==> IsFlagLetter(letters[i])
    requires forall m :: m in letters ==> (m in s.flags <==> m in live.flags)
    ensures FlagsSet(s, ApplyAll(isup, s, FlagChanges(dirs, live, letters), false, now), dirs, letters)
    decreases |letters|
  {
    if letters != "" {
      var p, rest := letters[0], letters[1..];
      var c := FlagChange(dirs, live, p);
      var s' := ApplyAll(isup, s, c, false, now);
      assert p in letters && IsManaged(p);
      if c != [] {
        assert c == [c[0]] && !HasArg(isup, p, c[0].adding);
        OneChange(isup, s, c[0], now);
      }
      assert FlagsSet(s, s', dirs, [p]);
      ApplyConcat(isup, s, c, FlagChanges(dirs, live, rest), false, now);
      assert p !in rest && letters == [p] + rest;
      FlagPhase(isup, live, s', dirs, rest, now);
    }
  }

  /** The key is hidden: the server shows `*` or nothing for it. */
  predicate HiddenKey(live: Live) {
    'k' in live.flags && !VisibleKey(live)
  }

  ghost predicate KeySet(s: Live, r: Live, dirs: Dirs, key: string) {
    && r == s.(flags := r.flags, key := r.key)
    && (forall m :: m != 'k' ==> (m in r.flags <==> m in s.flags))
    && (Wants(dirs, 'k', true) && SendableKey(key) ==> 'k' in r.flags && r.key == key)
    && (Wants(dirs, 'k', true) && !SendableKey(key) ==> r == s)
    && (Wants(dirs, 'k', false) ==> ('k' in r.flags <==> HiddenKey(s)) && (HiddenKey(s) ==> r == s))
    && ('k' !in dirs ==> r == s)
  }

  lemma KeyPhase(isup: Isupport, live: Live, s: Live, dirs: Dirs, key: string, now: int)
    requires ManagedTable(isup) && live.known && |key| < MAX_KEY
    requires live.key == s.key && ('k' in live.flags <==> 'k' in s.flags)
    ensures KeySet(s, ApplyAll(isup, s, KeyChanges(dirs, live, key), false, now), dirs, key)
  {
    var cs := KeyChanges(dirs, live, key);
    assert IsManaged('k') && HasArg(isup, 'k', true) && HasArg(isup, 'k', false);
    if |cs| == 2 {
      assert cs == [cs[0]] + [cs[1]];
      ApplyConcat(isup, s, [cs[0]], [cs[1]], false, now);
      OneChange(isup, s, cs[0], now);
      OneChange(isup, ApplyChange(isup, s, cs[0], false, now), cs[1], now);
    } else if |cs| == 1 {
      assert cs == [cs[0]];
      OneChange(isup, s, cs[0], now);
    }
  }

  lemma OneChange(isup: Isupport, s: Live, c: Change, now: int)
    ensures ApplyAll(isup, s, [c], false, now) == ApplyChange(isup, s, c, false, now)
  {
    assert [c][1..] == [];
  }

  ghost predicate LimitSet(s: Live, r: Live, w: Wanted) {
    && r == s.(flags := r.flags, limit := r.limit)
    && (forall m :: m != 'l' ==> (m in r.flags <==> m in s.flags))
    && (Wants(w.dirs, 'l', true) ==> 'l' in r.flags && r.limit == w.limit)
    && (Wants(w.dirs, 'l', false) ==> 'l' !in r.flags)
    && ('l' !in w.dirs ==> r == s)
  }

  lemma LimitPhase(isup: Isupport, live: Live, s: Live, w: Wanted, now: int)
    requires ManagedTable(isup) && live.known && w.limit <= LIMIT_MAX
    requires live.limit == s.limit && ('l' in live.flags <==> 'l' in s.flags)
    ensures LimitSet(s, ApplyAll(isup, s, LimitChanges(w, live, false), false, now), w)
  {
    var cs := LimitChanges(w, live, false);
    assert IsManaged('l') && HasArg(isup, 'l', true) && !HasArg(isup, 'l', false);
    DecRoundTrip(w.limit);
    LimitDigits(w.limit);
    if |cs| == 1 {
      assert cs == [cs[0]];
      OneChange(isup, s, cs[0], now);
    }
  }

  lemma LimitDigits(n: nat)
    requires n <= LIMIT_MAX
    ensures ShortDigits(Dec(n)) && |Dec(n)| <= 5
  {
    assert Pow10(5) == 10 * Pow10(4) == 100 * Pow10(3) == 1000 * Pow10(2) == 10000 * Pow10(1) == 100000;
    DecLength(n, 5);
  }

  // ---- the whole sync --------------------------------------------------------------

  /** Everything the stored modes ask for holds in `r`, and nothing else moved. */
  ghost predicate Reached(live: Live, r: Live, w: Wanted, key: string) {
    && (forall m :: IsFlagLetter(m) ==> (m in r.flags <==> if m in w.dirs then w.dirs[m] else m in live.flags))
    && (Wants(w.dirs, 'k', true) && SendableKey(key) ==> 'k' in r.flags && r.key == key)
    && (Wants(w.dirs, 'k', false) ==> ('k' in r.flags <==> HiddenKey(live)))
    && (Wants(w.dirs, 'k', false) && HiddenKey(live) ==> r.key == live.key)
    && ('k' !in w.dirs || (Wants(w.dirs, 'k', true) && !SendableKey(key)) ==>
          ('k' in r.flags <==> 'k' in live.flags) && r.key == live.key)
    && (Wants(w.dirs, 'l', true) ==> 'l' in r.flags && r.limit == w.limit)
    && (Wants(w.dirs, 'l', false) ==> 'l' !in r.flags)
    && ('l' !in w.dirs ==> ('l' in r.flags <==> 'l' in live.flags) && r.limit == live.limit)
    && (forall m :: !IsManaged(m) ==> (m in r.flags <==> m in live.flags))
    && r.known == live.known && r.bans == live.bans && r.overflow == live.overflow && r.roster == live.roster
  }

  lemma FlagLettersAre()
    ensures Distinct(FLAG_LETTERS)
    ensures forall i :: 0 <= i < |FLAG_LETTERS| ==> IsFlagLetter(FLAG_LETTERS[i])
    ensures forall m :: m in FLAG_LETTERS <==> IsFlagLetter(m)
  {
    assert FLAG_LETTERS[0] == 'i' && FLAG_LETTERS[1] == 'm' && FLAG_LETTERS[2] == 'n'
           && FLAG_LETTERS[3] == 'p' && FLAG_LETTERS[4] == 's' && FLAG_LETTERS[5] == 't';
  }

  /** Applying the planned changes to a live picture that is known brings the channel to
      the stored modes; a key the server hides is the one thing that is not taken off. */
  lemma SyncReaches(isup: Isupport, live: Live, w: Wanted, key: string, now: int)
    requires ManagedTable(isup) && live.known && |key| < MAX_KEY && w.limit <= LIMIT_MAX
    ensures var cs := FlagChanges(w.dirs, live, FLAG_LETTERS) + KeyChanges(w.dirs, live, key) + LimitChanges(w, live, false);
            Reached(live, ApplyAll(isup, live, cs, false, now), w, key)
  {
    var f, k, l := FlagChanges(w.dirs, live, FLAG_LETTERS), KeyChanges(w.dirs, live, key), LimitChanges(w, live, false);
    FlagLettersAre();
    FlagPhase(isup, live, live, w.dirs, FLAG_LETTERS, now);
    var s1 := ApplyAll(isup, live, f, false, now);
    KeyPhase(isup, live, s1, w.dirs, key, now);
    var s2 := ApplyAll(isup, s1, k, false, now);
    LimitPhase(isup, live, s2, w, now);
    ApplyConcat(isup, live, f, k, false, now);
    ApplyConcat(isup, live, f + k, l, false, now);
  }

  lemma {:induction false} NoFlagChange(dirs: Dirs, r: Live, letters: string)
    requires r.known && forall m :: m in letters && m in dirs ==> (m in r.flags <==> dirs[m])
    ensures FlagChanges(dirs, r, letters) == []
  {
    if letters != "" {
      assert letters[0] in letters && forall m :: m in letters[1..] ==> m in letters;
      NoFlagChange(dirs, r, letters[1..]);
    }
  }

  /** A second sync has nothing to send. */
  lemma SyncFixpoint(live: Live, r: Live, spec: string, key: string, requireKnown: bool)
    requires live.known && ReadStored(spec).Some? && Reached(live, r, ReadStored(spec).value, key)
    ensures SyncPlan(spec, key, r, false, requireKnown) == Some([])
  {
    var w := ReadStored(spec).value;
    FlagLettersAre();
    NoFlagChange(w.dirs, r, FLAG_LETTERS);
    assert KeyChanges(w.dirs, r, key) == [];
    assert LimitChanges(w, r, false) == [];
  }
}
