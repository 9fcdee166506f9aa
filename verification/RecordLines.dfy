/** Which texts are records of the network defaults and of channels, and of which. */
module RecordLines {
  import opened Text
  import opened Numbers
  import opened BanCodec
  import opened Replicated

  /** Visible ASCII and spaces, at most 64 bytes, no bar. */
  predicate ModesOk(s: string) {
    |s| <= 64 && forall c :: c in s ==> ' ' <= c <= '~' && c != '|'
  }

  /** At most 512 bytes, no control byte, no bar. */
  predicate SettingsOk(s: string) {
    |s| <= 512 && forall c :: c in s ==> c >= ' ' && c != 0x7f as char && c != '|'
  }

  predicate NameOk(s: string) {
    && 2 <= |s| <= 64 && (s[0] == '#' || s[0] == '&')
    && forall c :: c in s ==> c > ' ' && c != 0x7f as char && c != ',' && c != '|'
  }

  // ---- the network defaults ----------------------------------------------------------------

  ghost predicate SpellsNet(data: string, r: NetRec) {
    exists t :: Denotes(t, r.ts) && data == Join([r.modes, r.settings, t], '|')
  }

  predicate NetOk(r: NetRec) {
    ModesOk(r.modes) && SettingsOk(r.settings) && r.ts > 0
  }

  lemma FieldsOk(modes: string, settings: string)
    ensures ModesOk(modes) <==> ValidModesField(modes)
    ensures SettingsOk(settings) <==> |settings| <= SETTINGS_MAX && PlainText(settings)
    ensures ModesOk(modes) ==> '|' !in modes && |modes| <= 64
    ensures SettingsOk(settings) ==> '|' !in settings && |settings| <= 512
  {
  }

  lemma NetSpelledReads(data: string, r: NetRec)
    requires NetOk(r) && SpellsNet(data, r)
    ensures ParseD(data) == Some(r)
  {
    hide SplitN, Join, Find, ModesOk, SettingsOk, ValidModesField, PlainText, Digits, Val;
    var t :| Denotes(t, r.ts) && data == Join([r.modes, r.settings, t], '|');
    FieldsOk(r.modes, r.settings);
    DigitsHaveNoBar(t, r.ts);
    var f := [r.modes, r.settings, t];
    SplitNMore(f, '|', 3);
    JoinedThree(r.modes, r.settings, t);
  }

  lemma JoinedThree(a: string, b: string, c: string)
    ensures Join([a, b, c], '|') == a + "|" + b + "|" + c
  {
    JoinOne(c, '|');
    JoinOnto(b, [c], '|');
    JoinOnto(a, [b, c], '|');
    assert [a] + [b, c] == [a, b, c] && [b] + [c] == [b, c];
  }

  lemma NetReadIsSpelled(data: string, r: NetRec)
    requires ParseD(data) == Some(r)
    ensures NetOk(r) && SpellsNet(data, r)
  {
    hide SplitN, Join, Find, ModesOk, SettingsOk, ValidModesField, PlainText, Digits, Val;
    FieldsOk(r.modes, r.settings);
    SplitNJoins(data, '|', 3);
    var f := SplitN(data, '|', 3);
    assert f == [r.modes, r.settings, f[2]];
    assert Denotes(f[2], r.ts);
  }

  /** The body of a D| line is read as a record exactly when it is modes, settings and stamp between bars. */
  lemma NetReadsExactly(data: string, r: NetRec)
    ensures ParseD(data) == Some(r) <==> NetOk(r) && SpellsNet(data, r)
  {
    if ParseD(data) == Some(r) {
      NetReadIsSpelled(data, r);
    } else if NetOk(r) && SpellsNet(data, r) {
      NetSpelledReads(data, r);
    }
  }

  // ---- channels ----------------------------------------------------------------------------

  /** The five fields, and perhaps more after a bar, which is not looked at. */
  ghost predicate SpellsChan(data: string, chan: string, r: ChanRec) {
    |data| <= 669 &&
    exists t, more: seq<string> ::
      |more| <= 1 && Denotes(t, r.ts)
      && data == Join([chan, r.modes, r.settings, if r.active then "add" else "del", t] + more, '|')
  }

  predicate ChanOk(chan: string, r: ChanRec) {
    NameOk(chan) && ModesOk(r.modes) && SettingsOk(r.settings) && r.ts > 0
  }

  lemma NameFields(chan: string)
    ensures NameOk(chan) <==> ValidChanName(chan)
    ensures NameOk(chan) ==> '|' !in chan
  {
  }

  lemma ChanSpelledReads(data: string, chan: string, r: ChanRec)
    requires ChanOk(chan, r) && SpellsChan(data, chan, r)
    ensures ParseC(data) == Some((chan, r))
  {
    hide SplitN, Join, Find, ModesOk, SettingsOk, NameOk, ValidModesField, PlainText, ValidChanName, Digits, Val;
    var t, more: seq<string> :|
      |more| <= 1 && Denotes(t, r.ts)
      && data == Join([chan, r.modes, r.settings, if r.active then "add" else "del", t] + more, '|');
    FieldsOk(r.modes, r.settings);
    NameFields(chan);
    DigitsHaveNoBar(t, r.ts);
    SplitNMore([chan, r.modes, r.settings, if r.active then "add" else "del", t] + more, '|', 6);
  }

  lemma ChanReadIsSpelled(data: string, chan: string, r: ChanRec)
    requires ParseC(data) == Some((chan, r))
    ensures ChanOk(chan, r) && SpellsChan(data, chan, r)
  {
    hide SplitN, Join, Find, ModesOk, SettingsOk, NameOk, ValidModesField, PlainText, ValidChanName, Digits, Val;
    FieldsOk(r.modes, r.settings);
    NameFields(chan);
    SplitNJoins(data, '|', 6);
    var f := SplitN(data, '|', 6);
    assert f == [chan, r.modes, r.settings, if r.active then "add" else "del", f[4]] + f[5..];
    assert Denotes(f[4], r.ts);
  }

  /** The body of a C| line is read as a channel's record exactly when it is channel, modes, settings, op
      and stamp between bars. */
  lemma ChanReadsExactly(data: string, chan: string, r: ChanRec)
    ensures ParseC(data) == Some((chan, r)) <==> ChanOk(chan, r) && SpellsChan(data, chan, r)
  {
    if ParseC(data) == Some((chan, r)) {
      ChanReadIsSpelled(data, chan, r);
    } else if ChanOk(chan, r) && SpellsChan(data, chan, r) {
      ChanSpelledReads(data, chan, r);
    }
  }
}
