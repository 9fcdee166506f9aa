/** The settings fields the bot holds: each comes from a record line, and no line brings one
    that is over the limit. */
module StoredSettings {
  import opened Text
  import opened Numbers
  import opened BanCodec
  import opened Replicated
  import opened Settings

  const NO_DEFAULTS := NetRec(0, "", "")

  /** The network's field after these lines; a local change is one of them. */
  function NetField(lines: seq<string>): string {
    FoldD(NO_DEFAULTS, lines).settings
  }

  /** A channel's field after these lines. */
  function ChanField(name: string, lines: seq<string>): string {
    FoldChanLines(name, None, lines).GetOr(NO_RECORD).settings
  }

  lemma {:induction false} NetFits(lines: seq<string>)
    ensures |NetField(lines)| <= SETTINGS_MAX
  {
    if lines != [] {
      NetFits(lines[..|lines| - 1]);
    }
  }

  lemma {:induction false} ChanFits(name: string, lines: seq<string>)
    ensures |ChanField(name, lines)| <= SETTINGS_MAX
  {
    hide EqIc, ValidChanName, ValidModesField, PlainText;
    if lines != [] {
      ChanFits(name, lines[..|lines| - 1]);
      var before, data := FoldChanLines(name, None, lines[..|lines| - 1]), lines[|lines| - 1];
      assert FoldChanLines(name, None, lines) == ApplyChanLine(name, before, data);
    }
  }

  /** What an accepted edit makes of a field that is not over the limit: the item reads as the
      value asked for or is absent, and all else reads as it did. */
  lemma FittingEdit(items: Table, field: string, cap: nat, net: bool, name: string, value: string)
    requires WellFormed(items) && |field| <= SETTINGS_MAX
    requires Edit(items, field, cap, net, name, value).Ok?
    ensures ItemIndex(items, name, net).Some?
    ensures Wanted(items[ItemIndex(items, name, net).value], value).Some?
    ensures var i := ItemIndex(items, name, net).value;
            Parse(items, Edit(items, field, cap, net, name, value).text, net)
            == With(items, Parse(items, field, net), i, Wanted(items[i], value).value)
  {
    EditMeans(items, field, cap, net, name, value);
  }

  /** On every field of the network defaults the bot can hold, whatever lines it took. */
  lemma NetEditIsExact(items: Table, lines: seq<string>, cap: nat, name: string, value: string)
    requires WellFormed(items) && Edit(items, NetField(lines), cap, true, name, value).Ok?
    ensures ItemIndex(items, name, true).Some?
    ensures Wanted(items[ItemIndex(items, name, true).value], value).Some?
    ensures var i := ItemIndex(items, name, true).value;
            Parse(items, Edit(items, NetField(lines), cap, true, name, value).text, true)
            == With(items, Parse(items, NetField(lines), true), i, Wanted(items[i], value).value)
  {
    NetFits(lines);
    FittingEdit(items, NetField(lines), cap, true, name, value);
  }

  /** And on every field of a channel. */
  lemma ChanEditIsExact(items: Table, chan: string, lines: seq<string>, cap: nat, name: string, value: string)
    requires WellFormed(items) && Edit(items, ChanField(chan, lines), cap, false, name, value).Ok?
    ensures ItemIndex(items, name, false).Some?
    ensures Wanted(items[ItemIndex(items, name, false).value], value).Some?
    ensures var i := ItemIndex(items, name, false).value;
            Parse(items, Edit(items, ChanField(chan, lines), cap, false, name, value).text, false)
            == With(items, Parse(items, ChanField(chan, lines), false), i, Wanted(items[i], value).value)
  {
    ChanFits(chan, lines);
    FittingEdit(items, ChanField(chan, lines), cap, false, name, value);
  }
}
