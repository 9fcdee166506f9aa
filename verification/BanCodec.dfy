/** The body of a B| record: eight fields between bars, the reason free to hold bars itself. */
module BanCodec {
  import opened Text
  import opened Numbers

  const BAN_SETTER_MAX := 63
  const BAN_REASON_MAX := 120
  const B_LINE_MAX := 2 + MAX_CHAN + 1 + BAN_MASK_MAX + 1 + 24 + 8 + BAN_SETTER_MAX + 1 + BAN_REASON_MAX + 40

  /** A network ban; not `active` is the record of its deletion. */
  datatype Ban = Ban(chan: string, mask: string, expires: nat, flags: string, setter: string,
                     reason: string, active: bool, ts: nat)

  // ---- what a field may hold -----------------------------------------------------------

  predicate Control(c: char) {
    c < ' ' || c == 0x7f as char
  }

  predicate PlainText(s: string) {
    forall c :: c in s ==> !Control(c) && c != '|'
  }

  predicate NoControl(s: string) {
    forall c :: c in s ==> !Control(c)
  }

  predicate ValidChanName(s: string) {
    && 2 <= |s| < MAX_CHAN
    && (s[0] == '#' || s[0] == '&')
    && forall c :: c in s ==> c > ' ' && c != 0x7f as char && c != ',' && c != '|'
  }

  predicate ValidTarget(chan: string) {
    chan == "*" || ValidChanName(chan)
  }

  predicate ValidMask(mask: string) {
    mask != "" && |mask| <= BAN_MASK_MAX && PlainText(mask) && ' ' !in mask
  }

  /** A record that may be stored. */
  predicate ValidBan(b: Ban) {
    && ValidTarget(b.chan)
    && ValidMask(b.mask)
    && |b.flags| < 8 && PlainText(b.flags)
    && |b.setter| <= BAN_SETTER_MAX && PlainText(b.setter)
    && |b.reason| <= BAN_REASON_MAX && NoControl(b.reason)
    && b.expires < Pow10(18) && 0 < b.ts < Pow10(18)
  }

  // ---- writing ---------------------------------------------------------------------------

  function OpText(active: bool): string {
    if active then "add" else "del"
  }

  function HeadFields(b: Ban): seq<string> {
    [b.chan, b.mask, Dec(b.expires), b.flags, b.setter, b.reason]
  }

  function Body(b: Ban): string {
    Join(HeadFields(b), '|') + "|" + OpText(b.active) + "|" + Dec(b.ts)
  }

  /** The whole line, unless it is too long for its buffer. */
  function FormatB(b: Ban): Option<string> {
    var line := "B|" + Body(b) + "\n";
    if |line| < B_LINE_MAX + 2 then Some(line) else None
  }

  // ---- reading ---------------------------------------------------------------------------

  /** The last index holding `c`; the length when there is none. */
  function RFind(s: string, c: char): (r: nat)
    ensures r <= |s|
    ensures r < |s| ==> s[r] == c
    ensures forall i :: r < i < |s| ==> s[i] != c
    ensures r == |s| <==> c !in s
  {
    if s == "" then 0
    else
      var n := |s| - 1;
      assert s == s[..n] + [s[n]];
      if s[n] == c then n
      else
        var r := RFind(s[..n], c);
        if r == n then |s| else r
  }

  /** At most `max` fields; the last takes the rest. */
  function SplitN(s: string, sep: char, max: nat): (r: seq<string>)
    requires max >= 1
    ensures 1 <= |r| <= max
  {
    var i := Find(s, sep);
    if max == 1 || i == |s| then [s] else [s[..i]] + SplitN(s[i + 1..], sep, max - 1)
  }

  function AddOp(s: string): Option<bool> {
    if s == "add" then Some(true) else if s == "del" then Some(false) else None
  }

  /** The fields of the head, checked, with the op and stamp that follow it. */
  function Checked(f: seq<string>, op: string, stamp: string): Option<Ban> {
    if |f| < 6 then None
    else
      match (AddOp(op), ParseLL(stamp), ParseLL(f[2]))
      case (Some(add), Some(ts), Some(expires)) =>
        var b := Ban(f[0], f[1], expires, f[3], f[4], f[5], add, ts);
        if ts > 0 && ValidTarget(b.chan) && ValidMask(b.mask) && |b.flags| < 8 && PlainText(b.flags)
           && |b.setter| <= BAN_SETTER_MAX && PlainText(b.setter)
           && |b.reason| <= BAN_REASON_MAX && NoControl(b.reason)
        then Some(b) else None
      case _ => None
  }

  /** The head, the op and the stamp: the last two fields are cut off from the end. */
  function Cut(data: string): Option<(string, string, string)> {
    var last := RFind(data, '|');
    if last == |data| || last == 0 then None
    else
      var prev := RFind(data[..last], '|');
      if prev == last then None else Some((data[..prev], data[prev + 1..last], data[last + 1..]))
  }

  /** The first five fields are split off the head; what remains is the reason, whole. */
  function ParseB(data: string): Option<Ban> {
    if |data| > B_LINE_MAX then None
    else
      match Cut(data)
      case None => None
      case Some((head, op, stamp)) => Checked(SplitN(head, '|', 6), op, stamp)
  }

  method ParseLine(data: string) returns (r: Option<Ban>)
    ensures r == ParseB(data)
  {
    if |data| > B_LINE_MAX {
      return None;
    }
    var last := RFind(data, '|');
    if last == |data| || last == 0 {
      return None;
    }
    var prev: nat := last - 1;
    while prev > 0 && data[prev] != '|'
      invariant prev < last < |data|
      invariant forall i :: prev < i < last ==> data[i] != '|'
    {
      prev := prev - 1;
    }
    LastBar(data[..last], prev);
    if data[prev] != '|' {
      return None;
    }
    r := Checked(SplitN(data[..prev], '|', 6), data[prev + 1..last], data[last + 1..]);
  }

  lemma LastBar(s: string, at: nat)
    requires at < |s| && (at == 0 || s[at] == '|')
    requires forall i :: at < i < |s| ==> s[i] != '|'
    ensures RFind(s, '|') == if s[at] == '|' then at else |s|
  {
  }

  // ---- the round trip ----------------------------------------------------------------------

  lemma {:induction false} RFindAfter(a: string, c: char, b: string)
    requires c !in b
    ensures RFind(a + [c] + b, c) == |a|
  {
    var s := a + [c] + b;
    var r := RFind(s, c);
    assert s[|a|] == c;
    assert forall i :: |a| < i < |s| ==> s[i] in b;
  }

  lemma SplitNStep(a: string, sep: char, rest: string, max: nat)
    requires sep !in a && max >= 2
    ensures SplitN(a + [sep] + rest, sep, max) == [a] + SplitN(rest, sep, max - 1)
  {
    var s := a + [sep] + rest;
    assert s == a + ([sep] + rest);
    FindAfter(a, sep, [sep] + rest);
    assert s[..|a|] == a && s[|a| + 1..] == rest;
  }

  lemma JoinOne(s: string, sep: char)
    ensures Join([s], sep) == s
  {
  }

  lemma JoinOnto(s: string, fields: seq<string>, sep: char)
    requires fields != []
    ensures Join([s] + fields, sep) == s + [sep] + Join(fields, sep)
  {
    assert ([s] + fields)[1..] == fields;
  }

  /** Splitting off fields that hold no separator; the last of as many as there may be can hold some. */
  lemma {:induction false} SplitNMore(fields: seq<string>, sep: char, max: nat)
    requires 1 <= |fields| <= max
    requires forall i :: 0 <= i < |fields| && i < max - 1 ==> sep !in fields[i]
    ensures SplitN(Join(fields, sep), sep, max) == fields
  {
    hide SplitN, Join;
    if |fields| == 1 {
      JoinOne(fields[0], sep);
      assert fields == [fields[0]];
      SplitNOne(fields[0], sep, max);
    } else {
      var rest := fields[1..];
      forall i | 0 <= i < |rest| && i < max - 2 ensures sep !in rest[i] {
        assert rest[i] == fields[i + 1];
      }
      SplitNMore(rest, sep, max - 1);
      JoinOnto(fields[0], rest, sep);
      assert [fields[0]] + rest == fields;
      SplitNStep(fields[0], sep, Join(rest, sep), max);
    }
  }

  lemma SplitNOne(s: string, sep: char, max: nat)
    requires max == 1 || (max > 1 && sep !in s)
    ensures SplitN(s, sep, max) == [s]
  {
  }

  lemma DigitsPlain(n: nat)
    ensures PlainText(Dec(n))
  {
  }

  lemma HeadSplits(b: Ban)
    requires ValidBan(b)
    ensures SplitN(Join(HeadFields(b), '|'), '|', 6) == HeadFields(b)
  {
    DigitsPlain(b.expires);
    SplitNMore(HeadFields(b), '|', 6);
  }

  lemma BodyFits(b: Ban)
    requires ValidBan(b)
    ensures |Body(b)| <= 420 && FormatB(b).Some?
  {
    DecLength(b.expires, 18);
    DecLength(b.ts, 18);
    var f := HeadFields(b);
    assert |Join(f, '|')| == |f[0]| + |f[1]| + |f[2]| + |f[3]| + |f[4]| + |f[5]| + 5 by {
      JoinSix(f);
    }
  }

  lemma JoinSix(f: seq<string>)
    requires |f| == 6
    ensures |Join(f, '|')| == |f[0]| + |f[1]| + |f[2]| + |f[3]| + |f[4]| + |f[5]| + 5
  {
    assert |Join(f[4..], '|')| == |f[4]| + 1 + |f[5]|;
    assert f[3..][1..] == f[4..] && f[2..][1..] == f[3..] && f[1..][1..] == f[2..];
    assert |Join(f[2..], '|')| == |f[2]| + 1 + |f[3]| + 1 + |Join(f[4..], '|')|;
  }

  /** Where the two ends of a body are cut. */
  lemma Ends(head: string, op: string, stamp: string)
    requires '|' !in op && '|' !in stamp
    ensures Cut(head + "|" + op + "|" + stamp) == Some((head, op, stamp))
  {
    var data := head + "|" + op + "|" + stamp;
    var last := |head| + 1 + |op|;
    RFindAfter(head + "|" + op, '|', stamp);
    assert data[..last] == head + "|" + op;
    RFindAfter(head, '|', op);
    assert data[..|head|] == head && data[|head| + 1..last] == op && data[last + 1..] == stamp;
  }

  lemma CheckedIs(b: Ban)
    requires ValidBan(b)
    ensures Checked(HeadFields(b), OpText(b.active), Dec(b.ts)) == Some(b)
  {
    ParseDec(b.ts);
    ParseDec(b.expires);
  }

  /** A valid record, written and read back, is itself: a reason with bars in it included. */
  lemma RoundTrip(b: Ban)
    requires ValidBan(b)
    ensures FormatB(b).Some?
    ensures ParseB(Body(b)) == Some(b)
  {
    BodyFits(b);
    HeadSplits(b);
    DigitsPlain(b.ts);
    Ends(Join(HeadFields(b), '|'), OpText(b.active), Dec(b.ts));
    CheckedIs(b);
  }

  lemma CheckedIsValid(f: seq<string>, op: string, stamp: string)
    requires Checked(f, op, stamp).Some?
    ensures ValidBan(Checked(f, op, stamp).value)
  {
    ParsedBound(stamp);
    ParsedBound(f[2]);
  }

  /** What is read is valid, whatever came in; so writing it and reading that changes nothing. */
  lemma ParsedIsValid(data: string)
    requires ParseB(data).Some?
    ensures ValidBan(ParseB(data).value)
    ensures ParseB(Body(ParseB(data).value)) == ParseB(data)
  {
    var cut := Cut(data).value;
    CheckedIsValid(SplitN(cut.0, '|', 6), cut.1, cut.2);
    RoundTrip(ParseB(data).value);
  }

  // ---- the text of a record ----------------------------------------------------------------

  /** The line, field by field. */
  lemma LineIs(b: Ban)
    requires ValidBan(b)
    ensures FormatB(b)
            == Some("B|" + b.chan + "|" + b.mask + "|" + Dec(b.expires) + "|" + b.flags + "|" + b.setter + "|" + b.reason + "|"
                    + (if b.active then "add" else "del") + "|" + Dec(b.ts) + "\n")
  {
    BodyFits(b);
    JoinedSix(b.chan, b.mask, Dec(b.expires), b.flags, b.setter, b.reason);
    var head := b.chan + "|" + b.mask + "|" + Dec(b.expires) + "|" + b.flags + "|" + b.setter + "|" + b.reason;
    assert Join(HeadFields(b), '|') == head;
    HeadMore(b.chan, b.mask, Dec(b.expires), b.flags, b.setter, b.reason);
    LineMore(head, OpText(b.active), Dec(b.ts));
  }

  lemma LineMore(head: string, op: string, ts: string)
    ensures "B|" + (head + "|" + op + "|" + ts) + "\n" == "B|" + head + "|" + op + "|" + ts + "\n"
  {
  }

  lemma HeadMore(a: string, b: string, c: string, d: string, e: string, f: string)
    ensures "B|" + (a + "|" + b + "|" + c + "|" + d + "|" + e + "|" + f)
            == "B|" + a + "|" + b + "|" + c + "|" + d + "|" + e + "|" + f
  {
  }

  lemma JoinedSix(a: string, b: string, c: string, d: string, e: string, f: string)
    ensures Join([a, b, c, d, e, f], '|') == a + "|" + b + "|" + c + "|" + d + "|" + e + "|" + f
  {
    var g := [a, b, c, d, e, f];
    assert g[5..] == [f] && g[4..][1..] == g[5..] && g[3..][1..] == g[4..] && g[2..][1..] == g[3..] && g[1..][1..] == g[2..];
    assert Join(g[4..], '|') == e + ['|'] + f;
    assert Join(g[3..], '|') == d + ['|'] + Join(g[4..], '|');
    assert Join(g[2..], '|') == c + ['|'] + Join(g[3..], '|');
    assert Join(g[1..], '|') == b + ['|'] + Join(g[2..], '|');
    assert Join(g, '|') == a + ['|'] + Join(g[1..], '|');
  }

  /** The text of a record, its numbers spelled in any way. */
  ghost predicate Spells(data: string, b: Ban) {
    exists e, t ::
      && Denotes(e, b.expires) && Denotes(t, b.ts)
      && data == Join([b.chan, b.mask, e, b.flags, b.setter, b.reason], '|') + "|" + OpText(b.active) + "|" + t
  }

  lemma SpelledReads(data: string, b: Ban)
    requires ValidBan(b) && Spells(data, b)
    ensures ParseB(data) == Some(b)
  {
    hide SplitN, Cut, Join, Find, Denotes, Checked;
    var e, t :|
      && Denotes(e, b.expires) && Denotes(t, b.ts)
      && data == Join([b.chan, b.mask, e, b.flags, b.setter, b.reason], '|') + "|" + OpText(b.active) + "|" + t;
    var f := [b.chan, b.mask, e, b.flags, b.setter, b.reason];
    DigitsHaveNoBar(e, b.expires);
    DigitsHaveNoBar(t, b.ts);
    FieldsHaveNoBar(b);
    SplitNMore(f, '|', 6);
    Ends(Join(f, '|'), OpText(b.active), t);
    JoinSix(f);
    CheckedOf(b, e, t);
  }

  lemma FieldsHaveNoBar(b: Ban)
    requires ValidBan(b)
    ensures '|' !in b.chan && '|' !in b.mask && '|' !in b.flags && '|' !in b.setter && '|' !in OpText(b.active)
    ensures |b.chan| < MAX_CHAN
  {
  }

  lemma CheckedOf(b: Ban, e: string, t: string)
    requires ValidBan(b) && Denotes(e, b.expires) && Denotes(t, b.ts)
    ensures Checked([b.chan, b.mask, e, b.flags, b.setter, b.reason], OpText(b.active), t) == Some(b)
  {
    hide Digits, Val;
  }

  lemma DigitsHaveNoBar(s: string, n: int)
    requires Denotes(s, n)
    ensures '|' !in s && |s| <= 18
  {
  }

  lemma {:induction false} SplitNJoins(s: string, sep: char, max: nat)
    requires max >= 1
    ensures Join(SplitN(s, sep, max), sep) == s
  {
    hide Find, Join;
    var i := Find(s, sep);
    if max > 1 && i < |s| {
      SplitNJoins(s[i + 1..], sep, max - 1);
      JoinOnto(s[..i], SplitN(s[i + 1..], sep, max - 1), sep);
      assert s == s[..i] + [sep] + s[i + 1..];
    } else {
      JoinOne(s, sep);
    }
  }

  lemma CutJoins(data: string)
    requires Cut(data).Some?
    ensures var (head, op, stamp) := Cut(data).value; data == head + "|" + op + "|" + stamp
  {
    var last := RFind(data, '|');
    var prev := RFind(data[..last], '|');
    assert data[..last] == data[..prev] + "|" + data[prev + 1..last];
    assert data == data[..last] + "|" + data[last + 1..];
  }

  lemma ReadIsSpelled(data: string, b: Ban)
    requires ParseB(data) == Some(b)
    ensures ValidBan(b) && Spells(data, b)
  {
    hide SplitN, Cut, Join, Find, ValidBan, Checked;
    ParsedIsValid(data);
    CutJoins(data);
    var (head, op, stamp) := Cut(data).value;
    SplitNJoins(head, '|', 6);
    var f := SplitN(head, '|', 6);
    CheckedFields(f, op, stamp, b);
    assert f == [b.chan, b.mask, f[2], b.flags, b.setter, b.reason];
  }

  lemma CheckedFields(f: seq<string>, op: string, stamp: string, b: Ban)
    requires |f| <= 6 && Checked(f, op, stamp) == Some(b)
    ensures |f| == 6 && f[0] == b.chan && f[1] == b.mask && f[3] == b.flags && f[4] == b.setter && f[5] == b.reason
    ensures Denotes(f[2], b.expires) && Denotes(stamp, b.ts) && op == OpText(b.active)
  {
    hide Digits, Val;
  }

  /** What is read is exactly the texts of valid records. */
  lemma ReadsExactly(data: string, b: Ban)
    ensures ParseB(data) == Some(b) <==> ValidBan(b) && Spells(data, b)
  {
    if ParseB(data) == Some(b) {
      ReadIsSpelled(data, b);
    } else if ValidBan(b) && Spells(data, b) {
      SpelledReads(data, b);
    }
  }

  /** What a record may hold, by the sizes of its fields. */
  lemma ValidExactly(b: Ban)
    ensures ValidBan(b)
            <==> && (b.chan == "*" || (2 <= |b.chan| <= 64 && (b.chan[0] == '#' || b.chan[0] == '&')
                                       && forall c :: c in b.chan ==> c > ' ' && c != 0x7f as char && c != ',' && c != '|'))
                 && 1 <= |b.mask| <= 120 && (forall c :: c in b.mask ==> c > ' ' && c != 0x7f as char && c != '|')
                 && |b.flags| <= 7 && |b.setter| <= 63 && |b.reason| <= 120
                 && (forall c :: c in b.flags + b.setter ==> c >= ' ' && c != 0x7f as char && c != '|')
                 && (forall c :: c in b.reason ==> c >= ' ' && c != 0x7f as char)
                 && b.expires < Pow10(18) && 0 < b.ts < Pow10(18)
  {
    assert forall c :: c in b.flags + b.setter <==> c in b.flags || c in b.setter;
  }
}
