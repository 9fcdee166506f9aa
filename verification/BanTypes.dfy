/** What the ban mask of each type hits, no more and no less. */
module BanTypes {
  import opened Text
  import opened Glob
  import opened BanMasks
  import opened BanSafety

  // ---- the network of a host ---------------------------------------------------------

  predicate StartsWith(s: string, head: string) {
    |head| <= |s| && SameButCase(s[..|head|], head)
  }

  predicate EndsWith(s: string, tail: string) {
    |tail| <= |s| && SameButCase(s[|s| - |tail|..], tail)
  }

  /** An IPv6 address with its first four groups spelled out; `net` is those. */
  ghost predicate V6Net(host: string, net: string) {
    exists a, b, c, d, rest ::
      && host == a + ":" + b + ":" + c + ":" + d + ":" + rest && net == a + ":" + b + ":" + c + ":" + d + ":"
      && ':' !in a + b + c + d && b != "" && c != "" && d != "" && |net| < 255
  }

  /** Four fields of one to three bytes; `net` is the first three. */
  ghost predicate V4Net(host: string, net: string) {
    exists a, b, c, d ::
      && host == a + "." + b + "." + c + "." + d && net == a + "." + b + "." + c + "."
      && '.' !in a + b + c + d && 1 <= |a| <= 3 && 1 <= |b| <= 3 && 1 <= |c| <= 3 && 1 <= |d| <= 3
  }

  /** No dot at either end, no two together. */
  predicate FullLabels(s: string) {
    s != "" && s[0] != '.' && s[|s| - 1] != '.' && forall i :: 0 <= i < |s| - 1 ==> s[i] != '.' || s[i + 1] != '.'
  }

  /** A name of three labels or more; `net` is what follows the first. */
  ghost predicate NameNet(host: string, net: string) {
    exists a, rest ::
      host == a + "." + rest && net == "." + rest && '.' !in a && '.' in rest && FullLabels(host)
  }

  /** The hosts a widened ban takes in: those of the same network, or the host alone. */
  ghost predicate InNet(host: string, h: string) {
    if '/' in host then SameButCase(h, host)
    else if ':' in host then
      if AllIn(host, "0123456789abcdefABCDEF:.") && exists net :: V6Net(host, net)
      then exists net :: V6Net(host, net) && StartsWith(h, net) else SameButCase(h, host)
    else if AllIn(host, "0123456789.") then
      if exists net :: V4Net(host, net) then exists net :: V4Net(host, net) && StartsWith(h, net) else SameButCase(h, host)
    else if exists net :: NameNet(host, net) then exists net :: NameNet(host, net) && EndsWith(h, net)
    else SameButCase(h, host)
  }

  // ---- widening is to that network -------------------------------------------------------

  lemma PlainField(a: string, sep: char, rest: string)
    requires sep !in a
    ensures Split(a + [sep] + rest, sep) == [a] + Split(rest, sep)
  {
    SplitAtSeparator(a, sep, rest);
    SplitNoSeparator(a, sep);
  }

  lemma FirstField(s: string, sep: char)
    requires |Split(s, sep)| >= 2
    ensures s == Split(s, sep)[0] + [sep] + Join(Split(s, sep)[1..], sep)
    ensures sep !in Split(s, sep)[0] && Split(Join(Split(s, sep)[1..], sep), sep) == Split(s, sep)[1..]
  {
    var g := Split(s, sep);
    JoinSplit(s, sep);
    SplitFieldsPlain(s, sep);
    assert g[0] in g && forall f :: f in g[1..] ==> f in g;
    SplitJoin(g[1..], sep);
  }

  lemma FourJoined(g: seq<string>, sep: char)
    requires |g| == 4
    ensures Join(g, sep) == g[0] + [sep] + g[1] + [sep] + g[2] + [sep] + g[3]
  {
    assert g[1..][1..] == g[2..] && g[2..][1..] == g[3..] && g[3..] == [g[3]];
    assert Join(g[2..], sep) == g[2] + [sep] + g[3];
    assert Join(g[1..], sep) == g[1] + [sep] + Join(g[2..], sep);
  }

  lemma ThreeJoined(g: seq<string>, sep: char)
    requires |g| == 3
    ensures Join(g, sep) == g[0] + [sep] + g[1] + [sep] + g[2]
  {
    assert g[1..][1..] == g[2..] && g[2..] == [g[2]];
    assert Join(g[1..], sep) == g[1] + [sep] + g[2];
  }

  lemma V6Fields(a: string, b: string, c: string, d: string, rest: string)
    requires ':' !in a + b + c + d
    ensures Split(a + ":" + b + ":" + c + ":" + d + ":" + rest, ':') == [a, b, c, d] + Split(rest, ':')
  {
    var host := a + ":" + b + ":" + c + ":" + d + ":" + rest;
    var r3 := d + [':'] + rest;
    var r2 := c + [':'] + r3;
    var r1 := b + [':'] + r2;
    assert host == a + [':'] + r1;
    PlainField(a, ':', r1);
    PlainField(b, ':', r2);
    PlainField(c, ':', r3);
    PlainField(d, ':', rest);
  }

  lemma V6Widens(host: string, net: string)
    requires V6Net(host, net)
    ensures WidenV6(host) == net + "*"
  {
    hide Split, Join;
    var a, b, c, d, rest :|
      && host == a + ":" + b + ":" + c + ":" + d + ":" + rest && net == a + ":" + b + ":" + c + ":" + d + ":"
      && ':' !in a + b + c + d && b != "" && c != "" && d != "" && |net| < 255;
    V6Fields(a, b, c, d, rest);
    var g := Split(host, ':');
    FourJoined(g[..4], ':');
    assert g[..4] == [a, b, c, d];
    assert Join(g[..4], ':') + ":*" == net + "*";
  }

  lemma V6NetOf(host: string)
    requires |Split(host, ':')| >= 5
    ensures var g := Split(host, ':');
            var net := Join(g[..4], ':') + ":";
            g[1] != "" && g[2] != "" && g[3] != "" && |net| < 255 ==> V6Net(host, net)
  {
    hide Split, Join;
    var g := Split(host, ':');
    FirstField(host, ':');
    var r1 := Join(g[1..], ':');
    FirstField(r1, ':');
    assert g[1..][1..] == g[2..];
    var r2 := Join(g[2..], ':');
    FirstField(r2, ':');
    assert g[2..][1..] == g[3..];
    var r3 := Join(g[3..], ':');
    FirstField(r3, ':');
    assert g[3..][1..] == g[4..];
    var rest := Join(g[4..], ':');
    FourJoined(g[..4], ':');
    assert host == g[0] + ":" + g[1] + ":" + g[2] + ":" + g[3] + ":" + rest;
  }

  lemma V6Exactly(host: string, net: string)
    ensures V6Net(host, net) ==> WidenV6(host) == net + "*"
    ensures (forall n :: !V6Net(host, n)) ==> WidenV6(host) == host
  {
    if V6Net(host, net) {
      V6Widens(host, net);
    }
    if (forall n :: !V6Net(host, n)) && |Split(host, ':')| >= 5 {
      V6NetOf(host);
    }
  }

  lemma V4Widens(host: string, net: string)
    requires V4Net(host, net)
    ensures WidenV4(host) == net + "*"
  {
    hide Split, Join;
    var a, b, c, d :|
      && host == a + "." + b + "." + c + "." + d && net == a + "." + b + "." + c + "."
      && '.' !in a + b + c + d && 1 <= |a| <= 3 && 1 <= |b| <= 3 && 1 <= |c| <= 3 && 1 <= |d| <= 3;
    var r2 := c + ['.'] + d;
    var r1 := b + ['.'] + r2;
    assert host == a + ['.'] + r1;
    PlainField(a, '.', r1);
    PlainField(b, '.', r2);
    PlainField(c, '.', d);
    SplitNoSeparator(d, '.');
    var g := Split(host, '.');
    assert g == [a, b, c, d] && g[..3] == [a, b, c];
    ThreeJoined(g[..3], '.');
    assert Join(g[..3], '.') + ".*" == net + "*";
  }

  lemma V4NetOf(host: string)
    requires |Split(host, '.')| == 4 && forall k :: 0 <= k < 4 ==> 1 <= |Split(host, '.')[k]| <= 3
    ensures V4Net(host, Join(Split(host, '.')[..3], '.') + ".")
  {
    hide Split, Join;
    var g := Split(host, '.');
    JoinSplit(host, '.');
    FourJoined(g, '.');
    ThreeJoined(g[..3], '.');
    SplitFieldsPlain(host, '.');
    assert g[0] in g && g[1] in g && g[2] in g && g[3] in g;
    V4NetIs(g[0], g[1], g[2], g[3]);
  }

  lemma V4NetIs(a: string, b: string, c: string, d: string)
    requires '.' !in a && '.' !in b && '.' !in c && '.' !in d
    requires 1 <= |a| <= 3 && 1 <= |b| <= 3 && 1 <= |c| <= 3 && 1 <= |d| <= 3
    ensures V4Net(a + "." + b + "." + c + "." + d, a + "." + b + "." + c + ".")
  {
  }

  lemma V4Exactly(host: string, net: string)
    ensures V4Net(host, net) ==> WidenV4(host) == net + "*"
    ensures (forall n :: !V4Net(host, n)) ==> WidenV4(host) == host
  {
    if V4Net(host, net) {
      V4Widens(host, net);
    }
    var g := Split(host, '.');
    if (forall n :: !V4Net(host, n)) && |g| == 4 && (forall k :: 0 <= k < 4 ==> 1 <= |g[k]| <= 3) {
      V4NetOf(host);
    }
  }

  lemma FullHead(a: string, rest: string)
    requires '.' !in a && FullLabels(a + "." + rest)
    ensures a != "" && FullLabels(rest)
  {
    var s, d := a + "." + rest, |a|;
    assert s[d] == '.' && d != |s| - 1;
    forall i | 0 <= i < |rest| - 1 ensures rest[i] != '.' || rest[i + 1] != '.' {
      assert rest[i] == s[i + d + 1] && rest[i + 1] == s[i + d + 2];
    }
    assert rest[0] == s[d + 1] && rest[|rest| - 1] == s[|s| - 1];
  }

  lemma FullMore(a: string, rest: string)
    requires '.' !in a && a != "" && FullLabels(rest)
    ensures FullLabels(a + "." + rest)
  {
    var s, d := a + "." + rest, |a|;
    forall i | 0 <= i < |s| - 1 ensures s[i] != '.' || s[i + 1] != '.' {
      if i > d {
        assert s[i] == rest[i - d - 1] && s[i + 1] == rest[i - d];
      } else if i < d {
        assert s[i] == a[i] && a[i] in a;
      }
    }
    assert s[0] == a[0] && a[0] in a && s[|s| - 1] == rest[|rest| - 1];
  }

  lemma OneLabel(s: string)
    requires '.' !in s
    ensures FullLabels(s) <==> s != ""
  {
    assert forall i :: 0 <= i < |s| ==> s[i] in s;
  }

  /** No label is empty exactly when dots stand neither at an end nor together. */
  lemma {:induction false} LabelsFull(s: string)
    ensures FullLabels(s) <==> "" !in Split(s, '.')
    decreases |s|
  {
    hide Split, FullLabels;
    var d := Find(s, '.');
    if d == |s| {
      SplitNoSeparator(s, '.');
      OneLabel(s);
    } else {
      var a, rest := s[..d], s[d + 1..];
      assert s == a + "." + rest && '.' !in a;
      PlainField(a, '.', rest);
      LabelsFull(rest);
      if FullLabels(s) {
        FullHead(a, rest);
      } else if a != "" && FullLabels(rest) {
        FullMore(a, rest);
      }
    }
  }

  lemma NameWidens(host: string, net: string)
    requires NameNet(host, net)
    ensures WidenName(host) == "*" + net
  {
    hide Split, Join;
    var a, rest :| host == a + "." + rest && net == "." + rest && '.' !in a && '.' in rest && FullLabels(host);
    PlainField(a, '.', rest);
    SplitNoSeparator(rest, '.');
    JoinSplit(rest, '.');
    LabelsFull(host);
    var g := Split(host, '.');
    assert forall k :: 0 <= k < |g| ==> g[k] in g;
    assert g[1..] == Split(rest, '.');
    assert "*." + rest == "*" + net;
  }

  lemma NameNetOf(host: string)
    requires |Split(host, '.')| >= 3 && forall k :: 0 <= k < |Split(host, '.')| ==> Split(host, '.')[k] != ""
    ensures NameNet(host, "." + Join(Split(host, '.')[1..], '.'))
  {
    hide Split, Join;
    var g := Split(host, '.');
    FirstField(host, '.');
    LabelsFull(host);
    SplitNoSeparator(Join(g[1..], '.'), '.');
    assert host == g[0] + "." + Join(g[1..], '.');
  }

  lemma NameExactly(host: string, net: string)
    ensures NameNet(host, net) ==> WidenName(host) == "*" + net
    ensures (forall n :: !NameNet(host, n)) ==> WidenName(host) == host
  {
    if NameNet(host, net) {
      NameWidens(host, net);
    }
    var g := Split(host, '.');
    if (forall n :: !NameNet(host, n)) && |g| >= 3 && (forall k :: 0 <= k < |g| ==> g[k] != "") {
      NameNetOf(host);
    }
  }

  // ---- literal parts as patterns -----------------------------------------------------------

  predicate NoSymbols(s: string) {
    '*' !in s && '?' !in s
  }

  /** Text without pattern symbols describes itself in any case. */
  lemma TextHits(s: string, t: string)
    requires NoSymbols(s)
    ensures Matches(s, t) <==> SameButCase(t, s)
  {
    assert forall i :: 0 <= i < |s| ==> s[i] in s;
    LiteralText(s, t);
    if |s| == |t| {
      forall i | 0 <= i < |s| ensures Fits(s[i], t[i]) <==> SameByte(t[i], s[i]) {
        FitsExactly(s[i], t[i]);
      }
    }
  }

  lemma HeadHits(head: string, t: string)
    requires NoSymbols(head)
    ensures Matches(head + "*", t) <==> StartsWith(t, head)
  {
    assert forall i :: 0 <= i < |head| ==> head[i] in head;
    LiteralPrefix(head, "*", t);
    if |head| <= |t| {
      StarMatchesAll(t[|head|..]);
      LiteralText(head, t[..|head|]);
      TextHits(head, t[..|head|]);
    }
  }

  lemma TailHits(tail: string, t: string)
    requires NoSymbols(tail)
    ensures Matches("*" + tail, t) <==> EndsWith(t, tail)
  {
    assert ("*" + tail)[1..] == tail;
    forall k | 0 <= k <= |t| ensures Matches(tail, t[k..]) <==> SameButCase(t[k..], tail) {
      TextHits(tail, t[k..]);
    }
    if |tail| <= |t| {
      assert Matches(tail, t[|t| - |tail|..]) <==> EndsWith(t, tail);
    }
    if Matches("*" + tail, t) {
      var k :| 0 <= k <= |t| && Matches(tail, t[k..]);
      assert k == |t| - |tail|;
    }
  }

  lemma PartIsPlain(a: string, b: string)
    requires NoSymbols(a + b)
    ensures NoSymbols(a) && NoSymbols(b)
  {
    assert forall c :: c in a || c in b ==> c in a + b;
  }

  lemma V6NetIsPart(host: string, net: string)
    requires NoSymbols(host) && V6Net(host, net)
    ensures NoSymbols(net)
  {
    var a, b, c, d, rest :|
      && host == a + ":" + b + ":" + c + ":" + d + ":" + rest && net == a + ":" + b + ":" + c + ":" + d + ":"
      && ':' !in a + b + c + d && b != "" && c != "" && d != "" && |net| < 255;
    PartIsPlain(net, rest);
  }

  lemma V4NetIsPart(host: string, net: string)
    requires NoSymbols(host) && V4Net(host, net)
    ensures NoSymbols(net)
  {
    hide NoSymbols;
    var a, b, c, d :|
      && host == a + "." + b + "." + c + "." + d && net == a + "." + b + "." + c + "."
      && '.' !in a + b + c + d && 1 <= |a| <= 3 && 1 <= |b| <= 3 && 1 <= |c| <= 3 && 1 <= |d| <= 3;
    assert host == net + d;
    PartIsPlain(net, d);
  }

  lemma NameNetIsPart(host: string, net: string)
    requires NoSymbols(host) && NameNet(host, net)
    ensures NoSymbols(net)
  {
    hide NoSymbols, FullLabels;
    var a, rest :| host == a + "." + rest && net == "." + rest && '.' !in a && '.' in rest && FullLabels(host);
    assert host == a + net;
    PartIsPlain(a, net);
  }

  /** The widened host describes exactly the hosts of the network. */
  lemma WidenedHits(host: string, h: string)
    requires NoSymbols(host)
    ensures Matches(WidenedHost(host), h) <==> InNet(host, h)
  {
    hide Matches, V6Net, V4Net, NameNet, WidenV6, WidenV4, WidenName, AllIn;
    TextHits(host, h);
    forall net | V6Net(host, net) ensures WidenV6(host) == net + "*" && (Matches(net + "*", h) <==> StartsWith(h, net)) {
      V6Exactly(host, net);
      V6NetIsPart(host, net);
      HeadHits(net, h);
    }
    forall net | V4Net(host, net) ensures WidenV4(host) == net + "*" && (Matches(net + "*", h) <==> StartsWith(h, net)) {
      V4Exactly(host, net);
      V4NetIsPart(host, net);
      HeadHits(net, h);
    }
    forall net | NameNet(host, net) ensures WidenName(host) == "*" + net && (Matches("*" + net, h) <==> EndsWith(h, net)) {
      NameExactly(host, net);
      NameNetIsPart(host, net);
      TailHits(net, h);
    }
    V6Exactly(host, "");
    V4Exactly(host, "");
    NameExactly(host, "");
  }

  // ---- the language of each type -------------------------------------------------------------

  /** Of an ident: what a mask keeps behind its star. */
  function Bare(user: string): string {
    if user != "" && user[0] == '~' then user[1..] else user
  }

  /** Who a ban of this type for `p` is meant to hit. */
  ghost predicate TypeHits(typ: int, p: Parts, q: Parts) {
    && (typ < 5 || SameButCase(q.nick, p.nick))
    && (match typ
        case 0 => SameButCase(q.user, p.user)
        case 5 => SameButCase(q.user, p.user)
        case 1 => EndsWith(q.user, Bare(p.user))
        case 3 => EndsWith(q.user, Bare(p.user))
        case 6 => EndsWith(q.user, Bare(p.user))
        case 8 => EndsWith(q.user, Bare(p.user))
        case _ => true)
    && (if typ in {3, 4, 8, 9} then InNet(p.host, q.host) else SameButCase(q.host, p.host))
  }

  lemma LiteralIsPlain(p: Parts)
    requires LiteralParts(p)
    ensures NoSymbols(p.nick) && NoSymbols(p.user) && NoSymbols(p.host) && NoSymbols(Bare(p.user))
  {
    assert '*' in RESERVED && '?' in RESERVED;
  }

  lemma IdentHits(typ: int, user: string, u: string)
    requires 0 <= typ <= 9 && NoSymbols(user) && NoSymbols(Bare(user))
    ensures Matches(IdentPart(typ, user), u)
            <==> match typ
                 case 0 => SameButCase(u, user)
                 case 5 => SameButCase(u, user)
                 case 1 => EndsWith(u, Bare(user))
                 case 3 => EndsWith(u, Bare(user))
                 case 6 => EndsWith(u, Bare(user))
                 case 8 => EndsWith(u, Bare(user))
                 case _ => true
  {
    hide Matches;
    TextHits(user, u);
    TailHits(Bare(user), u);
    StarMatchesAll(u);
  }

  /** For every hostmask of a server: a ban mask hits it exactly when its type means to. */
  lemma MaskHitsExactly(typ: int, nuh: string, q: Parts)
    requires BanMask(typ, nuh).Some? && OneOfEach(q)
    ensures Matches(BanMask(typ, nuh).value, Nuh(q)) <==> TypeHits(typ, SplitNuh(nuh).value, q)
  {
    hide Matches, IdentPart, InNet, SameButCase, EndsWith, WidenedHost, LiteralParts, OneOfEach;
    var p := SplitNuh(nuh).value;
    var n, u, h := NickPart(typ, p.nick), IdentPart(typ, p.user), HostPart(typ, p.host);
    LiteralIsPlain(p);
    TextHits(p.nick, q.nick);
    StarMatchesAll(q.nick);
    IdentHits(typ, p.user, q.user);
    WidenedHits(p.host, q.host);
    TextHits(p.host, q.host);
    if Matches(n + "!" + u + "@" + h, Nuh(q)) {
      Decompose(n, u, h, q);
    }
    if Matches(n, q.nick) && Matches(u, q.user) && Matches(h, q.host) {
      Assemble(n, u, h, q);
    }
  }

  // ---- who can be given a mask ------------------------------------------------------------------

  /** Text that stands for itself in a mask: visible bytes, none of the symbols of a mask. */
  predicate Visible(s: string) {
    s != "" && forall c :: c in s ==> c > ' ' && c != '\U{7F}' && c !in {'*', '?', '!', '@', ','}
  }

  /** Every nick!user@host of plain parts that fit has a mask of every type, unless it is too long. */
  lemma MaskGiven(typ: int, p: Parts)
    requires 0 <= typ <= 9
    requires Visible(p.nick) && Visible(p.user) && Visible(p.host)
    requires |p.nick| < 32 && |p.user| < 64 && |p.host| < 256
    ensures SplitNuh(Nuh(p)) == Some(p)
    ensures BanMask(typ, Nuh(p)) == if |MaskOf(typ, p)| <= 120 then Some(MaskOf(typ, p)) else None
  {
    hide SplitNuh, MaskOf, Visible, LiteralPart, Nuh;
    NuhSplits(p);
    VisibleIsLiteral(p.nick, 32);
    VisibleIsLiteral(p.user, 64);
    VisibleIsLiteral(p.host, 256);
  }

  lemma VisibleIsLiteral(s: string, limit: nat)
    requires Visible(s) && |s| < limit <= 256
    ensures LiteralPart(s, limit)
  {
    assert RESERVED == ['*', '?', '!', '@', ','];
  }

  lemma CutOnce(a: string, c: char, b: string)
    requires c !in a
    ensures var s := a + [c] + b;
            Find(s, c) == |a| && s[..|a|] == a && s[|a| + 1..] == b
  {
    var s := a + [c] + b;
    assert s == a + ([c] + b);
    FindAfter(a, c, [c] + b);
  }

  lemma NuhCut(n: string, u: string, h: string)
    ensures var s := n + ['!'] + (u + ['@'] + h);
            && s[..|n|] == n && s[|n|..] == ("!" + u) + ['@'] + h
            && s[|n| + 1..|n| + 1 + |u|] == u && s[|n| + 2 + |u|..] == h
  {
    var s, rest := n + ['!'] + (u + ['@'] + h), u + ['@'] + h;
    assert s[|n| + 1..] == rest;
    assert s[|n| + 1..|n| + 1 + |u|] == rest[..|u|] && s[|n| + 2 + |u|..] == rest[|u| + 1..];
  }

  lemma SplitIs(nuh: string, bang: nat, at: nat)
    requires bang + 2 <= at < |nuh| && Find(nuh, '!') == bang && Find(nuh[bang..], '@') == at - bang
    ensures SplitNuh(nuh) == Some(Parts(nuh[..bang], nuh[bang + 1..at], nuh[at + 1..]))
  {
    hide Find;
  }

  lemma CutsAre(p: Parts, bang: nat, at: nat)
    requires bang == |p.nick| && at == bang + 1 + |p.user|
    ensures at < |Nuh(p)| && Nuh(p)[..bang] == p.nick && Nuh(p)[bang + 1..at] == p.user && Nuh(p)[at + 1..] == p.host
    ensures Nuh(p)[bang..] == ("!" + p.user) + ['@'] + p.host
  {
    NuhIs(p);
    NuhCut(p.nick, p.user, p.host);
  }

  lemma NuhFinds(p: Parts)
    requires '!' !in p.nick && '@' !in "!" + p.user
    ensures Find(Nuh(p), '!') == |p.nick|
    ensures Find(("!" + p.user) + ['@'] + p.host, '@') == 1 + |p.user|
  {
    hide Find;
    NuhIs(p);
    CutOnce(p.nick, '!', p.user + ['@'] + p.host);
    CutOnce("!" + p.user, '@', p.host);
  }

  lemma NuhSplits(p: Parts)
    requires Visible(p.nick) && Visible(p.user)
    ensures SplitNuh(Nuh(p)) == Some(p)
  {
    hide Find, Visible, Nuh, SplitNuh;
    VisibleIs(p.nick);
    VisibleIs(p.user);
    var bang, at := |p.nick|, |p.nick| + 1 + |p.user|;
    CutsAre(p, bang, at);
    NuhFinds(p);
    SplitIs(Nuh(p), bang, at);
  }

  lemma NuhIs(p: Parts)
    ensures Nuh(p) == p.nick + ['!'] + (p.user + ['@'] + p.host)
  {
  }

  lemma VisibleIs(s: string)
    requires Visible(s)
    ensures s != "" && '!' !in s && '@' !in s && '@' !in "!" + s
  {
  }

  /** And nobody else has one. */
  lemma MaskNeeds(typ: int, nuh: string)
    requires BanMask(typ, nuh).Some?
    ensures 0 <= typ <= 9 && SplitNuh(nuh).Some? && Nuh(SplitNuh(nuh).value) == nuh
    ensures var p := SplitNuh(nuh).value;
            && Visible(p.nick) && Visible(p.user) && Visible(p.host)
            && |p.nick| < 32 && |p.user| < 64 && |p.host| < 256 && |BanMask(typ, nuh).value| <= 120
  {
    SplitNuhJoins(nuh);
    assert RESERVED == ['*', '?', '!', '@', ','];
  }

  predicate Printable(s: string) {
    forall c :: c in s ==> c > ' ' && c != '\U{7F}'
  }

  lemma BothPrintable(a: string, b: string)
    requires Printable(a) && Printable(b)
    ensures Printable(a + b)
  {
  }

  lemma PartPrintable(s: string, k: nat)
    requires Printable(s) && k <= |s|
    ensures Printable(s[..k]) && Printable(s[k..]) && Printable("*")
  {
    assert s[..k] + s[k..] == s;
    assert forall c :: c in s[..k] || c in s[k..] ==> c in s[..k] + s[k..];
    assert '*' > ' ' && '*' != '\U{7F}';
  }

  lemma WidenedPrintable(host: string)
    requires Printable(host)
    ensures Printable(WidenedHost(host))
  {
    hide Printable, WidenedHost;
    WidenedShape(host);
    var w := WidenedHost(host);
    if k :| 0 <= k <= |host| && w == host[..k] + "*" {
      PartPrintable(host, k);
      BothPrintable(host[..k], "*");
    } else if k :| 0 <= k <= |host| && w == "*" + host[k..] {
      PartPrintable(host, k);
      BothPrintable("*", host[k..]);
    }
  }

  lemma IdentPrintable(typ: int, user: string)
    requires Printable(user)
    ensures Printable(IdentPart(typ, user))
  {
    hide Printable;
    PartPrintable(user, 0);
    if user != "" {
      PartPrintable(user, 1);
    }
    BothPrintable("*", WithoutTilde(user));
  }

  lemma VisibleIsPrintable(s: string)
    requires Visible(s)
    ensures Printable(s) && Printable("*") && Printable("!") && Printable("@")
  {
  }

  lemma PrintableToken(s: string, max: nat)
    requires Printable(s) && 0 < |s| <= max
    ensures SafeToken(s, max)
  {
  }

  /** Every mask made can stand on a line: none is refused as a bad token. */
  lemma MaskIsToken(typ: int, nuh: string)
    requires BanMask(typ, nuh).Some?
    ensures SafeToken(BanMask(typ, nuh).value, 120)
  {
    hide Printable, Visible, IdentPart, WidenedHost, SafeToken, LiteralParts;
    var p := SplitNuh(nuh).value;
    var n, u, h := NickPart(typ, p.nick), IdentPart(typ, p.user), HostPart(typ, p.host);
    MaskNeeds(typ, nuh);
    VisibleIsPrintable(p.nick);
    VisibleIsPrintable(p.user);
    VisibleIsPrintable(p.host);
    WidenedPrintable(p.host);
    IdentPrintable(typ, p.user);
    BothPrintable(n, "!");
    BothPrintable(n + "!", u);
    BothPrintable(n + "!" + u, "@");
    BothPrintable(n + "!" + u + "@", h);
    PrintableToken(MaskOf(typ, p), 120);
  }
}
