/** Ban masks: how one is built from nick!user@host, and why the one chosen
    automatically cannot hit a trusted bot or an active user. */
module BanMasks {
  import opened Text
  import opened Glob

  const MAX_MEMBER_NICK := 32
  const MAX_IDENT := 64

  // ---- who is authorised -------------------------------------------------------

  datatype TrustedBot = TrustedBot(mask: string, uuid: string)
  datatype MaskRecord = MaskRecord(mask: string, uuid: string, active: bool)
  datatype UserRecord = UserRecord(name: string, uuid: string, active: bool)
  datatype Auth = Auth(bots: seq<TrustedBot>, masks: seq<MaskRecord>, users: seq<UserRecord>)
  datatype Member = Member(nick: string, hostmask: string)

  /** A leading `~` of the ident is dropped; the ident starts after the first `!`. */
  function StripIdentTilde(s: string): string {
    var b := Find(s, '!');
    if b + 1 < |s| && s[b + 1] == '~' then s[..b + 1] + s[b + 2..] else s
  }

  ghost predicate TrustedHost(auth: Auth, nuh: string) {
    exists b :: b in auth.bots && Matches(StripIdentTilde(b.mask), StripIdentTilde(Trunc(nuh, MAX_MASK_LEN)))
  }

  ghost predicate ActiveUser(auth: Auth, uuid: string) {
    exists u :: u in auth.users && u.active && u.uuid == uuid
  }

  /** A mask record that speaks for a user in good standing. */
  ghost predicate Standing(auth: Auth, m: MaskRecord) {
    m in auth.masks && m.active && m.mask != "" && ActiveUser(auth, m.uuid)
  }

  ghost predicate Authorised(auth: Auth, nuh: string) {
    nuh != "" && (TrustedHost(auth, nuh) || exists m :: Standing(auth, m) && Matches(m.mask, nuh))
  }

  method FindActiveUser(auth: Auth, uuid: string) returns (r: Option<UserRecord>)
    ensures r.Some? <==> ActiveUser(auth, uuid)
    ensures r.Some? ==> r.value in auth.users && r.value.active && r.value.uuid == uuid
  {
    for i := 0 to |auth.users|
      invariant forall j :: 0 <= j < i ==> !(auth.users[j].active && auth.users[j].uuid == uuid)
    {
      var u := auth.users[i];
      if u.active && u.uuid == uuid {
        return Some(u);
      }
    }
    return None;
  }

  method IsAuthorised(auth: Auth, nuh: string) returns (r: bool)
    ensures r <==> Authorised(auth, nuh)
  {
    hide StripIdentTilde, Matches, Trunc, ActiveUser;
    if nuh == "" {
      return false;
    }
    var norm := StripIdentTilde(Trunc(nuh, MAX_MASK_LEN));
    for i := 0 to |auth.bots|
      invariant forall j :: 0 <= j < i ==> !Matches(StripIdentTilde(auth.bots[j].mask), norm)
    {
      var hit := WildcardMatch(StripIdentTilde(auth.bots[i].mask), norm);
      if hit {
        assert auth.bots[i] in auth.bots;
        return true;
      }
    }
    for i := 0 to |auth.masks|
      invariant forall j :: 0 <= j < i ==> !(Standing(auth, auth.masks[j]) && Matches(auth.masks[j].mask, nuh))
    {
      var m := auth.masks[i];
      if m.active && m.mask != "" {
        var hit := WildcardMatch(m.mask, nuh);
        if hit {
          var owner := FindActiveUser(auth, m.uuid);
          if owner.Some? {
            assert Standing(auth, m);
            return true;
          }
        }
      }
    }
    return false;
  }

  // ---- a ban that must not hit them --------------------------------------------

  /** What the overlap test reports: a shared string, or a pattern too long to tell. */
  ghost predicate MayShare(a: string, b: string) {
    |a| > OVERLAP_MAX || |b| > OVERLAP_MAX || Overlaps(a, b)
  }

  ghost predicate ClearOfAuthorised(auth: Auth, mask: string) {
    && (forall b :: b in auth.bots ==> !MayShare(StripIdentTilde(mask), StripIdentTilde(b.mask)))
    && (forall m :: Standing(auth, m) ==> !MayShare(StripIdentTilde(mask), StripIdentTilde(m.mask)))
  }

  method MaskOverlapsAuthorised(auth: Auth, mask: string) returns (who: Option<string>)
    ensures who.None? <==> ClearOfAuthorised(auth, mask)
  {
    hide StripIdentTilde, Overlaps, ActiveUser;
    var nmask := StripIdentTilde(mask);
    for i := 0 to |auth.bots|
      invariant forall j :: 0 <= j < i ==> !MayShare(nmask, StripIdentTilde(auth.bots[j].mask))
    {
      var shared := GlobOverlap(nmask, StripIdentTilde(auth.bots[i].mask));
      if shared {
        assert auth.bots[i] in auth.bots;
        return Some("bot " + auth.bots[i].mask);
      }
    }
    for i := 0 to |auth.masks|
      invariant forall j :: 0 <= j < i && Standing(auth, auth.masks[j]) ==>
                              !MayShare(nmask, StripIdentTilde(auth.masks[j].mask))
    {
      var m := auth.masks[i];
      var shared := GlobOverlap(nmask, StripIdentTilde(m.mask));
      if m.active && m.mask != "" && shared {
        var owner := FindActiveUser(auth, m.uuid);
        if owner.Some? {
          assert Standing(auth, m);
          return Some("user " + owner.value.name);
        }
      }
    }
    return None;
  }

  /** A token that may stand on an IRC line. */
  predicate SafeToken(s: string, max: nat) {
    0 < |s| <= max && forall c :: c in s ==> c > ' ' && c != '\U{7F}'
  }

  /** This bot itself, or a member whose hostmask is authorised. */
  ghost predicate MemberAuthorised(auth: Auth, me: string, e: Member) {
    EqIc(e.nick, me) || Authorised(auth, e.hostmask)
  }

  /** The two steps a new ban passes: nobody authorised in the channel is hit, and
      nobody authorised elsewhere could be.  Without a channel only the second runs. */
  ghost predicate BanAllowed(auth: Auth, me: string, roster: Option<seq<Member>>, mask: string) {
    && SafeToken(mask, BAN_MASK_MAX)
    && (roster.Some? ==>
          forall e :: e in roster.value && MemberAuthorised(auth, me, e) ==> !Matches(mask, e.hostmask))
    && ClearOfAuthorised(auth, mask)
  }

  method AllowedMembers(auth: Auth, me: string, roster: seq<Member>, mask: string) returns (who: Option<string>)
    ensures who.None? <==>
            forall e :: e in roster && MemberAuthorised(auth, me, e) ==> !Matches(mask, e.hostmask)
  {
    hide Matches, Authorised, EqIc;
    for i := 0 to |roster|
      invariant forall j :: 0 <= j < i && MemberAuthorised(auth, me, roster[j]) ==> !Matches(mask, roster[j].hostmask)
    {
      var e := roster[i];
      var entry := EqIc(e.nick, me);
      if !entry {
        entry := IsAuthorised(auth, e.hostmask);
      }
      var hit := WildcardMatch(mask, e.hostmask);
      if entry && hit {
        assert e in roster;
        return Some("member " + e.nick);
      }
    }
    return None;
  }

  method BanAllowedWhy(auth: Auth, me: string, roster: Option<seq<Member>>, mask: string)
    returns (refusal: Option<string>)
    ensures refusal.None? <==> BanAllowed(auth, me, roster, mask)
  {
    if !SafeToken(mask, BAN_MASK_MAX) {
      return Some("bad mask");
    }
    if roster.Some? {
      refusal := AllowedMembers(auth, me, roster.value, mask);
      if refusal.Some? {
        return;
      }
    }
    refusal := MaskOverlapsAuthorised(auth, mask);
  }

  // ---- widening a host ---------------------------------------------------------

  const HEX_COLON := "0123456789abcdefABCDEF:."
  const DIGIT_DOT := "0123456789."

  /** IPv6: the first four groups, when they are spelled out. */
  function WidenV6(host: string): string {
    var g := Split(host, ':');
    if |g| >= 5 && g[1] != "" && g[2] != "" && g[3] != "" && |Join(g[..4], ':')| + 2 < MAX_MASK_LEN
    then Join(g[..4], ':') + ":*"
    else host
  }

  /** IPv4: a.b.c.d becomes a.b.c.* */
  function WidenV4(host: string): string {
    var g := Split(host, '.');
    if |g| == 4 && forall k :: 0 <= k < 4 ==> 1 <= |g[k]| <= 3
    then Join(g[..3], '.') + ".*"
    else host
  }

  /** A name of three labels or more loses its first one. */
  function WidenName(host: string): string {
    var g := Split(host, '.');
    if |g| >= 3 && forall k :: 0 <= k < |g| ==> g[k] != ""
    then "*." + Join(g[1..], '.')
    else host
  }

  function WidenedHost(host: string): string {
    if '/' in host then host
    else if ':' in host then (if AllIn(host, HEX_COLON) then WidenV6(host) else host)
    else if AllIn(host, DIGIT_DOT) then WidenV4(host)
    else WidenName(host)
  }

  lemma CutAt(host: string, sep: char, i: nat)
    requires i < |host| && host[i] == sep
    ensures Split(host, sep) == Split(host[..i], sep) + Split(host[i + 1..], sep)
    ensures Join(Split(host[..i], sep), sep) == host[..i]
    ensures Join(Split(host[i + 1..], sep), sep) == host[i + 1..]
  {
    assert host == host[..i] + [sep] + host[i + 1..];
    SplitAtSeparator(host[..i], sep, host[i + 1..]);
    JoinSplit(host[..i], sep);
    JoinSplit(host[i + 1..], sep);
  }

  lemma Grow(host: string, sep: char, i: nat)
    requires i < |host|
    ensures host[i] == sep ==> Split(host[..i + 1], sep) == Split(host[..i], sep) + [""]
    ensures host[i] != sep ==>
              var f, n := Split(host[..i], sep), |Split(host[..i], sep)|;
              Split(host[..i + 1], sep) == f[..n - 1] + [f[n - 1] + [host[i]]]
  {
    assert host[..i + 1] == host[..i] + [host[i]];
    SplitMore(host[..i], sep, host[i]);
  }

  method WidenV6Scan(host: string) returns (r: string)
    ensures r == WidenV6(host)
  {
    hide Split, Join;
    SplitEmpty(':');
    assert host[..0] == "";
    var colons := 0;
    ghost var g := [""];
    for i := 0 to |host|
      invariant g == Split(host[..i], ':') && |g| == colons + 1 <= 4
      invariant forall k :: 1 <= k < colons ==> g[k] != ""
      invariant colons > 0 && g[colons] == "" && i < |host| ==> host[i] != ':'
    {
      Grow(host, ':', i);
      if host[i] == ':' {
        CutAt(host, ':', i);
        colons := colons + 1;
        if colons < 4 && i + 1 < |host| && host[i + 1] == ':' {
          FirstFieldEmpty(host[i + 1..], ':');
          assert Split(host, ':')[colons] == "";
          return host;
        }
        if colons == 4 {
          assert Split(host, ':')[..4] == g;
          if i + 2 > MAX_MASK_LEN - 1 {
            return host;
          }
          return host[..i + 1] + "*";
        }
        g := g + [""];
      } else {
        g := g[..colons] + [g[colons] + [host[i]]];
      }
    }
    assert host[..|host|] == host;
    return host;
  }

  lemma FirstFieldEmpty(s: string, sep: char)
    requires s == "" || s[0] == sep
    ensures Split(s, sep)[0] == ""
  {
  }

  method WidenV4Scan(host: string) returns (r: string)
    ensures r == WidenV4(host)
  {
    hide Split, Join;
    SplitEmpty('.');
    assert host[..0] == "";
    var dots, last, seg := 0, 0, 0;
    ghost var g := [""];
    for i := 0 to |host|
      invariant g == Split(host[..i], '.') && |g| == dots + 1 && |g[dots]| == seg
      invariant forall k :: 0 <= k < dots ==> 1 <= |g[k]| <= 3
      invariant dots > 0 ==> last < i && host[last] == '.' && Split(host[..last], '.') == g[..dots]
    {
      Grow(host, '.', i);
      if host[i] == '.' {
        if seg == 0 || seg > 3 {
          CutAt(host, '.', i);
          assert Split(host, '.')[dots] == g[dots];
          return host;
        }
        dots := dots + 1;
        last := i;
        seg := 0;
        g := g + [""];
        assert g[..dots] == Split(host[..i], '.');
      } else {
        seg := seg + 1;
        g := g[..dots] + [g[dots] + [host[i]]];
      }
    }
    assert host[..|host|] == host;
    if dots == 3 {
      V4Length(host, last, g);
    }
    if dots != 3 || seg == 0 || seg > 3 || last + 2 > MAX_MASK_LEN - 1 {
      return host;
    }
    return host[..last + 1] + "*";
  }

  /** Four fields, the first three of 1..3 bytes: the last dot is near the front. */
  lemma V4Length(host: string, last: nat, g: seq<string>)
    requires g == Split(host, '.') && |g| == 4 && last < |host| && host[last] == '.'
    requires Split(host[..last], '.') == g[..3]
    requires forall k :: 0 <= k < 3 ==> 1 <= |g[k]| <= 3
    ensures host[..last] == Join(g[..3], '.') && last <= 11
  {
    CutAt(host, '.', last);
    var f := g[..3];
    assert f[1..][1..] == [f[2]];
    assert Join(f[1..], '.') == f[1] + ['.'] + Join([f[2]], '.');
  }

  predicate EmptyLabelled(host: string) {
    exists k :: 0 <= k < |Split(host, '.')| && Split(host, '.')[k] == ""
  }

  /** The number of labels; 0 when one of them is empty. */
  method CountLabels(host: string) returns (labels: nat)
    ensures labels == 0 ==> EmptyLabelled(host)
    ensures labels > 0 ==> labels == |Split(host, '.')| && (labels > 1 ==> !EmptyLabelled(host))
  {
    labels := 1;
    ghost var g := [""];
    for i := 0 to |host|
      invariant g == Split(host[..i], '.') && |g| == labels
      invariant forall k :: 0 <= k < labels - 1 ==> g[k] != ""
      invariant i > 0 && g[labels - 1] == "" ==> i < |host| && host[i] != '.'
    {
      Grow(host, '.', i);
      if host[i] == '.' {
        if i == 0 || i + 1 == |host| || host[i + 1] == '.' {
          EmptyLabel(host, i, g);
          return 0;
        }
        labels := labels + 1;
        g := g + [""];
      } else {
        g := g[..labels - 1] + [g[labels - 1] + [host[i]]];
      }
    }
    assert host[..|host|] == host;
  }

  method WidenNameScan(host: string) returns (r: string)
    ensures r == WidenName(host)
  {
    hide Split, Join;
    var labels := CountLabels(host);
    if labels < 3 {
      return host;
    }
    SplitNoSeparator(host, '.');
    var d := Find(host, '.');
    FirstLabel(host, d);
    return "*" + host[d..];
  }

  lemma EmptyLabel(host: string, i: nat, g: seq<string>)
    requires i < |host| && host[i] == '.' && g == Split(host[..i], '.')
    requires i == 0 || i + 1 == |host| || host[i + 1] == '.'
    ensures EmptyLabelled(host)
  {
    CutAt(host, '.', i);
    if i == 0 {
      assert Split(host, '.')[0] == g[0] == "";
    } else {
      FirstFieldEmpty(host[i + 1..], '.');
      assert Split(host, '.')[|g|] == "";
    }
  }

  lemma FirstLabel(host: string, d: nat)
    requires d == Find(host, '.') && d < |host|
    ensures host[d..] == "." + Join(Split(host, '.')[1..], '.')
  {
    hide Find, Split, Join;
    CutAt(host, '.', d);
    SplitNoSeparator(host[..d], '.');
    assert Split(host, '.')[1..] == Split(host[d + 1..], '.');
  }

  /** The scan the bot runs computes the widened host described by fields. */
  method WidenHost(host: string) returns (r: string)
    ensures r == WidenedHost(host)
  {
    if '/' in host {
      return host;
    }
    if ':' in host {
      if !AllIn(host, HEX_COLON) {
        return host;
      }
      r := WidenV6Scan(host);
    } else if AllIn(host, DIGIT_DOT) {
      r := WidenV4Scan(host);
    } else {
      r := WidenNameScan(host);
    }
  }

  // ---- ban types -----------------------------------------------------------------

  /** nick!user@host cut at the first `!` and the first `@` after it. */
  datatype Parts = Parts(nick: string, user: string, host: string)

  function SplitNuh(nuh: string): Option<Parts> {
    var bang := Find(nuh, '!');
    if bang == |nuh| then None
    else
      var at := bang + Find(nuh[bang..], '@');
      if at == |nuh| || at < bang + 2 then None
      else Some(Parts(nuh[..bang], nuh[bang + 1..at], nuh[at + 1..]))
  }

  function Nuh(p: Parts): string {
    p.nick + "!" + p.user + "@" + p.host
  }

  lemma SplitNuhJoins(nuh: string)
    requires SplitNuh(nuh).Some?
    ensures Nuh(SplitNuh(nuh).value) == nuh
  {
    hide Find;
    var bang := Find(nuh, '!');
    var tail := nuh[bang..];
    var k := Find(tail, '@');
    assert tail[k] == nuh[bang + k];
  }

  const RESERVED := "*?!@,"

  predicate LiteralPart(s: string, limit: nat) {
    SafeToken(s, MAX_MASK_LEN) && |s| < limit && forall c :: c in s ==> c !in RESERVED
  }

  predicate LiteralParts(p: Parts) {
    && LiteralPart(p.nick, MAX_MEMBER_NICK)
    && LiteralPart(p.user, MAX_IDENT)
    && LiteralPart(p.host, MAX_MASK_LEN)
  }

  predicate WidensHost(typ: int) {
    typ == 3 || typ == 4 || typ == 8 || typ == 9
  }

  function NickPart(typ: int, nick: string): string {
    if typ >= 5 then nick else "*"
  }

  function IdentPart(typ: int, user: string): string {
    match typ % 5
    case 0 => user
    case 1 => "*" + WithoutTilde(user)
    case 3 => "*" + WithoutTilde(user)
    case _ => "*"
  }

  function WithoutTilde(user: string): string {
    if user != "" && user[0] == '~' then user[1..] else user
  }

  function HostPart(typ: int, host: string): string {
    if WidensHost(typ) then WidenedHost(host) else host
  }

  /** The mask before its length is checked. */
  function MaskOf(typ: int, p: Parts): string {
    NickPart(typ, p.nick) + "!" + IdentPart(typ, p.user) + "@" + HostPart(typ, p.host)
  }

  /** The ban mask of type 0..9 for `nuh`, when its pieces are safe literal text. */
  function BanMask(typ: int, nuh: string): Option<string> {
    if !(0 <= typ <= 9) then None
    else
      var parts := SplitNuh(nuh);
      if parts.None? || !LiteralParts(parts.value) then None
      else
        var m := MaskOf(typ, parts.value);
        if |m| <= BAN_MASK_MAX then Some(m) else None
  }

  lemma IncludesSelf(p: string)
    ensures Includes(p, p)
  {
  }

  lemma StarIncludes(p: string)
    ensures Includes("*", p)
  {
    forall t | Matches(p, t)
      ensures Matches("*", t)
    {
      StarMatchesAll(t);
    }
  }

  /** A widened host is the host with its head or its tail opened up. */
  lemma WidenedShape(host: string)
    ensures var w := WidenedHost(host);
            || w == host
            || (exists k :: 0 <= k <= |host| && w == host[..k] + "*")
            || (exists k :: 0 <= k <= |host| && w == "*" + host[k..])
  {
    if '/' !in host {
      if ':' in host {
        var g := Split(host, ':');
        if |g| >= 5 {
          JoinHead(host, ':', 4);
        }
      } else if AllIn(host, DIGIT_DOT) {
        var g := Split(host, '.');
        if |g| == 4 {
          JoinHead(host, '.', 3);
        }
      } else {
        SplitNoSeparator(host, '.');
        if '.' in host {
          FirstLabel(host, Find(host, '.'));
          assert "*." + Join(Split(host, '.')[1..], '.') == "*" + host[Find(host, '.')..];
        }
      }
    }
  }

  /** The first n fields with their separators are a stretch at the front. */
  lemma {:induction false} JoinHead(s: string, sep: char, n: nat)
    requires 0 < n < |Split(s, sep)|
    ensures exists k :: 0 <= k <= |s| && Join(Split(s, sep)[..n], sep) + [sep] == s[..k]
  {
    hide Find, Split;
    var i := Find(s, sep);
    SplitNoSeparator(s, sep);
    CutAt(s, sep, i);
    SplitNoSeparator(s[..i], sep);
    var g, rest := Split(s, sep), s[i + 1..];
    assert g[1..] == Split(rest, sep);
    if n == 1 {
      assert Join(g[..1], sep) + [sep] == s[..i + 1];
    } else {
      JoinHead(rest, sep, n - 1);
      var k :| 0 <= k <= |rest| && Join(Split(rest, sep)[..n - 1], sep) + [sep] == rest[..k];
      assert g[..n][1..] == Split(rest, sep)[..n - 1];
      assert Join(g[..n], sep) + [sep] == s[..i] + [sep] + rest[..k];
      assert Join(g[..n], sep) + [sep] == s[..i + 1 + k];
    }
  }

  lemma WidenedIncludes(host: string)
    ensures Includes(WidenedHost(host), host)
  {
    WidenedShape(host);
    var w := WidenedHost(host);
    IncludesSelf(host);
    if w != host {
      if k :| 0 <= k <= |host| && w == host[..k] + "*" {
        IncludesSelf(host[..k]);
        StarIncludes(host[k..]);
        IncludesConcat(host[..k], host[..k], "*", host[k..]);
        assert host[..k] + host[k..] == host;
      } else {
        var k :| 0 <= k <= |host| && w == "*" + host[k..];
        IncludesSelf(host[k..]);
        StarIncludes(host[..k]);
        IncludesConcat("*", host[..k], host[k..], host[k..]);
        assert host[..k] + host[k..] == host;
      }
    }
  }

  lemma IdentIncludes(wide: int, narrow: int, user: string)
    requires wide % 5 == narrow % 5 || narrow % 5 == 0 || wide % 5 == 2 || wide % 5 == 4
             || (wide % 5 == 1 && narrow % 5 == 3) || (wide % 5 == 3 && narrow % 5 == 1)
    ensures Includes(IdentPart(wide, user), IdentPart(narrow, user))
  {
    var w, n := IdentPart(wide, user), IdentPart(narrow, user);
    IncludesSelf(n);
    if w == "*" {
      StarIncludes(n);
    } else if w != n {
      var bare := WithoutTilde(user);
      var head := user[..|user| - |bare|];
      assert user == head + bare;
      StarIncludes(head);
      IncludesSelf(bare);
      IncludesConcat("*", head, bare, bare);
    }
  }

  /** `wide` leaves at least as much open as `narrow` in each of nick, ident and host. */
  predicate WiderType(wide: int, narrow: int) {
    && 0 <= wide <= 9 && 0 <= narrow <= 9
    && (wide < 5 || narrow >= 5)
    && (narrow % 5 == 0 || wide % 5 == 2 || wide % 5 == 4 || (wide % 5 != 0 && (narrow % 5 == 1 || narrow % 5 == 3)))
    && (WidensHost(wide) || !WidensHost(narrow))
  }

  /** Ban types are ordered by the strings they hit: type t takes in type t + 5, and
      each step of ident and host widening takes in the one before. */
  lemma TypeInclusion(wide: int, narrow: int, nuh: string)
    requires WiderType(wide, narrow)
    requires BanMask(wide, nuh).Some? && BanMask(narrow, nuh).Some?
    ensures Includes(BanMask(wide, nuh).value, BanMask(narrow, nuh).value)
  {
    var p := SplitNuh(nuh).value;
    IncludesSelf(p.nick);
    StarIncludes(p.nick);
    IncludesSelf("*");
    IdentIncludes(wide, narrow, p.user);
    IncludesSelf(HostPart(narrow, p.host));
    WidenedIncludes(p.host);
    MaskIncludes(NickPart(wide, p.nick), NickPart(narrow, p.nick), IdentPart(wide, p.user), IdentPart(narrow, p.user),
                 HostPart(wide, p.host), HostPart(narrow, p.host));
  }

  lemma MaskIncludes(n: string, n': string, u: string, u': string, h: string, h': string)
    requires Includes(n, n') && Includes(u, u') && Includes(h, h')
    ensures Includes(n + "!" + u + "@" + h, n' + "!" + u' + "@" + h')
  {
    IncludesSelf("!");
    IncludesSelf("@");
    IncludesConcat(n, n', "!", "!");
    IncludesConcat(n + "!", n' + "!", u, u');
    IncludesConcat(n + "!" + u, n' + "!" + u', "@", "@");
    IncludesConcat(n + "!" + u + "@", n' + "!" + u' + "@", h, h');
  }

  lemma LiteralHasNoStar(p: Parts)
    requires LiteralParts(p)
    ensures NoStar(Nuh(p))
  {
    assert '*' in RESERVED;
    assert forall q: string :: '*' !in q ==> NoStar(q);
    assert NoStar(p.nick) && NoStar(p.user) && NoStar(p.host);
  }

  /** A ban mask hits the one it was made for. */
  lemma BanMaskHits(typ: int, nuh: string)
    requires BanMask(typ, nuh).Some?
    ensures Matches(BanMask(typ, nuh).value, nuh)
  {
    var p := SplitNuh(nuh).value;
    SplitNuhJoins(nuh);
    LiteralHasNoStar(p);
    SelfMatch(nuh);
    IncludesSelf(p.nick);
    StarIncludes(p.nick);
    IdentIncludes(typ, 0, p.user);
    IncludesSelf(p.host);
    WidenedIncludes(p.host);
    MaskIncludes(NickPart(typ, p.nick), p.nick, IdentPart(typ, p.user), p.user, HostPart(typ, p.host), p.host);
  }

  // ---- choosing one --------------------------------------------------------------

  ghost predicate Usable(auth: Auth, me: string, roster: Option<seq<Member>>, typ: int, nuh: string) {
    BanMask(typ, nuh).Some? && BanAllowed(auth, me, roster, BanMask(typ, nuh).value)
  }

  /** The configured type first, then the narrowing retries. */
  function RetryOrder(first: int): (r: seq<int>)
    ensures |r| == 5
  {
    [first, 2, 0, 7, 5]
  }

  /** Position i of the order gives a usable mask and no earlier one does. */
  ghost predicate FirstUsable(auth: Auth, me: string, roster: Option<seq<Member>>, order: seq<int>, i: int, nuh: string) {
    && 0 <= i < |order| && Usable(auth, me, roster, order[i], nuh)
    && forall j :: 0 <= j < i ==> !Usable(auth, me, roster, order[j], nuh)
  }

  method TryType(auth: Auth, me: string, roster: Option<seq<Member>>, typ: int, nuh: string)
    returns (m: Option<string>)
    ensures m.Some? <==> Usable(auth, me, roster, typ, nuh)
    ensures m.Some? ==> m == BanMask(typ, nuh) && Matches(m.value, nuh) && BanAllowed(auth, me, roster, m.value)
  {
    m := BanMask(typ, nuh);
    if m.Some? {
      var refusal := BanAllowedWhy(auth, me, roster, m.value);
      if refusal.Some? {
        return None;
      }
      BanMaskHits(typ, nuh);
    }
  }

  /** The first usable mask in the retry order.  It hits the offender, spares every
      authorised member of the channel, and shares no string with an authorised mask. */
  method AutoBanMask(auth: Auth, me: string, roster: Option<seq<Member>>, banType: int, nuh: string)
    returns (r: Option<string>)
    ensures r.Some? ==> Matches(r.value, nuh) && BanAllowed(auth, me, roster, r.value)
    ensures r.Some? ==> exists i :: FirstUsable(auth, me, roster, [banType, 2, 0, 7, 5], i, nuh)
                                    && r == BanMask([banType, 2, 0, 7, 5][i], nuh)
    ensures r.None? ==> forall typ :: typ in [banType, 2, 0, 7, 5] ==> !Usable(auth, me, roster, typ, nuh)
  {
    hide Usable, BanMask, BanAllowed, Matches;
    var order := RetryOrder(banType);
    for i := 0 to |order|
      invariant forall j :: 0 <= j < i ==> !Usable(auth, me, roster, order[j], nuh)
    {
      if order[i] !in order[..i] {
        r := TryType(auth, me, roster, order[i], nuh);
        if r.Some? {
          assert FirstUsable(auth, me, roster, order, i, nuh);
          return;
        }
      }
    }
    return None;
  }
}
