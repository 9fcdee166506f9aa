/** What the check of a ban against the authorised masks is worth: it compares the patterns
    with a leading `~` of their idents dropped, and users are recognised with it. */
module BanSafety {
  import opened Text
  import opened Glob
  import opened BanMasks

  // ---- hostmasks -------------------------------------------------------------------

  /** A hostmask as the server writes it: one `!`, one `@`, and it fits its buffer. */
  predicate ServerHostmask(p: Parts) {
    OneOfEach(p) && p.user != "" && |Nuh(p)| < MAX_MASK_LEN
  }

  predicate OneOfEach(p: Parts) {
    '!' !in p.nick + p.user + p.host && '@' !in p.nick + p.user + p.host
  }

  lemma OneBang(p: Parts, k: nat)
    requires OneOfEach(p) && k < |Nuh(p)|
    ensures Nuh(p)[k] == '!' ==> k == |p.nick|
    ensures Nuh(p)[k] == '@' ==> k == |p.nick| + 1 + |p.user|
  {
  }

  /** A pattern with `!` or `@` inside: the text has that byte at the cut. */
  lemma CutMatch(p: string, c: char, rest: string, t: string) returns (k: nat)
    requires (c == '!' || c == '@') && Matches(p + [c] + rest, t)
    ensures k < |t| && t[k] == c && Matches(p, t[..k]) && Matches(rest, t[k + 1..])
  {
    assert p + [c] + rest == p + ([c] + rest);
    MatchesConcat(p, [c] + rest, t);
    k :| 0 <= k <= |t| && Matches(p, t[..k]) && Matches([c] + rest, t[k..]);
    LiteralPrefix([c], rest, t[k..]);
    var u := t[k..][..1];
    assert Fits([c][0], u[0]);
    assert t[k..][1..] == t[k + 1..];
  }

  /** A pattern in three parts describes a hostmask part by part. */
  lemma Decompose(n: string, u: string, h: string, q: Parts)
    requires OneOfEach(q) && Matches(n + "!" + u + "@" + h, Nuh(q))
    ensures Matches(n, q.nick) && Matches(u, q.user) && Matches(h, q.host)
  {
    var t := Nuh(q);
    var at := CutMatch(n + "!" + u, '@', h, t);
    OneBang(q, at);
    var front := q.nick + "!" + q.user;
    assert t[..at] == front && t[at + 1..] == q.host;
    var bang := CutMatch(n, '!', u, front);
    assert t[bang] == front[bang];
    OneBang(q, bang);
    assert front[..bang] == q.nick && front[bang + 1..] == q.user;
  }

  lemma Assemble(n: string, u: string, h: string, q: Parts)
    requires Matches(n, q.nick) && Matches(u, q.user) && Matches(h, q.host)
    ensures Matches(n + "!" + u + "@" + h, Nuh(q))
  {
    SelfMatch("!");
    SelfMatch("@");
    PartsMatch(n, q.nick, "!", "!");
    PartsMatch(n + "!", q.nick + "!", u, q.user);
    PartsMatch(n + "!" + u, q.nick + "!" + q.user, "@", "@");
    PartsMatch(n + "!" + u + "@", q.nick + "!" + q.user + "@", h, q.host);
  }

  lemma StripOfParts(n: string, u: string, h: string)
    requires '!' !in n
    ensures StripIdentTilde(n + "!" + u + "@" + h) == n + "!" + WithoutTilde(u) + "@" + h
  {
    var s := n + "!" + u + "@" + h;
    var rest := "!" + u + "@" + h;
    assert s == n + rest && Find(rest, '!') == 0;
    FindAfter(n, '!', rest);
    assert Find(s, '!') == |n|;
    if u != "" {
      assert s[|n| + 1] == u[0];
      if u[0] == '~' {
        assert s[..|n| + 1] + s[|n| + 2..] == n + "!" + u[1..] + "@" + h;
      }
    }
  }

  lemma TildeDropped(a: string, rest: string, q: Parts)
    requires ServerHostmask(q) && Matches(a + ['!'] + ("~" + rest), Nuh(q))
    ensures Matches(a + "!" + rest, StripIdentTilde(Nuh(q)))
  {
    hide StripIdentTilde, Matches;
    var k := CutMatch(a, '!', "~" + rest, Nuh(q));
    OneBang(q, k);
    var tail := q.user + "@" + q.host;
    assert Nuh(q)[..k] == q.nick && Nuh(q)[k + 1..] == tail;
    TildeHead(rest, tail);
    StripOfParts(q.nick, q.user, q.host);
    assert q.nick + "!" + tail[1..] == q.nick + "!" + WithoutTilde(q.user) + "@" + q.host;
    SelfMatch("!");
    PartsMatch(a, q.nick, "!", "!");
    PartsMatch(a + "!", q.nick + "!", rest, tail[1..]);
  }

  lemma TildeHead(rest: string, tail: string)
    requires Matches("~" + rest, tail)
    ensures tail != "" && tail[0] == '~' && Matches(rest, tail[1..])
  {
    LiteralPrefix("~", rest, tail);
    TildeFits(tail[0], tail[..1]);
  }

  /** A pattern with a `~` after its first `!`, cut there. */
  lemma StripCut(p: string) returns (a: string, rest: string)
    requires StripIdentTilde(p) != p
    ensures '!' !in a && p == a + ['!'] + ("~" + rest) && StripIdentTilde(p) == a + "!" + rest
  {
    var b := Find(p, '!');
    a, rest := p[..b], p[b + 2..];
  }

  /** A pattern that describes a hostmask describes it still, or describes it without the `~`,
      once its own `~` is dropped. */
  lemma StripMatches(p: string, q: Parts)
    requires ServerHostmask(q) && Matches(p, Nuh(q))
    ensures Matches(StripIdentTilde(p), Nuh(q)) || Matches(StripIdentTilde(p), StripIdentTilde(Nuh(q)))
  {
    hide StripIdentTilde, Matches, ServerHostmask;
    if StripIdentTilde(p) != p {
      var a, rest := StripCut(p);
      TildeDropped(a, rest, q);
    }
  }

  lemma TildeFits(c: char, u: string)
    requires u == [c] && AllFit("~", u)
    ensures c == '~'
  {
    assert Fits("~"[0], u[0]);
  }

  // ---- one mask, one hostmask --------------------------------------------------------

  /** No set of authorised masks the mask is clear of makes the hostmask authorised. */
  ghost predicate HostmaskSafe(mask: string, q: Parts) {
    forall auth :: ClearOfAuthorised(auth, mask) ==> !Authorised(auth, Nuh(q))
  }

  /** The mask without its `~` describes the hostmask both with its `~` and without. */
  ghost predicate SeenBothWays(mask: string, q: Parts) {
    Matches(StripIdentTilde(mask), Nuh(q)) && Matches(StripIdentTilde(mask), StripIdentTilde(Nuh(q)))
  }

  lemma BotSeen(auth: Auth, mask: string, q: Parts)
    requires ClearOfAuthorised(auth, mask) && ServerHostmask(q)
    requires Matches(StripIdentTilde(mask), StripIdentTilde(Nuh(q)))
    ensures !TrustedHost(auth, Nuh(q))
  {
    assert Trunc(Nuh(q), MAX_MASK_LEN) == Nuh(q);
    forall b | b in auth.bots
      ensures !Matches(StripIdentTilde(b.mask), StripIdentTilde(Nuh(q)))
    {
      assert !Overlaps(StripIdentTilde(mask), StripIdentTilde(b.mask));
    }
  }

  lemma UserSeen(auth: Auth, mask: string, q: Parts, m: MaskRecord)
    requires ClearOfAuthorised(auth, mask) && ServerHostmask(q) && SeenBothWays(mask, q)
    requires Standing(auth, m)
    ensures !Matches(m.mask, Nuh(q))
  {
    assert !Overlaps(StripIdentTilde(mask), StripIdentTilde(m.mask));
    if Matches(m.mask, Nuh(q)) {
      StripMatches(m.mask, q);
    }
  }

  lemma SeenIsSafe(mask: string, q: Parts)
    requires ServerHostmask(q) && SeenBothWays(mask, q)
    ensures HostmaskSafe(mask, q)
  {
    forall auth | ClearOfAuthorised(auth, mask) ensures !Authorised(auth, Nuh(q)) {
      BotSeen(auth, mask, q);
      forall m | Standing(auth, m) ensures !Matches(m.mask, Nuh(q)) {
        UserSeen(auth, mask, q, m);
      }
    }
  }

  // ---- hostmasks that are not seen ------------------------------------------------------

  predicate Plain(b: Parts) {
    forall c :: c in b.nick + b.user + b.host ==> c !in RESERVED
  }

  lemma PlainParts(b: Parts)
    requires Plain(b)
    ensures OneOfEach(b) && '?' !in b.nick + b.user + b.host
    ensures NoStar(Nuh(b)) && NoStar(b.nick) && NoStar(b.user) && NoStar(b.host)
  {
    var all := b.nick + b.user + b.host;
    assert '*' in RESERVED && '!' in RESERVED && '@' in RESERVED && '?' in RESERVED;
    forall i | 0 <= i < |Nuh(b)|
      ensures Nuh(b)[i] != '*'
    {
    }
    assert forall i :: 0 <= i < |b.nick| ==> b.nick[i] == all[i] && all[i] in all;
    assert forall i :: 0 <= i < |b.user| ==> b.user[i] == all[|b.nick| + i] && all[|b.nick| + i] in all;
    assert forall i :: 0 <= i < |b.host| ==> b.host[i] in all;
  }

  /** What fits a text letter for letter is described by the same patterns. */
  lemma {:induction false} CaseBlind(p: string, w: string, t: string)
    requires Matches(p, w) && AllFit(t, w) && '?' !in t
    ensures Matches(p, t)
    decreases |p|
  {
    if p != "" {
      if p[0] == '*' {
        var k :| 0 <= k <= |w| && Matches(p[1..], w[k..]);
        assert forall c :: c in t[k..] ==> c in t;
        CaseBlind(p[1..], w[k..], t[k..]);
      } else {
        assert t[0] in t && Fits(t[0], w[0]);
        assert forall c :: c in t[1..] ==> c in t;
        CaseBlind(p[1..], w[1..], t[1..]);
      }
    }
  }

  /** A literal text the pattern does not describe shares nothing with it. */
  lemma LiteralUnseen(p: string, t: string)
    requires NoStar(t) && '?' !in t && !Matches(p, t)
    ensures !Overlaps(p, t)
  {
    forall w ensures !(Matches(p, w) && Matches(t, w)) {
      LiteralText(t, w);
      if Matches(p, w) && AllFit(t, w) {
        CaseBlind(p, w, t);
      }
    }
  }

  /** A record of one active user. */
  function OneUser(mask: string): Auth {
    Auth([], [MaskRecord(mask, "id", true)], [UserRecord("name", "id", true)])
  }

  lemma OneUserIs(kept: string, mask: string, nuh: string)
    requires kept != "" && nuh != "" && Matches(kept, nuh)
    requires !MayShare(StripIdentTilde(mask), StripIdentTilde(kept))
    ensures ClearOfAuthorised(OneUser(kept), mask) && Authorised(OneUser(kept), nuh)
  {
    hide StripIdentTilde, MayShare, Matches;
    var auth := OneUser(kept);
    assert auth.users[0] in auth.users && auth.masks[0] in auth.masks;
    assert ActiveUser(auth, "id") && Standing(auth, auth.masks[0]);
  }

  lemma PlainText(q: Parts)
    requires Plain(q)
    ensures '?' !in Nuh(q) && NoStar(Nuh(q))
  {
    PlainParts(q);
  }

  /** The user keeps the hostmask itself; dropping its `~` hides it. */
  lemma OwnMaskUnseen(mask: string, q: Parts)
    requires ServerHostmask(q) && Plain(q) && |mask| <= OVERLAP_MAX
    requires !Matches(StripIdentTilde(mask), StripIdentTilde(Nuh(q)))
    ensures ClearOfAuthorised(OneUser(Nuh(q)), mask) && Authorised(OneUser(Nuh(q)), Nuh(q))
  {
    var bare := q.(user := WithoutTilde(q.user));
    assert forall c :: c in bare.nick + bare.user + bare.host ==> c in q.nick + q.user + q.host;
    PlainText(q);
    PlainText(bare);
    StripOfParts(q.nick, q.user, q.host);
    SelfMatch(Nuh(q));
    LiteralUnseen(StripIdentTilde(mask), Nuh(bare));
    OneUserIs(Nuh(q), mask, Nuh(q));
  }

  /** The hostmask with its `!` spelled `?`. */
  function Blurred(q: Parts): string {
    q.nick + "?" + q.user + "@" + q.host
  }

  lemma BlurredFits(q: Parts, w: string)
    requires Plain(q) && AllFit(Blurred(q), w)
    ensures w[|q.nick|] == '!' ==> AllFit(Nuh(q), w)
    ensures w[|q.nick|] != '!' ==> '!' !in w
  {
    var n, all := |q.nick|, q.nick + q.user + q.host;
    forall i | 0 <= i < |w| && i != n ensures Blurred(q)[i] == Nuh(q)[i] && w[i] != '!' {
      assert Blurred(q)[i] in all || Blurred(q)[i] == '@';
      assert '!' in RESERVED && '?' in RESERVED;
      assert Fits(Blurred(q)[i], w[i]);
    }
  }

  /** A pattern with a `!` that does not describe the hostmask shares nothing with its blurred form. */
  lemma BlurredShares(m: string, a: string, rest: string, q: Parts)
    requires Plain(q) && m == a + ['!'] + rest && !Matches(m, Nuh(q)) && NoStar(Blurred(q))
    ensures !Overlaps(m, Blurred(q))
  {
    PlainText(q);
    forall w ensures !(Matches(m, w) && Matches(Blurred(q), w)) {
      LiteralText(Blurred(q), w);
      if Matches(m, w) && AllFit(Blurred(q), w) {
        BlurredFits(q, w);
        var k := CutMatch(a, '!', rest, w);
        assert w[k] in w;
        CaseBlind(m, w, Nuh(q));
      }
    }
  }

  /** The user keeps the hostmask with `?` for its `!`: nothing is dropped from that, and the mask,
      once its `~` is dropped, has nothing in common with it. */
  lemma BlurredUnseen(mask: string, q: Parts)
    requires ServerHostmask(q) && Plain(q) && |mask| <= OVERLAP_MAX
    requires Matches(mask, Nuh(q)) && !Matches(StripIdentTilde(mask), Nuh(q))
    ensures ClearOfAuthorised(OneUser(Blurred(q)), mask) && Authorised(OneUser(Blurred(q)), Nuh(q))
  {
    hide Matches, NoStar;
    BlurredIs(q);
    var a, rest := StripCut(mask);
    BlurredShares(StripIdentTilde(mask), a, rest, q);
    OneUserIs(Blurred(q), mask, Nuh(q));
  }

  lemma BlurredIs(q: Parts)
    requires Plain(q)
    ensures NoStar(Blurred(q)) && Matches(Blurred(q), Nuh(q)) && StripIdentTilde(Blurred(q)) == Blurred(q)
    ensures |Blurred(q)| == |Nuh(q)|
  {
    PlainText(q);
    var n, all := |q.nick|, q.nick + q.user + q.host;
    forall i | 0 <= i < |Blurred(q)| ensures i == n || Blurred(q)[i] == Nuh(q)[i] {
    }
    forall i | 0 <= i < |Blurred(q)| ensures Blurred(q)[i] != '!' {
      assert i != n ==> Blurred(q)[i] in all || Blurred(q)[i] == '@';
      assert '!' in RESERVED;
    }
    LiteralText(Blurred(q), Nuh(q));
  }

  /** For every mask that hits a plain hostmask: whether the check keeps that hostmask safe. */
  lemma HostmaskSafeExactly(mask: string, q: Parts)
    requires ServerHostmask(q) && Plain(q) && |mask| <= OVERLAP_MAX && Matches(mask, Nuh(q))
    ensures HostmaskSafe(mask, q) <==> SeenBothWays(mask, q)
  {
    if SeenBothWays(mask, q) {
      SeenIsSafe(mask, q);
    } else if !Matches(StripIdentTilde(mask), StripIdentTilde(Nuh(q))) {
      OwnMaskUnseen(mask, q);
    } else {
      BlurredUnseen(mask, q);
    }
  }

  // ---- the masks of an offender ----------------------------------------------------------

  /** The ban keeps the ident behind a star, and the ident itself starts with two `~`. */
  predicate DoubleTilde(typ: int, user: string) {
    (typ % 5 == 1 || typ % 5 == 3) && |user| >= 2 && user[0] == '~' && user[1] == '~'
  }

  lemma IdentKeepsMatch(typ: int, user: string, seen: string)
    requires LiteralPart(user, MAX_IDENT) && Matches(IdentPart(typ, user), seen) && seen != ""
    requires !DoubleTilde(typ, user)
    ensures Matches(WithoutTilde(IdentPart(typ, user)), WithoutTilde(seen))
  {
    var u := IdentPart(typ, user);
    LiteralIdent(user);
    if typ % 5 == 0 {
      LiteralText(user, seen);
      LiteralText(WithoutTilde(user), WithoutTilde(seen));
      assert user[0] in user && '?' in RESERVED;
      assert Fits(user[0], seen[0]);
    } else if u == "*" {
      StarMatchesAll(WithoutTilde(seen));
    } else {
      var bare := WithoutTilde(user);
      assert u[1..] == bare;
      var k :| 0 <= k <= |seen| && Matches(bare, seen[k..]);
      LiteralText(bare, seen[k..]);
      assert '?' in RESERVED && (bare != "" ==> bare[0] in user);
      assert k == 0 ==> seen[k..][0] == seen[0];
      if seen[0] == '~' && k > 0 {
        assert seen[k..] == seen[1..][k - 1..];
      }
    }
  }

  lemma LiteralIdent(user: string)
    requires LiteralPart(user, MAX_IDENT)
    ensures NoStar(user) && NoStar(WithoutTilde(user))
  {
    assert '*' in RESERVED;
    assert forall i :: 0 <= i < |user| ==> user[i] in user;
  }

  /** The ban keeps an ident with a `~` as it is. */
  predicate BareTilde(typ: int, user: string) {
    typ % 5 == 0 && user != "" && user[0] == '~'
  }

  /** What the check promises for one offender and ban type: the mask never hits a
      hostmask that counts as a trusted bot's, `~` or not. */
  ghost predicate SparesBots(typ: int, nuh: string)
    requires BanMask(typ, nuh).Some?
  {
    forall auth, q ::
      (ClearOfAuthorised(auth, BanMask(typ, nuh).value) && ServerHostmask(q) && Matches(BanMask(typ, nuh).value, Nuh(q)))
      ==> !TrustedHost(auth, Nuh(q))
  }

  /** The same for everyone authorised, trusted bots and active users. */
  ghost predicate SparesAll(typ: int, nuh: string)
    requires BanMask(typ, nuh).Some?
  {
    forall q :: ServerHostmask(q) && Matches(BanMask(typ, nuh).value, Nuh(q)) ==> HostmaskSafe(BanMask(typ, nuh).value, q)
  }

  lemma MaskStrips(typ: int, p: Parts)
    requires LiteralParts(p)
    ensures StripIdentTilde(MaskOf(typ, p))
            == NickPart(typ, p.nick) + "!" + WithoutTilde(IdentPart(typ, p.user)) + "@" + HostPart(typ, p.host)
  {
    assert '!' in RESERVED && '!' !in NickPart(typ, p.nick);
    StripOfParts(NickPart(typ, p.nick), IdentPart(typ, p.user), HostPart(typ, p.host));
  }

  /** Unless the offender's ident has two `~` under a star, the hit without its `~` is seen; unless
      it has one that the mask keeps, so is the hit as it stands. */
  lemma MaskSees(typ: int, p: Parts, q: Parts)
    requires LiteralParts(p) && ServerHostmask(q) && Matches(MaskOf(typ, p), Nuh(q)) && !DoubleTilde(typ, p.user)
    ensures Matches(StripIdentTilde(MaskOf(typ, p)), StripIdentTilde(Nuh(q)))
    ensures !BareTilde(typ, p.user) ==> SeenBothWays(MaskOf(typ, p), q)
  {
    var n, u, h := NickPart(typ, p.nick), IdentPart(typ, p.user), HostPart(typ, p.host);
    Decompose(n, u, h, q);
    IdentKeepsMatch(typ, p.user, q.user);
    MaskStrips(typ, p);
    StripOfParts(q.nick, q.user, q.host);
    Assemble(n, WithoutTilde(u), h, q.(user := WithoutTilde(q.user)));
  }

  /** A host the widened part describes, made of the offender's own bytes. */
  lemma HostText(typ: int, host: string) returns (g: string)
    requires NoStar(host)
    ensures Matches(HostPart(typ, host), g)
    ensures |g| <= |HostPart(typ, host)| && forall c :: c in g ==> c in host
  {
    var w := HostPart(typ, host);
    WidenedShape(host);
    StarMatchesAll("");
    if w == host {
      g := host;
      SelfMatch(g);
    } else if k :| 0 <= k <= |host| && w == host[..k] + "*" {
      g := host[..k];
      assert g + "" == g;
      SelfMatch(g);
      PartsMatch(g, g, "*", "");
    } else {
      var k :| 0 <= k <= |host| && w == "*" + host[k..];
      g := host[k..];
      assert "" + g == g;
      SelfMatch(g);
      PartsMatch("*", "", g, g);
    }
  }

  /** A victim the mask hits: the offender, or with two `~` under a star the offender with one. */
  lemma Victim(typ: int, p: Parts) returns (q: Parts)
    requires LiteralParts(p) && |MaskOf(typ, p)| <= BAN_MASK_MAX
    requires DoubleTilde(typ, p.user) || BareTilde(typ, p.user)
    ensures Plain(q) && ServerHostmask(q) && Matches(MaskOf(typ, p), Nuh(q))
    ensures q.user == if BareTilde(typ, p.user) then p.user else p.user[1..]
  {
    assert Plain(p);
    PlainParts(p);
    var host := HostText(typ, p.host);
    q := Parts(p.nick, if BareTilde(typ, p.user) then p.user else p.user[1..], host);
    assert forall c :: c in q.nick + q.user + q.host ==> c in p.nick + p.user + p.host;
    PlainParts(q);
    VictimHit(typ, p, q);
    assert |IdentPart(typ, p.user)| >= |q.user|;
  }

  lemma VictimHit(typ: int, p: Parts, q: Parts)
    requires NoStar(p.nick) && NoStar(q.user) && q.nick == p.nick && Matches(HostPart(typ, p.host), q.host)
    requires IdentPart(typ, p.user) == q.user || IdentPart(typ, p.user) == "*" + q.user
    ensures Matches(MaskOf(typ, p), Nuh(q))
  {
    StarMatchesAll(p.nick);
    SelfMatch(p.nick);
    SelfMatch(q.user);
    StarMatchesAll("");
    PartsMatch("*", "", q.user, q.user);
    assert "" + q.user == q.user;
    Assemble(NickPart(typ, p.nick), IdentPart(typ, p.user), HostPart(typ, p.host), q);
  }

  lemma LongerIdent(bare: string, seen: string)
    requires NoStar(bare) && |seen| < |bare|
    ensures !Matches("*" + bare, seen)
  {
    assert ("*" + bare)[1..] == bare;
    forall k | 0 <= k <= |seen|
      ensures !Matches(bare, seen[k..])
    {
      LiteralText(bare, seen[k..]);
    }
  }

  /** Two `~` under a star: the mask does not describe the victim without its `~`. */
  lemma DoubleUnseen(typ: int, p: Parts, q: Parts)
    requires LiteralParts(p) && DoubleTilde(typ, p.user) && ServerHostmask(q) && q.user == p.user[1..]
    ensures !Matches(StripIdentTilde(MaskOf(typ, p)), StripIdentTilde(Nuh(q)))
  {
    var bare := q.(user := p.user[2..]);
    MaskStrips(typ, p);
    StripOfParts(q.nick, q.user, q.host);
    LiteralIdent(p.user);
    if Matches(StripIdentTilde(MaskOf(typ, p)), Nuh(bare)) {
      Decompose(NickPart(typ, p.nick), IdentPart(typ, p.user), HostPart(typ, p.host), bare);
      LongerIdent(p.user[1..], bare.user);
    }
  }

  /** A kept `~`: the mask without it does not describe the victim, who has it. */
  lemma BareUnseen(typ: int, p: Parts, q: Parts)
    requires LiteralParts(p) && BareTilde(typ, p.user) && ServerHostmask(q) && q.user == p.user
    ensures !Matches(StripIdentTilde(MaskOf(typ, p)), Nuh(q))
  {
    MaskStrips(typ, p);
    LiteralIdent(p.user);
    if Matches(StripIdentTilde(MaskOf(typ, p)), Nuh(q)) {
      Decompose(NickPart(typ, p.nick), p.user[1..], HostPart(typ, p.host), q);
      LiteralText(p.user[1..], p.user);
    }
  }

  lemma BotSpared(auth: Auth, typ: int, nuh: string, q: Parts)
    requires BanMask(typ, nuh).Some? && !DoubleTilde(typ, SplitNuh(nuh).value.user)
    requires ClearOfAuthorised(auth, BanMask(typ, nuh).value) && ServerHostmask(q)
    requires Matches(BanMask(typ, nuh).value, Nuh(q))
    ensures !TrustedHost(auth, Nuh(q))
  {
    MaskSees(typ, SplitNuh(nuh).value, q);
    BotSeen(auth, BanMask(typ, nuh).value, q);
  }

  lemma BotExposed(typ: int, nuh: string)
    requires BanMask(typ, nuh).Some? && DoubleTilde(typ, SplitNuh(nuh).value.user)
    ensures !SparesBots(typ, nuh)
  {
    hide Matches, StripIdentTilde, ClearOfAuthorised, TrustedHost, ServerHostmask, LiteralParts, Plain;
    var p := SplitNuh(nuh).value;
    var q := Victim(typ, p);
    DoubleUnseen(typ, p, q);
    BotUnseen(MaskOf(typ, p), q);
  }

  /** The exact condition under which the check keeps trusted bots safe. */
  lemma SparesBotsExactly(typ: int, nuh: string)
    requires BanMask(typ, nuh).Some?
    ensures SparesBots(typ, nuh) <==> !DoubleTilde(typ, SplitNuh(nuh).value.user)
  {
    hide DoubleTilde, Matches, TrustedHost, ClearOfAuthorised, ServerHostmask;
    if DoubleTilde(typ, SplitNuh(nuh).value.user) {
      BotExposed(typ, nuh);
    } else {
      forall auth, q | ClearOfAuthorised(auth, BanMask(typ, nuh).value) && ServerHostmask(q)
                       && Matches(BanMask(typ, nuh).value, Nuh(q))
        ensures !TrustedHost(auth, Nuh(q))
      {
        BotSpared(auth, typ, nuh, q);
      }
    }
  }

  /** A trusted bot that keeps its own hostmask, and is not seen. */
  lemma BotUnseen(mask: string, q: Parts)
    requires ServerHostmask(q) && Plain(q)
    requires !Matches(StripIdentTilde(mask), StripIdentTilde(Nuh(q))) && |mask| <= OVERLAP_MAX
    ensures var auth := Auth([TrustedBot(Nuh(q), "")], [], []);
            ClearOfAuthorised(auth, mask) && TrustedHost(auth, Nuh(q))
  {
    var auth, bare := Auth([TrustedBot(Nuh(q), "")], [], []), q.(user := WithoutTilde(q.user));
    assert forall c :: c in bare.nick + bare.user + bare.host ==> c in q.nick + q.user + q.host;
    PlainText(bare);
    PlainParts(q);
    StripOfParts(q.nick, q.user, q.host);
    SelfMatch(Nuh(bare));
    LiteralUnseen(StripIdentTilde(mask), Nuh(bare));
    assert auth.bots[0] in auth.bots && Trunc(Nuh(q), MAX_MASK_LEN) == Nuh(q);
  }

  /** And everyone authorised: the ident has no two `~` under a star, and no `~` that the mask
      keeps as it is. */
  lemma SparesAllExactly(typ: int, nuh: string)
    requires BanMask(typ, nuh).Some?
    ensures var user := SplitNuh(nuh).value.user;
            SparesAll(typ, nuh) <==> !DoubleTilde(typ, user) && !BareTilde(typ, user)
  {
    var p := SplitNuh(nuh).value;
    if DoubleTilde(typ, p.user) {
      var q := Victim(typ, p);
      DoubleUnseen(typ, p, q);
      HostmaskSafeExactly(MaskOf(typ, p), q);
    } else if BareTilde(typ, p.user) {
      var q := Victim(typ, p);
      BareUnseen(typ, p, q);
      HostmaskSafeExactly(MaskOf(typ, p), q);
    } else {
      forall q | ServerHostmask(q) && Matches(BanMask(typ, nuh).value, Nuh(q))
        ensures HostmaskSafe(BanMask(typ, nuh).value, q)
      {
        MaskSees(typ, p, q);
        SeenIsSafe(BanMask(typ, nuh).value, q);
      }
    }
  }
}
