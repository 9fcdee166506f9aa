/** Who is authorised: what counts and what does not. */
module Authority {
  import opened Text
  import opened Glob
  import opened BanMasks
  import opened BanSafety

  /** A trusted bot's mask, or an active mask of an active user, describes the hostmask. */
  lemma AuthorisedExactly(auth: Auth, nuh: string)
    ensures Authorised(auth, nuh)
            <==> nuh != "" &&
                 (TrustedHost(auth, nuh) ||
                  exists i, k :: 0 <= i < |auth.masks| && 0 <= k < |auth.users| && Speaks(auth.masks[i], auth.users[k], nuh))
  {
    hide Matches;
    if m :| Standing(auth, m) && Matches(m.mask, nuh) {
      var u :| u in auth.users && u.active && u.uuid == m.uuid;
      var i :| 0 <= i < |auth.masks| && auth.masks[i] == m;
      var k :| 0 <= k < |auth.users| && auth.users[k] == u;
      assert Speaks(auth.masks[i], auth.users[k], nuh);
    }
    forall i, k | 0 <= i < |auth.masks| && 0 <= k < |auth.users| && Speaks(auth.masks[i], auth.users[k], nuh)
      ensures Standing(auth, auth.masks[i]) && Matches(auth.masks[i].mask, nuh)
    {
      assert auth.users[k] in auth.users && auth.masks[i] in auth.masks;
    }
  }

  ghost predicate Speaks(m: MaskRecord, u: UserRecord, nuh: string) {
    m.active && u.active && m.uuid == u.uuid && m.mask != "" && Matches(m.mask, nuh)
  }

  /** A `~` before the ident, which a server puts there without ident service, makes no difference for a
      trusted bot. */
  lemma BotTildeIgnored(auth: Auth, q: Parts)
    requires '!' !in q.nick && (q.user == "" || q.user[0] != '~') && |Nuh(q)| + 1 < 256
    ensures TrustedHost(auth, Nuh(q.(user := "~" + q.user))) <==> TrustedHost(auth, Nuh(q))
  {
    hide Matches, StripIdentTilde;
    var t := q.(user := "~" + q.user);
    StripOfParts(q.nick, q.user, q.host);
    StripOfParts(t.nick, t.user, t.host);
    assert WithoutTilde(t.user) == q.user;
    assert Trunc(Nuh(q), MAX_MASK_LEN) == Nuh(q) && Trunc(Nuh(t), MAX_MASK_LEN) == Nuh(t);
  }

  /** Nor does a `~` in the bot's own mask. */
  lemma MaskTildeIgnored(mask: Parts, uuid: string, nuh: string)
    requires '!' !in mask.nick && (mask.user == "" || mask.user[0] != '~')
    ensures TrustedHost(Auth([TrustedBot(Nuh(mask.(user := "~" + mask.user)), uuid)], [], []), nuh)
            <==> TrustedHost(Auth([TrustedBot(Nuh(mask), uuid)], [], []), nuh)
  {
    hide Matches, StripIdentTilde;
    var t := mask.(user := "~" + mask.user);
    StripOfParts(mask.nick, mask.user, mask.host);
    StripOfParts(t.nick, t.user, t.host);
    assert WithoutTilde(t.user) == mask.user;
    var a, b := Auth([TrustedBot(Nuh(t), uuid)], [], []), Auth([TrustedBot(Nuh(mask), uuid)], [], []);
    assert a.bots[0] in a.bots && b.bots[0] in b.bots;
  }
}
