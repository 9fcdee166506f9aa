/** The live ban list: what adding and lifting a ban do to it, and what every MODE text keeps. */
module LiveList {
  import Counting
  import opened Text
  import opened ModeLines
  import opened LiveModes

  predicate Listed(bans: seq<LiveBan>, mask: string) {
    exists i :: 0 <= i < |bans| && EqIc(bans[i].mask, mask)
  }

  /** No mask twice, up to case, and no more than the cap. */
  predicate ListOk(isup: Isupport, bans: seq<LiveBan>) {
    && |bans| <= BanCap(isup)
    && forall i, j :: 0 <= i < j < |bans| ==> !EqIc(bans[i].mask, bans[j].mask)
  }

  /** What the server allows on a list, 100 where it does not say, and never more than 200. */
  lemma CapIs(isup: Isupport)
    ensures isup.maxlistB <= 0 ==> BanCap(isup) == 100
    ensures 1 <= isup.maxlistB <= 200 ==> BanCap(isup) == isup.maxlistB
    ensures isup.maxlistB > 200 ==> BanCap(isup) == 200
  {
  }

  predicate Storable(mask: string) {
    0 < |mask| < MAX_MASK_LEN
  }

  /** Adding: the list keeps what it has, in order; the mask is on it afterwards exactly when it
      was before or can be stored and there is room; the overflow mark says when there was not. */
  lemma BanAddMeans(isup: Isupport, live: Live, mask: string, when: int)
    ensures var r := WithBan(isup, live, mask, when);
            && r == live.(bans := r.bans, overflow := r.overflow) && live.bans <= r.bans
            && (Listed(r.bans, mask) <==> Listed(live.bans, mask) || (Storable(mask) && |live.bans| < BanCap(isup)))
            && (r.overflow <==> live.overflow
                                || (Storable(mask) && !Listed(live.bans, mask) && |live.bans| >= BanCap(isup)))
            && (ListOk(isup, live.bans) ==> ListOk(isup, r.bans))
  {
    hide Lower;
    var r := WithBan(isup, live, mask, when);
    if |r.bans| > |live.bans| {
      assert r.bans[|live.bans|].mask == mask;
    } else {
      assert r.bans == live.bans;
    }
  }

  /** Lifting: exactly the entry of that mask goes, if there is one. */
  lemma BanDelMeans(isup: Isupport, live: Live, mask: string, other: string)
    requires ListOk(isup, live.bans)
    ensures var r := WithoutBan(live, mask);
            && r == live.(bans := r.bans) && ListOk(isup, r.bans)
            && (Listed(r.bans, other) <==> Listed(live.bans, other) && !EqIc(other, mask))
            && (forall b :: b in r.bans <==> b in live.bans && !EqIc(b.mask, mask))
  {
    hide Lower;
    var r, i := WithoutBan(live, mask).bans, BanIndex(live.bans, mask);
    if i < |live.bans| {
      Removed(live.bans, i, mask);
    }
    forall b ensures b in r <==> b in live.bans && !EqIc(b.mask, mask) {
    }
    if Listed(r, other) {
      var k :| 0 <= k < |r| && EqIc(r[k].mask, other);
      assert r[k] in live.bans;
    }
    if Listed(live.bans, other) && !EqIc(other, mask) {
      var k :| 0 <= k < |live.bans| && EqIc(live.bans[k].mask, other);
      assert live.bans[k] in r;
    }
  }

  lemma Removed(bans: seq<LiveBan>, i: nat, mask: string)
    requires i < |bans| && EqIc(bans[i].mask, mask)
    requires forall j, k :: 0 <= j < k < |bans| ==> !EqIc(bans[j].mask, bans[k].mask)
    ensures var r := Counting.SwapRemove(bans, i);
            && (forall b :: b in r <==> b in bans && !EqIc(b.mask, mask))
            && forall j, k :: 0 <= j < k < |r| ==> !EqIc(r[j].mask, r[k].mask)
  {
    hide Lower;
    var r, n := Counting.SwapRemove(bans, i), |bans| - 1;
    forall k | 0 <= k < |bans| && k != i ensures bans[k] in r {
      assert r[if k == n then i else k] == bans[k];
    }
    forall j, k | 0 <= j < k < |r| ensures !EqIc(r[j].mask, r[k].mask) {
      assert r[k] == bans[if k == i then n else k] && r[j] == bans[if j == i then n else j];
    }
  }

  lemma ChangeKeeps(isup: Isupport, live: Live, c: Change, from324: bool, now: int)
    requires ListOk(isup, live.bans)
    ensures ListOk(isup, ApplyChange(isup, live, c, from324, now).bans)
  {
    hide ListOk, WithBan, WithoutBan, EqIc, BanCap;
    if c.arg.Some? {
      BanAddMeans(isup, live, c.arg.value, now);
      BanDelMeans(isup, live, c.arg.value, "");
    }
  }

  lemma {:induction false} AllKeep(isup: Isupport, live: Live, cs: seq<Change>, from324: bool, now: int)
    requires ListOk(isup, live.bans)
    ensures ListOk(isup, ApplyAll(isup, live, cs, from324, now).bans)
    decreases |cs|
  {
    if cs != [] {
      ChangeKeeps(isup, live, cs[0], from324, now);
      AllKeep(isup, ApplyChange(isup, live, cs[0], from324, now), cs[1..], from324, now);
    }
  }

  /** Whatever MODE text or mode reply comes, the list keeps its cap and stays without repeats. */
  lemma TextKeepsList(isup: Isupport, live: Live, modes: string, args: string, from324: bool, now: int)
    requires ListOk(isup, live.bans)
    ensures ListOk(isup, ApplyText(isup, live, modes, args, from324, now).bans)
  {
    AllKeep(isup, if from324 then Reset(live) else live, Read(Rule(isup), modes, Tokens(args), true), from324, now);
  }
}
