/** The ban table over whole runs. */
module BanRuns {
  import Counting
  import opened Text
  import opened BanCodec
  import opened Stamps
  import opened BanTable

  datatype Op = Offer(b: Ban) | PurgeTo(cutoff: nat)

  function Apply(bans: seq<Ban>, op: Op): seq<Ban> {
    match op
    case Offer(b) => Store(bans, b)
    case PurgeTo(cutoff) => Purge(bans, cutoff)
  }

  function Run(bans: seq<Ban>, ops: seq<Op>): seq<Ban> {
    if ops == [] then bans else Apply(Run(bans, ops[..|ops| - 1]), ops[|ops| - 1])
  }

  /** Keys stay unique ignoring case; live bans stay within the cap of their channel, or of
      every channel; the table stays within its size. */
  lemma {:induction false} RunSound(bans: seq<Ban>, ops: seq<Op>)
    requires Sound(bans)
    ensures Sound(Run(bans, ops))
  {
    if ops != [] {
      var n := |ops| - 1;
      RunSound(bans, ops[..n]);
      match ops[n]
      case Offer(b) => StoreSound(Run(bans, ops[..n]), b);
      case PurgeTo(cutoff) => PurgeSound(Run(bans, ops[..n]), 0, cutoff);
    }
  }

  lemma EmptySound()
    ensures Sound([])
  {
  }

  /** From the empty table on. */
  lemma RunFromEmpty(ops: seq<Op>)
    ensures Sound(Run([], ops))
  {
    EmptySound();
    RunSound([], ops);
  }

  // ---- what a purge removes --------------------------------------------------------------

  lemma SwapRemoveIs(bans: seq<Ban>, i: nat)
    requires i < |bans|
    ensures multiset(Counting.SwapRemove(bans, i)) == multiset(bans) - multiset{bans[i]}
  {
    var n := |bans| - 1;
    assert bans == bans[..n] + [bans[n]];
  }

  lemma {:induction false} PurgeFromIs(bans: seq<Ban>, i: nat, cutoff: nat, b: Ban)
    requires i <= |bans|
    requires forall j :: 0 <= j < i ==> !Doomed(bans[j], cutoff)
    ensures multiset(PurgeFrom(bans, i, cutoff))[b] == if Doomed(b, cutoff) then 0 else multiset(bans)[b]
    decreases |bans| - i
  {
    if i < |bans| {
      if Doomed(bans[i], cutoff) {
        SwapRemoveIs(bans, i);
        PurgeFromIs(Counting.SwapRemove(bans, i), i, cutoff, b);
      } else {
        PurgeFromIs(bans, i + 1, cutoff, b);
      }
    } else {
      assert Doomed(b, cutoff) ==> b !in bans;
    }
  }

  /** A purge takes away every tombstone stamped before the cutoff, or with no cutoff every one, and
      nothing else: each other record is there as often as before. */
  lemma PurgeIs(bans: seq<Ban>, cutoff: nat, b: Ban)
    ensures multiset(Purge(bans, cutoff))[b]
            == if !b.active && (cutoff == 0 || b.ts < cutoff) then 0 else multiset(bans)[b]
    ensures b in Purge(bans, cutoff) <==> b in bans && !Doomed(b, cutoff)
  {
    PurgeFromIs(bans, 0, cutoff, b);
    assert b in Purge(bans, cutoff) <==> b in multiset(Purge(bans, cutoff));
    assert b in bans <==> b in multiset(bans);
  }

  // ---- what a store leaves alone ---------------------------------------------------------

  lemma KeyAt(bans: seq<Ban>, i: nat, b: Ban)
    requires Unique(bans) && i < |bans| && SameKey(bans[i], b)
    ensures FindKey(bans, b) == i
  {
    var f := FindKey(bans, b);
    if f < i {
      assert SameKey(bans[f], bans[i]);
    }
  }

  /** A record that is gone was replaced by a later one of its own key, or was the oldest
      tombstone of a full table; so a live ban never makes room for another. */
  lemma StoreDrops(bans: seq<Ban>, b: Ban, x: Ban)
    requires Unique(bans) && x in bans && x !in Store(bans, b)
    ensures b in Store(bans, b)
    ensures SameKey(x, b) ==> LwwAccepts(b.ts, b.active, x.ts, x.active)
    ensures !SameKey(x, b) ==>
              !x.active && |bans| >= CFG_MAX_BANS && forall y :: y in bans && !y.active ==> x.ts <= y.ts
  {
    var k :| 0 <= k < |bans| && bans[k] == x;
    var stored, f := Store(bans, b), FindKey(bans, b);
    if stored == bans + [b] {
      assert false;
    } else if SameKey(x, b) {
      KeyAt(bans, k, b);
      assert stored[k] == b;
    } else {
      var o := if f < |bans| then f else OldestTomb(bans).value;
      assert stored == bans[o := b];
      assert stored[o] == b;
      assert forall j :: 0 <= j < |stored| && j != o ==> stored[j] == bans[j] && bans[j] in stored;
    }
  }

  lemma StoreFrom(bans: seq<Ban>, b: Ban, y: Ban)
    requires y in Store(bans, b)
    ensures y in bans || y == b
  {
  }

  lemma OneOfAKey(bans: seq<Ban>, x: Ban, y: Ban)
    requires Unique(bans) && x in bans && y in bans && SameKey(x, y)
    ensures x == y
  {
    var k :| 0 <= k < |bans| && bans[k] == x;
    KeyAt(bans, k, y);
    var m :| 0 <= m < |bans| && bans[m] == y;
    KeyAt(bans, m, y);
  }

  /** For a key present before and after, the record is the same one or a later: a greater
      stamp, or a tombstone over a live ban of the same stamp. */
  lemma StoreRises(bans: seq<Ban>, b: Ban, x: Ban, y: Ban)
    requires Unique(bans) && x in bans && y in Store(bans, b) && SameKey(x, y)
    ensures y == x || LwwAccepts(y.ts, y.active, x.ts, x.active)
  {
    StoreFrom(bans, b, y);
    if y in bans {
      OneOfAKey(bans, x, y);
    } else {
      var k :| 0 <= k < |bans| && bans[k] == x;
      KeyAt(bans, k, b);
    }
  }

  // ---- live bans over a run ----------------------------------------------------------------

  /** The record held for the key of `x`, if any. */
  function Held(bans: seq<Ban>, x: Ban): Option<Ban> {
    var i := FindKey(bans, x);
    if i < |bans| then Some(bans[i]) else None
  }

  /** No record of the run deletes the key of `x`. */
  predicate Undeleted(ops: seq<Op>, x: Ban) {
    forall op :: op in ops ==> op.PurgeTo? || op.b.active || !SameKey(x, op.b)
  }

  /** Live, and stamped no earlier than `x`. */
  predicate LiveSince(bans: seq<Ban>, x: Ban) {
    var h := Held(bans, x);
    h.Some? && h.value.active && h.value.ts >= x.ts
  }

  lemma HeldIs(bans: seq<Ban>, x: Ban, y: Ban)
    requires Unique(bans) && y in bans && SameKey(y, x)
    ensures Held(bans, x) == Some(y)
  {
    var k :| 0 <= k < |bans| && bans[k] == y;
    KeyAt(bans, k, x);
  }

  lemma StepKeepsLive(bans: seq<Ban>, op: Op, x: Ban)
    requires Sound(bans) && LiveSince(bans, x)
    requires op.Offer? && SameKey(x, op.b) ==> op.b.active
    ensures LiveSince(Apply(bans, op), x)
  {
    var h := Held(bans, x).value;
    match op
    case PurgeTo(cutoff) =>
      PurgeIs(bans, cutoff, h);
      PurgeSound(bans, 0, cutoff);
      HeldIs(Purge(bans, cutoff), x, h);
    case Offer(b) =>
      StoreSound(bans, b);
      if h in Store(bans, b) {
        HeldIs(Store(bans, b), x, h);
      } else {
        StoreDrops(bans, b, h);
        HeldIs(Store(bans, b), x, b);
      }
  }

  /** A live ban no record deletes is live after any run, under its own stamp or a later one:
      neither room for others nor a purge takes it. */
  lemma {:induction false} RunKeepsLive(bans: seq<Ban>, ops: seq<Op>, x: Ban)
    requires Sound(bans) && LiveSince(bans, x) && Undeleted(ops, x)
    ensures LiveSince(Run(bans, ops), x)
  {
    if ops != [] {
      var n := |ops| - 1;
      assert ops[n] in ops && forall op :: op in ops[..n] ==> op in ops;
      RunKeepsLive(bans, ops[..n], x);
      RunSound(bans, ops[..n]);
      StepKeepsLive(Run(bans, ops[..n]), ops[n], x);
    }
  }

  // ---- room --------------------------------------------------------------------------------

  /** Live bans on the listed channels, channel by channel. */
  function LiveTotal(bans: seq<Ban>, chans: seq<string>): nat {
    if chans == [] then 0 else LiveTotal(bans, chans[..|chans| - 1]) + LiveCount(bans, chans[|chans| - 1])
  }

  /** Every ban is on one of the listed channels. */
  predicate OnListed(bans: seq<Ban>, chans: seq<string>) {
    forall b :: b in bans ==> Listed(b.chan, chans)
  }

  predicate Listed(chan: string, chans: seq<string>) {
    exists i :: 0 <= i < |chans| && EqIc(chan, chans[i])
  }

  lemma {:induction false} TotalMore(bans: seq<Ban>, b: Ban, chans: seq<string>)
    requires b.active
    ensures LiveTotal(bans + [b], chans) >= LiveTotal(bans, chans)
    ensures Listed(b.chan, chans) ==> LiveTotal(bans + [b], chans) >= LiveTotal(bans, chans) + 1
  {
    if chans != [] {
      var n := |chans| - 1;
      TotalMore(bans, b, chans[..n]);
      CountMore(bans, b, chans[n]);
      if Listed(b.chan, chans) && !EqIc(b.chan, chans[n]) {
        var i :| 0 <= i < |chans| && EqIc(b.chan, chans[i]);
        assert chans[..n][i] == chans[i];
      }
    }
  }

  /** With only live bans, all on listed channels, the counts add up to the table. */
  lemma {:induction false} TotalCoversAll(bans: seq<Ban>, chans: seq<string>)
    requires forall b :: b in bans ==> b.active
    requires OnListed(bans, chans)
    ensures |bans| <= LiveTotal(bans, chans)
  {
    if bans != [] {
      var n := |bans| - 1;
      assert bans == bans[..n] + [bans[n]] && bans[n] in bans;
      assert forall b :: b in bans[..n] ==> b in bans;
      TotalCoversAll(bans[..n], chans);
      TotalMore(bans[..n], bans[n], chans);
    }
  }

  lemma {:induction false} TotalCapped(bans: seq<Ban>, chans: seq<string>)
    requires Sound(bans)
    ensures LiveTotal(bans, chans) <= 100 * |chans|
    ensures (exists c :: c in chans && LiveCount(bans, c) < 100) ==> LiveTotal(bans, chans) < 100 * |chans|
  {
    if chans != [] {
      var n := |chans| - 1;
      assert chans == chans[..n] + [chans[n]];
      TotalCapped(bans, chans[..n]);
      assert LiveCount(bans, chans[n]) <= CapOf(chans[n]);
    }
  }

  /** With at most as many channels as the network may have, the table never refuses a ban that
      its channel has room for: the size of the table is just enough. */
  lemma RoomSuffices(bans: seq<Ban>, chans: seq<string>, b: Ban)
    requires Sound(bans) && |chans| <= CFG_MAX_CHANNELS
    requires OnListed(bans, chans + ["*"]) && Listed(b.chan, chans + ["*"])
    requires b.active && LiveRoom(bans, b.chan) && FindKey(bans, b) == |bans|
    ensures b in Store(bans, b)
  {
    if |bans| == CFG_MAX_BANS && OldestTomb(bans).None? {
      var all := chans + ["*"];
      TotalCoversAll(bans, all);
      var i :| 0 <= i < |all| && EqIc(b.chan, all[i]);
      CountIc(bans, b.chan, all[i]);
      assert all[i] in all && LiveCount(bans, all[i]) < 100;
      TotalCapped(bans, all);
      assert false;
    }
    var stored := Store(bans, b);
    if |bans| < CFG_MAX_BANS {
      assert stored[|bans|] == b;
    } else {
      assert stored[OldestTomb(bans).value] == b;
    }
  }
}
