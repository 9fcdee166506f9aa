/** The table of network bans: last writer wins per channel and mask, caps on live bans, room
    made by reusing the oldest tombstone, tombstones purged on the hub's word. */
module BanTable {
  import Counting
  import opened Text
  import opened BanCodec
  import opened Stamps

  const MAX_BANS_PER_CHAN := 100
  const MAX_GLOBAL_BANS := 100
  const CFG_MAX_CHANNELS := 64
  const CFG_MAX_BANS := MAX_GLOBAL_BANS + CFG_MAX_CHANNELS * MAX_BANS_PER_CHAN

  // ---- the operations ----------------------------------------------------------------

  predicate SameKey(a: Ban, b: Ban) {
    EqIc(a.chan, b.chan) && EqIc(a.mask, b.mask)
  }

  /** The first record with the key of `b`; the table size when there is none. */
  function FindKey(bans: seq<Ban>, b: Ban): (i: nat)
    ensures i <= |bans|
    ensures i < |bans| ==> SameKey(bans[i], b)
    ensures forall j :: 0 <= j < i ==> !SameKey(bans[j], b)
  {
    if bans == [] then 0 else if SameKey(bans[0], b) then 0 else 1 + FindKey(bans[1..], b)
  }

  predicate LiveOn(b: Ban, chan: string) {
    b.active && EqIc(b.chan, chan)
  }

  function LiveCount(bans: seq<Ban>, chan: string): nat {
    if bans == [] then 0
    else LiveCount(bans[..|bans| - 1], chan) + if LiveOn(bans[|bans| - 1], chan) then 1 else 0
  }

  function CapOf(chan: string): nat {
    if chan == "*" then MAX_GLOBAL_BANS else MAX_BANS_PER_CHAN
  }

  predicate LiveRoom(bans: seq<Ban>, chan: string) {
    LiveCount(bans, chan) < CapOf(chan)
  }

  /** The first tombstone stamped longest ago. */
  function OldestTomb(bans: seq<Ban>): (o: Option<nat>)
    ensures o.Some? ==> o.value < |bans| && !bans[o.value].active
    ensures o.Some? ==> forall j :: 0 <= j < |bans| && !bans[j].active ==> bans[o.value].ts <= bans[j].ts
    ensures o.None? ==> forall j :: 0 <= j < |bans| ==> bans[j].active
  {
    if bans == [] then None
    else
      var n := |bans| - 1;
      var o := OldestTomb(bans[..n]);
      assert forall j :: 0 <= j < n ==> bans[..n][j] == bans[j];
      if !bans[n].active && (o.None? || bans[n].ts < bans[o.value].ts) then Some(n) else o
  }

  function Store(bans: seq<Ban>, b: Ban): seq<Ban> {
    var i := FindKey(bans, b);
    if i < |bans| then
      if !LwwAccepts(b.ts, b.active, bans[i].ts, bans[i].active) then bans
      else if b.active && !bans[i].active && !LiveRoom(bans, b.chan) then bans
      else bans[i := b]
    else if b.active && !LiveRoom(bans, b.chan) then bans
    else if |bans| < CFG_MAX_BANS then bans + [b]
    else
      match OldestTomb(bans)
      case None => bans
      case Some(o) => bans[o := b]
  }

  predicate Doomed(b: Ban, cutoff: nat) {
    !b.active && (cutoff == 0 || b.ts < cutoff)
  }

  function PurgeFrom(bans: seq<Ban>, i: nat, cutoff: nat): seq<Ban>
    requires i <= |bans|
    decreases |bans| - i
  {
    if i == |bans| then bans
    else if Doomed(bans[i], cutoff) then PurgeFrom(Counting.SwapRemove(bans, i), i, cutoff)
    else PurgeFrom(bans, i + 1, cutoff)
  }

  function Purge(bans: seq<Ban>, cutoff: nat): seq<Ban> {
    PurgeFrom(bans, 0, cutoff)
  }

  class Table {
    var bans: seq<Ban>

    constructor ()
      ensures bans == []
    {
      bans := [];
    }

    method Room(chan: string) returns (room: bool)
      ensures room == LiveRoom(bans, chan)
    {
      var n, k := 0, 0;
      while k < |bans|
        invariant k <= |bans| && n == LiveCount(bans[..k], chan)
      {
        assert bans[..k + 1][..k] == bans[..k];
        if bans[k].active && EqIc(bans[k].chan, chan) {
          n := n + 1;
        }
        k := k + 1;
      }
      assert bans[..k] == bans;
      room := n < if chan == "*" then MAX_GLOBAL_BANS else MAX_BANS_PER_CHAN;
    }

    method Position(b: Ban) returns (i: nat)
      ensures i == FindKey(bans, b)
    {
      i := 0;
      while i < |bans| && !(EqIc(bans[i].chan, b.chan) && EqIc(bans[i].mask, b.mask))
        invariant i <= |bans| && forall j :: 0 <= j < i ==> !SameKey(bans[j], b)
      {
        i := i + 1;
      }
    }

    /** A place past the end, or the oldest tombstone's. */
    method Slot() returns (slot: Option<nat>)
      ensures slot == if |bans| < CFG_MAX_BANS then Some(|bans|) else OldestTomb(bans)
    {
      if |bans| < CFG_MAX_BANS {
        return Some(|bans|);
      }
      slot := None;
      var k := 0;
      while k < |bans|
        invariant k <= |bans| && slot == OldestTomb(bans[..k])
      {
        assert bans[..k + 1][..k] == bans[..k];
        if !bans[k].active && (slot.None? || bans[k].ts < bans[slot.value].ts) {
          slot := Some(k);
        }
        k := k + 1;
      }
      assert bans[..k] == bans;
    }

    method StoreBan(b: Ban) returns (changed: bool)
      modifies this
      ensures bans == Store(old(bans), b)
      ensures changed <==> bans != old(bans)
    {
      var i := Position(b);
      if i < |bans| {
        if !LwwAccepts(b.ts, b.active, bans[i].ts, bans[i].active) {
          return false;
        }
        if b.active && !bans[i].active {
          var room := Room(b.chan);
          if !room {
            return false;
          }
        }
        bans := bans[i := b];
        assert bans[i] != old(bans)[i];
        return true;
      }
      if b.active {
        var room := Room(b.chan);
        if !room {
          return false;
        }
      }
      var slot := Slot();
      if slot.None? {
        return false;
      }
      assert SameKey(b, b);
      if slot.value < |bans| {
        bans := bans[slot.value := b];
        assert bans[slot.value] == b != old(bans)[slot.value];
      } else {
        bans := bans + [b];
      }
      changed := true;
    }

    method ApplyLine(data: string) returns (changed: bool)
      modifies this
      ensures bans == if ParseB(data).None? then old(bans) else Store(old(bans), ParseB(data).value)
      ensures changed <==> bans != old(bans)
    {
      var b := ParseLine(data);
      if b.None? {
        return false;
      }
      changed := StoreBan(b.value);
    }

    method PurgeBans(cutoff: nat) returns (removed: nat)
      modifies this
      ensures bans == Purge(old(bans), cutoff)
      ensures removed == |old(bans)| - |bans|
    {
      removed := 0;
      var i := 0;
      while i < |bans|
        invariant i <= |bans|
        invariant PurgeFrom(bans, i, cutoff) == Purge(old(bans), cutoff)
        invariant removed == |old(bans)| - |bans|
        decreases |bans| - i
      {
        if !bans[i].active && (cutoff == 0 || bans[i].ts < cutoff) {
          bans := Counting.SwapRemove(bans, i);
          removed := removed + 1;
        } else {
          i := i + 1;
        }
      }
    }
  }

  // ---- what every step keeps ---------------------------------------------------------------

  predicate Unique(bans: seq<Ban>) {
    forall i, j :: 0 <= i < j < |bans| ==> !SameKey(bans[i], bans[j])
  }

  ghost predicate Sound(bans: seq<Ban>) {
    && Unique(bans)
    && |bans| <= CFG_MAX_BANS
    && forall chan :: LiveCount(bans, chan) <= CapOf(chan)
  }

  lemma {:induction false} CountPut(bans: seq<Ban>, i: nat, b: Ban, chan: string)
    requires i < |bans|
    ensures LiveCount(bans[i := b], chan) + (if LiveOn(bans[i], chan) then 1 else 0)
            == LiveCount(bans, chan) + (if LiveOn(b, chan) then 1 else 0)
  {
    var n := |bans| - 1;
    if i < n {
      CountPut(bans[..n], i, b, chan);
      assert bans[i := b][..n] == bans[..n][i := b];
    } else {
      assert bans[i := b][..n] == bans[..n];
    }
  }

  lemma CountMore(bans: seq<Ban>, b: Ban, chan: string)
    ensures LiveCount(bans + [b], chan) == LiveCount(bans, chan) + if LiveOn(b, chan) then 1 else 0
  {
    assert (bans + [b])[..|bans|] == bans;
  }

  lemma CountSwapRemove(bans: seq<Ban>, i: nat, chan: string)
    requires i < |bans|
    ensures LiveCount(Counting.SwapRemove(bans, i), chan) + (if LiveOn(bans[i], chan) then 1 else 0) == LiveCount(bans, chan)
  {
    var n := |bans| - 1;
    if i < n {
      CountPut(bans[..n], i, bans[n], chan);
    }
  }

  lemma {:induction false} CountIc(bans: seq<Ban>, a: string, b: string)
    requires EqIc(a, b)
    ensures LiveCount(bans, a) == LiveCount(bans, b)
  {
    if bans != [] {
      CountIc(bans[..|bans| - 1], a, b);
    }
  }

  /** One record in place of another: sound, if the key is the old one's or new to the table,
      and if there is room for it where it adds to a channel's live bans. */
  lemma PutSound(bans: seq<Ban>, i: nat, b: Ban)
    requires Sound(bans) && i < |bans|
    requires SameKey(bans[i], b) || FindKey(bans, b) == |bans|
    requires b.active ==> LiveRoom(bans, b.chan) || (bans[i].active && SameKey(bans[i], b))
    ensures Sound(bans[i := b])
  {
    forall chan ensures LiveCount(bans[i := b], chan) <= CapOf(chan) {
      CountPut(bans, i, b, chan);
      if LiveOn(b, chan) {
        CountIc(bans, b.chan, chan);
      }
    }
    PutUnique(bans, i, b);
  }

  lemma PutUnique(bans: seq<Ban>, i: nat, b: Ban)
    requires Unique(bans) && i < |bans|
    requires SameKey(bans[i], b) || FindKey(bans, b) == |bans|
    ensures Unique(bans[i := b])
  {
  }

  lemma AppendSound(bans: seq<Ban>, b: Ban)
    requires Sound(bans) && |bans| < CFG_MAX_BANS && FindKey(bans, b) == |bans|
    requires b.active ==> LiveRoom(bans, b.chan)
    ensures Sound(bans + [b])
  {
    forall chan ensures LiveCount(bans + [b], chan) <= CapOf(chan) {
      CountMore(bans, b, chan);
      if LiveOn(b, chan) {
        CountIc(bans, b.chan, chan);
      }
    }
  }

  lemma StoreSound(bans: seq<Ban>, b: Ban)
    requires Sound(bans)
    ensures Sound(Store(bans, b))
  {
    var i, o := FindKey(bans, b), OldestTomb(bans);
    var stored := Store(bans, b);
    if stored != bans {
      if i < |bans| {
        PutSound(bans, i, b);
      } else if |bans| < CFG_MAX_BANS {
        AppendSound(bans, b);
      } else {
        PutSound(bans, o.value, b);
      }
    }
  }

  lemma SwapRemoveSound(bans: seq<Ban>, i: nat)
    requires Sound(bans) && i < |bans|
    ensures Sound(Counting.SwapRemove(bans, i))
  {
    forall chan ensures LiveCount(Counting.SwapRemove(bans, i), chan) <= CapOf(chan) {
      CountSwapRemove(bans, i, chan);
    }
    var r, n := Counting.SwapRemove(bans, i), |bans| - 1;
    forall j, k | 0 <= j < k < |r| ensures !SameKey(r[j], r[k]) {
      assert !SameKey(bans[if j == i then k else j], bans[if j == i || k == i then n else k]);
    }
  }

  lemma {:induction false} PurgeSound(bans: seq<Ban>, i: nat, cutoff: nat)
    requires Sound(bans) && i <= |bans|
    ensures Sound(PurgeFrom(bans, i, cutoff))
    decreases |bans| - i
  {
    if i < |bans| {
      if Doomed(bans[i], cutoff) {
        SwapRemoveSound(bans, i);
        PurgeSound(Counting.SwapRemove(bans, i), i, cutoff);
      } else {
        PurgeSound(bans, i + 1, cutoff);
      }
    }
  }
}
