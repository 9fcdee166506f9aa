/** What the order of ban records decides: how long a deletion guards, and when nodes that
    heard the same records agree. */
module BanOrder {
  import opened Text
  import opened Numbers
  import opened BanCodec
  import opened Stamps
  import opened BanTable
  import opened BanRuns

  // ---- one step, one key -------------------------------------------------------------

  /** The record is stored. */
  predicate Taken(bans: seq<Ban>, b: Ban) {
    var i := FindKey(bans, b);
    if i < |bans| then
      LwwAccepts(b.ts, b.active, bans[i].ts, bans[i].active) && (b.active && !bans[i].active ==> LiveRoom(bans, b.chan))
    else (b.active ==> LiveRoom(bans, b.chan)) && (|bans| < CFG_MAX_BANS || OldestTomb(bans).Some?)
  }

  /** A record of a new key is stored in the place of `h`, the oldest tombstone of a full table. */
  predicate Evicts(bans: seq<Ban>, b: Ban, h: Ban) {
    && FindKey(bans, b) == |bans| >= CFG_MAX_BANS && Taken(bans, b)
    && bans[OldestTomb(bans).value] == h
  }

  predicate Drops(bans: seq<Ban>, op: Op, h: Ban) {
    match op
    case PurgeTo(cutoff) => Doomed(h, cutoff)
    case Offer(b) => Evicts(bans, b, h)
  }

  lemma HeldIn(bans: seq<Ban>, x: Ban)
    requires Held(bans, x).Some?
    ensures Held(bans, x).value in bans && SameKey(Held(bans, x).value, x)
  {
  }

  lemma HeldSame(bans: seq<Ban>, x: Ban, b: Ban)
    requires SameKey(x, b)
    ensures Held(bans, x) == Held(bans, b)
  {
    hide Lower;
    var i, j := FindKey(bans, x), FindKey(bans, b);
    assert i < |bans| ==> SameKey(bans[i], b);
    assert j < |bans| ==> SameKey(bans[j], x);
  }

  /** The record held for a key after a store: the one offered, if it is for this key and taken;
      none, if the one held makes room; else the one held before. */
  lemma HeldStored(bans: seq<Ban>, b: Ban, x: Ban)
    requires Sound(bans)
    ensures Held(Store(bans, b), x)
            == if SameKey(x, b) && Taken(bans, b) then Some(b)
               else if Held(bans, x).Some? && Evicts(bans, b, Held(bans, x).value) then None
               else Held(bans, x)
  {
    StoreSound(bans, b);
    if !Taken(bans, b) {
      assert Store(bans, b) == bans;
    } else {
      StoredAt(bans, b);
      if SameKey(x, b) {
        HeldIs(Store(bans, b), x, b);
        TakenKeeps(bans, b, x);
      } else {
        OtherHeld(bans, b, x);
      }
    }
  }

  lemma StoredAt(bans: seq<Ban>, b: Ban)
    requires Taken(bans, b)
    ensures b in Store(bans, b)
    ensures var i := FindKey(bans, b);
            var at := if i < |bans| || |bans| < CFG_MAX_BANS then i else OldestTomb(bans).value;
            Store(bans, b) == if at < |bans| then bans[at := b] else bans + [b]
  {
    var i := FindKey(bans, b);
    var at := if i < |bans| || |bans| < CFG_MAX_BANS then i else OldestTomb(bans).value;
    assert Store(bans, b)[at] == b;
  }

  lemma TakenKeeps(bans: seq<Ban>, b: Ban, x: Ban)
    requires SameKey(x, b)
    ensures Held(bans, x).Some? ==> !Evicts(bans, b, Held(bans, x).value)
  {
    HeldSame(bans, x, b);
  }

  lemma OtherHeld(bans: seq<Ban>, b: Ban, x: Ban)
    requires Sound(bans) && Sound(Store(bans, b)) && Taken(bans, b) && !SameKey(x, b)
    ensures Held(Store(bans, b), x)
            == if Held(bans, x).Some? && Evicts(bans, b, Held(bans, x).value) then None else Held(bans, x)
  {
    hide Lower;
    var stored, h := Store(bans, b), Held(bans, x);
    if h.Some? && h.value in stored {
      HeldIs(stored, x, h.value);
    }
    var s := Held(stored, x);
    if s.Some? {
      HeldIn(stored, x);
      StoreFrom(bans, b, s.value);
      if s.value in bans {
        HeldIs(bans, x, s.value);
      }
    }
    if h.Some? {
      EvictedOrKept(bans, b, x);
    }
  }

  lemma EvictedOrKept(bans: seq<Ban>, b: Ban, x: Ban)
    requires Sound(bans) && Taken(bans, b) && !SameKey(x, b) && Held(bans, x).Some?
    ensures Evicts(bans, b, Held(bans, x).value) <==> Held(bans, x).value !in Store(bans, b)
  {
    hide Lower;
    var h, k, i := Held(bans, x).value, FindKey(bans, x), FindKey(bans, b);
    StoredAt(bans, b);
    var stored := Store(bans, b);
    assert i < |bans| ==> !SameKey(bans[i], x);
    if i == |bans| && |bans| >= CFG_MAX_BANS && bans[OldestTomb(bans).value] == h {
      KeyAt(bans, OldestTomb(bans).value, x);
      assert forall j :: 0 <= j < |stored| ==> stored[j] == if j == k then b else bans[j];
      forall j | 0 <= j < |stored| ensures stored[j] != h {
        if j != k && bans[j] == h {
          KeyAt(bans, j, x);
        }
      }
    } else {
      assert stored[k] == h;
    }
  }

  lemma HeldPurged(bans: seq<Ban>, cutoff: nat, x: Ban)
    requires Sound(bans)
    ensures Held(Purge(bans, cutoff), x)
            == if Held(bans, x).Some? && !Doomed(Held(bans, x).value, cutoff) then Held(bans, x) else None
  {
    PurgeSound(bans, 0, cutoff);
    var left := Purge(bans, cutoff);
    if Held(bans, x).Some? {
      HeldIn(bans, x);
      PurgeIs(bans, cutoff, Held(bans, x).value);
      if Held(bans, x).value in left {
        HeldIs(left, x, Held(bans, x).value);
      }
    }
    if Held(left, x).Some? {
      HeldIn(left, x);
      PurgeIs(bans, cutoff, Held(left, x).value);
      HeldIs(bans, x, Held(left, x).value);
    }
  }

  /** A key that is held is dropped exactly when a purge dooms its record, or a record of a new
      key is stored while its record is the oldest tombstone of a full table. */
  lemma DropsExactly(bans: seq<Ban>, op: Op, x: Ban)
    requires Sound(bans) && Held(bans, x).Some?
    ensures Held(Apply(bans, op), x).None? <==> Drops(bans, op, Held(bans, x).value)
  {
    match op
    case PurgeTo(cutoff) => HeldPurged(bans, cutoff, x);
    case Offer(b) =>
      HeldStored(bans, b, x);
      if SameKey(x, b) {
        TakenKeeps(bans, b, x);
      }
  }

  // ---- how long a deletion guards -------------------------------------------------------

  /** An offer of `x` would be refused for its stamp. */
  predicate RefusedOnStamp(bans: seq<Ban>, x: Ban) {
    var h := Held(bans, x);
    h.Some? && !LwwAccepts(x.ts, x.active, h.value.ts, h.value.active)
  }

  /** Some record of the key of `x` is held after every part of the run. */
  predicate HeldThroughout(bans: seq<Ban>, ops: seq<Op>, x: Ban) {
    forall i :: 0 <= i <= |ops| ==> Held(Run(bans, ops[..i]), x).Some?
  }

  predicate NotOffered(ops: seq<Op>, x: Ban) {
    forall i :: 0 <= i < |ops| && ops[i].Offer? ==> !SameKey(x, ops[i].b)
  }

  lemma StepRefuses(bans: seq<Ban>, op: Op, x: Ban)
    requires Sound(bans) && RefusedOnStamp(bans, x) && Held(Apply(bans, op), x).Some?
    ensures RefusedOnStamp(Apply(bans, op), x)
  {
    HeldIn(bans, x);
    match op
    case PurgeTo(cutoff) => HeldPurged(bans, cutoff, x);
    case Offer(b) =>
      HeldStored(bans, b, x);
      if SameKey(x, b) {
        HeldSame(bans, x, b);
      }
  }

  lemma {:induction false} RunRefuses(bans: seq<Ban>, ops: seq<Op>, x: Ban)
    requires Sound(bans) && RefusedOnStamp(bans, x) && HeldThroughout(bans, ops, x)
    ensures RefusedOnStamp(Run(bans, ops), x)
  {
    assert ops[..|ops|] == ops;
    if ops != [] {
      var n := |ops| - 1;
      forall i | 0 <= i <= n ensures Held(Run(bans, ops[..n][..i]), x).Some? {
        assert ops[..n][..i] == ops[..i];
      }
      RunRefuses(bans, ops[..n], x);
      RunSound(bans, ops[..n]);
      StepRefuses(Run(bans, ops[..n]), ops[n], x);
    }
  }

  lemma PartsHeld(bans: seq<Ban>, ops: seq<Op>, x: Ban, k: nat)
    requires k <= |ops| && HeldThroughout(bans, ops, x)
    ensures HeldThroughout(bans, ops[..k], x)
  {
    forall i | 0 <= i <= k ensures Held(Run(bans, ops[..k][..i]), x).Some? {
      assert ops[..k][..i] == ops[..i];
    }
  }

  /** In any sound table that holds a deletion, over any run: an older add of the key is refused
      for its stamp after every part of the run exactly when the key is held after every part. */
  lemma TombstoneGuards(bans: seq<Ban>, ops: seq<Op>, x: Ban)
    requires Sound(bans) && RefusedOnStamp(bans, x)
    ensures (forall i :: 0 <= i <= |ops| ==> RefusedOnStamp(Run(bans, ops[..i]), x)) <==> HeldThroughout(bans, ops, x)
  {
    if HeldThroughout(bans, ops, x) {
      forall i | 0 <= i <= |ops| ensures RefusedOnStamp(Run(bans, ops[..i]), x) {
        PartsHeld(bans, ops, x, i);
        RunRefuses(bans, ops[..i], x);
      }
    }
  }

  /** A key nobody offers keeps its record or loses it for good. */
  lemma {:induction false} KeptOrGone(bans: seq<Ban>, ops: seq<Op>, x: Ban)
    requires Sound(bans) && NotOffered(ops, x)
    ensures Held(Run(bans, ops), x) == Held(bans, x) || Held(Run(bans, ops), x) == None
  {
    if ops != [] {
      var n := |ops| - 1;
      KeptOrGone(bans, ops[..n], x);
      RunSound(bans, ops[..n]);
      match ops[n]
      case PurgeTo(cutoff) => HeldPurged(Run(bans, ops[..n]), cutoff, x);
      case Offer(b) => HeldStored(Run(bans, ops[..n]), b, x);
    }
  }

  /** So after a run that offers nothing for the key, an older add is refused for its stamp if and
      only if the deletion is still held. */
  lemma GuardedWhileHeld(bans: seq<Ban>, ops: seq<Op>, del: Ban, x: Ban)
    requires Sound(bans) && Held(bans, x) == Some(del) && !del.active && x.active && x.ts <= del.ts
    requires NotOffered(ops, x)
    ensures RefusedOnStamp(Run(bans, ops), x) <==> Held(Run(bans, ops), x) == Some(del)
  {
    KeptOrGone(bans, ops, x);
  }

  /** And once it is gone the stamp no longer matters: the add is stored if there is room for it. */
  lemma ReturnsUnguarded(bans: seq<Ban>, x: Ban)
    requires Sound(bans) && Held(bans, x) == None && x.active
    ensures x in Store(bans, x)
            <==> LiveCount(bans, x.chan) < 100 && (|bans| < 6500 || exists i :: 0 <= i < |bans| && !bans[i].active)
  {
    HeldStored(bans, x, x);
    if Taken(bans, x) {
      StoredAt(bans, x);
    } else if x in bans {
      HeldIs(bans, x, x);
    }
  }

  // ---- when nodes agree -------------------------------------------------------------------

  function OfferAll(bs: seq<Ban>): (r: seq<Op>)
    ensures |r| == |bs| && forall i :: 0 <= i < |bs| ==> r[i] == Offer(bs[i])
  {
    seq(|bs|, i requires 0 <= i < |bs| => Offer(bs[i]))
  }

  /** The record is not turned away for room and nothing has to make room for it. */
  predicate HasRoom(bans: seq<Ban>, b: Ban) {
    var i := FindKey(bans, b);
    if i < |bans| then b.active && !bans[i].active && b.ts > bans[i].ts ==> LiveRoom(bans, b.chan)
    else (b.active ==> LiveRoom(bans, b.chan)) && |bans| < CFG_MAX_BANS
  }

  predicate RoomAllAlong(bans: seq<Ban>, bs: seq<Ban>) {
    forall i :: 0 <= i < |bs| ==> HasRoom(Run(bans, OfferAll(bs[..i])), bs[i])
  }

  function StampOf(b: Ban): (int, bool) {
    (b.ts, b.active)
  }

  /** What a node knows of a key: the stamp and op it holds. */
  function Known(bans: seq<Ban>, x: Ban): Option<(int, bool)> {
    match Held(bans, x)
    case None => None
    case Some(h) => Some(StampOf(h))
  }

  /** `k` is the stamp and op of the record held at first, or of one offered for the key. */
  ghost predicate Came(bans: seq<Ban>, bs: seq<Ban>, x: Ban, k: (int, bool)) {
    Known(bans, x) == Some(k) || exists b :: b in bs && SameKey(x, b) && StampOf(b) == k
  }

  /** What is known is the greatest that came; nothing, if nothing came. */
  ghost predicate KnowsGreatest(bans: seq<Ban>, bs: seq<Ban>, x: Ban, known: Option<(int, bool)>) {
    match known
    case None => forall k :: !Came(bans, bs, x, k)
    case Some(m) => Came(bans, bs, x, m) && forall k :: Came(bans, bs, x, k) ==> !LwwLess()(m, k)
  }

  /** What is known of a key once `b` came, if it can be kept: the greater of the two. */
  function Raised(c: Option<(int, bool)>, b: Ban, x: Ban): Option<(int, bool)> {
    if SameKey(x, b) && (c.None? || LwwLess()(c.value, StampOf(b))) then Some(StampOf(b)) else c
  }

  lemma KnownStep(bans: seq<Ban>, b: Ban, x: Ban)
    requires Sound(bans) && HasRoom(bans, b)
    ensures Known(Store(bans, b), x) == Raised(Known(bans, x), b, x)
  {
    HeldStored(bans, b, x);
    if SameKey(x, b) {
      HeldSame(bans, x, b);
    }
  }

  /** Short of room, something known is lost or something newer is not learnt. */
  lemma ShortOfRoom(bans: seq<Ban>, b: Ban) returns (x: Ban)
    requires Sound(bans) && !HasRoom(bans, b)
    ensures Known(Store(bans, b), x) != Raised(Known(bans, x), b, x)
  {
    if Taken(bans, b) {
      x := bans[OldestTomb(bans).value];
      HeldIs(bans, x, x);
      assert Evicts(bans, b, x);
      HeldStored(bans, b, x);
    } else {
      x := b;
      HeldStored(bans, b, x);
    }
  }

  /** Of every key the greater stamp and op is known after a store exactly when there is room. */
  lemma RoomExactly(bans: seq<Ban>, b: Ban)
    requires Sound(bans)
    ensures (forall x :: Known(Store(bans, b), x) == Raised(Known(bans, x), b, x)) <==> HasRoom(bans, b)
  {
    if HasRoom(bans, b) {
      forall x ensures Known(Store(bans, b), x) == Raised(Known(bans, x), b, x) {
        KnownStep(bans, b, x);
      }
    } else {
      var x := ShortOfRoom(bans, b);
    }
  }

  lemma CameMore(bans: seq<Ban>, bs: seq<Ban>, b: Ban, x: Ban, k: (int, bool))
    ensures Came(bans, bs + [b], x, k) <==> Came(bans, bs, x, k) || (SameKey(x, b) && StampOf(b) == k)
  {
    if exists c :: c in bs && SameKey(x, c) && StampOf(c) == k {
      var c :| c in bs && SameKey(x, c) && StampOf(c) == k;
      assert c in bs + [b];
    }
    if SameKey(x, b) && StampOf(b) == k {
      assert b in bs + [b];
    }
  }

  lemma GreatestStep(bans: seq<Ban>, bs: seq<Ban>, b: Ban, x: Ban, c: Option<(int, bool)>)
    requires KnowsGreatest(bans, bs, x, c)
    ensures KnowsGreatest(bans, bs + [b], x, Raised(c, b, x))
  {
    hide SameKey, Came;
    LwwIsOrder();
    forall k ensures Came(bans, bs + [b], x, k) <==> Came(bans, bs, x, k) || (SameKey(x, b) && StampOf(b) == k) {
      CameMore(bans, bs, b, x, k);
    }
  }

  lemma RunNothing(bans: seq<Ban>)
    ensures Run(bans, OfferAll([])) == bans
  {
    assert OfferAll([]) == [];
  }

  lemma RunMore(bans: seq<Ban>, bs: seq<Ban>, b: Ban)
    ensures Run(bans, OfferAll(bs + [b])) == Store(Run(bans, OfferAll(bs)), b)
  {
    assert OfferAll(bs + [b])[..|bs|] == OfferAll(bs);
  }

  lemma RoomBefore(bans: seq<Ban>, bs: seq<Ban>, b: Ban)
    requires RoomAllAlong(bans, bs + [b])
    ensures RoomAllAlong(bans, bs) && HasRoom(Run(bans, OfferAll(bs)), b)
  {
    hide HasRoom;
    var all := bs + [b];
    assert all[..|bs|] == bs && all[|bs|] == b;
    forall i | 0 <= i < |bs| ensures HasRoom(Run(bans, OfferAll(bs[..i])), bs[i]) {
      assert all[..i] == bs[..i] && all[i] == bs[i];
    }
  }

  lemma {:induction false} RunKnows(bans: seq<Ban>, bs: seq<Ban>, x: Ban)
    requires Sound(bans) && RoomAllAlong(bans, bs)
    ensures KnowsGreatest(bans, bs, x, Known(Run(bans, OfferAll(bs)), x))
  {
    hide HasRoom, RoomAllAlong, Known, KnowsGreatest, SameKey, Store, StampOf, Run;
    if bs == [] {
      RunNothing(bans);
      KnownAtFirst(bans, x);
    } else {
      var n := |bs| - 1;
      var b, before := bs[n], bs[..n];
      assert bs == before + [b];
      RoomBefore(bans, before, b);
      RunKnows(bans, before, x);
      RunMore(bans, before, b);
      RunSound(bans, OfferAll(before));
      KnownStep(Run(bans, OfferAll(before)), b, x);
      GreatestStep(bans, before, b, x, Known(Run(bans, OfferAll(before)), x));
    }
  }

  lemma KnownAtFirst(bans: seq<Ban>, x: Ban)
    ensures KnowsGreatest(bans, [], x, Known(bans, x))
  {
    LwwIsOrder();
  }

  /** What is known of every key after the first i records is the greatest that came. */
  ghost predicate UpToDate(bans: seq<Ban>, bs: seq<Ban>, i: nat)
    requires i <= |bs|
  {
    forall x :: KnowsGreatest(bans, bs[..i], x, Known(Run(bans, OfferAll(bs[..i])), x))
  }

  lemma RoomPart(bans: seq<Ban>, bs: seq<Ban>, i: nat)
    requires i <= |bs| && RoomAllAlong(bans, bs)
    ensures RoomAllAlong(bans, bs[..i])
  {
    hide HasRoom;
    forall j | 0 <= j < i ensures HasRoom(Run(bans, OfferAll(bs[..i][..j])), bs[..i][j]) {
      assert bs[..i][..j] == bs[..j];
    }
  }

  lemma OneGreatest(bans: seq<Ban>, bs: seq<Ban>, x: Ban, c: Option<(int, bool)>, d: Option<(int, bool)>)
    requires KnowsGreatest(bans, bs, x, c) && KnowsGreatest(bans, bs, x, d)
    ensures c == d
  {
    LwwIsOrder();
  }

  /** Up to date before and after a record, the node had room for it. */
  lemma RoomToStay(bans: seq<Ban>, bs: seq<Ban>, i: nat)
    requires Sound(bans) && i < |bs| && UpToDate(bans, bs, i) && UpToDate(bans, bs, i + 1)
    ensures HasRoom(Run(bans, OfferAll(bs[..i])), bs[i])
  {
    hide HasRoom, KnowsGreatest, Known, Raised, Store, Run;
    var before, b := Run(bans, OfferAll(bs[..i])), bs[i];
    assert bs[..i + 1] == bs[..i] + [b];
    RunMore(bans, bs[..i], b);
    RunSound(bans, OfferAll(bs[..i]));
    forall x ensures Known(Store(before, b), x) == Raised(Known(before, x), b, x) {
      GreatestStep(bans, bs[..i], b, x, Known(before, x));
      OneGreatest(bans, bs[..i + 1], x, Known(Store(before, b), x), Raised(Known(before, x), b, x));
    }
    RoomExactly(before, b);
  }

  /** Over any sequence of records: of every key the greatest stamp and op that came is known after
      every part of it, exactly when there is room all along. */
  lemma UpToDateExactly(bans: seq<Ban>, bs: seq<Ban>)
    requires Sound(bans)
    ensures (forall i :: 0 <= i <= |bs| ==> UpToDate(bans, bs, i)) <==> RoomAllAlong(bans, bs)
  {
    if RoomAllAlong(bans, bs) {
      forall i | 0 <= i <= |bs| ensures UpToDate(bans, bs, i) {
        RoomPart(bans, bs, i);
        forall x ensures KnowsGreatest(bans, bs[..i], x, Known(Run(bans, OfferAll(bs[..i])), x)) {
          RunKnows(bans, bs[..i], x);
        }
      }
    } else if forall i :: 0 <= i <= |bs| ==> UpToDate(bans, bs, i) {
      forall i | 0 <= i < |bs| ensures HasRoom(Run(bans, OfferAll(bs[..i])), bs[i]) {
        RoomToStay(bans, bs, i);
      }
    }
  }

  /** Two nodes that start alike and hear the same records, in any order and any number of times,
      know the same of every key, as long as neither is short of room. */
  lemma BansConverge(bans: seq<Ban>, a: seq<Ban>, b: seq<Ban>, x: Ban)
    requires Sound(bans) && RoomAllAlong(bans, a) && RoomAllAlong(bans, b)
    requires forall r :: r in a <==> r in b
    ensures Known(Run(bans, OfferAll(a)), x) == Known(Run(bans, OfferAll(b)), x)
  {
    RunKnows(bans, a, x);
    RunKnows(bans, b, x);
    LwwIsOrder();
    forall k ensures Came(bans, a, x, k) <==> Came(bans, b, x, k) {
    }
  }

  lemma RunTwo(bans: seq<Ban>, x: Ban, y: Ban)
    ensures Run(bans, OfferAll([x, y])) == Store(Store(bans, x), y)
  {
    var ops := OfferAll([x, y]);
    assert ops[..1] == [Offer(x)] && [Offer(x)][..0] == [];
    assert Run(bans, [Offer(x)]) == Store(bans, x);
  }

  lemma NewStored(bans: seq<Ban>, x: Ban)
    requires FindKey(bans, x) == |bans| < CFG_MAX_BANS && x.active && LiveRoom(bans, x.chan)
    ensures Store(bans, x) == bans + [x]
  {
  }

  /** The last free place of a channel goes to whichever comes first. */
  lemma LastPlace(bans: seq<Ban>, x: Ban, y: Ban)
    requires Sound(bans) && |bans| < CFG_MAX_BANS && x.active && y.active
    requires FindKey(bans, x) == |bans| && FindKey(bans, y) == |bans| && x.chan == y.chan && !SameKey(x, y)
    requires LiveCount(bans, x.chan) + 1 == CapOf(x.chan)
    ensures Known(Run(bans, OfferAll([x, y])), x) == Some(StampOf(x))
    ensures Known(Run(bans, OfferAll([x, y])), y) == None
  {
    hide Lower, LiveCount, CapOf;
    RunTwo(bans, x, y);
    NewStored(bans, x);
    AppendSound(bans, x);
    CountMore(bans, x, x.chan);
    var one := bans + [x];
    assert one[|bans|] == x;
    forall j | 0 <= j < |one| ensures !SameKey(one[j], y) {
    }
    HeldStored(bans, x, x);
    HeldStored(one, y, y);
    HeldStored(one, y, x);
  }

  /** A ban on every channel. */
  function Global(mask: string): Ban {
    Ban("*", mask, 0, "", "", "", true, 1)
  }

  /** n bans on every channel. */
  function Filled(n: nat): (r: seq<Ban>)
    ensures |r| == n && forall i :: 0 <= i < n ==> r[i] == Global(Dec(i))
  {
    if n == 0 then [] else Filled(n - 1) + [Global(Dec(n - 1))]
  }

  lemma {:induction false} FilledCount(n: nat, chan: string)
    ensures LiveCount(Filled(n), chan) == if EqIc("*", chan) then n else 0
  {
    if n > 0 {
      FilledCount(n - 1, chan);
      CountMore(Filled(n - 1), Global(Dec(n - 1)), chan);
    }
  }

  lemma NumbersDiffer(i: nat, j: nat)
    requires EqIc(Dec(i), Dec(j))
    ensures i == j
  {
    assert Lower(Dec(i)) == Dec(i) && Lower(Dec(j)) == Dec(j);
    DecRoundTrip(i);
    DecRoundTrip(j);
  }

  lemma FilledSound(n: nat)
    requires n <= 100
    ensures Sound(Filled(n))
  {
    forall chan ensures LiveCount(Filled(n), chan) <= CapOf(chan) {
      FilledCount(n, chan);
    }
    forall i, j | 0 <= i < j < n ensures !SameKey(Filled(n)[i], Filled(n)[j]) {
      if EqIc(Dec(i), Dec(j)) {
        NumbersDiffer(i, j);
      }
    }
  }

  lemma NoNumber(mask: string, n: nat)
    requires mask == "a" || mask == "b"
    ensures FindKey(Filled(n), Global(mask)) == n
  {
    forall i | 0 <= i < n ensures !SameKey(Filled(n)[i], Global(mask)) {
      assert Lower(Dec(i))[0] == Dec(i)[0] && Lower(mask)[0] == mask[0];
    }
  }

  /** Two nodes with one place left that hear the same two bans in different orders disagree. */
  lemma CapDivides(n: nat)
    requires n + 1 == MAX_GLOBAL_BANS
    ensures var bans, x, y := Filled(n), Global("a"), Global("b");
            && Sound(bans)
            && Known(Run(bans, OfferAll([x, y])), x) == Some((1, true)) && Known(Run(bans, OfferAll([y, x])), x) == None
  {
    var bans, x, y := Filled(n), Global("a"), Global("b");
    FilledSound(n);
    FilledCount(n, "*");
    NoNumber("a", n);
    NoNumber("b", n);
    assert Lower("a")[0] != Lower("b")[0];
    LastPlace(bans, x, y);
    LastPlace(bans, y, x);
  }
}
