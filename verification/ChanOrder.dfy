/** What the order of channel records decides: the stamp and op stored, the contents, and what a
    node is left with that had not heard of the channel. */
module ChanOrder {
  import opened Text
  import opened Stamps
  import opened Replicated

  function Stamp(r: ChanRec): (int, bool) {
    (r.ts, r.active)
  }

  function ChanStamps(rs: seq<ChanRec>): (r: seq<(int, bool)>)
    ensures |r| == |rs| && forall i :: 0 <= i < |rs| ==> r[i] == Stamp(rs[i])
  {
    seq(|rs|, i requires 0 <= i < |rs| => Stamp(rs[i]))
  }

  /** `m` is the record already there, or the first offered with its stamp and op. */
  ghost predicate FirstWith(cur: ChanRec, rs: seq<ChanRec>, m: ChanRec) {
    m == cur || (Stamp(m) != Stamp(cur) && exists i :: FirstAt(rs, m, i))
  }

  predicate FirstAt(rs: seq<ChanRec>, m: ChanRec, i: nat) {
    i < |rs| && rs[i] == m && forall j :: 0 <= j < i ==> Stamp(rs[j]) != Stamp(m)
  }

  /** For a known channel: the stamp and op stored are the greatest offered, and the contents
      are those of the first record that had them. */
  lemma {:induction false} ChanKeeps(cur: ChanRec, rs: seq<ChanRec>)
    ensures FoldC(Some(cur), rs).Some?
    ensures var m := FoldC(Some(cur), rs).value;
            Stamp(m) == Keep(LwwLess(), Stamp(cur), ChanStamps(rs)) && FirstWith(cur, rs, m)
  {
    if rs != [] {
      var n := |rs| - 1;
      ChanKeeps(cur, rs[..n]);
      assert ChanStamps(rs)[..n] == ChanStamps(rs[..n]);
      var before, m := FoldC(Some(cur), rs[..n]).value, FoldC(Some(cur), rs).value;
      LwwIsOrder();
      KeepIsGreatest(LwwLess(), Stamp(cur), ChanStamps(rs[..n]));
      if m == before {
        if m != cur {
          var i :| FirstAt(rs[..n], m, i);
          assert FirstAt(rs, m, i);
        }
      } else {
        forall j | 0 <= j < n ensures Stamp(rs[j]) != Stamp(m) {
          assert ChanStamps(rs[..n])[j] in ChanStamps(rs[..n]);
          assert !LwwLess()(Stamp(before), Stamp(rs[j])) && LwwLess()(Stamp(before), Stamp(m));
        }
        assert FirstAt(rs, m, n);
      }
    }
  }

  /** For a known channel, any order and any repeats end in the same stamp and op. */
  lemma ChanConverges(cur: ChanRec, a: seq<ChanRec>, b: seq<ChanRec>)
    requires forall k :: k in ChanStamps(a) <==> k in ChanStamps(b)
    ensures FoldC(Some(cur), a).Some? && FoldC(Some(cur), b).Some?
    ensures Stamp(FoldC(Some(cur), a).value) == Stamp(FoldC(Some(cur), b).value)
  {
    ChanKeeps(cur, a);
    ChanKeeps(cur, b);
    LwwIsOrder();
    KeepConverges(LwwLess(), Stamp(cur), ChanStamps(a), ChanStamps(b));
  }

  /** A record over what is there that none of the records beats. */
  ghost predicate Winner(cur: ChanRec, rs: seq<ChanRec>, m: ChanRec) {
    m in rs && LwwLess()(Stamp(cur), Stamp(m)) && forall r :: r in rs ==> !LwwLess()(Stamp(m), Stamp(r))
  }

  /** Every order of the records, with any repeats, ends in the same record. */
  ghost predicate ContentsAgree(cur: Option<ChanRec>, rs: seq<ChanRec>) {
    forall a, b :: SameRecords(a, rs) && SameRecords(b, rs) ==> FoldC(cur, a) == FoldC(cur, b)
  }

  ghost predicate SameRecords(a: seq<ChanRec>, b: seq<ChanRec>) {
    forall r :: r in a <==> r in b
  }

  lemma {:induction false} WinnerStays(m: ChanRec, rs: seq<ChanRec>)
    requires forall r :: r in rs ==> !LwwLess()(Stamp(m), Stamp(r))
    ensures FoldC(Some(m), rs) == Some(m)
  {
    if rs != [] {
      var n := |rs| - 1;
      assert rs[n] in rs && forall r :: r in rs[..n] ==> r in rs;
      WinnerStays(m, rs[..n]);
    }
  }

  /** What is stored in the end wins, or nothing does and it is what was there. */
  lemma EndsInWinner(cur: ChanRec, rs: seq<ChanRec>)
    ensures FoldC(Some(cur), rs).Some?
    ensures var m := FoldC(Some(cur), rs).value;
            if m == cur then forall x :: !Winner(cur, rs, x) else Winner(cur, rs, m)
  {
    ChanKeeps(cur, rs);
    LwwIsOrder();
    KeepIsGreatest(LwwLess(), Stamp(cur), ChanStamps(rs));
    var m := FoldC(Some(cur), rs).value;
    forall r | r in rs ensures !LwwLess()(Stamp(m), Stamp(r)) {
      var i :| 0 <= i < |rs| && rs[i] == r;
      assert ChanStamps(rs)[i] in ChanStamps(rs);
    }
    if m != cur {
      var i: nat :| FirstAt(rs, m, i);
      assert rs[i] in rs;
    }
  }

  /** For a known channel, every order of a set of records ends in the same record, contents and
      all, exactly when those over what is there that none of them beats are all the same. */
  lemma ContentsConverge(cur: ChanRec, rs: seq<ChanRec>)
    ensures ContentsAgree(Some(cur), rs) <==> forall x, y :: Winner(cur, rs, x) && Winner(cur, rs, y) ==> x == y
  {
    if x, y :| Winner(cur, rs, x) && Winner(cur, rs, y) && x != y {
      StartWith(Some(cur), x, rs);
      StartWith(Some(cur), y, rs);
      assert SameRecords([x] + rs, rs) && SameRecords([y] + rs, rs);
    } else {
      forall a, b | SameRecords(a, rs) && SameRecords(b, rs) ensures FoldC(Some(cur), a) == FoldC(Some(cur), b) {
        EndsInWinner(cur, a);
        EndsInWinner(cur, b);
        assert forall x :: (Winner(cur, a, x) <==> Winner(cur, rs, x)) && (Winner(cur, b, x) <==> Winner(cur, rs, x));
      }
    }
  }

  /** A record that is taken at once and that none of the others beats is kept. */
  lemma StartWith(cur: Option<ChanRec>, m: ChanRec, rs: seq<ChanRec>)
    requires ApplyC(cur, m) == Some(m) && forall r :: r in rs ==> !LwwLess()(Stamp(m), Stamp(r))
    ensures FoldC(cur, [m] + rs) == Some(m)
  {
    FoldSplit(cur, [m], rs);
    FoldOne(cur, m);
    WinnerStays(m, rs);
  }

  /** Two different records with one stamp and op, offered in both orders over an older one:
      each order keeps its own first. */
  lemma EqualStampsKeepFirst(cur: ChanRec, x: ChanRec, y: ChanRec)
    requires Stamp(x) == Stamp(y) && LwwAccepts(x.ts, x.active, cur.ts, cur.active)
    ensures FoldC(Some(cur), [x, y]) == Some(x) && FoldC(Some(cur), [y, x]) == Some(y)
  {
    FoldTwo(Some(cur), x, y);
    FoldTwo(Some(cur), y, x);
  }

  lemma FoldTwo(cur: Option<ChanRec>, x: ChanRec, y: ChanRec)
    ensures FoldC(cur, [x, y]) == ApplyC(ApplyC(cur, x), y)
  {
    assert [x, y][..1] == [x] && [x][..0] == [];
    assert FoldC(cur, [x]) == ApplyC(cur, x);
  }

  lemma {:induction false} FoldSplit(cur: Option<ChanRec>, a: seq<ChanRec>, b: seq<ChanRec>)
    ensures FoldC(cur, a + b) == FoldC(FoldC(cur, a), b)
  {
    if b == [] {
      assert a + b == a;
    } else {
      var n := |b| - 1;
      FoldSplit(cur, a, b[..n]);
      assert (a + b)[..|a| + n] == a + b[..n];
    }
  }

  lemma FoldOne(cur: Option<ChanRec>, r: ChanRec)
    ensures FoldC(cur, [r]) == ApplyC(cur, r)
  {
    assert [r][..0] == [];
  }

  lemma {:induction false} OnlyDeletes(rs: seq<ChanRec>)
    requires forall i :: 0 <= i < |rs| ==> !rs[i].active
    ensures FoldC(None, rs) == None
  {
    if rs != [] {
      OnlyDeletes(rs[..|rs| - 1]);
    }
  }

  /** A channel not heard of before: the deletes that came before its first add are lost, and
      from there on it is a known channel. */
  lemma UnknownChannel(before: seq<ChanRec>, r: ChanRec, after: seq<ChanRec>)
    requires forall i :: 0 <= i < |before| ==> !before[i].active
    requires r.active && r.ts > 0
    ensures FoldC(None, before + ([r] + after)) == FoldC(Some(r), after)
  {
    OnlyDeletes(before);
    FoldSplit(None, before, [r] + after);
    FoldSplit(None, [r], after);
    FoldOne(None, r);
  }

  /** The stamp and op a node ends with that had not heard of the channel. */
  function EndStamp(rs: seq<ChanRec>): Option<(int, bool)> {
    match FoldC(None, rs)
    case None => None
    case Some(r) => Some(Stamp(r))
  }

  /** Every order of the records, with any repeats, ends alike. */
  ghost predicate OrderFree(rs: seq<ChanRec>) {
    forall a, b :: SameRecords(a, rs) && SameRecords(b, rs) ==> EndStamp(a) == EndStamp(b)
  }

  /** An add none of the records beats. */
  ghost predicate TopAdd(rs: seq<ChanRec>, m: ChanRec) {
    m in rs && m.active && forall r :: r in rs ==> !LwwLess()(Stamp(m), Stamp(r))
  }

  predicate Positive(rs: seq<ChanRec>) {
    forall r :: r in rs ==> r.ts > 0
  }

  predicate NoAdd(rs: seq<ChanRec>) {
    forall r :: r in rs ==> !r.active
  }

  function Those(rs: seq<ChanRec>, active: bool): (t: seq<ChanRec>)
    ensures forall r :: r in t <==> r in rs && r.active == active
  {
    if rs == [] then []
    else
      assert rs == [rs[0]] + rs[1..];
      (if rs[0].active == active then [rs[0]] else []) + Those(rs[1..], active)
  }

  /** From its first add on the channel ends with the greatest stamp and op. */
  lemma EndFromAdd(before: seq<ChanRec>, r: ChanRec, after: seq<ChanRec>)
    requires NoAdd(before) && r.active && r.ts > 0
    ensures EndStamp(before + ([r] + after)).Some?
    ensures var k := EndStamp(before + ([r] + after)).value;
            && (exists m :: m in [r] + after && Stamp(m) == k)
            && forall m :: m in [r] + after ==> !LwwLess()(k, Stamp(m))
  {
    UnknownChannel(before, r, after);
    ChanKeeps(r, after);
    LwwIsOrder();
    KeepIsGreatest(LwwLess(), Stamp(r), ChanStamps(after));
    var k := EndStamp(before + ([r] + after)).value;
    if k == Stamp(r) {
      assert r in [r] + after;
    } else {
      var i :| 0 <= i < |after| && ChanStamps(after)[i] == k;
      assert after[i] in [r] + after;
    }
    forall m | m in [r] + after ensures !LwwLess()(k, Stamp(m)) {
      if m != r {
        var i :| 0 <= i < |after| && after[i] == m;
        assert ChanStamps(after)[i] in ChanStamps(after);
      }
    }
  }

  lemma {:induction false} SplitAtAdd(rs: seq<ChanRec>) returns (before: seq<ChanRec>, r: ChanRec, after: seq<ChanRec>)
    requires !NoAdd(rs)
    ensures rs == before + ([r] + after) && NoAdd(before) && r.active
  {
    if rs[0].active {
      before, r, after := [], rs[0], rs[1..];
    } else {
      assert rs == [rs[0]] + rs[1..];
      var rest;
      rest, r, after := SplitAtAdd(rs[1..]);
      before := [rs[0]] + rest;
    }
  }

  lemma TopAddWins(rs: seq<ChanRec>, m: ChanRec)
    requires Positive(rs) && TopAdd(rs, m)
    ensures EndStamp(rs) == Some(Stamp(m))
  {
    var before, r, after := SplitAtAdd(rs);
    assert r in rs && m !in before;
    EndFromAdd(before, r, after);
    LwwIsOrder();
    assert m in [r] + after;
    assert forall x :: x in [r] + after ==> x in rs;
  }

  lemma NothingAdded(rs: seq<ChanRec>)
    requires NoAdd(rs)
    ensures EndStamp(rs) == None
  {
    OnlyDeletes(rs);
  }

  /** Deletes first, then the adds: an add is left. */
  lemma AddsLast(rs: seq<ChanRec>) returns (a: seq<ChanRec>)
    requires Positive(rs) && !NoAdd(rs)
    ensures SameRecords(a, rs) && EndStamp(a).Some? && EndStamp(a).value.1
  {
    var adds, dels := Those(rs, true), Those(rs, false);
    assert adds != [] by {
      var r :| r in rs && r.active;
      assert r in adds;
    }
    assert adds == [adds[0]] + adds[1..] && adds[0] in adds;
    a := dels + ([adds[0]] + adds[1..]);
    EndFromAdd(dels, adds[0], adds[1..]);
  }

  /** Adds first, then the deletes: the greatest of all is left. */
  lemma AddsFirst(rs: seq<ChanRec>) returns (b: seq<ChanRec>)
    requires Positive(rs) && !NoAdd(rs)
    ensures SameRecords(b, rs) && EndStamp(b).Some?
    ensures EndStamp(b).value.1 ==> exists m :: TopAdd(rs, m)
  {
    var adds, dels := Those(rs, true), Those(rs, false);
    assert adds != [] by {
      var r :| r in rs && r.active;
      assert r in adds;
    }
    assert adds == [adds[0]] + adds[1..] && adds[0] in adds;
    b := [] + ([adds[0]] + (adds[1..] + dels));
    assert b == adds + dels;
    EndFromAdd([], adds[0], adds[1..] + dels);
    if EndStamp(b).value.1 {
      var m :| m in [adds[0]] + (adds[1..] + dels) && Stamp(m) == EndStamp(b).value;
      assert forall r :: r in rs ==> r in [adds[0]] + (adds[1..] + dels);
      assert TopAdd(rs, m);
    }
  }

  /** For a channel not heard of before, every order of a set of records ends alike exactly when
      none of them is an add or the greatest is one. */
  lemma UnknownConverges(rs: seq<ChanRec>)
    requires Positive(rs)
    ensures OrderFree(rs) <==> NoAdd(rs) || exists m :: TopAdd(rs, m)
  {
    if NoAdd(rs) {
      forall a, b | SameRecords(a, rs) && SameRecords(b, rs) ensures EndStamp(a) == EndStamp(b) {
        NothingAdded(a);
        NothingAdded(b);
      }
    } else if m :| TopAdd(rs, m) {
      forall a, b | SameRecords(a, rs) && SameRecords(b, rs) ensures EndStamp(a) == EndStamp(b) {
        TopAddWins(a, m);
        TopAddWins(b, m);
      }
    } else {
      var a := AddsLast(rs);
      var b := AddsFirst(rs);
      assert EndStamp(a) != EndStamp(b);
    }
  }

  /** And it ends in the same record, contents and all, exactly when moreover the greatest are
      all the same record. */
  lemma UnknownContents(rs: seq<ChanRec>)
    requires Positive(rs)
    ensures ContentsAgree(None, rs)
            <==> NoAdd(rs) || exists m :: TopAdd(rs, m) && forall x :: TopAdd(rs, x) ==> x == m
  {
    if NoAdd(rs) {
      forall a, b | SameRecords(a, rs) && SameRecords(b, rs) ensures FoldC(None, a) == FoldC(None, b) {
        OnlyDeletes(a);
        OnlyDeletes(b);
      }
    } else if exists m :: TopAdd(rs, m) {
      var m :| TopAdd(rs, m);
      TopAddsDecide(rs, m);
    } else {
      UnknownConverges(rs);
      var a, b :| SameRecords(a, rs) && SameRecords(b, rs) && EndStamp(a) != EndStamp(b);
      assert FoldC(None, a) != FoldC(None, b);
    }
  }

  lemma TopAddsDecide(rs: seq<ChanRec>, m: ChanRec)
    requires Positive(rs) && TopAdd(rs, m)
    ensures ContentsAgree(None, rs) <==> forall x :: TopAdd(rs, x) ==> x == m
  {
    if x :| TopAdd(rs, x) && x != m {
      StartWith(None, x, rs);
      StartWith(None, m, rs);
      assert SameRecords([x] + rs, rs) && SameRecords([m] + rs, rs);
    } else {
      forall a | SameRecords(a, rs) ensures FoldC(None, a) == Some(m) {
        EndsInTopAdd(a, m);
        assert TopAdd(rs, FoldC(None, a).value);
      }
    }
  }

  lemma EndsInTopAdd(rs: seq<ChanRec>, m: ChanRec)
    requires Positive(rs) && TopAdd(rs, m)
    ensures FoldC(None, rs).Some? && TopAdd(rs, FoldC(None, rs).value)
  {
    TopAddWins(rs, m);
    var before, r, after := SplitAtAdd(rs);
    assert r in rs;
    UnknownChannel(before, r, after);
    EndsInWinner(r, after);
    assert FoldC(None, rs).value in rs;
  }

  // ---- local changes -------------------------------------------------------------------------

  /** A change stamped past the record it replaces is taken, and nothing older displaces it,
      whatever arrives and in whatever order. */
  lemma LocalChangeStays(prev: ChanRec, mine: ChanRec, now: int, older: seq<ChanRec>)
    requires mine.ts == NextTs(prev.ts, now)
    requires forall r :: r in older ==> r.ts <= prev.ts || r.ts < now
    ensures FoldC(Some(prev), [mine] + older) == Some(mine)
  {
    FoldSplit(Some(prev), [mine], older);
    FoldOne(Some(prev), mine);
    OlderIgnored(mine, older);
  }

  lemma {:induction false} OlderIgnored(cur: ChanRec, older: seq<ChanRec>)
    requires forall r :: r in older ==> r.ts < cur.ts
    ensures FoldC(Some(cur), older) == Some(cur)
  {
    if older != [] {
      var n := |older| - 1;
      assert older[n] in older && forall r :: r in older[..n] ==> r in older;
      OlderIgnored(cur, older[..n]);
    }
  }
}
