/** The opt flags of the network: each node keeps the newest it hears, under the time it took them
    when they come without a stamp. */
module OptFlags {
  import opened Stamps

  /** An O| line as read, and the time at which it is taken. */
  datatype OptMsg = OptMsg(ts: int, flags: string, now: int)

  /** A stamp that is not positive is replaced by the time. */
  function ApplyOpt(cur: (int, string), m: OptMsg): (int, string) {
    if TextAccepts(m.ts, m.flags, cur.0, cur.1) then (if m.ts > 0 then m.ts else m.now, m.flags) else cur
  }

  function FoldOpt(cur: (int, string), ms: seq<OptMsg>): (int, string) {
    if ms == [] then cur else ApplyOpt(FoldOpt(cur, ms[..|ms| - 1]), ms[|ms| - 1])
  }

  function OptKeys(ms: seq<OptMsg>): (r: seq<(int, string)>)
    ensures forall k :: k in r <==> exists m :: m in ms && (m.ts, m.flags) == k
  {
    if ms == [] then []
    else
      var m := ms[|ms| - 1];
      assert ms == ms[..|ms| - 1] + [m];
      OptKeys(ms[..|ms| - 1]) + [(m.ts, m.flags)]
  }

  /** None of these that has no positive stamp would be let in. */
  predicate NoneDrifts(cur: (int, string), keys: seq<(int, string)>) {
    forall k :: k in keys && k.0 <= 0 ==> !TextAccepts(k.0, k.1, cur.0, cur.1)
  }

  lemma {:induction false} FoldOptKeeps(cur: (int, string), ms: seq<OptMsg>)
    requires NoneDrifts(cur, OptKeys(ms))
    ensures FoldOpt(cur, ms) == Keep(TextLess(), cur, OptKeys(ms))
  {
    if ms != [] {
      var n := |ms| - 1;
      var before, k := OptKeys(ms[..n]), (ms[n].ts, ms[n].flags);
      assert OptKeys(ms) == before + [k] && (before + [k])[..|before|] == before;
      assert k in OptKeys(ms) && forall x :: x in before ==> x in OptKeys(ms);
      FoldOptKeeps(cur, ms[..n]);
      TextIsOrder();
      KeepIsGreatest(TextLess(), cur, before);
      var m := Keep(TextLess(), cur, before);
      assert TextLess()(m, k) ==> TextLess()(cur, k) by {
        assert !TextLess()(m, cur);
      }
    }
  }

  /** Any order, repeats and times of the same flags end in the same flags and stamp, if none of
      them that has no positive stamp is let in over what is there. */
  lemma OptConverges(cur: (int, string), a: seq<OptMsg>, b: seq<OptMsg>)
    requires NoneDrifts(cur, OptKeys(a))
    requires forall k :: k in OptKeys(a) <==> k in OptKeys(b)
    ensures FoldOpt(cur, a) == FoldOpt(cur, b)
  {
    FoldOptKeeps(cur, a);
    FoldOptKeeps(cur, b);
    TextIsOrder();
    KeepConverges(TextLess(), cur, OptKeys(a), OptKeys(b));
  }

  /** The messages bring these stamps and flags, at times of a clock. */
  ghost predicate Brings(ms: seq<OptMsg>, keys: seq<(int, string)>) {
    (forall k :: k in OptKeys(ms) <==> k in keys) && (forall m :: m in ms ==> m.now > 0)
  }

  /** Every order, repeat and time of these stamps and flags ends alike. */
  ghost predicate OptOrderFree(cur: (int, string), keys: seq<(int, string)>) {
    forall a, b :: Brings(a, keys) && Brings(b, keys) ==> FoldOpt(cur, a) == FoldOpt(cur, b)
  }

  /** One message for each key, all taken at time t. */
  function AllAt(keys: seq<(int, string)>, t: int): (ms: seq<OptMsg>)
    ensures |ms| == |keys| && forall i :: 0 <= i < |keys| ==> ms[i] == OptMsg(keys[i].0, keys[i].1, t)
  {
    seq(|keys|, i requires 0 <= i < |keys| => OptMsg(keys[i].0, keys[i].1, t))
  }

  lemma AllKeysCome(keys: seq<(int, string)>, t: int, k: (int, string))
    ensures k in OptKeys(AllAt(keys, t)) <==> k in keys
  {
    var ms := AllAt(keys, t);
    if k in keys {
      var i :| 0 <= i < |keys| && keys[i] == k;
      assert ms[i] in ms;
    }
  }

  lemma {:induction false} LaterThanAll(keys: seq<(int, string)>) returns (t: int)
    ensures t > 0 && forall k :: k in keys ==> k.0 < t
  {
    t := 1;
    if keys != [] {
      var u := LaterThanAll(keys[1..]);
      assert keys == [keys[0]] + keys[1..];
      t := if u > keys[0].0 then u else keys[0].0 + 1;
    }
  }

  lemma {:induction false} OlderFlagsIgnored(cur: (int, string), ms: seq<OptMsg>)
    requires forall m :: m in ms ==> m.ts < cur.0
    ensures FoldOpt(cur, ms) == cur
  {
    if ms != [] {
      var n := |ms| - 1;
      assert ms[n] in ms && forall m :: m in ms[..n] ==> m in ms;
      OlderFlagsIgnored(cur, ms[..n]);
    }
  }

  lemma {:induction false} OptSplit(cur: (int, string), m: OptMsg, ms: seq<OptMsg>)
    ensures FoldOpt(cur, [m] + ms) == FoldOpt(ApplyOpt(cur, m), ms)
  {
    if ms == [] {
      assert ([m] + ms)[..0] == [];
    } else {
      var n := |ms| - 1;
      OptSplit(cur, m, ms[..n]);
      assert ([m] + ms)[..n + 1] == [m] + ms[..n];
    }
  }

  /** Taken first and late, an unstamped message that is let in stays, under the time it was taken. */
  lemma DriftsTo(cur: (int, string), keys: seq<(int, string)>, k: (int, string), t: int) returns (ms: seq<OptMsg>)
    requires k in keys && k.0 <= 0 && TextAccepts(k.0, k.1, cur.0, cur.1)
    requires t > 0 && forall x :: x in keys ==> x.0 < t
    ensures Brings(ms, keys) && FoldOpt(cur, ms) == (t, k.1)
  {
    var m, rest := OptMsg(k.0, k.1, t), AllAt(keys, t);
    ms := [m] + rest;
    forall x ensures x in OptKeys(ms) <==> x in keys {
      AllKeysCome(keys, t, x);
      assert forall y :: y in ms <==> y == m || y in rest;
    }
    OptSplit(cur, m, rest);
    OlderFlagsIgnored((t, k.1), rest);
  }

  /** Every order, repeat and time of a set of flags ends alike exactly when none of them that has
      no positive stamp is let in over what is there. */
  lemma OptExactly(cur: (int, string), keys: seq<(int, string)>)
    ensures OptOrderFree(cur, keys) <==> NoneDrifts(cur, keys)
  {
    if NoneDrifts(cur, keys) {
      forall a, b | Brings(a, keys) && Brings(b, keys) ensures FoldOpt(cur, a) == FoldOpt(cur, b) {
        OptConverges(cur, a, b);
      }
    } else {
      var k :| k in keys && k.0 <= 0 && TextAccepts(k.0, k.1, cur.0, cur.1);
      var t := LaterThanAll(keys);
      var a := DriftsTo(cur, keys, k, t);
      var b := DriftsTo(cur, keys, k, t + 1);
      assert FoldOpt(cur, a) != FoldOpt(cur, b);
    }
  }

  /** An unstamped message beats a later stamped one, or not, by which comes first. */
  lemma UnstampedOrderMatters()
    ensures var early, late := OptMsg(0, "a", 10), OptMsg(5, "b", 10);
            && FoldOpt((0, ""), [early, late]) == (10, "a")
            && FoldOpt((0, ""), [late, early]) == (5, "b")
  {
    OptTwo((0, ""), OptMsg(0, "a", 10), OptMsg(5, "b", 10));
    OptTwo((0, ""), OptMsg(5, "b", 10), OptMsg(0, "a", 10));
    assert Less("", "a");
  }

  lemma OptTwo(cur: (int, string), x: OptMsg, y: OptMsg)
    ensures FoldOpt(cur, [x, y]) == ApplyOpt(ApplyOpt(cur, x), y)
  {
    assert [x, y][..1] == [x] && [x][..0] == [];
    assert FoldOpt(cur, [x]) == ApplyOpt(cur, x);
  }
}
