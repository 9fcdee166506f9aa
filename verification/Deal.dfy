/** The leaderless deal: every bot ranks the eligible bots for a job by itself, and all of
    them come to the same ranking. */
module Deal {
  import opened Text
  import opened Counting
  import opened Stamps

  const ID_ROOM := MAX_CHAN + 64
  const MAX_ROSTER_SIZE := 500
  const JOB_COUNT := 5

  /** The hash of the channel's name and an id, as a number. */
  type Hash = string -> nat

  /** A channel member, as far as the deal looks: an op, the bot itself, the trusted bot its
      host is, and whether that bot is too old for the deal. */
  datatype Member = Member(op: bool, self: bool, bot: Option<string>, tooOld: bool)

  // ---- the specification -----------------------------------------------------------------

  predicate Before(h: Hash, a: string, b: string) {
    h(a) < h(b) || (h(a) == h(b) && Less(a, b))
  }

  /** Bots dealt before `me`. */
  ghost function Pos(h: Hash, ids: set<string>, me: string): nat {
    |set e | e in ids && Before(h, e, me)|
  }

  /** The backup index for a job: 0 holds it. */
  ghost function Rank(h: Hash, ids: set<string>, me: string, job: nat): nat
    requires ids != {}
  {
    (Pos(h, ids, me) + |ids| - job % |ids|) % |ids|
  }

  predicate Fits(lcLen: nat, id: string) {
    lcLen + |id| <= ID_ROOM
  }

  predicate Counts(m: Member) {
    m.op && !m.self && m.bot.Some? && !m.tooOld
  }

  function Eligible(lcLen: nat, me: string, roster: seq<Member>): set<string> {
    {me} + set m | m in roster && Counts(m) && Fits(lcLen, m.bot.value) :: m.bot.value
  }

  /** The bot itself, and every trusted bot that is an op, is not the bot itself, is not too old and whose id
      fits with the channel's name. */
  lemma EligibleExactly(lcLen: nat, me: string, roster: seq<Member>, e: string)
    ensures e in Eligible(lcLen, me, roster)
            <==> e == me || (lcLen + |e| <= 129 && Member(true, false, Some(e), false) in roster)
  {
  }

  /** Dealt by the hash, and by the text of the id where two hashes are equal. */
  lemma BeforeMeans(h: Hash, a: string, b: string)
    ensures Before(h, a, b) <==> h(a) < h(b) || (h(a) == h(b) && Precedes(a, b))
  {
    LessExactly(a, b);
  }

  // ---- the computation -------------------------------------------------------------------

  ghost predicate Sorted(h: Hash, s: seq<string>) {
    forall i, j :: 0 <= i < j < |s| ==> Before(h, s[i], s[j])
  }

  lemma BeforeIsOrder(h: Hash, a: string, b: string, c: string)
    ensures !Before(h, a, a)
    ensures Before(h, a, b) && Before(h, b, c) ==> Before(h, a, c)
    ensures a == b || Before(h, a, b) || Before(h, b, a)
    ensures !(Before(h, a, b) && Before(h, b, a))
  {
    LessTotal(a, b);
    LessTotal(a, a);
    if Less(a, b) && Less(b, c) {
      LessTransitive(a, b, c);
    }
    if Less(a, b) && Less(b, a) {
      LessTransitive(a, b, a);
    }
  }

  /** `x` put in its place. */
  function Insert(h: Hash, s: seq<string>, x: string): (r: seq<string>)
    ensures |r| == |s| + 1
    ensures forall e :: e in r <==> e in s || e == x
  {
    if s == [] then [x]
    else if Before(h, x, s[0]) then [x] + s
    else
      assert s == [s[0]] + s[1..];
      [s[0]] + Insert(h, s[1..], x)
  }

  function Sort(h: Hash, s: seq<string>): (r: seq<string>)
    ensures |r| == |s|
    ensures forall e :: e in r <==> e in s
  {
    if s == [] then []
    else
      assert s == [s[0]] + s[1..];
      Insert(h, Sort(h, s[1..]), s[0])
  }

  lemma {:induction false} InsertSorted(h: Hash, s: seq<string>, x: string)
    requires Sorted(h, s) && x !in s
    ensures Sorted(h, Insert(h, s, x))
  {
    if s != [] {
      BeforeIsOrder(h, x, s[0], s[0]);
      if Before(h, x, s[0]) {
        forall j | 0 < j < |s| ensures Before(h, x, s[j]) {
          BeforeIsOrder(h, x, s[0], s[j]);
        }
      } else {
        InsertSorted(h, s[1..], x);
        var rest := Insert(h, s[1..], x);
        forall j | 0 <= j < |rest| ensures Before(h, s[0], rest[j]) {
          if rest[j] != x {
            assert rest[j] in s[1..];
          }
        }
      }
    }
  }

  lemma {:induction false} SortSorted(h: Hash, s: seq<string>)
    requires AllDiffer(s)
    ensures Sorted(h, Sort(h, s))
  {
    if s != [] {
      SortSorted(h, s[1..]);
      InsertSorted(h, Sort(h, s[1..]), s[0]);
    }
  }

  lemma SortedDiffer(h: Hash, s: seq<string>)
    requires Sorted(h, s)
    ensures AllDiffer(s)
  {
    forall i, j | 0 <= i < j < |s| ensures s[i] != s[j] {
      BeforeIsOrder(h, s[i], s[j], s[j]);
    }
  }

  ghost function SetOf(s: seq<string>): set<string> {
    set e | e in s
  }

  /** In a sorted list a bot stands where the deal counts it. */
  lemma SortedPos(h: Hash, s: seq<string>, p: nat)
    requires Sorted(h, s) && p < |s|
    ensures Pos(h, SetOf(s), s[p]) == p && |SetOf(s)| == |s|
  {
    SortedDiffer(h, s);
    DistinctSize(s);
    DistinctSize(s[..p]);
    var before := set e | e in SetOf(s) && Before(h, e, s[p]);
    forall e ensures e in before <==> e in s[..p] {
      if e in before {
        var q :| 0 <= q < |s| && s[q] == e;
        BeforeIsOrder(h, s[p], s[q], s[q]);
        assert q < p;
        assert s[..p][q] == e;
      }
      if e in s[..p] {
        var q :| 0 <= q < p && s[..p][q] == e;
        assert s[q] == e;
      }
    }
    assert before == set e | e in s[..p];
  }

  /** The bot itself and the eligible members, each id once. */
  method Gather(lcLen: nat, me: string, roster: seq<Member>) returns (el: seq<string>)
    requires |roster| <= MAX_ROSTER_SIZE
    ensures AllDiffer(el) && SetOf(el) == Eligible(lcLen, me, roster)
  {
    el := [me];
    var k := 0;
    while k < |roster| && |el| <= MAX_ROSTER_SIZE
      invariant k <= |roster| && |el| <= k + 1
      invariant AllDiffer(el)
      invariant forall e :: e in el <==> e in Eligible(lcLen, me, roster[..k])
    {
      var m := roster[k];
      assert roster[..k + 1] == roster[..k] + [m];
      if Counts(m) && m.bot.value !in el && Fits(lcLen, m.bot.value) {
        el := el + [m.bot.value];
      }
      k := k + 1;
    }
    assert roster[..k] == roster;
  }

  method LastAt(el: seq<string>, me: string) returns (pos: nat)
    requires me in el
    ensures pos < |el| && el[pos] == me
    ensures forall q :: pos < q < |el| ==> el[q] != me
  {
    pos := |el| - 1;
    while el[pos] != me
      invariant pos < |el| && forall q :: pos < q < |el| ==> el[q] != me
      decreases pos
    {
      assert pos != 0 by {
        if pos == 0 {
          assert forall q :: 0 <= q < |el| ==> el[q] != me;
        }
      }
      pos := pos - 1;
    }
  }

  lemma SortedRank(h: Hash, el: seq<string>, pos: nat, job: nat)
    requires Sorted(h, el) && pos < |el|
    ensures SetOf(el) != {}
    ensures (pos + |el| - job % |el|) % |el| == Rank(h, SetOf(el), el[pos], job)
  {
    SortedPos(h, el, pos);
  }

  method DealRank(h: Hash, lcLen: nat, me: string, opped: bool, job: nat, roster: seq<Member>) returns (r: int)
    requires |roster| <= MAX_ROSTER_SIZE
    ensures r == if !opped || job >= 5 || lcLen + |me| > 129 then -1
                 else Rank(h, Eligible(lcLen, me, roster), me, job)
  {
    if !opped || job >= JOB_COUNT || !Fits(lcLen, me) {
      return -1;
    }
    var ids := Gather(lcLen, me, roster);
    SortSorted(h, ids);
    var el := Sort(h, ids);
    assert SetOf(el) == SetOf(ids);
    assert me in SetOf(el);
    var pos := LastAt(el, me);
    SortedRank(h, el, pos, job);
    var n := |el|;
    var primary := job % n;
    r := (pos + n - primary) % n;
  }

  // ---- what the ranks are ------------------------------------------------------------------

  ghost function Listing(ids: set<string>): (r: seq<string>)
    ensures AllDiffer(r) && SetOf(r) == ids
  {
    if ids == {} then []
    else
      var x :| x in ids;
      var rest := Listing(ids - {x});
      assert x !in SetOf(rest);
      assert SetOf([x] + rest) == SetOf(rest) + {x};
      [x] + rest
  }

  /** The ids in the order of the deal. */
  lemma Dealt(h: Hash, ids: set<string>) returns (s: seq<string>)
    ensures Sorted(h, s) && SetOf(s) == ids && |s| == |ids|
    ensures forall p :: 0 <= p < |s| ==> s[p] in ids && Pos(h, ids, s[p]) == p
    ensures forall e :: e in ids ==> 0 <= Pos(h, ids, e) < |s| && s[Pos(h, ids, e)] == e
  {
    s := Sort(h, Listing(ids));
    SortSorted(h, Listing(ids));
    assert SetOf(s) == ids by {
      forall e ensures e in s <==> e in ids {
        assert e in SetOf(Listing(ids)) <==> e in ids;
      }
    }
    SortedDiffer(h, s);
    DistinctSize(s);
    forall p | 0 <= p < |s| ensures s[p] in ids && Pos(h, ids, s[p]) == p {
      SortedPos(h, s, p);
      assert s[p] in SetOf(s);
    }
    forall e | e in ids ensures 0 <= Pos(h, ids, e) < |s| && s[Pos(h, ids, e)] == e {
      assert e in SetOf(s);
      var p :| 0 <= p < |s| && s[p] == e;
    }
  }

  lemma Turned(p: int, j: int, n: int)
    requires 0 <= p < n && 0 <= j < n
    ensures (p + n - j) % n == if p >= j then p - j else p + n - j
  {
    if p >= j {
      assert p + n - j == (p - j) + n;
      assert (p - j + n) % n == (p - j) % n;
    }
  }

  /** The ranks for a job are 0 .. n-1, each given to exactly one bot. */
  lemma RanksArePermutation(h: Hash, ids: set<string>, job: nat, rank: nat)
    requires rank < |ids|
    ensures ids != {}
    ensures exists e :: e in ids && Rank(h, ids, e, job) == rank
    ensures forall e, f :: e in ids && f in ids && Rank(h, ids, e, job) == rank && Rank(h, ids, f, job) == rank ==> e == f
    ensures forall e :: e in ids ==> 0 <= Rank(h, ids, e, job) < |ids|
  {
    hide Pos, Before, Sorted;
    var n := |ids|;
    var s := Dealt(h, ids);
    var j := job % n;
    var at := if rank + j < n then rank + j else rank + j - n;
    Turned(at, j, n);
    assert s[at] in ids && Rank(h, ids, s[at], job) == rank;
    forall e | e in ids ensures Rank(h, ids, e, job) == rank ==> e == s[at] {
      Turned(Pos(h, ids, e), j, n);
    }
  }

  /** The holder of a job is the bot dealt at its number, modulo the number of bots; the backups are those
      dealt after it, in that order, starting over at the end. */
  lemma RankIs(h: Hash, ids: set<string>, e: string, job: nat)
    requires e in ids
    ensures ids != {} && 0 <= Rank(h, ids, e, job) < |ids|
    ensures Pos(h, ids, e) == (job % |ids| + Rank(h, ids, e, job)) % |ids|
  {
    hide Pos, Before, Sorted;
    var s := Dealt(h, ids);
    TurnedBack(Pos(h, ids, e), job % |ids|, |ids|);
  }

  lemma TurnedBack(p: int, j: int, n: int)
    requires 0 <= p < n && 0 <= j < n
    ensures 0 <= (p + n - j) % n < n && (j + (p + n - j) % n) % n == p
  {
    Turned(p, j, n);
    if p < j {
      Turned(p, 0, n);
    }
  }

  /** Two jobs share a holder exactly when their numbers are equal modulo the number of bots. */
  lemma SameHolder(h: Hash, ids: set<string>, job1: nat, job2: nat)
    requires ids != {}
    ensures (exists e :: e in ids && Rank(h, ids, e, job1) == 0 && Rank(h, ids, e, job2) == 0)
            <==> job1 % |ids| == job2 % |ids|
  {
    hide Pos, Before, Sorted;
    var n := |ids|;
    assert n > 0;
    var s := Dealt(h, ids);
    var j1, j2 := job1 % n, job2 % n;
    forall e | e in ids ensures Rank(h, ids, e, job1) == 0 <==> Pos(h, ids, e) == j1
                        ensures Rank(h, ids, e, job2) == 0 <==> Pos(h, ids, e) == j2 {
      Turned(Pos(h, ids, e), j1, n);
      Turned(Pos(h, ids, e), j2, n);
    }
    if j1 == j2 {
      assert s[j1] in ids;
    }
  }
}
