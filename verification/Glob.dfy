/** The bot's glob patterns: what a pattern means, the greedy matcher, and the
    table that decides whether two patterns share a string. */
module Glob {
  import opened Text

  // ---- meaning ---------------------------------------------------------------

  /** `?` fits any byte, any other symbol fits itself up to ASCII case. */
  predicate Fits(p: char, c: char) {
    p == '?' || LowerChar(p) == LowerChar(c)
  }

  /** A symbol fits exactly its own byte, or its letter in the other case; `?` fits every byte. */
  lemma FitsExactly(p: char, c: char)
    ensures Fits(p, c) <==> p == '?' || SameByte(p, c)
  {
    LowerTells(p, c);
  }

  /** `t` is one of the strings `p` describes: `*` stands for any run. */
  ghost predicate Matches(p: string, t: string)
    decreases |p|
  {
    if p == "" then t == ""
    else if p[0] == '*' then exists k :: 0 <= k <= |t| && Matches(p[1..], t[k..])
    else t != "" && Fits(p[0], t[0]) && Matches(p[1..], t[1..])
  }

  /** Some string is described by both patterns. */
  ghost predicate Overlaps(a: string, b: string) {
    exists w :: Matches(a, w) && Matches(b, w)
  }

  // ---- the greedy matcher ----------------------------------------------------

  predicate NoStar(p: string) {
    forall i :: 0 <= i < |p| ==> p[i] != '*'
  }

  predicate AllFit(lit: string, t: string) {
    |lit| == |t| && forall i :: 0 <= i < |lit| ==> Fits(lit[i], t[i])
  }

  /** A star-free stretch `lit` matches exactly the texts that begin with a fitting stretch. */
  lemma {:induction false} LiteralPrefix(lit: string, rest: string, t: string)
    requires NoStar(lit)
    ensures Matches(lit + rest, t) <==>
            |lit| <= |t| && AllFit(lit, t[..|lit|]) && Matches(rest, t[|lit|..])
  {
    if lit == "" {
      assert lit + rest == rest && t[0..] == t;
    } else {
      var p := lit + rest;
      assert p[1..] == lit[1..] + rest;
      if t != "" {
        LiteralPrefix(lit[1..], rest, t[1..]);
        if |lit| <= |t| {
          assert t[1..][|lit| - 1..] == t[|lit|..];
          assert t[..|lit|] == [t[0]] + t[1..][..|lit| - 1] && lit == [lit[0]] + lit[1..];
        }
      }
    }
  }

  /** Only the all-star patterns take the empty text. */
  lemma {:induction false} EmptyText(p: string)
    ensures Matches(p, "") <==> forall i :: 0 <= i < |p| ==> p[i] == '*'
  {
    if p != "" {
      EmptyText(p[1..]);
      assert ""[0..] == "";
      assert forall i :: 0 < i < |p| ==> p[i] == p[1..][i - 1];
    }
  }

  /** What the matcher knows while `p[s]` is the last star it passed: the text between
      `star_t` and `ti` fits the literal stretch after that star. */
  ghost predicate Stretch(p: string, t: string, s: nat, pi: nat, star_t: nat, ti: nat) {
    && s < pi <= |p| && star_t <= ti <= |t|
    && p[s] == '*'
    && NoStar(p[s + 1..pi])
    && AllFit(p[s + 1..pi], t[star_t..ti])
  }

  /** Reaching a further star forgets nothing: the older one never needs to be reopened. */
  lemma NextStar(p: string, t: string, s: nat, pi: nat, star_t: nat, ti: nat)
    requires Stretch(p, t, s, pi, star_t, ti) && pi < |p| && p[pi] == '*'
    ensures Matches(p[s..], t[star_t..]) <==> Matches(p[pi..], t[ti..])
  {
    var lit, rest, u := p[s + 1..pi], p[pi..], t[star_t..];
    assert p[s..][1..] == lit + rest;
    assert u[0..] == u;
    if Matches(p[s..], u) {
      var k :| 0 <= k <= |u| && Matches(p[s..][1..], u[k..]);
      LiteralPrefix(lit, rest, u[k..]);
      assert u[k..][|lit|..] == t[ti..][k..];
    }
    if Matches(rest, t[ti..]) {
      LiteralPrefix(lit, rest, u);
      assert u[..|lit|] == t[star_t..ti] && u[|lit|..] == t[ti..];
      assert Matches(p[s..][1..], u[0..]);
    }
  }

  /** A mismatch after the star: the run it stands for is at least one byte longer. */
  lemma Mismatch(p: string, t: string, s: nat, pi: nat, star_t: nat, ti: nat)
    requires Stretch(p, t, s, pi, star_t, ti) && ti < |t|
    requires pi == |p| || (p[pi] != '*' && !Fits(p[pi], t[ti]))
    ensures Matches(p[s..], t[star_t..]) <==> Matches(p[s..], t[star_t + 1..])
  {
    var lit, rest, u := p[s + 1..pi], p[pi..], t[star_t..];
    assert p[s..][1..] == lit + rest && u[0..] == u && u[|lit|..] == t[ti..];
    LiteralPrefix(lit, rest, u);
    LiteralStep(p, t, pi, ti);
    if Matches(p[s..], u) {
      var k :| 0 <= k <= |u| && Matches(p[s..][1..], u[k..]);
      assert k > 0;
      assert u[k..] == t[star_t + 1..][k - 1..];
    }
    if Matches(p[s..], t[star_t + 1..]) {
      assert t[star_t + 1..] == u[1..];
    }
  }

  /** The text is used up: what is left of the pattern must be stars. */
  lemma TextEnds(p: string, t: string, s: nat, pi: nat, star_t: nat)
    requires Stretch(p, t, s, pi, star_t, |t|)
    ensures Matches(p[s..], t[star_t..]) <==> Matches(p[pi..], "")
  {
    var lit, rest, u := p[s + 1..pi], p[pi..], t[star_t..];
    assert p[s..][1..] == lit + rest;
    if Matches(p[s..], u) {
      var k :| 0 <= k <= |u| && Matches(p[s..][1..], u[k..]);
      LiteralPrefix(lit, rest, u[k..]);
      assert k == 0 && u[k..][|lit|..] == "";
    }
    if Matches(rest, "") {
      LiteralPrefix(lit, rest, u);
      assert u[..|lit|] == t[star_t..] && u[|lit|..] == "" && u[0..] == u;
      assert Matches(p[s..][1..], u[0..]);
    }
  }

  lemma LiteralStep(p: string, t: string, pi: nat, ti: nat)
    requires pi <= |p| && ti < |t| && (pi < |p| ==> p[pi] != '*')
    ensures Matches(p[pi..], t[ti..]) <==>
            pi < |p| && Fits(p[pi], t[ti]) && Matches(p[pi + 1..], t[ti + 1..])
  {
    if pi < |p| {
      assert p[pi..][1..] == p[pi + 1..] && t[ti..][1..] == t[ti + 1..];
    }
  }

  /** The matcher goes back to the last star only, and still decides `Matches`. */
  method WildcardMatch(p: string, t: string) returns (r: bool)
    ensures r <==> Matches(p, t)
  {
    hide Matches;
    var pi, ti := 0, 0;
    var star: Option<nat> := None;
    var star_t := 0;
    assert p[0..] == p && t[0..] == t;
    while ti < |t|
      invariant pi <= |p| && ti <= |t| && star_t <= ti
      invariant star.None? ==> (Matches(p, t) <==> Matches(p[pi..], t[ti..]))
      invariant star.Some? ==> star.value < pi && Stretch(p, t, star.value, pi, star_t, ti)
      invariant star.Some? ==> (Matches(p, t) <==> Matches(p[star.value..], t[star_t..]))
      decreases if star.None? then |t| + 1 else |t| - star_t, |p| - pi
    {
      if pi < |p| && p[pi] == '*' {
        if star.Some? {
          NextStar(p, t, star.value, pi, star_t, ti);
        }
        star := Some(pi);
        pi := pi + 1;
        star_t := ti;
      } else if pi < |p| && Fits(p[pi], t[ti]) {
        if star.None? {
          LiteralStep(p, t, pi, ti);
        } else {
          assert p[star.value + 1..pi + 1] == p[star.value + 1..pi] + [p[pi]];
          assert t[star_t..ti + 1] == t[star_t..ti] + [t[ti]];
        }
        pi := pi + 1;
        ti := ti + 1;
      } else if star.Some? {
        Mismatch(p, t, star.value, pi, star_t, ti);
        pi := star.value + 1;
        star_t := star_t + 1;
        ti := star_t;
      } else {
        LiteralStep(p, t, pi, ti);
        return false;
      }
    }
    assert t[ti..] == "";
    if star.Some? {
      TextEnds(p, t, star.value, pi, star_t);
    }
    ghost var from := pi;
    EmptyText(p[from..]);
    while pi < |p| && p[pi] == '*'
      invariant from <= pi <= |p|
      invariant forall i :: from <= i < pi ==> p[i] == '*'
    {
      pi := pi + 1;
    }
    assert pi < |p| ==> p[from..][pi - from] != '*';
    assert forall i :: 0 <= i < |p[from..]| ==> p[from..][i] == p[from + i];
    r := pi == |p|;
  }

  // ---- overlap of two patterns -----------------------------------------------

  const OVERLAP_MAX := 256

  /** Two symbols that are not stars have a byte in common. */
  predicate Compatible(p: char, q: char) {
    p == '?' || q == '?' || LowerChar(p) == LowerChar(q)
  }

  /** A byte that both symbols fit, taken from the patterns when they name one. */
  function Common(p: char, q: char): (c: char)
    requires Compatible(p, q)
    ensures Fits(p, c) && Fits(q, c)
  {
    if p != '?' then p else if q != '?' then q else 'a'
  }

  lemma OverlapEnded(b: string)
    ensures Overlaps("", b) <==> forall i :: 0 <= i < |b| ==> b[i] == '*'
  {
    EmptyText(b);
    assert Matches("", "");
    assert Overlaps("", b) <==> Matches(b, "");
  }

  lemma OverlapLiteral(a: string, b: string)
    requires a != "" && b != "" && a[0] != '*' && b[0] != '*'
    ensures Overlaps(a, b) <==> Compatible(a[0], b[0]) && Overlaps(a[1..], b[1..])
  {
    if Overlaps(a, b) {
      var w :| Matches(a, w) && Matches(b, w);
      assert Matches(a[1..], w[1..]) && Matches(b[1..], w[1..]);
    }
    if Compatible(a[0], b[0]) && Overlaps(a[1..], b[1..]) {
      var w :| Matches(a[1..], w) && Matches(b[1..], w);
      var v := [Common(a[0], b[0])] + w;
      assert v[1..] == w;
      assert Matches(a, v) && Matches(b, v);
    }
  }

  /** The star at the head of `a` is empty, or it takes what one symbol of `b` stands for. */
  lemma OverlapStar(a: string, b: string)
    requires a != "" && b != "" && a[0] == '*'
    ensures Overlaps(a, b) <==> Overlaps(a[1..], b) || Overlaps(a, b[1..])
  {
    if Overlaps(a, b) {
      var w :| Matches(a, w) && Matches(b, w);
      StarSplits(a, b, w);
    }
    if Overlaps(a[1..], b) {
      var w :| Matches(a[1..], w) && Matches(b, w);
      assert w[0..] == w;
      assert Matches(a, w);
    }
    if Overlaps(a, b[1..]) {
      var w :| Matches(a, w) && Matches(b[1..], w);
      if b[0] == '*' {
        assert w[0..] == w;
        assert Matches(b, w);
      } else {
        var v := [Common('?', b[0])] + w;
        assert v[1..] == w;
        assert Matches(b, v);
      }
    }
  }

  lemma StarTakes(p: string, t: string, k: nat, rest: string)
    requires p != "" && p[0] == '*' && k <= |t| && t[k..] == rest && Matches(p[1..], rest)
    ensures Matches(p, t)
  {
  }

  lemma StarSplits(a: string, b: string, w: string)
    requires a != "" && b != "" && a[0] == '*'
    requires Matches(a, w) && Matches(b, w)
    ensures Overlaps(a[1..], b) || Overlaps(a, b[1..])
  {
    var k :| 0 <= k <= |w| && Matches(a[1..], w[k..]);
    if b[0] == '*' {
      var m :| 0 <= m <= |w| && Matches(b[1..], w[m..]);
      if m <= k {
        StarTakes(a, w[m..], k - m, w[k..]);
      } else {
        StarTakes(b, w[k..], m - k, w[m..]);
      }
    } else if k == 0 {
      assert w[0..] == w;
    } else {
      assert w[1..][k - 1..] == w[k..];
      assert Matches(a, w[1..]);
    }
  }

  /** Row `i`, column `j` of the table. */
  ghost predicate Ov(a: string, b: string, i: nat, j: nat)
    requires i <= |a| && j <= |b|
  {
    Overlaps(a[i..], b[j..])
  }

  /** The recurrence the table is filled by. */
  lemma OverlapCell(a: string, b: string, i: nat, j: nat)
    requires i <= |a| && j <= |b|
    ensures i == |a| && j == |b| ==> Ov(a, b, i, j)
    ensures i == |a| && j < |b| ==> (Ov(a, b, i, j) <==> b[j] == '*' && Ov(a, b, i, j + 1))
    ensures i < |a| && j == |b| ==> (Ov(a, b, i, j) <==> a[i] == '*' && Ov(a, b, i + 1, j))
    ensures i < |a| && j < |b| && (a[i] == '*' || b[j] == '*') ==>
              (Ov(a, b, i, j) <==> Ov(a, b, i + 1, j) || Ov(a, b, i, j + 1))
    ensures i < |a| && j < |b| && a[i] != '*' && b[j] != '*' ==>
              (Ov(a, b, i, j) <==> Compatible(a[i], b[j]) && Ov(a, b, i + 1, j + 1))
  {
    var u, v := a[i..], b[j..];
    assert i < |a| ==> u[1..] == a[i + 1..] && u[0] == a[i];
    assert j < |b| ==> v[1..] == b[j + 1..] && v[0] == b[j];
    if i == |a| {
      EndedCell(u, v);
    } else if j == |b| {
      EndedCell(v, u);
    } else if u[0] == '*' {
      OverlapStar(u, v);
    } else if v[0] == '*' {
      OverlapStar(v, u);
    } else {
      OverlapLiteral(u, v);
    }
  }

  lemma EndedCell(u: string, v: string)
    requires u == ""
    ensures v == "" ==> Overlaps(u, v)
    ensures v != "" ==> (Overlaps(u, v) <==> v[0] == '*' && Overlaps(u, v[1..]))
  {
    OverlapEnded(v);
    if v != "" {
      OverlapEnded(v[1..]);
      assert forall i :: 0 < i < |v| ==> v[i] == v[1..][i - 1];
    }
  }

  /** Exact up to 256 bytes; a longer pattern is reported as overlapping. */
  method GlobOverlap(a: string, b: string) returns (r: bool)
    ensures |a| <= 256 && |b| <= 256 ==> (r <==> Overlaps(a, b))
    ensures |a| > 256 || |b| > 256 ==> r
  {
    var la, lb := |a|, |b|;
    if la > OVERLAP_MAX || lb > OVERLAP_MAX {
      return true;
    }
    var next := new bool[OVERLAP_MAX + 2];
    var cur := new bool[OVERLAP_MAX + 2];

    next[lb] := true;
    OverlapCell(a, b, la, lb);
    for j := lb downto 0
      invariant forall c :: j <= c <= lb ==> (next[c] <==> Ov(a, b, la, c))
    {
      OverlapCell(a, b, la, j);
      next[j] := b[j] == '*' && next[j + 1];
    }

    for i := la downto 0
      invariant next != cur && next.Length == cur.Length == OVERLAP_MAX + 2
      invariant fresh(next) && fresh(cur)
      invariant forall c :: 0 <= c <= lb ==> (next[c] <==> Ov(a, b, i, c))
    {
      OverlapCell(a, b, i, lb);
      cur[lb] := a[i] == '*' && next[lb];
      for j := lb downto 0
        invariant forall c :: j <= c <= lb ==> (cur[c] <==> Ov(a, b, i, c))
        invariant forall c :: 0 <= c <= lb ==> (next[c] <==> Ov(a, b, i + 1, c))
      {
        OverlapCell(a, b, i, j);
        cur[j] :=
          if a[i] == '*' || b[j] == '*' then next[j] || cur[j + 1]
          else Compatible(a[i], b[j]) && next[j + 1];
      }
      next, cur := cur, next;
    }
    assert a[0..] == a && b[0..] == b;
    r := next[0];
  }

  // ---- patterns put together ---------------------------------------------------

  /** A pattern made of two parts describes the texts made of two such parts. */
  lemma {:induction false} MatchesConcat(p: string, q: string, t: string)
    ensures Matches(p + q, t) <==> exists k :: 0 <= k <= |t| && Matches(p, t[..k]) && Matches(q, t[k..])
    decreases |p|, 1
  {
    if p == "" {
      assert p + q == q && t[0..] == t && t[..0] == "";
    } else {
      assert (p + q)[1..] == p[1..] + q;
      if p[0] == '*' {
        ConcatStar(p, q, t);
      } else {
        ConcatSymbol(p, q, t);
      }
    }
  }

  lemma {:induction false} ConcatSymbol(p: string, q: string, t: string)
    requires p != "" && p[0] != '*'
    ensures Matches(p + q, t) <==> exists k :: 0 <= k <= |t| && Matches(p, t[..k]) && Matches(q, t[k..])
    decreases |p|, 0
  {
    assert (p + q)[1..] == p[1..] + q;
    if t != "" {
      MatchesConcat(p[1..], q, t[1..]);
      if Matches(p + q, t) {
        var k :| 0 <= k <= |t[1..]| && Matches(p[1..], t[1..][..k]) && Matches(q, t[1..][k..]);
        assert t[..k + 1][1..] == t[1..][..k] && t[1..][k..] == t[k + 1..];
        assert Matches(p, t[..k + 1]);
      }
      forall k | 0 <= k <= |t| && Matches(p, t[..k]) && Matches(q, t[k..])
        ensures Matches(p + q, t)
      {
        assert t[..k][1..] == t[1..][..k - 1] && t[1..][k - 1..] == t[k..];
      }
    }
  }

  lemma {:induction false} ConcatStar(p: string, q: string, t: string)
    requires p != "" && p[0] == '*'
    ensures Matches(p + q, t) <==> exists k :: 0 <= k <= |t| && Matches(p, t[..k]) && Matches(q, t[k..])
    decreases |p|, 0
  {
    assert (p + q)[1..] == p[1..] + q;
    if Matches(p + q, t) {
      var j :| 0 <= j <= |t| && Matches((p + q)[1..], t[j..]);
      MatchesConcat(p[1..], q, t[j..]);
      var k :| 0 <= k <= |t[j..]| && Matches(p[1..], t[j..][..k]) && Matches(q, t[j..][k..]);
      assert t[..j + k][j..] == t[j..][..k] && t[j..][k..] == t[j + k..];
      assert Matches(p, t[..j + k]);
    }
    forall k | 0 <= k <= |t| && Matches(p, t[..k]) && Matches(q, t[k..])
      ensures Matches(p + q, t)
    {
      var j :| 0 <= j <= |t[..k]| && Matches(p[1..], t[..k][j..]);
      MatchesConcat(p[1..], q, t[j..]);
      assert t[j..][..k - j] == t[..k][j..] && t[j..][k - j..] == t[k..];
    }
  }

  /** Text in place of each part of a pattern. */
  lemma PartsMatch(p: string, t: string, q: string, u: string)
    requires Matches(p, t) && Matches(q, u)
    ensures Matches(p + q, t + u)
  {
    assert (t + u)[..|t|] == t && (t + u)[|t|..] == u;
    MatchesConcat(p, q, t + u);
  }

  /** Every string of `narrow` is a string of `wide`. */
  ghost predicate Includes(wide: string, narrow: string) {
    forall t :: Matches(narrow, t) ==> Matches(wide, t)
  }

  lemma IncludesConcat(p: string, p': string, q: string, q': string)
    requires Includes(p, p') && Includes(q, q')
    ensures Includes(p + q, p' + q')
  {
    forall t | Matches(p' + q', t)
      ensures Matches(p + q, t)
    {
      MatchesConcat(p', q', t);
      MatchesConcat(p, q, t);
    }
  }

  lemma StarMatchesAll(t: string)
    ensures Matches("*", t)
  {
    assert Matches("*"[1..], t[|t|..]);
  }

  /** Text without a star, read as a pattern, matches itself. */
  lemma SelfMatch(s: string)
    requires NoStar(s)
    ensures Matches(s, s)
  {
    assert s + "" == s;
    LiteralPrefix(s, "", s);
  }

  /** The strings of a symbol that only fits itself: that byte, up to case. */
  lemma LiteralText(s: string, t: string)
    requires NoStar(s)
    ensures Matches(s, t) <==> AllFit(s, t)
  {
    assert s + "" == s;
    LiteralPrefix(s, "", t);
    if |s| <= |t| {
      assert |t[|s|..]| == |t| - |s|;
      if |s| == |t| {
        assert t[..|s|] == t;
      }
    }
  }

  // ---- case ---------------------------------------------------------------------

  /** Letters of pattern or text in another case change nothing. */
  lemma {:induction false} CaseKeepsMatch(p: string, q: string, t: string, u: string)
    requires SameButCase(p, q) && SameButCase(t, u) && Matches(p, t)
    ensures Matches(q, u)
    decreases |p|
  {
    if p != "" {
      assert SameByte(p[0], q[0]) && SameButCase(p[1..], q[1..]);
      if p[0] == '*' {
        var k :| 0 <= k <= |t| && Matches(p[1..], t[k..]);
        CaseKeepsMatch(p[1..], q[1..], t[k..], u[k..]);
      } else {
        FitsExactly(p[0], t[0]);
        FitsExactly(q[0], u[0]);
        CaseKeepsMatch(p[1..], q[1..], t[1..], u[1..]);
      }
    }
  }

  lemma CaseTurned(a: string, b: string)
    requires SameButCase(a, b)
    ensures SameButCase(b, a)
  {
  }

  lemma MatchesInAnyCase(p: string, q: string, t: string, u: string)
    requires SameButCase(p, q) && SameButCase(t, u)
    ensures Matches(p, t) <==> Matches(q, u)
  {
    CaseTurned(p, q);
    CaseTurned(t, u);
    if Matches(p, t) {
      CaseKeepsMatch(p, q, t, u);
    }
    if Matches(q, u) {
      CaseKeepsMatch(q, p, u, t);
    }
  }

  /** Nor does it change which patterns share a string. */
  lemma OverlapsInAnyCase(a: string, b: string, c: string, d: string)
    requires SameButCase(a, c) && SameButCase(b, d)
    ensures Overlaps(a, b) <==> Overlaps(c, d)
  {
    CaseTurned(a, c);
    CaseTurned(b, d);
    forall w ensures Matches(a, w) <==> Matches(c, w) {
      MatchesInAnyCase(a, c, w, w);
    }
    forall w ensures Matches(b, w) <==> Matches(d, w) {
      MatchesInAnyCase(b, d, w, w);
    }
  }

  // ---- bytes -------------------------------------------------------------------

  predicate IsBytes(s: string) {
    forall i :: 0 <= i < |s| ==> s[i] <= '\U{FF}'
  }

  function ClampByte(c: char): char {
    if c <= '\U{FF}' then c else 'a'
  }

  function ClampBytes(s: string): (r: string)
    ensures IsBytes(r) && |r| == |s|
  {
    seq(|s|, i requires 0 <= i < |s| => ClampByte(s[i]))
  }

  lemma {:induction false} ClampKeepsMatch(p: string, t: string)
    requires IsBytes(p) && Matches(p, t)
    ensures Matches(p, ClampBytes(t))
    decreases |p|
  {
    if p != "" {
      if p[0] == '*' {
        var k :| 0 <= k <= |t| && Matches(p[1..], t[k..]);
        ClampKeepsMatch(p[1..], t[k..]);
        assert ClampBytes(t)[k..] == ClampBytes(t[k..]);
      } else {
        ClampKeepsMatch(p[1..], t[1..]);
        assert p[0] <= '\U{FF}';
        assert ClampBytes(t)[1..] == ClampBytes(t[1..]);
      }
    }
  }

  /** Two byte patterns that overlap at all share a string of bytes. */
  lemma OverlapOnBytes(a: string, b: string)
    requires IsBytes(a) && IsBytes(b)
    ensures Overlaps(a, b) <==> exists w :: IsBytes(w) && Matches(a, w) && Matches(b, w)
  {
    if Overlaps(a, b) {
      var w :| Matches(a, w) && Matches(b, w);
      ClampKeepsMatch(a, w);
      ClampKeepsMatch(b, w);
    }
  }
}
