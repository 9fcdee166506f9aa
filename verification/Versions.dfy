/** Version numbers: a byte scan of two strings that is meant to be the order of the numbers. */
module Versions {
  import opened Text
  import opened Numbers

  datatype Order = Lt | Eq | Gt

  // ---- the scan --------------------------------------------------------------------------

  function CmpChar(a: char, b: char): Order {
    if a < b then Lt else if a == b then Eq else Gt
  }

  function CmpNat(a: nat, b: nat): Order {
    if a < b then Lt else if a == b then Eq else Gt
  }

  /** Leading digits. */
  function DigitSpan(s: string): (n: nat)
    ensures n <= |s| && forall i :: 0 <= i < n ==> IsDigit(s[i])
    ensures n < |s| ==> !IsDigit(s[n])
  {
    if s == "" || !IsDigit(s[0]) then 0 else 1 + DigitSpan(s[1..])
  }

  function Then(first: Order, second: Order): Order {
    if first == Eq then second else first
  }

  /** At the first difference: the longer run of digits from there wins, else the byte. */
  function VersCmp(a: string, b: string): Order
    decreases |a|
  {
    var c, d := ByteAt(a, 0), ByteAt(b, 0);
    if c == d then
      if c == NUL then Eq else VersCmp(a[1..], b[1..])
    else if IsDigit(c) && IsDigit(d) then Then(CmpNat(DigitSpan(a), DigitSpan(b)), CmpChar(c, d))
    else CmpChar(c, d)
  }

  method Strverscmp(s1: string, s2: string) returns (r: Order)
    ensures r == VersCmp(s1, s2)
  {
    var i: nat := 0;
    while ByteAt(s1, i) == ByteAt(s2, i)
      invariant i <= |s1| && i <= |s2|
      invariant VersCmp(s1, s2) == VersCmp(s1[i..], s2[i..])
      decreases |s1| - i
    {
      if ByteAt(s1, i) == NUL {
        assert ByteAt(s1[i..], 0) == NUL;
        return Eq;
      }
      assert s1[i..][1..] == s1[i + 1..] && s2[i..][1..] == s2[i + 1..];
      i := i + 1;
    }
    var c1, c2 := ByteAt(s1, i), ByteAt(s2, i);
    assert ByteAt(s1[i..], 0) == c1 && ByteAt(s2[i..], 0) == c2;
    if !IsDigit(c1) || !IsDigit(c2) {
      return CmpChar(c1, c2);
    }
    r := DigitRuns(s1, s2, i);
  }

  /** Both digit runs walked side by side: the first difference counts if they end together. */
  method DigitRuns(s1: string, s2: string, i: nat) returns (r: Order)
    requires i < |s1| && i < |s2| && IsDigit(s1[i]) && IsDigit(s2[i]) && s1[i] != s2[i]
    ensures r == Then(CmpNat(DigitSpan(s1[i..]), DigitSpan(s2[i..])), CmpChar(s1[i], s2[i]))
  {
    hide DigitSpan;
    var c1, c2 := s1[i], s2[i];
    var p1, p2 := i + 1, i + 1;
    var state := Eq;
    while true
      invariant p1 == p2 && i < p1 <= |s1| && p2 <= |s2|
      invariant DigitSpan(s1[i..]) == p1 - i + DigitSpan(s1[p1..])
      invariant DigitSpan(s2[i..]) == p2 - i + DigitSpan(s2[p2..])
      invariant Then(state, CmpChar(c1, c2)) == CmpChar(s1[i], s2[i])
      decreases |s1| - p1
    {
      if state == Eq {
        state := CmpChar(c1, c2);
      }
      var more1 := p1 < |s1| && IsDigit(s1[p1]);
      var more2 := p2 < |s2| && IsDigit(s2[p2]);
      if !more1 && !more2 {
        return state;
      }
      if !more1 {
        return Lt;
      }
      if !more2 {
        return Gt;
      }
      c1, c2 := s1[p1], s2[p2];
      p1, p2 := p1 + 1, p2 + 1;
    }
  }

  function StripV(v: string): string {
    if v != "" && (v[0] == 'v' || v[0] == 'V') then v[1..] else v
  }

  method VersionCmp(a: string, b: string) returns (r: Order)
    ensures r == VersCmp(StripV(a), StripV(b))
  {
    r := Strverscmp(StripV(a), StripV(b));
  }

  predicate VersionEq(a: string, b: string) {
    EqIc(StripV(a), StripV(b))
  }

  // ---- versions as numbers -----------------------------------------------------------------

  /** Digits without a leading zero. */
  predicate Component(s: string) {
    Digits(s) && (s[0] == '0' ==> s == "0")
  }

  /** Components between dots. */
  predicate Dotted(s: string) {
    forall f :: f in Split(s, '.') ==> Component(f)
  }

  /** A version as written: perhaps a v before it. */
  predicate IsVersion(s: string) {
    Dotted(StripV(s))
  }

  /** Digits between dots, leading zeros or not. */
  predicate Numbered(s: string) {
    AllDigits(Split(s, '.'))
  }

  predicate AllDigits(fields: seq<string>) {
    forall f :: f in fields ==> Digits(f)
  }

  function Values(fields: seq<string>): (r: seq<nat>)
    requires AllDigits(fields)
    ensures |r| == |fields|
  {
    if fields == [] then []
    else
      assert fields[0] in fields && Digits(fields[0]);
      [Val(fields[0])] + Values(fields[1..])
  }

  function Version(s: string): seq<nat>
    requires Numbered(StripV(s))
  {
    Values(Split(StripV(s), '.'))
  }

  /** Component by component; what runs out first is less. */
  function LexCmp(a: seq<nat>, b: seq<nat>): Order {
    if a == [] || b == [] then CmpNat(|a|, |b|)
    else Then(CmpNat(a[0], b[0]), LexCmp(a[1..], b[1..]))
  }

  // ---- runs of digits ------------------------------------------------------------------------

  /** Longer is greater; of one length, the first difference decides. */
  function DigCmp(a: string, b: string): Order {
    Then(CmpNat(|a|, |b|), FirstDiff(a, b))
  }

  function FirstDiff(a: string, b: string): Order {
    if a == "" || b == "" then Eq else Then(CmpChar(a[0], b[0]), FirstDiff(a[1..], b[1..]))
  }

  lemma {:induction false} FirstDiffMore(a: string, b: string, c: char, d: char)
    requires |a| == |b|
    ensures FirstDiff(a + [c], b + [d]) == Then(FirstDiff(a, b), CmpChar(c, d))
  {
    if a != "" {
      assert (a + [c])[1..] == a[1..] + [c] && (b + [d])[1..] == b[1..] + [d];
      FirstDiffMore(a[1..], b[1..], c, d);
    }
  }

  /** The digits of two numbers compare as the numbers. */
  lemma {:induction false} DecCmp(m: nat, n: nat)
    ensures DigCmp(Dec(m), Dec(n)) == CmpNat(m, n)
  {
    if m >= 10 && n >= 10 {
      DecCmp(m / 10, n / 10);
      var x, y := Dec(m / 10), Dec(n / 10);
      if |x| == |y| {
        FirstDiffMore(x, y, Digit(m % 10), Digit(n % 10));
      }
    } else if m >= 10 {
      assert |Dec(m)| >= 2;
    } else if n >= 10 {
      assert |Dec(n)| >= 2;
    } else {
      assert FirstDiff([Digit(m)], [Digit(n)]) == CmpChar(Digit(m), Digit(n));
    }
  }

  lemma {:induction false} DecOfVal(s: string)
    requires Component(s)
    ensures Dec(Val(s)) == s
    decreases |s|
  {
    if |s| == 1 {
      assert s[..0] == "" && Val("") == 0;
    } else {
      var init := s[..|s| - 1];
      DecOfVal(init);
      ValPositive(init);
      assert s == init + [s[|s| - 1]];
    }
  }

  lemma {:induction false} ValPositive(s: string)
    requires Component(s) && s[0] != '0'
    ensures Val(s) > 0
  {
    if |s| == 1 {
      assert s[..0] == "";
    } else {
      ValPositive(s[..|s| - 1]);
    }
  }

  lemma {:induction false} SpanAll(x: string, rest: string)
    requires forall i :: 0 <= i < |x| ==> IsDigit(x[i])
    requires rest == "" || !IsDigit(rest[0])
    ensures DigitSpan(x + rest) == |x|
  {
    if x == "" {
      assert x + rest == rest;
    } else {
      assert (x + rest)[1..] == x[1..] + rest;
      SpanAll(x[1..], rest);
    }
  }

  /** What follows a component: nothing, or a dot and more. */
  predicate Tail(s: string) {
    s == "" || s[0] == '.'
  }

  /** Two different components decide the comparison, whatever follows them. */
  lemma {:induction false} ComponentsDecide(x: string, y: string, p: string, q: string)
    requires forall i :: 0 <= i < |x| ==> IsDigit(x[i])
    requires forall i :: 0 <= i < |y| ==> IsDigit(y[i])
    requires Tail(p) && Tail(q) && x != y
    ensures VersCmp(x + p, y + q) == DigCmp(x, y)
  {
    hide DigitSpan;
    if x == "" {
      assert x + p == p;
    } else if y == "" {
      assert y + q == q;
    } else {
      assert (x + p)[1..] == x[1..] + p && (y + q)[1..] == y[1..] + q;
      if x[0] == y[0] {
        assert x == [x[0]] + x[1..] && y == [y[0]] + y[1..];
        ComponentsDecide(x[1..], y[1..], p, q);
      } else {
        SpanAll(x, p);
        SpanAll(y, q);
      }
    }
  }

  lemma {:induction false} StripCommon(x: string, a: string, b: string)
    requires forall i :: 0 <= i < |x| ==> x[i] != NUL
    ensures VersCmp(x + a, x + b) == VersCmp(a, b)
  {
    if x == "" {
      assert x + a == a && x + b == b;
    } else {
      assert (x + a)[1..] == x[1..] + a && (x + b)[1..] == x[1..] + b;
      StripCommon(x[1..], a, b);
    }
  }

  // ---- the scan is the numeric order ---------------------------------------------------------

  function After(fields: seq<string>): string {
    if fields == [] then "" else "." + Join(fields, '.')
  }

  lemma JoinAfter(fields: seq<string>)
    requires fields != []
    ensures Join(fields, '.') == fields[0] + After(fields[1..])
  {
    if |fields| == 1 {
      assert fields[0] + "" == fields[0];
    } else {
      assert fields[0] + ['.'] + Join(fields[1..], '.') == fields[0] + ("." + Join(fields[1..], '.'));
    }
  }

  /** What runs out first is less. */
  lemma EndsCmp(a: seq<string>, b: seq<string>)
    requires a == [] || b == []
    ensures VersCmp(After(a), After(b)) == CmpNat(|a|, |b|)
  {
  }

  lemma {:induction false} FieldsCmp(a: seq<string>, b: seq<string>)
    requires a != [] && b != []
    requires AllDigits(a) && forall f :: f in a ==> Component(f)
    requires AllDigits(b) && forall f :: f in b ==> Component(f)
    ensures VersCmp(Join(a, '.'), Join(b, '.')) == LexCmp(Values(a), Values(b))
  {
    hide VersCmp, DigCmp, Join, Val, Dec;
    var x, y, p, q := a[0], b[0], After(a[1..]), After(b[1..]);
    JoinAfter(a);
    JoinAfter(b);
    assert x in a && y in b;
    DecOfVal(x);
    DecOfVal(y);
    DecCmp(Val(x), Val(y));
    if x != y {
      ComponentsDecide(x, y, p, q);
      DigCmpDiffer(x, y);
    } else {
      StripCommon(x, p, q);
      if a[1..] != [] && b[1..] != [] {
        StripCommon(".", Join(a[1..], '.'), Join(b[1..], '.'));
        FieldsCmp(a[1..], b[1..]);
      } else {
        EndsCmp(a[1..], b[1..]);
      }
    }
  }

  lemma {:induction false} DigCmpDiffer(x: string, y: string)
    requires x != y
    ensures DigCmp(x, y) != Eq
  {
    if |x| == |y| && x[0] == y[0] {
      assert x == [x[0]] + x[1..] && y == [y[0]] + y[1..];
      DigCmpDiffer(x[1..], y[1..]);
    }
  }

  /** On dotted decimals without leading zeros, with or without a v, the scan is the order of
      the numbers, component by component. */
  lemma ScanIsNumeric(a: string, b: string)
    requires IsVersion(a) && IsVersion(b)
    ensures VersCmp(StripV(a), StripV(b)) == LexCmp(Version(a), Version(b))
  {
    JoinSplit(StripV(a), '.');
    JoinSplit(StripV(b), '.');
    FieldsCmp(Split(StripV(a), '.'), Split(StripV(b), '.'));
  }

  function Flip(o: Order): Order {
    match o
    case Lt => Gt
    case Eq => Eq
    case Gt => Lt
  }

  lemma {:induction false} LexIsOrder(a: seq<nat>, b: seq<nat>, c: seq<nat>)
    ensures LexCmp(a, b) == Eq <==> a == b
    ensures LexCmp(b, a) == Flip(LexCmp(a, b))
    ensures LexCmp(a, b) == Lt && LexCmp(b, c) == Lt ==> LexCmp(a, c) == Lt
  {
    if a != [] && b != [] {
      LexIsOrder(a[1..], b[1..], if c == [] then [] else c[1..]);
      assert a == [a[0]] + a[1..] && b == [b[0]] + b[1..];
    }
  }

  lemma {:induction false} ValuesTell(a: seq<string>, b: seq<string>)
    requires AllDigits(a) && forall f :: f in a ==> Component(f)
    requires AllDigits(b) && forall f :: f in b ==> Component(f)
    requires Values(a) == Values(b)
    ensures a == b
  {
    if a != [] {
      assert Values(a)[0] == Values(b)[0] && Values(a)[1..] == Values(b)[1..];
      assert a[0] in a && b[0] in b;
      DecOfVal(a[0]);
      DecOfVal(b[0]);
      ValuesTell(a[1..], b[1..]);
      assert a == [a[0]] + a[1..] && b == [b[0]] + b[1..];
    }
  }

  /** So the scan orders versions totally: equal only for the same version, turned round by
      swapping, and transitive. */
  lemma VersionsOrdered(a: string, b: string, c: string)
    requires IsVersion(a) && IsVersion(b) && IsVersion(c)
    ensures VersCmp(StripV(a), StripV(b)) == Eq <==> StripV(a) == StripV(b)
    ensures VersCmp(StripV(b), StripV(a)) == Flip(VersCmp(StripV(a), StripV(b)))
    ensures VersCmp(StripV(a), StripV(b)) == Lt && VersCmp(StripV(b), StripV(c)) == Lt ==> VersCmp(StripV(a), StripV(c)) == Lt
  {
    ScanIsNumeric(a, b);
    ScanIsNumeric(b, a);
    ScanIsNumeric(b, c);
    ScanIsNumeric(a, c);
    LexIsOrder(Version(a), Version(b), Version(c));
    if Version(a) == Version(b) {
      ValuesTell(Split(StripV(a), '.'), Split(StripV(b), '.'));
      JoinSplit(StripV(a), '.');
      JoinSplit(StripV(b), '.');
    }
  }

  lemma {:induction false} NumberedByte(s: string, i: nat)
    requires Numbered(s) && i < |s|
    ensures s[i] == '.' || IsDigit(s[i])
    decreases |s|
  {
    var k := Find(s, '.');
    if k == |s| {
      SplitNoSeparator(s, '.');
      assert s in Split(s, '.');
    } else {
      var x, rest := s[..k], s[k + 1..];
      assert s == x + ['.'] + rest;
      SplitAtSeparator(x, '.', rest);
      SplitNoSeparator(x, '.');
      assert x in Split(s, '.');
      assert forall f :: f in Split(rest, '.') ==> f in Split(s, '.');
      if i < k {
        assert s[i] == x[i];
      } else if i > k {
        NumberedByte(rest, i - k - 1);
      }
    }
  }

  /** The updater's test for the same version agrees with the order. */
  lemma SameVersion(a: string, b: string)
    requires IsVersion(a) && IsVersion(b)
    ensures VersionEq(a, b) <==> VersCmp(StripV(a), StripV(b)) == Eq
  {
    VersionsOrdered(a, b, b);
    var x, y := StripV(a), StripV(b);
    if EqIc(x, y) {
      forall i | 0 <= i < |x| ensures x[i] == y[i] {
        NumberedByte(x, i);
        NumberedByte(y, i);
        assert Lower(x)[i] == Lower(y)[i];
      }
    }
  }

  // ---- elsewhere -----------------------------------------------------------------------------

  lemma {:induction false} EqualIsSame(a: string, b: string)
    requires NUL !in a && NUL !in b && VersCmp(a, b) == Eq
    ensures a == b
  {
    assert a != "" ==> a[0] in a;
    assert b != "" ==> b[0] in b;
    if a != "" && b != "" {
      assert forall c :: c in a[1..] ==> c in a;
      assert forall c :: c in b[1..] ==> c in b;
      EqualIsSame(a[1..], b[1..]);
      assert a == [a[0]] + a[1..] && b == [b[0]] + b[1..];
    }
  }

  /** The numbers written without leading zeros. */
  function Canonical(fields: seq<string>): (r: seq<string>)
    requires AllDigits(fields)
    ensures |r| == |fields|
  {
    if fields == [] then []
    else
      assert fields[0] in fields && Digits(fields[0]);
      [Dec(Val(fields[0]))] + Canonical(fields[1..])
  }

  lemma {:induction false} DecIsComponent(n: nat)
    ensures Component(Dec(n)) && (n > 0 ==> Dec(n)[0] != '0')
  {
    if n >= 10 {
      DecIsComponent(n / 10);
      assert Dec(n)[0] == Dec(n / 10)[0];
    }
  }

  lemma {:induction false} CanonicalIs(fields: seq<string>)
    requires AllDigits(fields)
    ensures AllDigits(Canonical(fields)) && forall f :: f in Canonical(fields) ==> Component(f) && '.' !in f
    ensures Values(Canonical(fields)) == Values(fields)
  {
    if fields != [] {
      assert fields[0] in fields && Digits(fields[0]);
      CanonicalIs(fields[1..]);
      DecIsComponent(Val(fields[0]));
      DecRoundTrip(Val(fields[0]));
      assert Canonical(fields)[1..] == Canonical(fields[1..]);
    }
  }

  /** A version again, with the leading zeros of every number gone. */
  lemma CanonicalForm(s: string) returns (t: string)
    requires Numbered(StripV(s))
    ensures IsVersion(t) && StripV(t) == t && Version(t) == Version(s)
  {
    var fields := Split(StripV(s), '.');
    var c := Canonical(fields);
    CanonicalIs(fields);
    t := Join(c, '.');
    SplitJoin(c, '.');
    JoinAfter(c);
    assert c[0] in c && t[0] == c[0][0];
  }

  lemma NumberedBytes(s: string)
    requires Numbered(s)
    ensures NUL !in s
  {
    forall i | 0 <= i < |s| ensures s[i] != NUL {
      NumberedByte(s, i);
    }
  }

  /** Digits between dots: the scan agrees with the numeric order against every version exactly
      when no field has a leading zero. */
  lemma NumericExactly(s: string)
    requires Numbered(StripV(s))
    ensures (forall t :: IsVersion(t) ==> VersCmp(StripV(s), StripV(t)) == LexCmp(Version(s), Version(t))) <==> IsVersion(s)
  {
    if IsVersion(s) {
      forall t | IsVersion(t) ensures VersCmp(StripV(s), StripV(t)) == LexCmp(Version(s), Version(t)) {
        ScanIsNumeric(s, t);
      }
    } else {
      var t := CanonicalForm(s);
      LexIsOrder(Version(s), Version(t), []);
      NumberedBytes(StripV(s));
      NumberedBytes(t);
      if VersCmp(StripV(s), StripV(t)) == Eq {
        EqualIsSame(StripV(s), t);
      }
    }
  }

  /** On strings at large it is no order at all: three of them each above the next. */
  lemma NotTransitive()
    ensures VersCmp("1a", "10") == Gt && VersCmp("10", "9") == Gt && VersCmp("9", "1a") == Gt
  {
    assert "1a"[1..] == "a" && "10"[1..] == "0" && "9"[1..] == "" && "0"[1..] == "";
    assert DigitSpan("9") == 1 && DigitSpan("1a") == 1 && DigitSpan("10") == 2;
  }

  /** A v before a version, small or big, makes no difference. */
  lemma VMakesNoDifference(s: string, t: string)
    requires Dotted(s) && Dotted(t)
    ensures IsVersion(s) && IsVersion(t) && IsVersion("v" + s) && IsVersion("V" + s)
    ensures VersCmp(StripV("v" + s), StripV(t)) == LexCmp(Version(s), Version(t))
    ensures VersCmp(StripV("V" + s), StripV(t)) == LexCmp(Version(s), Version(t))
  {
    assert ("v" + s)[1..] == s && ("V" + s)[1..] == s;
    NoV(s);
    NoV(t);
    ScanIsNumeric(s, t);
  }

  lemma NoV(s: string)
    requires Dotted(s)
    ensures StripV(s) == s
  {
    if s != "" {
      assert Numbered(s);
      NumberedByte(s, 0);
    }
  }
}
