/** Byte strings as the bot handles them.  A `char` stands for one byte. */
module Text {

  datatype Option<+T> = None | Some(value: T) {
    function GetOr(default: T): T {
      match this
      case None => default
      case Some(v) => v
    }
  }

  // ---- sizes the bot keeps to -----------------------------------------------------

  const MAX_CHAN := 65       // a channel name and its end
  const MAX_MASK_LEN := 256  // a hostmask and its end
  const BAN_MASK_MAX := 120
  const C_MODES_MAX := 64    // the modes field of a record
  const SETTINGS_MAX := 512  // the settings field of a record

  const NUL := 0 as char

  /** A text cut to a buffer of `cap` bytes, its end included. */
  function Trunc(s: string, cap: nat): (r: string)
    requires cap > 0
    ensures r <= s && (r == s || |r| == cap - 1 < |s|)
  {
    if |s| < cap then s else s[..cap - 1]
  }

  /** A byte of a string, with zeros after its end. */
  function ByteAt(s: string, i: nat): char {
    if i < |s| then s[i] else NUL
  }

  // ---- ASCII case folding ----------------------------------------------------

  function LowerChar(c: char): char {
    if 'A' <= c <= 'Z' then c - 'A' + 'a' else c
  }

  /** The two cases of one ASCII letter. */
  predicate CaseTwins(a: char, b: char) {
    ('A' <= a <= 'Z' && b as int == a as int + 32) || ('A' <= b <= 'Z' && a as int == b as int + 32)
  }

  /** The same byte, or the same letter in the other case. */
  predicate SameByte(a: char, b: char) {
    a == b || CaseTwins(a, b)
  }

  predicate SameButCase(a: string, b: string) {
    |a| == |b| && forall i :: 0 <= i < |a| ==> SameByte(a[i], b[i])
  }

  lemma LowerTells(a: char, b: char)
    ensures LowerChar(a) == LowerChar(b) <==> SameByte(a, b)
  {
  }

  /** Texts are equal ignoring case exactly when ASCII letters in another case are all that differs. */
  lemma EqIcExactly(a: string, b: string)
    ensures EqIc(a, b) <==> SameButCase(a, b)
  {
    if EqIc(a, b) {
      assert |Lower(a)| == |Lower(b)|;
      forall i | 0 <= i < |a| ensures SameByte(a[i], b[i]) {
        assert Lower(a)[i] == Lower(b)[i];
        LowerTells(a[i], b[i]);
      }
    }
    if SameButCase(a, b) {
      forall i | 0 <= i < |a| ensures Lower(a)[i] == Lower(b)[i] {
        LowerTells(a[i], b[i]);
      }
    }
  }

  function Lower(s: string): (r: string)
    ensures |r| == |s|
    ensures forall i :: 0 <= i < |s| ==> r[i] == LowerChar(s[i])
  {
    seq(|s|, i requires 0 <= i < |s| => LowerChar(s[i]))
  }

  predicate EqIc(a: string, b: string) {
    Lower(a) == Lower(b)
  }

  // ---- searching ---------------------------------------------------------------

  /** The first index holding `c`; the length when there is none. */
  function Find(s: string, c: char): (r: nat)
    ensures r <= |s|
    ensures r < |s| ==> s[r] == c
    ensures forall i :: 0 <= i < r ==> s[i] != c
    ensures r == |s| <==> c !in s
  {
    if s == "" then 0 else if s[0] == c then 0 else 1 + Find(s[1..], c)
  }

  // ---- fields --------------------------------------------------------------------

  /** The fields between separators: n separators make n + 1 fields. */
  function Split(s: string, sep: char): (r: seq<string>)
    ensures |r| >= 1
  {
    if s == "" then [""]
    else if s[0] == sep then [""] + Split(s[1..], sep)
    else
      var rest := Split(s[1..], sep);
      [[s[0]] + rest[0]] + rest[1..]
  }

  /** The fields put back together. */
  function Join(fields: seq<string>, sep: char): string
  {
    if |fields| == 0 then ""
    else if |fields| == 1 then fields[0]
    else fields[0] + [sep] + Join(fields[1..], sep)
  }

  lemma {:induction false} SplitAtSeparator(a: string, sep: char, b: string)
    ensures Split(a + [sep] + b, sep) == Split(a, sep) + Split(b, sep)
  {
    var s := a + [sep] + b;
    if a == "" {
      assert s[1..] == b;
    } else {
      assert s[1..] == a[1..] + [sep] + b;
      SplitAtSeparator(a[1..], sep, b);
    }
  }

  lemma SplitEmpty(sep: char)
    ensures Split("", sep) == [""]
  {
  }

  lemma {:induction false} SplitNoSeparator(s: string, sep: char)
    ensures sep !in s <==> |Split(s, sep)| == 1
    ensures sep !in s ==> Split(s, sep) == [s]
  {
    if s != "" {
      SplitNoSeparator(s[1..], sep);
      assert s == [s[0]] + s[1..];
    }
  }

  lemma {:induction false} SplitFieldsPlain(s: string, sep: char)
    ensures forall f :: f in Split(s, sep) ==> sep !in f
  {
    if s != "" {
      SplitFieldsPlain(s[1..], sep);
      var rest := Split(s[1..], sep);
      assert rest[0] in rest;
      assert forall f :: f in rest[1..] ==> f in rest;
    }
  }

  lemma {:induction false} JoinSplit(s: string, sep: char)
    ensures Join(Split(s, sep), sep) == s
  {
    if s != "" {
      JoinSplit(s[1..], sep);
      var rest := Split(s[1..], sep);
      if s[0] == sep {
        assert Split(s, sep)[1..] == rest;
      } else {
        assert Split(s, sep)[1..] == rest[1..];
      }
    }
  }

  lemma {:induction false} SplitJoin(fields: seq<string>, sep: char)
    requires |fields| >= 1
    requires forall f :: f in fields ==> sep !in f
    ensures Split(Join(fields, sep), sep) == fields
  {
    SplitNoSeparator(fields[0], sep);
    if |fields| > 1 {
      SplitJoin(fields[1..], sep);
      SplitAtSeparator(fields[0], sep, Join(fields[1..], sep));
    }
  }

  /** One more byte: it opens a field or lengthens the last one. */
  lemma {:induction false} SplitMore(s: string, sep: char, c: char)
    ensures c == sep ==> Split(s + [c], sep) == Split(s, sep) + [""]
    ensures c != sep ==> var f, n := Split(s, sep), |Split(s, sep)|;
                         Split(s + [c], sep) == f[..n - 1] + [f[n - 1] + [c]]
  {
    var i := Find(s, sep);
    if c == sep {
      assert s + [sep] + "" == s + [c];
      SplitAtSeparator(s, sep, "");
    } else if i == |s| {
      SplitNoSeparator(s, sep);
      SplitNoSeparator(s + [c], sep);
    } else {
      var a, b := s[..i], s[i + 1..];
      SplitNoSeparator(a, sep);
      assert s == a + [sep] + b && s + [c] == a + [sep] + (b + [c]);
      SplitAtSeparator(a, sep, b);
      SplitAtSeparator(a, sep, b + [c]);
      SplitMore(b, sep, c);
    }
  }

  predicate AllIn(s: string, symbols: string) {
    s != "" && forall c :: c in s ==> c in symbols
  }

  // ---- tokens ------------------------------------------------------------------

  function SkipSpaces(s: string): (r: string)
    ensures |r| <= |s|
    ensures r != "" ==> r[0] != ' '
  {
    if s != "" && s[0] == ' ' then SkipSpaces(s[1..]) else s
  }

  /** One step of the strtok walk: the next token and what is left after its delimiter. */
  function TokNext(s: string): (r: Option<(string, string)>)
    ensures r.Some? ==> r.value.0 != "" && |r.value.1| < |s|
  {
    var u := SkipSpaces(s);
    if u == "" then None
    else
      var i := Find(u, ' ');
      Some((u[..i], if i < |u| then u[i + 1..] else ""))
  }

  function Tokens(s: string): seq<string>
    decreases |s|
  {
    match TokNext(s)
    case None => []
    case Some((tok, rest)) => [tok] + Tokens(rest)
  }

  predicate IsToken(s: string) {
    s != "" && ' ' !in s
  }

  lemma TokenThen(tok: string, rest: string)
    requires IsToken(tok)
    ensures TokNext(tok + " " + rest) == Some((tok, rest))
    ensures TokNext(tok) == Some((tok, ""))
  {
    assert tok[0] in tok;
    var s := tok + " " + rest;
    assert SkipSpaces(s) == s && SkipSpaces(tok) == tok;
    FindAfter(tok, ' ', " " + rest);
    assert tok + (" " + rest) == s;
    FindAfter(tok, ' ', "");
    assert tok + "" == tok;
    assert s[..|tok|] == tok && s[|tok| + 1..] == rest;
  }

  lemma {:induction false} FindAfter(a: string, c: char, b: string)
    requires c !in a
    ensures Find(a + b, c) == |a| + Find(b, c)
  {
    if a == "" {
      assert a + b == b;
    } else {
      assert a[0] in a && (a + b)[1..] == a[1..] + b;
      FindAfter(a[1..], c, b);
    }
  }

  lemma {:induction false} TokensJoin(toks: seq<string>)
    requires forall t :: t in toks ==> IsToken(t)
    ensures Tokens(Join(toks, ' ')) == toks
  {
    if |toks| == 0 {
    } else if |toks| == 1 {
      TokenThen(toks[0], "");
    } else {
      TokenThen(toks[0], Join(toks[1..], ' '));
      TokensJoin(toks[1..]);
    }
  }

  /** A byte that ends a word of a line. */
  predicate Stop(c: char) {
    c == ' ' || c == '\r' || c == '\n'
  }

  predicate NoStop(s: string) {
    forall i :: 0 <= i < |s| ==> !Stop(s[i])
  }

  /** Bytes before the first stop. */
  function Span(s: string): (n: nat)
    ensures n <= |s| && NoStop(s[..n])
    ensures n < |s| ==> Stop(s[n])
  {
    if s == "" || Stop(s[0]) then 0
    else
      assert s[..1 + Span(s[1..])] == [s[0]] + s[1..][..Span(s[1..])];
      1 + Span(s[1..])
  }

  lemma {:induction false} SpanAfter(a: string, b: string)
    requires NoStop(a)
    requires b == "" || Stop(b[0])
    ensures Span(a + b) == |a|
  {
    if a == "" {
      assert a + b == b;
    } else {
      assert (a + b)[1..] == a[1..] + b;
      SpanAfter(a[1..], b);
    }
  }
}
