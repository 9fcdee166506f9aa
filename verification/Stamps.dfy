/** Which of two records wins: last writer first, and what settles a tie. */
module Stamps {

  // ---- the rules -------------------------------------------------------------------------

  /** An add/del record: newer wins; on a tie a delete beats an add. */
  predicate LwwAccepts(inTs: int, inActive: bool, curTs: int, curActive: bool) {
    inTs > curTs || (inTs == curTs && curActive && !inActive)
  }

  /** Byte-wise order of texts. */
  predicate Less(a: string, b: string) {
    b != "" && (a == "" || a[0] < b[0] || (a[0] == b[0] && Less(a[1..], b[1..])))
  }

  /** A text record: newer wins; on a tie the greater text. */
  predicate TextAccepts(inTs: int, inText: string, curTs: int, curText: string) {
    inTs > curTs || (inTs == curTs && Less(curText, inText))
  }

  /** The stamp of a local change: now, but always past the record it replaces. */
  function NextTs(prev: int, now: int): (ts: int)
    ensures ts > prev && ts >= now && (ts == now || ts == prev + 1)
  {
    if now > prev then now else prev + 1
  }

  // ---- strict total orders -------------------------------------------------------------------

  ghost predicate TotalOrder<K(!new)>(less: (K, K) -> bool) {
    && (forall a :: !less(a, a))
    && (forall a, b, c :: less(a, b) && less(b, c) ==> less(a, c))
    && (forall a, b :: a == b || less(a, b) || less(b, a))
  }

  lemma {:induction false} LessTransitive(a: string, b: string, c: string)
    requires Less(a, b) && Less(b, c)
    ensures Less(a, c)
  {
    if a != "" && a[0] == b[0] && b[0] == c[0] {
      LessTransitive(a[1..], b[1..], c[1..]);
    }
  }

  lemma {:induction false} LessTotal(a: string, b: string)
    ensures !Less(a, a)
    ensures a == b || Less(a, b) || Less(b, a)
  {
    if a != "" && b != "" {
      LessTotal(a[1..], b[1..]);
      assert a == [a[0]] + a[1..] && b == [b[0]] + b[1..];
    } else if a != "" {
      LessTotal(a[1..], b);
    }
  }

  /** A beginning of the other, or less in the first byte that differs. */
  ghost predicate Precedes(a: string, b: string) {
    exists k: nat :: DiffersAt(a, b, k)
  }

  ghost predicate DiffersAt(a: string, b: string, k: nat) {
    k <= |a| && k < |b| && (forall i :: 0 <= i < k ==> a[i] == b[i]) && (k == |a| || a[k] < b[k])
  }

  lemma {:induction false} LessExactly(a: string, b: string)
    ensures Less(a, b) <==> Precedes(a, b)
  {
    if b != "" && a != "" && a[0] == b[0] {
      LessExactly(a[1..], b[1..]);
      if Precedes(a[1..], b[1..]) {
        var k: nat :| DiffersAt(a[1..], b[1..], k);
        forall i | 0 <= i < k + 1 ensures a[i] == b[i] {
          assert i > 0 ==> a[1..][i - 1] == b[1..][i - 1];
        }
        assert DiffersAt(a, b, k + 1);
      }
      if Precedes(a, b) {
        var k: nat :| DiffersAt(a, b, k);
        assert DiffersAt(a[1..], b[1..], k - 1);
      }
    } else if Less(a, b) {
      assert DiffersAt(a, b, 0);
    }
  }

  /** (stamp, active): later is greater, and of two with one stamp the delete. */
  function LwwLess(): ((int, bool), (int, bool)) -> bool {
    (a: (int, bool), b: (int, bool)) => LwwAccepts(b.0, b.1, a.0, a.1)
  }

  function TextLess(): ((int, string), (int, string)) -> bool {
    (a: (int, string), b: (int, string)) => TextAccepts(b.0, b.1, a.0, a.1)
  }

  lemma LwwIsOrder()
    ensures TotalOrder(LwwLess())
    ensures forall a, b :: LwwLess()(a, b) <==> a.0 < b.0 || (a.0 == b.0 && a.1 && !b.1)
  {
  }

  lemma TextIsOrder()
    ensures TotalOrder(TextLess())
    ensures forall a, b :: TextLess()(a, b) <==> a.0 < b.0 || (a.0 == b.0 && Precedes(a.1, b.1))
  {
    forall a, b ensures TextLess()(a, b) <==> a.0 < b.0 || (a.0 == b.0 && Precedes(a.1, b.1)) {
      LessExactly(a.1, b.1);
    }
    forall a: (int, string), b: (int, string)
      ensures !TextLess()(a, a) && (a == b || TextLess()(a, b) || TextLess()(b, a))
    {
      LessTotal(a.1, b.1);
      LessTotal(a.1, a.1);
    }
    forall a: (int, string), b: (int, string), c: (int, string) | TextLess()(a, b) && TextLess()(b, c)
      ensures TextLess()(a, c)
    {
      if a.0 == b.0 == c.0 {
        LessTransitive(a.1, b.1, c.1);
      }
    }
  }

  // ---- keeping the greater ---------------------------------------------------------------------

  /** What is stored after offering every key in turn. */
  function Keep<K>(less: (K, K) -> bool, cur: K, keys: seq<K>): K {
    if keys == [] then cur
    else
      var before := Keep(less, cur, keys[..|keys| - 1]);
      if less(before, keys[|keys| - 1]) then keys[|keys| - 1] else before
  }

  /** `m` is one of them, and none is greater. */
  ghost predicate IsGreatest<K(!new)>(less: (K, K) -> bool, m: K, cur: K, keys: seq<K>) {
    (m == cur || m in keys) && !less(m, cur) && forall k :: k in keys ==> !less(m, k)
  }

  lemma {:induction false} KeepIsGreatest<K(!new)>(less: (K, K) -> bool, cur: K, keys: seq<K>)
    requires TotalOrder(less)
    ensures IsGreatest(less, Keep(less, cur, keys), cur, keys)
  {
    if keys != [] {
      var n := |keys| - 1;
      KeepIsGreatest(less, cur, keys[..n]);
      var m := Keep(less, cur, keys);
      assert keys == keys[..n] + [keys[n]];
      forall k | k in keys ensures !less(m, k) {
        if k != keys[n] {
          assert k in keys[..n];
        }
      }
    }
  }

  /** Any order and any repeats of the same keys leave the same one stored. */
  lemma KeepConverges<K(!new)>(less: (K, K) -> bool, cur: K, a: seq<K>, b: seq<K>)
    requires TotalOrder(less)
    requires forall k :: k in a <==> k in b
    ensures Keep(less, cur, a) == Keep(less, cur, b)
  {
    KeepIsGreatest(less, cur, a);
    KeepIsGreatest(less, cur, b);
  }
}
