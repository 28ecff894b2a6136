/** Go's `<` and `<=` on strings: lexicographic comparison of the bytes. UTF-8
    encodes code points so that byte order and code-point order agree, so the
    comparison is stated on the characters of a Dafny string. (Dafny's own `<`
    on sequences means "proper prefix", which is a different relation.) */
module Lexical {

  predicate Less(a: string, b: string)
  {
    if |a| == 0 then |b| > 0
    else if |b| == 0 then false
    else if a[0] != b[0] then a[0] < b[0]
    else Less(a[1..], b[1..])
  }

  /** Go's `a <= b`. */
  predicate LessEq(a: string, b: string)
  {
    Less(a, b) || a == b
  }

  /** The textbook definition: `a` is a proper prefix of `b`, or the two agree up to
      a position where `a` has the smaller character. */
  lemma {:induction false} LessMeaning(a: string, b: string)
    ensures Less(a, b) <==>
              (|a| < |b| && a == b[..|a|]) ||
              (exists k :: 0 <= k < |a| && k < |b| && a[..k] == b[..k] && a[k] < b[k])
    decreases |a|
  {
    if |a| > 0 && |b| > 0 {
      LessMeaning(a[1..], b[1..]);
      if a[0] == b[0] {
        if Less(a, b) && !(|a| < |b| && a == b[..|a|]) {
          var k :| 0 <= k < |a| - 1 && k < |b| - 1 && a[1..][..k] == b[1..][..k] && a[1..][k] < b[1..][k];
          assert a[..k + 1] == [a[0]] + a[1..][..k];
          assert b[..k + 1] == [b[0]] + b[1..][..k];
        }
        if |a| < |b| && a == b[..|a|] {
          assert a[1..] == b[1..][..|a| - 1];
        }
        if k :| 0 <= k < |a| && k < |b| && a[..k] == b[..k] && a[k] < b[k] {
          assert k > 0;
          assert a[1..][..k - 1] == a[1..k] == b[1..k] == b[1..][..k - 1];
        }
      } else if a[0] < b[0] {
        assert a[..0] == b[..0];
      }
    }
  }

  lemma {:induction false} LessIrreflexive(a: string)
    ensures !Less(a, a)
    decreases |a|
  {
    if |a| > 0 {
      LessIrreflexive(a[1..]);
    }
  }

  lemma {:induction false} LessTransitive(a: string, b: string, c: string)
    requires Less(a, b) && Less(b, c)
    ensures Less(a, c)
    decreases |a|
  {
    if |a| > 0 && |b| > 0 && |c| > 0 && a[0] == b[0] && b[0] == c[0] {
      LessTransitive(a[1..], b[1..], c[1..]);
    }
  }

  /** Any two strings are equal or ordered one way. */
  lemma {:induction false} LessTotal(a: string, b: string)
    ensures a == b || Less(a, b) || Less(b, a)
    decreases |a|
  {
    if |a| > 0 && |b| > 0 && a[0] == b[0] {
      LessTotal(a[1..], b[1..]);
      if a[1..] == b[1..] {
        assert a == [a[0]] + a[1..] && b == [b[0]] + b[1..];
      }
    }
  }

  lemma {:induction false} LessAsymmetric(a: string, b: string)
    ensures Less(a, b) ==> !Less(b, a)
    decreases |a|
  {
    if |a| > 0 && |b| > 0 && a[0] == b[0] {
      LessAsymmetric(a[1..], b[1..]);
    }
  }

  /** Go's `a <= b` is the negation of `b < a`. */
  lemma LessEqNotLess(a: string, b: string)
    ensures LessEq(a, b) <==> !Less(b, a)
  {
    LessTotal(a, b);
    LessAsymmetric(a, b);
    LessIrreflexive(a);
  }

  /** Strictly increasing under `Less`, pairwise. */
  predicate StrictlySorted(keys: seq<string>)
  {
    forall i, j :: 0 <= i < j < |keys| ==> Less(keys[i], keys[j])
  }

  /** Neighbour-wise increase is enough for pairwise increase. */
  lemma {:induction false} AdjacentSorted(keys: seq<string>)
    requires forall i :: 0 < i < |keys| ==> Less(keys[i - 1], keys[i])
    ensures StrictlySorted(keys)
    decreases |keys|
  {
    if |keys| > 1 {
      var init := keys[..|keys| - 1];
      AdjacentSorted(init);
      var n := |keys| - 1;
      forall i | 0 <= i < n
        ensures Less(keys[i], keys[n])
      {
        if i < n - 1 {
          assert Less(init[i], init[n - 1]);
          LessTransitive(keys[i], keys[n - 1], keys[n]);
        }
      }
    }
  }
}
