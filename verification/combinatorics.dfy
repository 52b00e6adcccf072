/**
 Fixed-size subsets of a sequence, produced in the order of Python's
 `itertools.combinations`: lexicographic in the positions chosen.
 */
module Combinatorics {

  /** No element occurs twice. */
  predicate Distinct<T(==)>(s: seq<T>) {
    forall i, j :: 0 <= i < j < |s| ==> s[i] != s[j]
  }

  /** `c` is obtained from `s` by deleting elements, keeping the order of the rest. */
  predicate IsSubseq<T(==)>(c: seq<T>, s: seq<T>)
    decreases |s|
  {
    if |c| == 0 then true
    else if |s| == 0 then false
    else (c[0] == s[0] && IsSubseq(c[1..], s[1..])) || IsSubseq(c, s[1..])
  }

  /** Pascal's rule: the number of `k`-element subsets of an `n`-element set. */
  function Binomial(n: nat, k: nat): nat
  {
    if k == 0 then 1
    else if n == 0 then 0
    else Binomial(n - 1, k - 1) + Binomial(n - 1, k)
  }

  /** `x` put in front of every sequence of `cs`. */
  function PrependAll<T>(x: T, cs: seq<seq<T>>): seq<seq<T>>
  {
    seq(|cs|, i requires 0 <= i < |cs| => [x] + cs[i])
  }

  /**
   All `k`-element picks from `s`, each in the order of `s`: first every pick
   that takes `s[0]`, then every pick that skips it, which is the order in
   which `itertools.combinations` yields them. A pool with fewer than `k`
   elements has no pick at all.
   */
  function Combinations<T>(s: seq<T>, k: nat): seq<seq<T>>
    decreases |s|
  {
    if k == 0 then [[]]
    else if |s| == 0 then []
    else PrependAll(s[0], Combinations(s[1..], k - 1)) + Combinations(s[1..], k)
  }

  /** Every element of a subsequence occurs in the sequence. */
  lemma {:induction false} SubseqElements<T>(c: seq<T>, s: seq<T>)
    requires IsSubseq(c, s)
    ensures forall x :: x in c ==> x in s
    decreases |s|
  {
    if |c| == 0 {
    } else if c[0] == s[0] && IsSubseq(c[1..], s[1..]) {
      SubseqElements(c[1..], s[1..]);
      forall x | x in c ensures x in s {
        if x != c[0] {
          assert x in c[1..];
        }
      }
    } else {
      SubseqElements(c, s[1..]);
    }
  }

  /** A subsequence of a sequence without repetitions has none either. */
  lemma {:induction false} SubseqDistinct<T>(c: seq<T>, s: seq<T>)
    requires IsSubseq(c, s) && Distinct(s)
    ensures Distinct(c)
    decreases |s|
  {
    if |c| == 0 {
    } else if c[0] == s[0] && IsSubseq(c[1..], s[1..]) {
      SubseqDistinct(c[1..], s[1..]);
      SubseqElements(c[1..], s[1..]);
      forall i, j | 0 <= i < j < |c| ensures c[i] != c[j] {
        if i == 0 {
          assert c[j] == c[1..][j - 1];
          assert c[j] in s[1..];
        } else {
          assert c[i] == c[1..][i - 1] && c[j] == c[1..][j - 1];
        }
      }
    } else {
      SubseqDistinct(c, s[1..]);
    }
  }

  /** Every pick has `k` elements and is drawn from `s` in the order of `s`. */
  lemma {:induction false} CombinationsSound<T>(s: seq<T>, k: nat, c: seq<T>)
    requires c in Combinations(s, k)
    ensures |c| == k && IsSubseq(c, s)
    decreases |s|
  {
    if k == 0 {
    } else if |s| == 0 {
    } else {
      var with := Combinations(s[1..], k - 1);
      if c in PrependAll(s[0], with) {
        var i :| 0 <= i < |with| && c == [s[0]] + with[i];
        CombinationsSound(s[1..], k - 1, with[i]);
        assert c[1..] == with[i];
      } else {
        CombinationsSound(s[1..], k, c);
      }
    }
  }

  /** Every `k`-element subsequence of `s` is one of the picks. */
  lemma {:induction false} CombinationsComplete<T>(s: seq<T>, k: nat, c: seq<T>)
    requires |c| == k && IsSubseq(c, s)
    ensures c in Combinations(s, k)
    decreases |s|
  {
    if k == 0 {
      assert c == [];
    } else if |s| == 0 {
    } else if c[0] == s[0] && IsSubseq(c[1..], s[1..]) {
      var with := Combinations(s[1..], k - 1);
      CombinationsComplete(s[1..], k - 1, c[1..]);
      var i :| 0 <= i < |with| && with[i] == c[1..];
      assert PrependAll(s[0], with)[i] == c;
    } else {
      CombinationsComplete(s[1..], k, c);
    }
  }

  /** There are exactly `Binomial(|s|, k)` picks. */
  lemma {:induction false} CombinationsCount<T>(s: seq<T>, k: nat)
    ensures |Combinations(s, k)| == Binomial(|s|, k)
    decreases |s|
  {
    if k == 0 {
    } else if |s| == 0 {
    } else {
      CombinationsCount(s[1..], k - 1);
      CombinationsCount(s[1..], k);
    }
  }

  /** Asking for more than there is gives no subsets. */
  lemma {:induction false} BinomialTooMany(n: nat, k: nat)
    requires n < k
    ensures Binomial(n, k) == 0
  {
    if n > 0 {
      BinomialTooMany(n - 1, k - 1);
      BinomialTooMany(n - 1, k);
    }
  }

  /** A pool smaller than the pick size yields the empty list, not an error. */
  lemma CombinationsTooFew<T>(s: seq<T>, k: nat)
    requires |s| < k
    ensures Combinations(s, k) == []
  {
    CombinationsCount(s, k);
    BinomialTooMany(|s|, k);
  }

  /**
   Over a pool without repetitions no pick is listed twice and no pick repeats
   an element.
   */
  lemma {:induction false} CombinationsDistinct<T>(s: seq<T>, k: nat)
    requires Distinct(s)
    ensures Distinct(Combinations(s, k))
    ensures forall c :: c in Combinations(s, k) ==> Distinct(c)
    decreases |s|
  {
    forall c | c in Combinations(s, k) ensures Distinct(c) {
      CombinationsSound(s, k, c);
      SubseqDistinct(c, s);
    }
    if k == 0 || |s| == 0 {
    } else {
      var tail := s[1..];
      assert Distinct(tail) by {
        forall i, j | 0 <= i < j < |tail| ensures tail[i] != tail[j] {
          assert tail[i] == s[i + 1] && tail[j] == s[j + 1];
        }
      }
      var with := Combinations(tail, k - 1);
      var without := Combinations(tail, k);
      CombinationsDistinct(tail, k - 1);
      CombinationsDistinct(tail, k);
      var p := PrependAll(s[0], with);
      var r := p + without;
      assert r == Combinations(s, k);
      forall i, j | 0 <= i < j < |r| ensures r[i] != r[j] {
        if j < |p| {
          assert r[i] == [s[0]] + with[i] && r[j] == [s[0]] + with[j];
          assert r[i][1..] == with[i] && r[j][1..] == with[j];
        } else if i < |p| {
          var b := without[j - |p|];
          assert r[j] == b;
          CombinationsSound(tail, k, b);
          SubseqElements(b, tail);
          assert b[0] in tail;
          assert r[i][0] == s[0];
          assert s[0] !in tail by {
            forall m | 0 <= m < |tail| ensures tail[m] != s[0] {
              assert tail[m] == s[m + 1];
            }
          }
        } else {
          assert r[i] == without[i - |p|] && r[j] == without[j - |p|];
        }
      }
    }
  }
}
