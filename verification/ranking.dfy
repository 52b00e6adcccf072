/**
 The feasible-completion list and its ranking, shared by the interactive search
 and the offline statistics: the driver-major double loop with its budget test,
 and the stable sort on points, highest first.
 */
module Ranking {
  import opened Items

  /**
   One completion of a roster: the added drivers, the added teams, the total
   points (pinned points included) and the cost of the ADDED items only.
   */
  datatype Ranked = Ranked(drivers: seq<Item>, teams: seq<Item>, points: real, cost: real)

  /** The record built for a driver pick `d` and a team pick `t` on top of `base` pinned points. */
  function Assemble(d: seq<Item>, t: seq<Item>, base: real): Ranked
  {
    Ranked(d, t, base + SumPoints(d) + SumPoints(t), SumCost(d) + SumCost(t))
  }

  /** The inner loop: every team pick, in order, kept when the pair fits the budget. */
  function Row(d: seq<Item>, tcs: seq<seq<Item>>, budget: real, base: real): seq<Ranked>
    decreases |tcs|
  {
    if |tcs| == 0 then []
    else
      var e := Assemble(d, tcs[|tcs| - 1], base);
      Row(d, tcs[..|tcs| - 1], budget, base) + (if e.cost <= budget then [e] else [])
  }

  /** Both loops, driver-major: the list the search collects before sorting. */
  function Feasible(dcs: seq<seq<Item>>, tcs: seq<seq<Item>>, budget: real, base: real): seq<Ranked>
    decreases |dcs|
  {
    if |dcs| == 0 then []
    else Feasible(dcs[..|dcs| - 1], tcs, budget, base) + Row(dcs[|dcs| - 1], tcs, budget, base)
  }

  /** A record is in a row exactly when it is the pair's record and fits the budget. */
  lemma {:induction false} RowMembership(d: seq<Item>, tcs: seq<seq<Item>>, budget: real, base: real, e: Ranked)
    ensures e in Row(d, tcs, budget, base) <==>
      e.drivers == d && e.teams in tcs && e == Assemble(d, e.teams, base) && e.cost <= budget
    decreases |tcs|
  {
    if |tcs| > 0 {
      var front := tcs[..|tcs| - 1];
      RowMembership(d, front, budget, base, e);
      assert forall t :: t in tcs <==> t in front || t == tcs[|tcs| - 1] by {
        assert tcs == front + [tcs[|tcs| - 1]];
      }
    }
  }

  /**
   A record is collected exactly when its driver pick and team pick were
   enumerated, its points and cost are those of the pair, and the added cost is
   at most the budget (equality accepted).
   */
  lemma {:induction false} FeasibleMembership(dcs: seq<seq<Item>>, tcs: seq<seq<Item>>, budget: real, base: real, e: Ranked)
    ensures e in Feasible(dcs, tcs, budget, base) <==>
      e.drivers in dcs && e.teams in tcs && e == Assemble(e.drivers, e.teams, base) && e.cost <= budget
    decreases |dcs|
  {
    if |dcs| > 0 {
      var front := dcs[..|dcs| - 1];
      FeasibleMembership(front, tcs, budget, base, e);
      RowMembership(dcs[|dcs| - 1], tcs, budget, base, e);
      assert forall d :: d in dcs <==> d in front || d == dcs[|dcs| - 1] by {
        assert dcs == front + [dcs[|dcs| - 1]];
      }
    }
  }

  /** A pair whose cost is exactly the budget is kept: the test is inclusive. */
  lemma ExactBudgetAccepted(dcs: seq<seq<Item>>, tcs: seq<seq<Item>>, d: seq<Item>, t: seq<Item>, base: real)
    requires d in dcs && t in tcs
    ensures Assemble(d, t, base) in Feasible(dcs, tcs, SumCost(d) + SumCost(t), base)
  {
    FeasibleMembership(dcs, tcs, SumCost(d) + SumCost(t), base, Assemble(d, t, base));
  }

  /** A driver pick that alone exceeds the budget contributes nothing when team costs are non-negative. */
  lemma {:induction false} RowPruneSound(d: seq<Item>, tcs: seq<seq<Item>>, budget: real, base: real)
    requires SumCost(d) > budget
    requires forall t :: t in tcs ==> SumCost(t) >= 0.0
    ensures Row(d, tcs, budget, base) == []
    decreases |tcs|
  {
    if |tcs| > 0 {
      assert tcs[|tcs| - 1] in tcs;
      var front := tcs[..|tcs| - 1];
      forall t | t in front ensures SumCost(t) >= 0.0 {
        assert t in tcs;
      }
      RowPruneSound(d, front, budget, base);
    }
  }

  // ---------------------------------------------------------------------------
  // Ranking: stable sort on points, highest first, then truncation.

  /** Points never increase along the sequence. */
  predicate SortedDesc(s: seq<Ranked>) {
    forall i, j :: 0 <= i < j < |s| ==> s[i].points >= s[j].points
  }

  /**
   Puts `x` in front of the first element whose points do not exceed its own,
   so that `x` precedes the equal-points elements already in `t`.
   */
  function Insert(x: Ranked, t: seq<Ranked>): (r: seq<Ranked>)
    ensures multiset(r) == multiset(t) + multiset{x}
    decreases |t|
  {
    if |t| == 0 || t[0].points <= x.points then [x] + t
    else
      assert t == [t[0]] + t[1..];
      [t[0]] + Insert(x, t[1..])
  }

  /** Inserting into a sorted sequence keeps it sorted. */
  lemma {:induction false} InsertSorted(x: Ranked, t: seq<Ranked>)
    requires SortedDesc(t)
    ensures SortedDesc(Insert(x, t))
    decreases |t|
  {
    if |t| == 0 || t[0].points <= x.points {
      var r := [x] + t;
      assert forall i :: 1 <= i < |r| ==> r[i] == t[i - 1];
    } else {
      var rest := Insert(x, t[1..]);
      InsertSorted(x, t[1..]);
      var r := [t[0]] + rest;
      assert r == Insert(x, t);
      forall i, j | 0 <= i < j < |r| ensures r[i].points >= r[j].points {
        assert r[j] == rest[j - 1];
        if i == 0 {
          assert rest[j - 1] in multiset(rest);
          if rest[j - 1] != x {
            assert rest[j - 1] in multiset(t[1..]);
            var k :| 0 <= k < |t[1..]| && t[1..][k] == rest[j - 1];
            assert t[k + 1] == r[j];
          }
        } else {
          assert r[i] == rest[i - 1];
        }
      }
    }
  }

  /**
   The stable descending sort of Python's `list.sort(key=points, reverse=True)`,
   as an insertion sort: the result is a sorted permutation of the input.
   */
  function SortDesc(s: seq<Ranked>): (r: seq<Ranked>)
    ensures multiset(r) == multiset(s)
    ensures SortedDesc(r)
    decreases |s|
  {
    if |s| == 0 then []
    else
      assert s == [s[0]] + s[1..];
      InsertSorted(s[0], SortDesc(s[1..]));
      Insert(s[0], SortDesc(s[1..]))
  }

  /** The records with exactly `v` points, in their order in `s`. */
  function FilterKey(s: seq<Ranked>, v: real): seq<Ranked>
    decreases |s|
  {
    if |s| == 0 then []
    else (if s[0].points == v then [s[0]] else []) + FilterKey(s[1..], v)
  }

  /** Insertion puts `x` ahead of every record with its points that was already there. */
  lemma {:induction false} FilterKeyInsert(x: Ranked, t: seq<Ranked>, v: real)
    ensures FilterKey(Insert(x, t), v) == (if x.points == v then [x] else []) + FilterKey(t, v)
    decreases |t|
  {
    if |t| == 0 || t[0].points <= x.points {
      assert ([x] + t)[1..] == t;
    } else {
      FilterKeyInsert(x, t[1..], v);
      assert ([t[0]] + Insert(x, t[1..]))[1..] == Insert(x, t[1..]);
    }
  }

  /**
   Stability: for every points value, the records with that value appear in
   the sorted list in exactly the order they had before sorting.
   */
  lemma {:induction false} SortDescStable(s: seq<Ranked>, v: real)
    ensures FilterKey(SortDesc(s), v) == FilterKey(s, v)
    decreases |s|
  {
    if |s| > 0 {
      SortDescStable(s[1..], v);
      FilterKeyInsert(s[0], SortDesc(s[1..]), v);
    }
  }

  /** Filtering a prefix gives a prefix of the filtered sequence. */
  lemma {:induction false} FilterKeyPrefix(s: seq<Ranked>, n: nat, v: real)
    requires n <= |s|
    ensures FilterKey(s[..n], v) <= FilterKey(s, v)
    decreases n
  {
    if n > 0 {
      FilterKeyPrefix(s[1..], n - 1, v);
      assert s[..n][1..] == s[1..][..n - 1];
    }
  }

  /** Python's `s[:n]`: a negative `n` counts from the end. */
  function SlicePrefix(s: seq<Ranked>, n: int): (r: seq<Ranked>)
    ensures r <= s
    ensures n >= 0 ==> |r| == if n < |s| then n else |s|
    ensures n < 0 ==> |r| == if |s| + n > 0 then |s| + n else 0
  {
    if n >= 0 then (if n < |s| then s[..n] else s)
    else if |s| + n > 0 then s[..|s| + n]
    else []
  }
}
