/**
 Catalog rows and the table operations the search applies to them: summing a
 column and keeping or dropping the rows whose name is among the pinned ones.
 */
module Items {
  import opened Combinatorics

  /** A driver or a team: its display name, its price and its season points. */
  datatype Item = Item(name: string, cost: real, points: real)

  /** Total price of some rows (0 for none). */
  function SumCost(s: seq<Item>): real
  {
    if |s| == 0 then 0.0 else s[0].cost + SumCost(s[1..])
  }

  /** Total points of some rows (0 for none). */
  function SumPoints(s: seq<Item>): real
  {
    if |s| == 0 then 0.0 else s[0].points + SumPoints(s[1..])
  }

  /**
   The rows whose name is pinned, in catalog order: the `isin` mask. A pinned
   name that no row carries selects nothing.
   */
  function Pinned(pool: seq<Item>, names: seq<string>): (r: seq<Item>)
    ensures forall x :: x in r <==> x in pool && x.name in names
  {
    if |pool| == 0 then []
    else (if pool[0].name in names then [pool[0]] else []) + Pinned(pool[1..], names)
  }

  /** The rows whose name is not pinned, in catalog order: the `~isin` mask. */
  function Unpinned(pool: seq<Item>, names: seq<string>): (r: seq<Item>)
    ensures forall x :: x in r <==> x in pool && x.name !in names
  {
    if |pool| == 0 then []
    else (if pool[0].name in names then [] else [pool[0]]) + Unpinned(pool[1..], names)
  }

  /** Dropping the pinned rows keeps the remaining rows in catalog order. */
  lemma {:induction false} UnpinnedIsSubseq(pool: seq<Item>, names: seq<string>)
    ensures IsSubseq(Unpinned(pool, names), pool)
  {
    if |pool| > 0 {
      var rest := Unpinned(pool[1..], names);
      UnpinnedIsSubseq(pool[1..], names);
      if pool[0].name in names {
        assert Unpinned(pool, names) == rest;
        if |rest| > 0 {
          assert IsSubseq(rest, pool);
        }
      } else {
        assert Unpinned(pool, names) == [pool[0]] + rest;
        assert ([pool[0]] + rest)[1..] == rest;
      }
    }
  }

  /** Every row has a non-negative price. */
  predicate NonNegativeCosts(s: seq<Item>) {
    forall x :: x in s ==> x.cost >= 0.0
  }

  /** Keeping the pinned rows keeps them in catalog order. */
  lemma {:induction false} PinnedIsSubseq(pool: seq<Item>, names: seq<string>)
    ensures IsSubseq(Pinned(pool, names), pool)
  {
    if |pool| > 0 {
      var rest := Pinned(pool[1..], names);
      PinnedIsSubseq(pool[1..], names);
      if pool[0].name in names {
        assert Pinned(pool, names) == [pool[0]] + rest;
        assert ([pool[0]] + rest)[1..] == rest;
      } else {
        assert Pinned(pool, names) == rest;
        if |rest| > 0 {
          assert IsSubseq(rest, pool);
        }
      }
    }
  }

  /**
   The `isin` and `~isin` masks split the catalog: every row, with every one
   of its occurrences, lands in exactly one of the two.
   */
  lemma {:induction false} MasksPartition(pool: seq<Item>, names: seq<string>)
    ensures multiset(Pinned(pool, names)) + multiset(Unpinned(pool, names)) == multiset(pool)
  {
    if |pool| > 0 {
      MasksPartition(pool[1..], names);
      assert pool == [pool[0]] + pool[1..];
    }
  }

  /**
   The price of the pinned rows and the price of the pool add up to the price
   of the whole catalog, so no pinned row is counted twice or lost.
   */
  lemma {:induction false} MasksSplitSums(pool: seq<Item>, names: seq<string>)
    ensures SumCost(Pinned(pool, names)) + SumCost(Unpinned(pool, names)) == SumCost(pool)
    ensures SumPoints(Pinned(pool, names)) + SumPoints(Unpinned(pool, names)) == SumPoints(pool)
  {
    if |pool| > 0 {
      MasksSplitSums(pool[1..], names);
      var p, u := Pinned(pool[1..], names), Unpinned(pool[1..], names);
      if pool[0].name in names {
        assert Pinned(pool, names) == [pool[0]] + p;
        assert ([pool[0]] + p)[1..] == p;
        assert Unpinned(pool, names) == u;
      } else {
        assert Pinned(pool, names) == p;
        assert Unpinned(pool, names) == [pool[0]] + u;
        assert ([pool[0]] + u)[1..] == u;
      }
    }
  }

  /** With non-negative prices every total price is non-negative. */
  lemma {:induction false} SumCostNonNegative(s: seq<Item>)
    requires NonNegativeCosts(s)
    ensures SumCost(s) >= 0.0
  {
    if |s| > 0 {
      assert s[0] in s;
      forall x | x in s[1..] ensures x.cost >= 0.0 {
        assert x in s;
      }
      SumCostNonNegative(s[1..]);
    }
  }

  /** No pins: nothing is pinned and the whole catalog stays in the pool. */
  lemma {:induction false} NoPins(pool: seq<Item>)
    ensures Pinned(pool, []) == []
    ensures Unpinned(pool, []) == pool
  {
    if |pool| > 0 {
      NoPins(pool[1..]);
      assert [pool[0]] + pool[1..] == pool;
    }
  }

  /**
   Pinning a name that no catalog row carries changes neither the pinned rows
   nor the pool.
   */
  lemma {:induction false} UnknownNameIgnored(pool: seq<Item>, names: seq<string>, n: string)
    requires forall x :: x in pool ==> x.name != n
    ensures Pinned(pool, names + [n]) == Pinned(pool, names)
    ensures Unpinned(pool, names + [n]) == Unpinned(pool, names)
  {
    if |pool| > 0 {
      assert pool[0] in pool;
      assert pool[0].name in names + [n] <==> pool[0].name in names;
      forall x | x in pool[1..] ensures x.name != n {
        assert x in pool;
      }
      UnknownNameIgnored(pool[1..], names, n);
    }
  }
}
