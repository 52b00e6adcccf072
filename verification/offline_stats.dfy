/**
 `find_all_valid_combinations` of compute_stats.py: the offline pass over every
 roster of five drivers and two teams that counts those within the cap and
 remembers the first lowest-scoring and the first highest-scoring one.
 */
module OfflineStats {
  import opened Results
  import opened Combinatorics
  import opened Items
  import opened Ranking
  import Search

  /** What the script keeps of an extreme roster: drivers, teams and total cost. */
  datatype Pick = Pick(drivers: seq<Item>, teams: seq<Item>, cost: real)

  /** The triple the script stores for a roster: its record without the points. */
  function Summary(e: Ranked): Pick
  {
    Pick(e.drivers, e.teams, e.cost)
  }

  /** Every complete roster within the cap, in enumeration order, with no pinned points. */
  function AllFeasible(drivers: seq<Item>, teams: seq<Item>, maxCost: real): seq<Ranked>
  {
    Feasible(Combinations(drivers, Search.DriverSlots), Combinations(teams, Search.TeamSlots), maxCost, 0.0)
  }

  /** `L[i]` has the fewest points in `L` and every earlier entry has strictly more. */
  predicate IsFirstMin(L: seq<Ranked>, i: int)
  {
    && 0 <= i < |L|
    && (forall j :: 0 <= j < |L| ==> L[i].points <= L[j].points)
    && (forall j :: 0 <= j < i ==> L[j].points > L[i].points)
  }

  /** `L[i]` has the most points in `L` and every earlier entry has strictly fewer. */
  predicate IsFirstMax(L: seq<Ranked>, i: int)
  {
    && 0 <= i < |L|
    && (forall j :: 0 <= j < |L| ==> L[j].points <= L[i].points)
    && (forall j :: 0 <= j < i ==> L[j].points < L[i].points)
  }

  /** A record scoring no less than the current first minimum leaves it in place. */
  lemma MinKept(seen: seq<Ranked>, e: Ranked, i: int)
    requires IsFirstMin(seen, i) && e.points >= seen[i].points
    ensures IsFirstMin(seen + [e], i)
  {
    var L := seen + [e];
    assert forall j :: 0 <= j < |seen| ==> L[j] == seen[j];
  }

  /** A record scoring strictly below everything before it becomes the first minimum. */
  lemma MinReplaced(seen: seq<Ranked>, e: Ranked, m: real)
    requires forall j :: 0 <= j < |seen| ==> seen[j].points >= m
    requires e.points < m
    ensures IsFirstMin(seen + [e], |seen|)
  {
    var L := seen + [e];
    assert forall j :: 0 <= j < |seen| ==> L[j] == seen[j];
  }

  /** A record scoring no more than the current first maximum leaves it in place. */
  lemma MaxKept(seen: seq<Ranked>, e: Ranked, i: int)
    requires IsFirstMax(seen, i) && e.points <= seen[i].points
    ensures IsFirstMax(seen + [e], i)
  {
    var L := seen + [e];
    assert forall j :: 0 <= j < |seen| ==> L[j] == seen[j];
  }

  /** A record scoring strictly above everything before it becomes the first maximum. */
  lemma MaxReplaced(seen: seq<Ranked>, e: Ranked, m: real)
    requires forall j :: 0 <= j < |seen| ==> seen[j].points <= m
    requires e.points > m
    ensures IsFirstMax(seen + [e], |seen|)
  {
    var L := seen + [e];
    assert forall j :: 0 <= j < |seen| ==> L[j] == seen[j];
  }

  /** The running state of the scan: count, running minimum and running maximum. */
  datatype Tracker = Tracker(
    count: nat,
    minCombo: Option<Pick>,
    minPoints: real,  // stands for infinity while minCombo is None
    maxCombo: Option<Pick>,
    maxPoints: real   // starts at 0
  )

  /** The state before the first roster. */
  const Start := Tracker(0, None, 0.0, None, 0.0)

  /**
   Accounts for one roster within the cap: count it, replace the minimum when
   it scores strictly less (or is the first), replace the maximum when it
   scores strictly more.
   */
  function Observe(tr: Tracker, e: Ranked): Tracker
  {
    var lower := tr.minCombo.None? || e.points < tr.minPoints;
    var higher := e.points > tr.maxPoints;
    Tracker(
      tr.count + 1,
      if lower then Some(Summary(e)) else tr.minCombo,
      if lower then e.points else tr.minPoints,
      if higher then Some(Summary(e)) else tr.maxCombo,
      if higher then e.points else tr.maxPoints)
  }

  /** What a state says about the rosters seen so far, given where the extremes sit. */
  ghost predicate Tracked(seen: seq<Ranked>, tr: Tracker, minIndex: int, maxIndex: int)
  {
    && tr.count == |seen|
    && (tr.minCombo.None? <==> |seen| == 0)
    && (tr.minCombo.Some? ==>
          IsFirstMin(seen, minIndex) && tr.minPoints == seen[minIndex].points
          && tr.minCombo.value == Summary(seen[minIndex]))
    && (tr.maxCombo.None? ==> tr.maxPoints == 0.0 && forall k :: 0 <= k < |seen| ==> seen[k].points <= 0.0)
    && (tr.maxCombo.Some? ==>
          IsFirstMax(seen, maxIndex) && tr.maxPoints == seen[maxIndex].points && tr.maxPoints > 0.0
          && tr.maxCombo.value == Summary(seen[maxIndex]))
  }

  /** Observing one more roster keeps the state faithful to the longer list. */
  lemma ObserveTracked(seen: seq<Ranked>, tr: Tracker, minIndex: int, maxIndex: int, e: Ranked)
    returns (minIndex': int, maxIndex': int)
    requires Tracked(seen, tr, minIndex, maxIndex)
    ensures Tracked(seen + [e], Observe(tr, e), minIndex', maxIndex')
  {
    var L := seen + [e];
    assert forall k :: 0 <= k < |seen| ==> L[k] == seen[k];
    if tr.minCombo.None? || e.points < tr.minPoints {
      MinReplaced(seen, e, if tr.minCombo.None? then e.points + 1.0 else tr.minPoints);
      minIndex' := |seen|;
    } else {
      MinKept(seen, e, minIndex);
      minIndex' := minIndex;
    }
    if e.points > tr.maxPoints {
      MaxReplaced(seen, e, tr.maxPoints);
      maxIndex' := |seen|;
    } else if tr.maxCombo.Some? {
      MaxKept(seen, e, maxIndex);
      maxIndex' := maxIndex;
    } else {
      maxIndex' := maxIndex;
    }
  }

  /** A row over one more team pick ends with that pick's record, when it fits. */
  lemma RowExtend(d: seq<Item>, tcs: seq<seq<Item>>, j: nat, budget: real, base: real)
    requires j < |tcs|
    ensures Row(d, tcs[..j + 1], budget, base) == Row(d, tcs[..j], budget, base)
      + (if Assemble(d, tcs[j], base).cost <= budget then [Assemble(d, tcs[j], base)] else [])
  {
    assert tcs[..j + 1][..j] == tcs[..j];
  }

  /** The state after observing every record of `L` in order, starting from `Start`. */
  function Scan(L: seq<Ranked>): Tracker
    decreases |L|
  {
    if |L| == 0 then Start else Observe(Scan(L[..|L| - 1]), L[|L| - 1])
  }

  /**
   The scan's state is faithful to the whole list: count, first minimum and
   first maximum, the latter only once something scores above 0.
   */
  lemma {:induction false} ScanTracked(L: seq<Ranked>) returns (minIndex: int, maxIndex: int)
    ensures Tracked(L, Scan(L), minIndex, maxIndex)
    decreases |L|
  {
    if |L| == 0 {
      minIndex, maxIndex := 0, 0;
    } else {
      var front := L[..|L| - 1];
      var mi, ma := ScanTracked(front);
      minIndex, maxIndex := ObserveTracked(front, Scan(front), mi, ma, L[|L| - 1]);
      assert front + [L[|L| - 1]] == L;
    }
  }

  /** Observing one more record is scanning the longer list. */
  lemma ScanAppend(L: seq<Ranked>, e: Ranked)
    ensures Scan(L + [e]) == Observe(Scan(L), e)
  {
    assert (L + [e])[..|L|] == L;
  }

  /** One more team pick extends the list seen so far by its record, when that record fits. */
  lemma RowStep(seen: seq<Ranked>, d: seq<Item>, tcs: seq<seq<Item>>, j: nat, budget: real)
    requires j < |tcs|
    ensures var e := Assemble(d, tcs[j], 0.0);
      seen + Row(d, tcs[..j + 1], budget, 0.0)
      == (seen + Row(d, tcs[..j], budget, 0.0)) + (if e.cost <= budget then [e] else [])
  {
    RowExtend(d, tcs, j, budget, 0.0);
  }

  /** The list over one more driver pick ends with that pick's row. */
  lemma FeasibleExtend(dcs: seq<seq<Item>>, tcs: seq<seq<Item>>, i: nat, budget: real, base: real)
    requires i < |dcs|
    ensures Feasible(dcs[..i + 1], tcs, budget, base) == Feasible(dcs[..i], tcs, budget, base) + Row(dcs[i], tcs, budget, base)
  {
    assert dcs[..i + 1][..i] == dcs[..i];
  }

  /** The inner loop of the scan: every team pick for driver pick `d`. */
  method ScanRow(d: seq<Item>, tcs: seq<seq<Item>>, maxCost: real, tr: Tracker, ghost seen: seq<Ranked>)
    returns (tr': Tracker)
    requires tr == Scan(seen)
    ensures tr' == Scan(seen + Row(d, tcs, maxCost, 0.0))
  {
    tr' := tr;
    var j := 0;
    assert seen + Row(d, tcs[..0], maxCost, 0.0) == seen;
    while j < |tcs|
      invariant 0 <= j <= |tcs|
      invariant tr' == Scan(seen + Row(d, tcs[..j], maxCost, 0.0))
    {
      var t := tcs[j];
      var totalCost := SumCost(d) + SumCost(t);
      RowStep(seen, d, tcs, j, maxCost);
      ghost var before := seen + Row(d, tcs[..j], maxCost, 0.0);
      if totalCost <= maxCost {
        var totalPoints := SumPoints(d) + SumPoints(t);
        var e := Ranked(d, t, totalPoints, totalCost);
        assert e == Assemble(d, t, 0.0);
        assert seen + Row(d, tcs[..j + 1], maxCost, 0.0) == before + [e];
        ScanAppend(before, e);
        tr' := Observe(tr', e);
      } else {
        assert seen + Row(d, tcs[..j + 1], maxCost, 0.0) == before + [];
        assert before + [] == before;
      }
      j := j + 1;
    }
    assert tcs[..|tcs|] == tcs;
  }

  /**
   Counts the rosters within `maxCost` and returns the first one with the
   fewest points and the first one with the most points. The running minimum
   starts at infinity, so the first feasible roster always sets it; the running
   maximum starts at 0, so a maximum is recorded only once some roster scores
   more than 0.
   */
  method FindAllValidCombinations(drivers: seq<Item>, teams: seq<Item>, maxCost: real)
    returns (count: nat, minCombo: Option<Pick>, maxCombo: Option<Pick>)
    ensures count == |AllFeasible(drivers, teams, maxCost)|
    ensures minCombo.None? <==> |AllFeasible(drivers, teams, maxCost)| == 0
    ensures minCombo.Some? ==>
      (exists i :: IsFirstMin(AllFeasible(drivers, teams, maxCost), i)
        && minCombo.value == Summary(AllFeasible(drivers, teams, maxCost)[i]))
    ensures maxCombo.None? <==> forall i :: 0 <= i < |AllFeasible(drivers, teams, maxCost)| ==>
      AllFeasible(drivers, teams, maxCost)[i].points <= 0.0
    ensures maxCombo.Some? ==>
      (exists i :: IsFirstMax(AllFeasible(drivers, teams, maxCost), i)
        && AllFeasible(drivers, teams, maxCost)[i].points > 0.0
        && maxCombo.value == Summary(AllFeasible(drivers, teams, maxCost)[i]))
    ensures minCombo.Some? ==>
      minCombo.value.cost == SumCost(minCombo.value.drivers) + SumCost(minCombo.value.teams) <= maxCost
    ensures maxCombo.Some? ==>
      maxCombo.value.cost == SumCost(maxCombo.value.drivers) + SumCost(maxCombo.value.teams) <= maxCost
  {
    var dcs := Combinations(drivers, Search.DriverSlots);
    var tcs := Combinations(teams, Search.TeamSlots);
    var tr := Start;
    ghost var seen: seq<Ranked> := [];
    var i := 0;
    while i < |dcs|
      invariant 0 <= i <= |dcs|
      invariant seen == Feasible(dcs[..i], tcs, maxCost, 0.0)
      invariant tr == Scan(seen)
    {
      tr := ScanRow(dcs[i], tcs, maxCost, tr, seen);
      FeasibleExtend(dcs, tcs, i, maxCost, 0.0);
      seen := seen + Row(dcs[i], tcs, maxCost, 0.0);
      i := i + 1;
    }
    assert dcs[..|dcs|] == dcs;
    ghost var L := AllFeasible(drivers, teams, maxCost);
    assert L == seen;
    count, minCombo, maxCombo := tr.count, tr.minCombo, tr.maxCombo;
    ghost var minIndex, maxIndex := ScanTracked(L);
    if minCombo.Some? {
      FeasibleMembership(dcs, tcs, maxCost, 0.0, L[minIndex]);
    }
    if maxCombo.Some? {
      FeasibleMembership(dcs, tcs, maxCost, 0.0, L[maxIndex]);
    }
  }

  // ---------------------------------------------------------------------------
  // Agreement with the interactive search

  /**
   With nothing pinned, the interactive search collects exactly the rosters
   the offline pass walks through, in the same order.
   */
  lemma OfflineIsUnpinnedSearch(drivers: seq<Item>, teams: seq<Item>, maxCost: real)
    ensures Search.Prepare(drivers, teams, [], [], maxCost).Success?
    ensures Search.FullRanking(Search.Prepare(drivers, teams, [], [], maxCost).value) == AllFeasible(drivers, teams, maxCost)
  {
    NoPins(drivers);
    NoPins(teams);
    var s := Search.Prepare(drivers, teams, [], [], maxCost).value;
    assert s.driverPool == drivers && s.teamPool == teams;
    assert s.basePoints == 0.0 && s.budget == maxCost;
  }

  /** The records with `v` points, when there are some, begin with the first such record. */
  lemma {:induction false} FilterKeyHead(L: seq<Ranked>, v: real)
    requires FilterKey(L, v) != []
    ensures exists i :: 0 <= i < |L| && L[i].points == v && FilterKey(L, v)[0] == L[i]
                     && forall j :: 0 <= j < i ==> L[j].points != v
    decreases |L|
  {
    if L[0].points != v {
      FilterKeyHead(L[1..], v);
      var i :| 0 <= i < |L[1..]| && L[1..][i].points == v && FilterKey(L[1..], v)[0] == L[1..][i]
        && forall j :: 0 <= j < i ==> L[1..][j].points != v;
      assert L[i + 1] == L[1..][i];
      forall j | 0 <= j < i + 1 ensures L[j].points != v {
        if j > 0 {
          assert L[j] == L[1..][j - 1];
        }
      }
    }
  }

  /**
   The head of the stable ranking is the first roster, in enumeration order,
   that reaches the highest score: the interactive ranker and the offline
   maximum search pick the same roster.
   */
  lemma RankerHeadIsFirstMax(L: seq<Ranked>)
    requires |L| > 0
    ensures exists i :: IsFirstMax(L, i) && SortDesc(L)[0] == L[i]
  {
    var S := SortDesc(L);
    assert |S| == |L| by {
      assert |multiset(S)| == |multiset(L)|;
    }
    SortDescStable(L, S[0].points);
    StableHeadIsFirstMax(L, S);
  }

  /**
   In any sorted permutation that keeps the order of the records scoring its
   head's points, the head is the first record reaching the highest score.
   */
  lemma StableHeadIsFirstMax(L: seq<Ranked>, S: seq<Ranked>)
    requires |S| > 0 && SortedDesc(S) && multiset(S) == multiset(L)
    requires FilterKey(S, S[0].points) == FilterKey(L, S[0].points)
    ensures exists i :: IsFirstMax(L, i) && S[0] == L[i]
  {
    var v := S[0].points;
    assert FilterKey(S, v)[0] == S[0] by {
      assert FilterKey(S, v) == [S[0]] + FilterKey(S[1..], v);
    }
    FilterKeyHead(L, v);
    var i :| 0 <= i < |L| && L[i].points == v && FilterKey(L, v)[0] == L[i]
      && forall j :: 0 <= j < i ==> L[j].points != v;
    forall j | 0 <= j < |L| ensures L[j].points <= v {
      assert L[j] in multiset(S);
      var k :| 0 <= k < |S| && S[k] == L[j];
    }
    assert IsFirstMax(L, i);
  }

  /** At most one index is the first maximum. */
  lemma FirstMaxUnique(L: seq<Ranked>, i: int, j: int)
    requires IsFirstMax(L, i) && IsFirstMax(L, j)
    ensures i == j
  {
    assert L[i].points <= L[j].points && L[j].points <= L[i].points;
  }

  /**
   With nothing pinned, `find_best_combinations(top_n=1)` returns the roster the
   offline pass records as its maximum, whenever that maximum is recorded.
   */
  lemma TopOneIsOfflineMax(drivers: seq<Item>, teams: seq<Item>, maxCost: real, e: Ranked, best: Pick)
    requires Search.FindBestCombinations(drivers, teams, [], [], maxCost, 1).value == [e]
    requires exists i :: IsFirstMax(AllFeasible(drivers, teams, maxCost), i)
                         && best == Summary(AllFeasible(drivers, teams, maxCost)[i])
    ensures Summary(e) == best
  {
    var L := AllFeasible(drivers, teams, maxCost);
    OfflineIsUnpinnedSearch(drivers, teams, maxCost);
    var i :| IsFirstMax(L, i) && best == Summary(L[i]);
    RankerHeadIsFirstMax(L);
    var k :| IsFirstMax(L, k) && SortDesc(L)[0] == L[k];
    FirstMaxUnique(L, i, k);
    assert e == SortDesc(L)[0];
  }
}
