/**
 The interactive search of app.py: complete a partly pinned roster of five
 drivers and two teams under a budget cap, rank the completions by points, and
 count them.
 */
module Search {
  import opened Results
  import opened Combinatorics
  import opened Items
  import opened Ranking

  /** Drivers in a complete roster. */
  const DriverSlots: int := 5
  /** Teams in a complete roster. */
  const TeamSlots: int := 2

  /**
   `itertools.combinations` raises `ValueError` for a negative pick size, which
   happens when more than five drivers or more than two teams are pinned.
   */
  datatype SearchError = NegativeSlotCount

  /** What is left to decide once the pins are applied. */
  datatype Setup = Setup(
    driverPool: seq<Item>,  // catalog drivers whose name is not pinned
    teamPool: seq<Item>,    // catalog teams whose name is not pinned
    driverSlots: nat,       // drivers still to add
    teamSlots: nat,         // teams still to add
    budget: real,           // cap minus the price of the pinned rows
    basePoints: real        // points of the pinned rows
  )

  /** Price of the catalog rows whose name is pinned (unknown names cost nothing). */
  function PinnedCost(drivers: seq<Item>, teams: seq<Item>, selectedDrivers: seq<string>, selectedTeams: seq<string>): real
  {
    SumCost(Pinned(drivers, selectedDrivers)) + SumCost(Pinned(teams, selectedTeams))
  }

  /** Points of the catalog rows whose name is pinned (unknown names score nothing). */
  function PinnedPoints(drivers: seq<Item>, teams: seq<Item>, selectedDrivers: seq<string>, selectedTeams: seq<string>): real
  {
    SumPoints(Pinned(drivers, selectedDrivers)) + SumPoints(Pinned(teams, selectedTeams))
  }

  /**
   Applies the pins: remaining budget and pinned points come from the catalog
   rows that carry a pinned name, while every pinned name, known or not,
   takes a slot.
   */
  function Prepare(drivers: seq<Item>, teams: seq<Item>, selectedDrivers: seq<string>, selectedTeams: seq<string>, maxCost: real): (r: Result<Setup, SearchError>)
    ensures r.Failure? <==> |selectedDrivers| > DriverSlots || |selectedTeams| > TeamSlots
    ensures r.Success? ==>
      && r.value.driverSlots + |selectedDrivers| == DriverSlots
      && r.value.teamSlots + |selectedTeams| == TeamSlots
      && r.value.budget + PinnedCost(drivers, teams, selectedDrivers, selectedTeams) == maxCost
      && (forall x :: x in r.value.driverPool <==> x in drivers && x.name !in selectedDrivers)
      && (forall x :: x in r.value.teamPool <==> x in teams && x.name !in selectedTeams)
  {
    var driverSlots := DriverSlots - |selectedDrivers|;
    var teamSlots := TeamSlots - |selectedTeams|;
    if driverSlots < 0 || teamSlots < 0 then Failure(NegativeSlotCount)
    else
      Success(Setup(
        Unpinned(drivers, selectedDrivers),
        Unpinned(teams, selectedTeams),
        driverSlots,
        teamSlots,
        maxCost - PinnedCost(drivers, teams, selectedDrivers, selectedTeams),
        PinnedPoints(drivers, teams, selectedDrivers, selectedTeams)))
  }

  /** Every driver pick and team pick of the pools, crossed driver-major and filtered on budget. */
  function FullRanking(s: Setup): seq<Ranked>
  {
    Feasible(Combinations(s.driverPool, s.driverSlots), Combinations(s.teamPool, s.teamSlots), s.budget, s.basePoints)
  }

  /**
   `find_best_combinations`: the feasible completions, stably sorted by points
   from highest to lowest, cut to the first `topN`.
   */
  function FindBestCombinations(drivers: seq<Item>, teams: seq<Item>, selectedDrivers: seq<string>, selectedTeams: seq<string>, maxCost: real, topN: int): (r: Result<seq<Ranked>, SearchError>)
    ensures r.Failure? <==> |selectedDrivers| > DriverSlots || |selectedTeams| > TeamSlots
    ensures r.Success? ==> SortedDesc(r.value)
    ensures r.Success? && topN >= 0 ==> |r.value| <= topN
  {
    match Prepare(drivers, teams, selectedDrivers, selectedTeams, maxCost)
    case Failure(e) => Failure(e)
    case Success(s) =>
      var ranked := SortDesc(FullRanking(s));
      var r := SlicePrefix(ranked, topN);
      assert SortedDesc(r) by {
        forall i, j | 0 <= i < j < |r| ensures r[i].points >= r[j].points {
          assert r[i] == ranked[i] && r[j] == ranked[j];
        }
      }
      Success(r)
  }

  /** The inner counting loop: team picks that fit together with `d`. */
  function CountRow(d: seq<Item>, tcs: seq<seq<Item>>, budget: real): nat
    decreases |tcs|
  {
    if |tcs| == 0 then 0
    else
      CountRow(d, tcs[..|tcs| - 1], budget)
      + (if SumCost(d) + SumCost(tcs[|tcs| - 1]) <= budget then 1 else 0)
  }

  /** The outer counting loop, skipping driver picks that alone exceed the budget. */
  function CountPruned(dcs: seq<seq<Item>>, tcs: seq<seq<Item>>, budget: real): nat
    decreases |dcs|
  {
    if |dcs| == 0 then 0
    else
      var d := dcs[|dcs| - 1];
      CountPruned(dcs[..|dcs| - 1], tcs, budget) + (if SumCost(d) > budget then 0 else CountRow(d, tcs, budget))
  }

  /** `count_valid_combinations`: the number of feasible completions, found with the prune. */
  function CountValidCombinations(drivers: seq<Item>, teams: seq<Item>, selectedDrivers: seq<string>, selectedTeams: seq<string>, maxCost: real): (r: Result<nat, SearchError>)
    ensures r.Failure? <==> |selectedDrivers| > DriverSlots || |selectedTeams| > TeamSlots
  {
    match Prepare(drivers, teams, selectedDrivers, selectedTeams, maxCost)
    case Failure(e) => Failure(e)
    case Success(s) =>
      Success(CountPruned(Combinations(s.driverPool, s.driverSlots), Combinations(s.teamPool, s.teamSlots), s.budget))
  }

  // ---------------------------------------------------------------------------
  // Properties of the ranker

  /**
   Every returned completion adds exactly the missing number of drivers and
   teams, all taken from the catalog and none carrying a pinned name; its cost
   is that of the added rows and stays within the cap minus the pinned cost;
   its points are the pinned points plus those of the added rows.
   */
  lemma FindBestEntries(drivers: seq<Item>, teams: seq<Item>, selectedDrivers: seq<string>, selectedTeams: seq<string>, maxCost: real, topN: int, e: Ranked)
    requires FindBestCombinations(drivers, teams, selectedDrivers, selectedTeams, maxCost, topN).Success?
    requires e in FindBestCombinations(drivers, teams, selectedDrivers, selectedTeams, maxCost, topN).value
    ensures e.cost == SumCost(e.drivers) + SumCost(e.teams)
    ensures e.cost <= maxCost - PinnedCost(drivers, teams, selectedDrivers, selectedTeams)
    ensures e.points == PinnedPoints(drivers, teams, selectedDrivers, selectedTeams) + SumPoints(e.drivers) + SumPoints(e.teams)
    ensures |e.drivers| + |selectedDrivers| == DriverSlots && |e.teams| + |selectedTeams| == TeamSlots
    ensures forall x :: x in e.drivers ==> x in drivers && x.name !in selectedDrivers
    ensures forall x :: x in e.teams ==> x in teams && x.name !in selectedTeams
  {
    var s := Prepare(drivers, teams, selectedDrivers, selectedTeams, maxCost).value;
    var dcs := Combinations(s.driverPool, s.driverSlots);
    var tcs := Combinations(s.teamPool, s.teamSlots);
    var ranked := SortDesc(FullRanking(s));
    assert e in ranked;
    assert e in multiset(ranked);
    assert e in FullRanking(s);
    FeasibleMembership(dcs, tcs, s.budget, s.basePoints, e);
    CombinationsSound(s.driverPool, s.driverSlots, e.drivers);
    CombinationsSound(s.teamPool, s.teamSlots, e.teams);
    SubseqElements(e.drivers, s.driverPool);
    SubseqElements(e.teams, s.teamPool);
  }

  /** With a non-negative `topN` the result has `min(topN, number of feasible completions)` entries. */
  lemma FindBestLength(drivers: seq<Item>, teams: seq<Item>, selectedDrivers: seq<string>, selectedTeams: seq<string>, maxCost: real, topN: int)
    requires |selectedDrivers| <= DriverSlots && |selectedTeams| <= TeamSlots && topN >= 0
    ensures var n := |FullRanking(Prepare(drivers, teams, selectedDrivers, selectedTeams, maxCost).value)|;
      |FindBestCombinations(drivers, teams, selectedDrivers, selectedTeams, maxCost, topN).value| == if topN < n then topN else n
  {
    var s := Prepare(drivers, teams, selectedDrivers, selectedTeams, maxCost).value;
    assert |SortDesc(FullRanking(s))| == |FullRanking(s)| by {
      assert |multiset(SortDesc(FullRanking(s)))| == |multiset(FullRanking(s))|;
    }
  }

  /** Asking for fewer entries returns a prefix of what asking for more returns. */
  lemma FindBestPrefix(drivers: seq<Item>, teams: seq<Item>, selectedDrivers: seq<string>, selectedTeams: seq<string>, maxCost: real, n: int, m: int)
    requires |selectedDrivers| <= DriverSlots && |selectedTeams| <= TeamSlots
    requires 0 <= n <= m
    ensures FindBestCombinations(drivers, teams, selectedDrivers, selectedTeams, maxCost, n).value
         <= FindBestCombinations(drivers, teams, selectedDrivers, selectedTeams, maxCost, m).value
  {
    var s := Prepare(drivers, teams, selectedDrivers, selectedTeams, maxCost).value;
    SlicePrefixMonotone(SortDesc(FullRanking(s)), n, m);
  }

  /** A shorter slice is a prefix of a longer one. */
  lemma SlicePrefixMonotone(ranked: seq<Ranked>, n: int, m: int)
    requires 0 <= n <= m
    ensures SlicePrefix(ranked, n) <= SlicePrefix(ranked, m)
  {
    var a := SlicePrefix(ranked, n);
    var b := SlicePrefix(ranked, m);
    assert a == ranked[..|a|] && b == ranked[..|b|] && |a| <= |b|;
  }

  /**
   Nothing better is left out: every feasible completion not returned scores at
   most every returned one.
   */
  lemma FindBestOptimal(drivers: seq<Item>, teams: seq<Item>, selectedDrivers: seq<string>, selectedTeams: seq<string>, maxCost: real, topN: int, e: Ranked)
    requires |selectedDrivers| <= DriverSlots && |selectedTeams| <= TeamSlots
    requires e in FullRanking(Prepare(drivers, teams, selectedDrivers, selectedTeams, maxCost).value)
    requires e !in FindBestCombinations(drivers, teams, selectedDrivers, selectedTeams, maxCost, topN).value
    ensures forall k :: 0 <= k < |FindBestCombinations(drivers, teams, selectedDrivers, selectedTeams, maxCost, topN).value| ==>
      e.points <= FindBestCombinations(drivers, teams, selectedDrivers, selectedTeams, maxCost, topN).value[k].points
  {
    var s := Prepare(drivers, teams, selectedDrivers, selectedTeams, maxCost).value;
    var ranked := SortDesc(FullRanking(s));
    var r := SlicePrefix(ranked, topN);
    assert r == FindBestCombinations(drivers, teams, selectedDrivers, selectedTeams, maxCost, topN).value;
    PrefixOfSortedIsOptimal(FullRanking(s), ranked, r, e);
  }

  /** A prefix of a sorted permutation scores at least as much as anything the prefix leaves out. */
  lemma PrefixOfSortedIsOptimal(full: seq<Ranked>, ranked: seq<Ranked>, r: seq<Ranked>, e: Ranked)
    requires multiset(ranked) == multiset(full) && SortedDesc(ranked) && r <= ranked
    requires e in full && e !in r
    ensures forall k :: 0 <= k < |r| ==> e.points <= r[k].points
  {
    assert e in multiset(full);
    assert e in multiset(ranked);
    var j :| 0 <= j < |ranked| && ranked[j] == e;
    assert j >= |r| by {
      forall i | 0 <= i < |r| ensures ranked[i] != e {
        assert r[i] == ranked[i];
      }
    }
    forall k | 0 <= k < |r| ensures e.points <= r[k].points {
      assert r[k] == ranked[k];
    }
  }

  /**
   Ties keep enumeration order: for every points value, the returned entries
   with that value are the earliest completions with that value, in the order
   they were enumerated.
   */
  lemma FindBestStable(drivers: seq<Item>, teams: seq<Item>, selectedDrivers: seq<string>, selectedTeams: seq<string>, maxCost: real, topN: int, v: real)
    requires |selectedDrivers| <= DriverSlots && |selectedTeams| <= TeamSlots
    ensures FilterKey(FindBestCombinations(drivers, teams, selectedDrivers, selectedTeams, maxCost, topN).value, v)
         <= FilterKey(FullRanking(Prepare(drivers, teams, selectedDrivers, selectedTeams, maxCost).value), v)
  {
    var s := Prepare(drivers, teams, selectedDrivers, selectedTeams, maxCost).value;
    var ranked := SortDesc(FullRanking(s));
    var r := SlicePrefix(ranked, topN);
    assert r == ranked[..|r|];
    FilterKeyPrefix(ranked, |r|, v);
    SortDescStable(FullRanking(s), v);
  }

  /** A pool smaller than its number of open slots gives an empty result, not an error. */
  lemma FindBestPoolTooSmall(drivers: seq<Item>, teams: seq<Item>, selectedDrivers: seq<string>, selectedTeams: seq<string>, maxCost: real, topN: int)
    requires |selectedDrivers| <= DriverSlots && |selectedTeams| <= TeamSlots
    requires
      || |Unpinned(drivers, selectedDrivers)| < DriverSlots - |selectedDrivers|
      || |Unpinned(teams, selectedTeams)| < TeamSlots - |selectedTeams|
    ensures FindBestCombinations(drivers, teams, selectedDrivers, selectedTeams, maxCost, topN) == Success([])
  {
    var s := Prepare(drivers, teams, selectedDrivers, selectedTeams, maxCost).value;
    var dcs := Combinations(s.driverPool, s.driverSlots);
    var tcs := Combinations(s.teamPool, s.teamSlots);
    if |s.driverPool| < s.driverSlots {
      CombinationsTooFew(s.driverPool, s.driverSlots);
    } else {
      CombinationsTooFew(s.teamPool, s.teamSlots);
    }
    if |FullRanking(s)| > 0 {
      var e := FullRanking(s)[0];
      FeasibleMembership(dcs, tcs, s.budget, s.basePoints, e);
    }
    assert FullRanking(s) == [];
    assert multiset(SortDesc(FullRanking(s))) == multiset{};
  }

  /**
   With a positive `topN`, the result is empty exactly when no pair of picks
   fits the remaining budget.
   */
  lemma FindBestEmptyIff(drivers: seq<Item>, teams: seq<Item>, selectedDrivers: seq<string>, selectedTeams: seq<string>, maxCost: real, topN: int)
    requires |selectedDrivers| <= DriverSlots && |selectedTeams| <= TeamSlots && topN > 0
    ensures var s := Prepare(drivers, teams, selectedDrivers, selectedTeams, maxCost).value;
      FindBestCombinations(drivers, teams, selectedDrivers, selectedTeams, maxCost, topN).value == [] <==>
        forall d, t :: d in Combinations(s.driverPool, s.driverSlots) && t in Combinations(s.teamPool, s.teamSlots) ==>
          SumCost(d) + SumCost(t) > s.budget
  {
    var s := Prepare(drivers, teams, selectedDrivers, selectedTeams, maxCost).value;
    FindBestLength(drivers, teams, selectedDrivers, selectedTeams, maxCost, topN);
    FeasibleEmptyIff(Combinations(s.driverPool, s.driverSlots), Combinations(s.teamPool, s.teamSlots), s.budget, s.basePoints);
  }

  /** Nothing is collected exactly when no pair of picks fits the budget. */
  lemma FeasibleEmptyIff(dcs: seq<seq<Item>>, tcs: seq<seq<Item>>, budget: real, base: real)
    ensures Feasible(dcs, tcs, budget, base) == [] <==>
      forall d, t :: d in dcs && t in tcs ==> SumCost(d) + SumCost(t) > budget
  {
    var F := Feasible(dcs, tcs, budget, base);
    if |F| > 0 {
      var e := F[0];
      FeasibleMembership(dcs, tcs, budget, base, e);
      assert e.drivers in dcs && e.teams in tcs && SumCost(e.drivers) + SumCost(e.teams) <= budget;
    } else {
      forall d, t | d in dcs && t in tcs ensures SumCost(d) + SumCost(t) > budget {
        FeasibleMembership(dcs, tcs, budget, base, Assemble(d, t, base));
      }
    }
  }

  /** Over a catalog without repeated rows, the added drivers and the added teams are pairwise distinct. */
  lemma FindBestDistinctPicks(drivers: seq<Item>, teams: seq<Item>, selectedDrivers: seq<string>, selectedTeams: seq<string>, maxCost: real, topN: int, e: Ranked)
    requires Distinct(drivers) && Distinct(teams)
    requires FindBestCombinations(drivers, teams, selectedDrivers, selectedTeams, maxCost, topN).Success?
    requires e in FindBestCombinations(drivers, teams, selectedDrivers, selectedTeams, maxCost, topN).value
    ensures Distinct(e.drivers) && Distinct(e.teams)
  {
    var s := Prepare(drivers, teams, selectedDrivers, selectedTeams, maxCost).value;
    var ranked := SortDesc(FullRanking(s));
    assert e in multiset(ranked);
    assert e in FullRanking(s);
    FeasibleMembership(Combinations(s.driverPool, s.driverSlots), Combinations(s.teamPool, s.teamSlots), s.budget, s.basePoints, e);
    UnpinnedIsSubseq(drivers, selectedDrivers);
    UnpinnedIsSubseq(teams, selectedTeams);
    SubseqDistinct(s.driverPool, drivers);
    SubseqDistinct(s.teamPool, teams);
    CombinationsDistinct(s.driverPool, s.driverSlots);
    CombinationsDistinct(s.teamPool, s.teamSlots);
  }

  /**
   Pinning a driver name absent from the catalog leaves the budget, the pinned
   points and the pool unchanged but still uses up one slot.
   */
  lemma UnknownPinTakesSlot(drivers: seq<Item>, teams: seq<Item>, selectedDrivers: seq<string>, selectedTeams: seq<string>, maxCost: real, n: string)
    requires |selectedDrivers| < DriverSlots && |selectedTeams| <= TeamSlots
    requires forall x :: x in drivers ==> x.name != n
    ensures var before := Prepare(drivers, teams, selectedDrivers, selectedTeams, maxCost).value;
      var after := Prepare(drivers, teams, selectedDrivers + [n], selectedTeams, maxCost).value;
      after == before.(driverSlots := before.driverSlots - 1)
  {
    UnknownNameIgnored(drivers, selectedDrivers, n);
  }

  // ---------------------------------------------------------------------------
  // The counter agrees with the ranker

  /** The inner counting loop counts exactly the records the ranker's inner loop collects. */
  lemma {:induction false} CountRowMatches(d: seq<Item>, tcs: seq<seq<Item>>, budget: real, base: real)
    ensures CountRow(d, tcs, budget) == |Row(d, tcs, budget, base)|
    decreases |tcs|
  {
    if |tcs| > 0 {
      CountRowMatches(d, tcs[..|tcs| - 1], budget, base);
    }
  }

  /** With non-negative team-pick costs, the pruned count is the length of the feasible list. */
  lemma {:induction false} CountPrunedMatches(dcs: seq<seq<Item>>, tcs: seq<seq<Item>>, budget: real, base: real)
    requires forall t :: t in tcs ==> SumCost(t) >= 0.0
    ensures CountPruned(dcs, tcs, budget) == |Feasible(dcs, tcs, budget, base)|
    decreases |dcs|
  {
    if |dcs| > 0 {
      var d := dcs[|dcs| - 1];
      CountPrunedMatches(dcs[..|dcs| - 1], tcs, budget, base);
      if SumCost(d) > budget {
        RowPruneSound(d, tcs, budget, base);
      } else {
        CountRowMatches(d, tcs, budget, base);
      }
    }
  }

  /**
   When no team costs less than nothing, `count_valid_combinations` fails
   exactly when `find_best_combinations` does, and otherwise returns the number
   of completions the ranker collects before truncating, so a large enough
   `topN` returns that many.
   */
  lemma CountAgreesWithRanker(drivers: seq<Item>, teams: seq<Item>, selectedDrivers: seq<string>, selectedTeams: seq<string>, maxCost: real, topN: int)
    requires NonNegativeCosts(teams)
    ensures CountValidCombinations(drivers, teams, selectedDrivers, selectedTeams, maxCost).Failure?
        == FindBestCombinations(drivers, teams, selectedDrivers, selectedTeams, maxCost, topN).Failure?
    ensures CountValidCombinations(drivers, teams, selectedDrivers, selectedTeams, maxCost).Success? ==>
      && CountValidCombinations(drivers, teams, selectedDrivers, selectedTeams, maxCost).value
         == |FullRanking(Prepare(drivers, teams, selectedDrivers, selectedTeams, maxCost).value)|
      && (topN >= CountValidCombinations(drivers, teams, selectedDrivers, selectedTeams, maxCost).value ==>
          |FindBestCombinations(drivers, teams, selectedDrivers, selectedTeams, maxCost, topN).value|
          == CountValidCombinations(drivers, teams, selectedDrivers, selectedTeams, maxCost).value)
  {
    if |selectedDrivers| <= DriverSlots && |selectedTeams| <= TeamSlots {
      var s := Prepare(drivers, teams, selectedDrivers, selectedTeams, maxCost).value;
      var tcs := Combinations(s.teamPool, s.teamSlots);
      forall t | t in tcs ensures SumCost(t) >= 0.0 {
        CombinationsSound(s.teamPool, s.teamSlots, t);
        SubseqElements(t, s.teamPool);
        SumCostNonNegative(t);
      }
      CountPrunedMatches(Combinations(s.driverPool, s.driverSlots), tcs, s.budget, s.basePoints);
      if topN >= 0 {
        FindBestLength(drivers, teams, selectedDrivers, selectedTeams, maxCost, topN);
      }
    }
  }
}
