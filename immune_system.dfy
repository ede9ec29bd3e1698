/** The population routines of the artificial immune system: building the
    initial population, accumulating pairwise affinities and evaluating
    fitness over a population. */
module ImmuneSystem {
  import opened Families
  import opened Antibodies

  /** Initial value of the running minimum in `fitness`. */
  const FitnessSentinel: real := 999999999999.0

  /** The assignment arrays of a population, in order. */
  function FamiliesOf(population: seq<Antibody>): (r: seq<seq<int>>)
    reads population`families
    ensures |r| == |population|
    ensures forall k :: 0 <= k < |r| ==> r[k] == population[k].families
  {
    if |population| == 0 then []
    else FamiliesOf(population[..|population| - 1]) + [population[|population| - 1].families]
  }

  /** The affinity scores of a population, in order. */
  function Scores(population: seq<Antibody>): (r: seq<int>)
    reads population`affinityValue
    ensures |r| == |population|
    ensures forall k :: 0 <= k < |r| ==> r[k] == population[k].affinityValue
  {
    if |population| == 0 then []
    else Scores(population[..|population| - 1]) + [population[|population| - 1].affinityValue]
  }

  /** All assignments cover the same families (they come from one table). */
  predicate SameLength(assignments: seq<seq<int>>) {
    forall k :: 0 <= k < |assignments| ==> |assignments[k]| == |assignments[0]|
  }

  // ---------------------------------------------------------------------
  // Pairwise affinity sums
  // ---------------------------------------------------------------------

  /** Affinity of member k with the members lo..hi-1 other than k itself. */
  function RangeAffinity(assignments: seq<seq<int>>, k: nat, lo: nat, hi: nat): nat
    requires SameLength(assignments) && k < |assignments| && hi <= |assignments|
    decreases hi
  {
    if hi <= lo then 0
    else RangeAffinity(assignments, k, lo, hi - 1)
         + (if hi - 1 == k then 0 else Matches(assignments[k], assignments[hi - 1]))
  }

  /** Affinity of member k with the members 0..hi-1 other than k itself. */
  function RowAffinity(assignments: seq<seq<int>>, k: nat, hi: nat): nat
    requires SameLength(assignments) && k < |assignments| && hi <= |assignments|
  {
    RangeAffinity(assignments, k, 0, hi)
  }

  /** Affinity of member k with every other member of the population. */
  function TotalAffinity(assignments: seq<seq<int>>, k: nat): nat
    requires SameLength(assignments) && k < |assignments|
  {
    RowAffinity(assignments, k, |assignments|)
  }

  lemma {:induction false} RangeSplit(assignments: seq<seq<int>>, k: nat, lo: nat, mid: nat, hi: nat)
    requires SameLength(assignments) && k < |assignments| && lo <= mid <= hi <= |assignments|
    ensures RangeAffinity(assignments, k, lo, hi)
         == RangeAffinity(assignments, k, lo, mid) + RangeAffinity(assignments, k, mid, hi)
    decreases hi
  {
    if mid < hi {
      RangeSplit(assignments, k, lo, mid, hi - 1);
    }
  }

  /** Member k is compared with at most |assignments| - 1 others, each of
      which agrees with it on at most every family. */
  lemma {:induction false} TotalAffinityBound(assignments: seq<seq<int>>, k: nat)
    requires SameLength(assignments) && k < |assignments|
    ensures TotalAffinity(assignments, k) <= (|assignments| - 1) * |assignments[k]|
  {
    var n, len := |assignments|, |assignments[k]|;
    RangeSplit(assignments, k, 0, k, n);
    RangeSplit(assignments, k, k, k + 1, n);
    RangeBound(assignments, k, 0, k);
    RangeBound(assignments, k, k + 1, n);
    assert k * len + (n - (k + 1)) * len == (n - 1) * len;
  }

  lemma {:induction false} RangeBound(assignments: seq<seq<int>>, k: nat, lo: nat, hi: nat)
    requires SameLength(assignments) && k < |assignments| && lo <= hi <= |assignments|
    ensures RangeAffinity(assignments, k, lo, hi) <= (hi - lo) * |assignments[k]|
    decreases hi
  {
    if lo < hi {
      RangeBound(assignments, k, lo, hi - 1);
      assert (hi - 1 - lo) * |assignments[k]| + |assignments[k]| == (hi - lo) * |assignments[k]|;
    }
  }

  /** Affinity credited to member k by the all-pairs pass once rows 0..i-1
      are done and row i has been compared with members i+1..j-1. */
  ghost function Credit(assignments: seq<seq<int>>, k: nat, i: nat, j: nat): nat
    requires SameLength(assignments) && k < |assignments| && i <= j <= |assignments|
  {
    if k < i then TotalAffinity(assignments, k)
    else if k == i then RowAffinity(assignments, k, i) + RangeAffinity(assignments, i, i + 1, j)
    else RowAffinity(assignments, k, i) + (if k < j then Matches(assignments[k], assignments[i]) else 0)
  }

  lemma CreditStart(assignments: seq<seq<int>>)
    requires SameLength(assignments)
    ensures forall k :: 0 <= k < |assignments| ==> Credit(assignments, k, 0, 0) == 0
  {
  }

  lemma CreditEnterRow(assignments: seq<seq<int>>, i: nat)
    requires SameLength(assignments) && i < |assignments|
    ensures forall k :: 0 <= k < |assignments| ==> Credit(assignments, k, i, i) == Credit(assignments, k, i, i + 1)
  {
  }

  /** Comparing member i with member j credits both with their affinity. */
  lemma CreditStep(assignments: seq<seq<int>>, i: nat, j: nat)
    requires SameLength(assignments) && i < j < |assignments|
    ensures forall k :: 0 <= k < |assignments| ==>
      Credit(assignments, k, i, j + 1)
      == Credit(assignments, k, i, j) + (if k == i || k == j then Matches(assignments[i], assignments[j]) else 0)
  {
    MatchesSymmetric(assignments[i], assignments[j]);
  }

  /** Finishing row i is the same as starting row i + 1. */
  lemma CreditNextRow(assignments: seq<seq<int>>, i: nat)
    requires SameLength(assignments) && i < |assignments|
    ensures forall k :: 0 <= k < |assignments| ==>
      Credit(assignments, k, i, |assignments|) == Credit(assignments, k, i + 1, i + 1)
  {
    RangeSplit(assignments, i, 0, i + 1, |assignments|);
  }

  /** Sum over members 0..m-1 of their affinity with members 0..hi-1. */
  ghost function TotalsUpTo(assignments: seq<seq<int>>, m: nat, hi: nat): nat
    requires SameLength(assignments) && m <= |assignments| && hi <= |assignments|
  {
    if m == 0 then 0 else TotalsUpTo(assignments, m - 1, hi) + RowAffinity(assignments, m - 1, hi)
  }

  /** Sum of the affinities of member j with members 0..m-1, seen from their side. */
  ghost function ColumnAffinity(assignments: seq<seq<int>>, j: nat, m: nat): nat
    requires SameLength(assignments) && m <= j < |assignments|
  {
    if m == 0 then 0 else ColumnAffinity(assignments, j, m - 1) + Matches(assignments[m - 1], assignments[j])
  }

  /** Sum of the affinities of all unordered pairs p < k < m. */
  ghost function PairsUpTo(assignments: seq<seq<int>>, m: nat): nat
    requires SameLength(assignments) && m <= |assignments|
  {
    if m == 0 then 0 else PairsUpTo(assignments, m - 1) + RowAffinity(assignments, m - 1, m - 1)
  }

  lemma {:induction false} ColumnIsRow(assignments: seq<seq<int>>, j: nat, m: nat)
    requires SameLength(assignments) && m <= j < |assignments|
    ensures ColumnAffinity(assignments, j, m) == RowAffinity(assignments, j, m)
  {
    if m > 0 {
      ColumnIsRow(assignments, j, m - 1);
      MatchesSymmetric(assignments[m - 1], assignments[j]);
    }
  }

  lemma {:induction false} TotalsGrow(assignments: seq<seq<int>>, m: nat, hi: nat)
    requires SameLength(assignments) && m <= hi < |assignments|
    ensures TotalsUpTo(assignments, m, hi + 1) == TotalsUpTo(assignments, m, hi) + ColumnAffinity(assignments, hi, m)
  {
    if m > 0 {
      TotalsGrow(assignments, m - 1, hi);
    }
  }

  /** The all-pairs pass adds each unordered pair's affinity to both of its
      members, so the members' totals add up to twice the pair sum. */
  lemma {:induction false} EachPairCountedTwice(assignments: seq<seq<int>>, n: nat)
    requires SameLength(assignments) && n <= |assignments|
    ensures TotalsUpTo(assignments, n, n) == 2 * PairsUpTo(assignments, n)
  {
    if n > 0 {
      EachPairCountedTwice(assignments, n - 1);
      TotalsGrow(assignments, n - 1, n - 1);
      ColumnIsRow(assignments, n - 1, n - 1);
    }
  }

  /** The pairwise score of the affinity test that the antibody test does
      not already cover. */
  lemma ExampleMatches()
    ensures Matches([10, 20, 13, 15], [10, 22, 13, 15]) == 3
  {
    var a, b := [10, 20, 13, 15], [10, 22, 13, 15];
    assert a[..3] == [10, 20, 13] && a[..3][..2] == [10, 20] && a[..3][..2][..1] == [10];
    assert b[..3] == [10, 22, 13] && b[..3][..2] == [10, 22] && b[..3][..2][..1] == [10];
    assert Matches([10], [10]) == 1 && Matches([10, 20], [10, 22]) == 1;
    assert Matches([10, 20, 13], [10, 22, 13]) == 2;
  }

  /** The affinity test: [10,20,13,15], [10,22,13,15], [11,20,14,1] score 4, 3 and 1. */
  lemma AffinityExample()
    ensures var population := [[10, 20, 13, 15], [10, 22, 13, 15], [11, 20, 14, 1]];
      SameLength(population)
      && TotalAffinity(population, 0) == 4
      && TotalAffinity(population, 1) == 3
      && TotalAffinity(population, 2) == 1
  {
    var a, b, c := [10, 20, 13, 15], [10, 22, 13, 15], [11, 20, 14, 1];
    ExampleMatches();
    MatchesExamples();
    MatchesSymmetric(a, b);
    MatchesSymmetric(a, c);
    MatchesSymmetric(b, c);
  }

  // ---------------------------------------------------------------------
  // Fitness aggregation
  // ---------------------------------------------------------------------

  /** The stored fitness values of a population, in order. */
  function FitnessValues(population: seq<Antibody>): (r: seq<real>)
    reads population`fitnessValue
    ensures |r| == |population|
    ensures forall k :: 0 <= k < |r| ==> r[k] == population[k].fitnessValue
  {
    if |population| == 0 then []
    else FitnessValues(population[..|population| - 1]) + [population[|population| - 1].fitnessValue]
  }

  /** Every member's schedule can be scored: the family table is well formed,
      the member places no more families than the table has and its day
      counts cover the calendar. */
  ghost predicate Scorable(table: seq<Family>, population: seq<Antibody>)
    reads population`families, population`days
  {
    && WellFormed(table)
    && forall k :: 0 <= k < |population| ==>
      |population[k].families| <= |table| && IsCalendar(population[k].days)
  }

  /** What `fitness` will store in each member, from the member's schedule. */
  ghost function FitnessTargets(table: seq<Family>, power: Power,
                                population: seq<Antibody>): (r: seq<real>)
    reads population`families, population`days
    requires Scorable(table, population)
    ensures |r| == |population|
    ensures forall k {:trigger FitnessOf(table, power, population[k].families, population[k].days)} :: 0 <= k < |r| ==>
      r[k] == FitnessOf(table, power, population[k].families, population[k].days)
  {
    if |population| == 0 then []
    else
      var init, last := population[..|population| - 1], population[|population| - 1];
      assert forall k :: 0 <= k < |init| ==> init[k] == population[k];
      FitnessTargets(table, power, init) + [FitnessOf(table, power, last.families, last.days)]
  }

  function Sum(values: seq<real>): real {
    if |values| == 0 then 0.0 else Sum(values[..|values| - 1]) + values[|values| - 1]
  }

  /** The first k members store the fitness values they are meant to. */
  ghost predicate StoresUpTo(population: seq<Antibody>, targets: seq<real>, k: nat)
    reads population`fitnessValue
    requires k <= |population| == |targets|
  {
    forall m {:trigger population[m].fitnessValue} :: 0 <= m < k ==> population[m].fitnessValue == targets[m]
  }

  /** What the fitness loop knows after visiting the first k values: their
      sum, and the running minimum, which starts at the sentinel and is
      either still the sentinel or one of the values seen. */
  predicate Summarises(values: seq<real>, k: nat, minFitness: real, sumFitness: real)
    requires k <= |values|
  {
    && sumFitness == Sum(values[..k])
    && minFitness <= FitnessSentinel
    && (forall m :: 0 <= m < k ==> minFitness <= values[m])
    && (minFitness == FitnessSentinel || exists m :: 0 <= m < k && minFitness == values[m])
  }

  /** The bookkeeping half of one round of the fitness loop: add the value to
      the sum and lower the minimum to it when it is strictly smaller. */
  method Record(ghost values: seq<real>, ghost k: nat, value: real, minBefore: real, sumBefore: real)
    returns (minFitness: real, sumFitness: real)
    requires k < |values| && value == values[k]
    requires Summarises(values, k, minBefore, sumBefore)
    ensures Summarises(values, k + 1, minFitness, sumFitness)
    ensures minFitness == if value < minBefore then value else minBefore
  {
    sumFitness := sumBefore + value;
    assert values[..k + 1][..k] == values[..k];
    minFitness := minBefore;
    if value < minFitness {
      minFitness := value;
    }
  }

  /** Entering row i visits no pair yet, so the scores stay credited. */
  lemma EnterRow(population: seq<Antibody>, assignments: seq<seq<int>>, start: seq<int>, i: nat)
    requires SameLength(assignments) && |assignments| == |start| == |population| && i < |population|
    requires CreditedUpTo(population, assignments, start, i, i)
    ensures CreditedUpTo(population, assignments, start, i, i + 1)
  {
    CreditEnterRow(assignments, i);
  }

  /** The members' assignments are the given ones. */
  ghost predicate Assigned(population: seq<Antibody>, assignments: seq<seq<int>>)
    reads population`families
  {
    |population| == |assignments| && forall m :: 0 <= m < |population| ==> population[m].families == assignments[m]
  }

  /** No antibody object occurs twice in the population. */
  predicate Distinct(population: seq<Antibody>) {
    || |population| == 0
    || (&& population[|population| - 1] !in population[..|population| - 1]
        && Distinct(population[..|population| - 1]))
  }

  /** In a population without repeats, member j is no other member. */
  lemma {:induction false} DistinctAt(population: seq<Antibody>, j: nat)
    requires Distinct(population) && j < |population|
    ensures forall k :: 0 <= k < |population| && k != j ==> population[k] != population[j]
  {
    var n := |population|;
    var init := population[..n - 1];
    assert forall k :: 0 <= k < n - 1 ==> population[k] == init[k] && init[k] in init;
    if j < n - 1 {
      DistinctAt(init, j);
    }
  }

  /** No two positions of the population hold the same object. This is the
      pairwise form of `Distinct`: `Distinct` is the one growing a
      population by one member preserves directly, while the pair loop of
      `affinity` needs this one, and `DistinctApart` derives it. */
  ghost predicate Apart(population: seq<Antibody>) {
    forall k, m :: 0 <= k < |population| && 0 <= m < |population| && k != m ==> population[k] != population[m]
  }

  /** A population without repeats has its members pairwise apart. */
  lemma DistinctApart(population: seq<Antibody>)
    requires Distinct(population)
    ensures Apart(population)
  {
    forall j | 0 <= j < |population|
      ensures forall k :: 0 <= k < |population| && k != j ==> population[k] != population[j]
    {
      DistinctAt(population, j);
    }
  }

  /** Every member's score is its starting score plus what the pairs visited
      so far (rows before i, and row i up to column j) credit it with. */
  ghost predicate CreditedUpTo(population: seq<Antibody>, assignments: seq<seq<int>>, start: seq<int>, i: nat, j: nat)
    reads population`affinityValue
    requires SameLength(assignments) && |assignments| == |start| == |population| && i <= j <= |population|
  {
    forall k {:trigger population[k].affinityValue} :: 0 <= k < |population| ==>
      population[k].affinityValue == start[k] + Credit(assignments, k, i, j)
  }

  // ---------------------------------------------------------------------
  // The algorithm object
  // ---------------------------------------------------------------------

  /** `ArtificialImmuneSystem`; the clone, mutation and selection strategies
      and the generation loop are not part of this model. */
  class ArtificialImmuneSystem {
    const table: seq<Family>
    const populationSize: nat
    const nGenerations: nat

    constructor (table: seq<Family>, populationSize: nat, nGenerations: nat)
      ensures this.table == table && this.populationSize == populationSize
      ensures this.nGenerations == nGenerations
    {
      this.table := table;
      this.populationSize := populationSize;
      this.nGenerations := nGenerations;
    }

    /** A newly generated antibody: a feasible schedule, no scores yet. */
    ghost predicate Initial(antibody: Antibody)
      reads antibody
    {
      && Feasible(table, antibody.families, antibody.days)
      && antibody.affinityValue == 0 && antibody.fitnessValue == 0.0
    }

    /** `generate_population`: `population_size` freshly constructed
        antibodies, drawing from `draws` starting at `pos`. */
    method GeneratePopulation(draws: seq<nat>, pos: nat) returns (ok: bool, population: seq<Antibody>, next: nat)
      requires pos <= |draws|
      ensures pos <= next <= |draws|
      ensures ok ==> |population| == populationSize
      ensures !ok ==> next == |draws|
      ensures |population| <= populationSize
      ensures populationSize == 0 ==> ok
      ensures forall k :: 0 <= k < |population| ==> fresh(population[k])
      ensures Distinct(population)
      ensures forall k :: 0 <= k < |population| ==> Initial(population[k])
    {
      population := [];
      next := pos;
      ok := true;
      while |population| < populationSize
        invariant pos <= next <= |draws|
        invariant |population| <= populationSize
        invariant forall k :: 0 <= k < |population| ==> fresh(population[k])
        invariant Distinct(population)
        invariant forall k :: 0 <= k < |population| ==> Initial(population[k])
      {
        var built, antibody;
        built, antibody, next := NewAntibody(draws, next);
        if !built {
          ok := false;
          return;
        }
        assert (population + [antibody])[..|population|] == population;
        population := population + [antibody];
      }
    }

    /** One element of the comprehension of `generate_population`:
        `Antibody().generate_solution(df_families)`. */
    method NewAntibody(draws: seq<nat>, pos: nat) returns (built: bool, antibody: Antibody, next: nat)
      requires pos <= |draws|
      ensures pos <= next <= |draws|
      ensures !built ==> next == |draws|
      ensures fresh(antibody)
      ensures built ==> Initial(antibody)
    {
      antibody := new Antibody([], map[]);
      built, next := antibody.GenerateSolution(table, draws, pos);
    }

    /** `affinity` (a static method): for every pair i < j add the pair's
        affinity to both members. Scores are not reset, so each member's
        score grows by its affinity with every other member. */
    static method Affinity(population: seq<Antibody>)
      requires Distinct(population)
      requires SameLength(FamiliesOf(population))
      modifies population`affinityValue
      ensures forall k :: 0 <= k < |population| ==>
        population[k].affinityValue == old(population[k].affinityValue) + TotalAffinity(FamiliesOf(population), k)
      ensures forall k :: 0 <= k < |population| ==> population[k].families == old(population[k].families)
    {
      ghost var assignments, start := FamiliesOf(population), Scores(population);
      var n := |population|;
      CreditStart(assignments);
      DistinctApart(population);
      var i := 0;
      while i < n
        invariant 0 <= i <= n
        invariant CreditedUpTo(population, assignments, start, i, i)
      {
        AddPairsOf(population, i, assignments, start);
        CreditNextRow(assignments, i);
        i := i + 1;
      }
    }

    /** The inner loop of `affinity` for member i: compare it with every later
        member j (`population[i + 1:]`) and add the pair's affinity to both. */
    static method AddPairsOf(population: seq<Antibody>, i: nat, ghost assignments: seq<seq<int>>, ghost start: seq<int>)
      requires Apart(population)
      requires i < |population| && SameLength(assignments) && |assignments| == |start| == |population|
      requires Assigned(population, assignments)
      requires CreditedUpTo(population, assignments, start, i, i)
      modifies population`affinityValue
      ensures CreditedUpTo(population, assignments, start, i, |population|)
    {
      var n := |population|;
      var a1 := population[i];
      EnterRow(population, assignments, start, i);
      var j := i + 1;
      while j < n
        invariant i + 1 <= j <= n
        invariant Assigned(population, assignments)
        invariant CreditedUpTo(population, assignments, start, i, j)
      {
        var a2 := population[j];
        CreditPair(population, a1, a2, i, j, assignments, start);
        j := j + 1;
      }
    }

    /** The body of the inner loop for the pair (i, j), stated as the step from
        the scores credited up to column j to those credited up to j + 1. */
    static method CreditPair(population: seq<Antibody>, a1: Antibody, a2: Antibody, ghost i: nat, ghost j: nat,
                             ghost assignments: seq<seq<int>>, ghost start: seq<int>)
      requires Apart(population)
      requires i < j < |population| && a1 == population[i] && a2 == population[j]
      requires SameLength(assignments) && |assignments| == |start| == |population|
      requires Assigned(population, assignments)
      requires CreditedUpTo(population, assignments, start, i, j)
      modifies a1`affinityValue, a2`affinityValue
      ensures CreditedUpTo(population, assignments, start, i, j + 1)
    {
      AddPair(a1, a2);
      CreditStep(assignments, i, j);
    }

    /** One step of the inner loop: both members of the pair gain the pair's affinity. */
    static method AddPair(a1: Antibody, a2: Antibody)
      requires a1 != a2 && |a1.families| == |a2.families|
      modifies a1`affinityValue, a2`affinityValue
      ensures a1.affinityValue == old(a1.affinityValue) + Matches(a1.families, a2.families)
      ensures a2.affinityValue == old(a2.affinityValue) + Matches(a1.families, a2.families)
    {
      var affinity := a1.Affinity(a2);
      a1.affinityValue := a1.affinityValue + affinity;
      a2.affinityValue := a2.affinityValue + affinity;
    }

    /** `fitness`: evaluate and store every member's fitness; return the
        smallest value (starting from the sentinel) and the average. */
    method Fitness(power: Power, population: seq<Antibody>)
      returns (minFitness: real, avgFitness: real)
      requires |population| > 0
      requires Scorable(table, population)
      modifies population`fitnessValue
      ensures forall k :: 0 <= k < |population| ==>
        population[k].fitnessValue == FitnessOf(table, power, population[k].families, population[k].days)
      ensures minFitness <= FitnessSentinel
      ensures forall k :: 0 <= k < |population| ==> minFitness <= population[k].fitnessValue
      ensures minFitness == FitnessSentinel || exists k :: 0 <= k < |population| && minFitness == population[k].fitnessValue
      ensures avgFitness == Sum(FitnessValues(population)) / (|population| as real)
    {
      var sumFitness;
      minFitness, sumFitness := EvaluateAll(power, population);
      assert FitnessValues(population)[..|population|] == FitnessValues(population);
      avgFitness := sumFitness / (|population| as real);
    }

    /** The loop of `fitness`: evaluate every member in order, keeping the
        running sum and the running minimum. */
    method EvaluateAll(power: Power, population: seq<Antibody>)
      returns (minFitness: real, sumFitness: real)
      requires Scorable(table, population)
      modifies population`fitnessValue
      ensures forall k :: 0 <= k < |population| ==>
        population[k].fitnessValue == FitnessOf(table, power, population[k].families, population[k].days)
      ensures Summarises(FitnessValues(population), |population|, minFitness, sumFitness)
    {
      ghost var targets := FitnessTargets(table, power, population);
      minFitness := FitnessSentinel;
      sumFitness := 0.0;
      var k := 0;
      while k < |population|
        invariant 0 <= k <= |population|
        invariant StoresUpTo(population, targets, k)
        invariant Summarises(targets, k, minFitness, sumFitness)
      {
        var antibody := population[k];
        Evaluate(power, population, antibody, targets, k);
        minFitness, sumFitness := Record(targets, k, antibody.fitnessValue, minFitness, sumFitness);
        k := k + 1;
      }
      assert targets[..k] == targets == FitnessValues(population);
    }

    /** The evaluation half of one round of the fitness loop: member k stores
        its fitness; the members already evaluated keep theirs. */
    method Evaluate(power: Power, population: seq<Antibody>, antibody: Antibody,
                    ghost targets: seq<real>, ghost k: nat)
      requires Scorable(table, population)
      requires |targets| == |population|
      requires forall m {:trigger FitnessOf(table, power, population[m].families, population[m].days)} :: 0 <= m < |population| ==>
        targets[m] == FitnessOf(table, power, population[m].families, population[m].days)
      requires k < |population| && antibody == population[k]
      requires StoresUpTo(population, targets, k)
      modifies antibody`fitnessValue
      ensures StoresUpTo(population, targets, k + 1)
    {
      antibody.Fitness(table, power);
    }
  }
}
