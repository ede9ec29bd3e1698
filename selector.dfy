/** Selection: the step of the immune system that keeps the members of a
    population whose affinity score is at most a threshold. */
module Selectors {
  import opened Antibodies

  /** `xs` is obtained from `ys` by deleting elements, keeping the order of
      the rest. */
  predicate IsSubsequence<T(==)>(xs: seq<T>, ys: seq<T>)
    decreases |ys|
  {
    if |xs| == 0 then true
    else if |ys| == 0 then false
    else if xs[0] == ys[0] then IsSubsequence(xs[1..], ys[1..])
    else IsSubsequence(xs, ys[1..])
  }

  /** A subsequence is no longer than the sequence and takes each element at
      most as often as the sequence holds it. */
  lemma {:induction false} SubsequenceBounds<T>(xs: seq<T>, ys: seq<T>)
    requires IsSubsequence(xs, ys)
    ensures |xs| <= |ys|
    ensures multiset(xs) <= multiset(ys)
    decreases |ys|
  {
    if |xs| > 0 {
      assert ys == [ys[0]] + ys[1..];
      if xs[0] == ys[0] {
        SubsequenceBounds(xs[1..], ys[1..]);
        assert xs == [xs[0]] + xs[1..];
      } else {
        SubsequenceBounds(xs, ys[1..]);
      }
    }
  }

  /** `BasicSelector`; the threshold is the field set by the constructor of
      the abstract `Selector`. */
  class BasicSelector {
    const affinityThreshold: int

    constructor (affinityThreshold: int)
      ensures this.affinityThreshold == affinityThreshold
    {
      this.affinityThreshold := affinityThreshold;
    }

    /** `select`: the members whose affinity does not exceed the threshold,
        in their original order. */
    function Select(population: seq<Antibody>): (r: seq<Antibody>)
      reads population`affinityValue
      ensures |r| <= |population|
      ensures forall a :: a in r ==> a in population && a.affinityValue <= affinityThreshold
    {
      if |population| == 0 then []
      else
        var rest := Select(population[1..]);
        if population[0].affinityValue <= affinityThreshold then [population[0]] + rest else rest
    }
  }

  /** Exactly the members at or under the threshold are kept. */
  lemma {:induction false} SelectKeepsExactly(s: BasicSelector, population: seq<Antibody>)
    ensures forall k :: 0 <= k < |population| ==>
      (population[k] in s.Select(population) <==> population[k].affinityValue <= s.affinityThreshold)
  {
    if |population| > 0 {
      SelectKeepsExactly(s, population[1..]);
      assert forall k :: 1 <= k < |population| ==> population[k] == population[1..][k - 1];
    }
  }

  /** A kept member is kept as many times as it occurs; a dropped one not at all. */
  lemma {:induction false} SelectCounts(s: BasicSelector, population: seq<Antibody>)
    ensures forall a: Antibody :: a in population ==>
      multiset(s.Select(population))[a] == if a.affinityValue <= s.affinityThreshold then multiset(population)[a] else 0
  {
    if |population| > 0 {
      var rest := population[1..];
      SelectCounts(s, rest);
      assert population == [population[0]] + rest;
      forall a: Antibody | a in population
        ensures multiset(s.Select(population))[a] == if a.affinityValue <= s.affinityThreshold then multiset(population)[a] else 0
      {
        if a !in rest {
          assert a !in multiset(rest);
          assert a !in s.Select(rest);
        }
      }
    }
  }

  /** The selection keeps the input's order. */
  lemma {:induction false} SelectIsSubsequence(s: BasicSelector, population: seq<Antibody>)
    ensures IsSubsequence(s.Select(population), population)
  {
    if |population| > 0 {
      var rest := s.Select(population[1..]);
      SelectIsSubsequence(s, population[1..]);
      if population[0].affinityValue <= s.affinityThreshold {
        assert ([population[0]] + rest)[1..] == rest;
      } else {
        assert |rest| > 0 ==> rest[0] in rest;
      }
    }
  }

  /** Selection distributes over concatenation. */
  lemma {:induction false} SelectAppend(s: BasicSelector, xs: seq<Antibody>, ys: seq<Antibody>)
    ensures s.Select(xs + ys) == s.Select(xs) + s.Select(ys)
  {
    if |xs| > 0 {
      assert (xs + ys)[1..] == xs[1..] + ys;
      SelectAppend(s, xs[1..], ys);
    } else {
      assert xs + ys == ys;
    }
  }

  /** A population every member of which passes is kept whole. */
  lemma {:induction false} SelectKeepsAll(s: BasicSelector, population: seq<Antibody>)
    requires forall k :: 0 <= k < |population| ==> population[k].affinityValue <= s.affinityThreshold
    ensures s.Select(population) == population
  {
    if |population| > 0 {
      SelectKeepsAll(s, population[1..]);
    }
  }

  /** A population no member of which passes is dropped entirely. */
  lemma {:induction false} SelectDropsAll(s: BasicSelector, population: seq<Antibody>)
    requires forall k :: 0 <= k < |population| ==> population[k].affinityValue > s.affinityThreshold
    ensures s.Select(population) == []
  {
    if |population| > 0 {
      SelectDropsAll(s, population[1..]);
    }
  }

  /** Selecting with threshold t1 after selecting with a threshold t2 >= t1
      gives what selecting with t1 alone gives; with t1 == t2 this is
      idempotence. */
  lemma {:induction false} SelectAbsorbs(s1: BasicSelector, s2: BasicSelector, population: seq<Antibody>)
    requires s1.affinityThreshold <= s2.affinityThreshold
    ensures s1.Select(s2.Select(population)) == s1.Select(population)
  {
    if |population| > 0 {
      SelectAbsorbs(s1, s2, population[1..]);
      var rest := s2.Select(population[1..]);
      if population[0].affinityValue <= s2.affinityThreshold {
        assert s2.Select(population) == [population[0]] + rest;
        SelectAppend(s1, [population[0]], rest);
        assert s1.Select([population[0]]) == s1.Select([population[0]] + []);
      }
    }
  }

  /** `select` applied to its own output returns it unchanged. */
  lemma SelectIdempotent(s: BasicSelector, population: seq<Antibody>)
    ensures s.Select(s.Select(population)) == s.Select(population)
  {
    SelectAbsorbs(s, s, population);
  }

  /** A larger threshold keeps every member a smaller one keeps, and the
      smaller threshold's selection is a subsequence of the larger's. */
  lemma SelectMonotone(s1: BasicSelector, s2: BasicSelector, population: seq<Antibody>)
    requires s1.affinityThreshold <= s2.affinityThreshold
    ensures forall a :: a in s1.Select(population) ==> a in s2.Select(population)
    ensures IsSubsequence(s1.Select(population), s2.Select(population))
  {
    SelectAbsorbs(s1, s2, population);
    SelectIsSubsequence(s1, s2.Select(population));
  }

  /** The selector test: affinities 15, 20, ..., 60 and threshold 30 keep
      exactly the first four members. */
  lemma SelectExample(s: BasicSelector, population: seq<Antibody>)
    requires s.affinityThreshold == 30 && |population| == 10
    requires forall k :: 0 <= k < 10 ==> population[k].affinityValue == 15 + 5 * k
    ensures s.Select(population) == population[..4]
  {
    assert population == population[..4] + population[4..];
    SelectAppend(s, population[..4], population[4..]);
    SelectKeepsAll(s, population[..4]);
    SelectDropsAll(s, population[4..]);
  }
}
