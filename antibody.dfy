/** One candidate solution ("antibody"): the day each family is scheduled on,
    the number of people per day, and the two cached scores the immune
    system reads (affinity and fitness). */
module Antibodies {
  import opened Families

  // ---------------------------------------------------------------------
  // Random source
  // ---------------------------------------------------------------------

  /** `np.random.randint(low, high)`: the raw draw of the random source
      mapped into the half-open range [low, high). */
  function RandInt(raw: nat, low: int, high: int): (r: int)
    requires low < high
    ensures low <= r < high
  {
    low + raw % (high - low)
  }

  // ---------------------------------------------------------------------
  // Affinity: positions at which two assignments agree
  // ---------------------------------------------------------------------

  /** `(a == b).sum()` over two equally long assignment arrays. */
  function Matches(a: seq<int>, b: seq<int>): (r: nat)
    requires |a| == |b|
    ensures r <= |a|
  {
    if |a| == 0 then 0
    else Matches(a[..|a| - 1], b[..|b| - 1]) + (if a[|a| - 1] == b[|b| - 1] then 1 else 0)
  }

  /** The families that are scheduled on the same day in both assignments. */
  ghost function AgreeingFamilies(a: seq<int>, b: seq<int>): set<int>
    requires |a| == |b|
  {
    set i | 0 <= i < |a| && a[i] == b[i]
  }

  /** Matches counts exactly the agreeing families. */
  lemma {:induction false} MatchesCountsAgreement(a: seq<int>, b: seq<int>)
    requires |a| == |b|
    ensures Matches(a, b) == |AgreeingFamilies(a, b)|
  {
    if |a| > 0 {
      var n := |a| - 1;
      var a', b' := a[..n], b[..n];
      MatchesCountsAgreement(a', b');
      var s', s := AgreeingFamilies(a', b'), AgreeingFamilies(a, b);
      if a[n] == b[n] {
        assert s == s' + {n};
        assert n !in s';
      } else {
        assert s == s';
      }
    }
  }

  lemma {:induction false} MatchesSymmetric(a: seq<int>, b: seq<int>)
    requires |a| == |b|
    ensures Matches(a, b) == Matches(b, a)
  {
    if |a| > 0 {
      MatchesSymmetric(a[..|a| - 1], b[..|b| - 1]);
    }
  }

  /** An assignment agrees with itself on every family. */
  lemma {:induction false} MatchesSelf(a: seq<int>)
    ensures Matches(a, a) == |a|
  {
    if |a| > 0 {
      MatchesSelf(a[..|a| - 1]);
    }
  }

  /** The three pairs of the antibody test (affinities 4, 1 and 0). */
  lemma MatchesExamples()
    ensures Matches([10, 20, 13, 15], [10, 20, 13, 15]) == 4
    ensures Matches([10, 20, 13, 15], [11, 20, 14, 1]) == 1
    ensures Matches([10, 22, 13, 15], [11, 20, 14, 1]) == 0
  {
    var a, b, c := [10, 20, 13, 15], [11, 20, 14, 1], [10, 22, 13, 15];
    assert a[..3] == [10, 20, 13] && a[..3][..2] == [10, 20] && a[..3][..2][..1] == [10];
    assert b[..3] == [11, 20, 14] && b[..3][..2] == [11, 20] && b[..3][..2][..1] == [11];
    assert c[..3] == [10, 22, 13] && c[..3][..2] == [10, 22] && c[..3][..2][..1] == [10];
    MatchesSelf(a);
    assert Matches([10], [11]) == 0;
    assert Matches([10, 20], [11, 20]) == 1;
    assert Matches([10, 20, 13], [11, 20, 14]) == 1;
  }

  // ---------------------------------------------------------------------
  // Under-limit flags (`days_under_limits` and `np.nonzero`)
  // ---------------------------------------------------------------------

  function CountTrue(flags: seq<bool>): nat {
    if |flags| == 0 then 0
    else CountTrue(flags[..|flags| - 1]) + (if flags[|flags| - 1] then 1 else 0)
  }

  /** `np.nonzero(flags)[0]`: the indices holding `true`, in increasing order. */
  function NonZero(flags: seq<bool>): (r: seq<int>)
    ensures |r| == CountTrue(flags)
    ensures forall m :: 0 <= m < |r| ==> 0 <= r[m] < |flags| && flags[r[m]]
    ensures forall m, m' :: 0 <= m < m' < |r| ==> r[m] < r[m']
    ensures forall j :: 0 <= j < |flags| && flags[j] ==> j in r
  {
    if |flags| == 0 then []
    else
      var n := |flags| - 1;
      var r' := NonZero(flags[..n]);
      assert forall j :: 0 <= j < n ==> flags[..n][j] == flags[j];
      r' + (if flags[n] then [n] else [])
  }

  /** Clearing one flag lowers the count by one. */
  lemma {:induction false} CountTrueClear(flags: seq<bool>, j: int)
    requires 0 <= j < |flags| && flags[j]
    ensures CountTrue(flags[j := false]) == CountTrue(flags) - 1
  {
    var n := |flags| - 1;
    var cleared := flags[j := false];
    assert cleared[..n] == if j < n then flags[..n][j := false] else flags[..n];
    if j < n {
      CountTrueClear(flags[..n], j);
    }
  }

  /** The day proposed by one draw: while some day is still under limit, the
      draw selects one of those days (`np.nonzero` keeps index 0, which
      is never a day and never cleared, so positions 1..count are the flagged
      days); otherwise it selects any of the 100 days. */
  function PickDay(flags: seq<bool>, underCount: int, raw: nat): (d: int)
    requires |flags| == NDays + 1 && flags[0]
    requires underCount == CountTrue(flags) - 1
    ensures IsDay(d)
    ensures flags[d] <==> underCount > 0
  {
    var flagged := NonZero(flags);
    if underCount > 0 then
      var d := flagged[RandInt(raw, 1, underCount + 1)];
      assert flagged[0] < d;
      d
    else
      var d := RandInt(raw, 1, NDays + 1);
      assert 0 in flagged;
      d
  }

  // ---------------------------------------------------------------------
  // Occupancy: people scheduled per day
  // ---------------------------------------------------------------------

  /** People of the first |families| families that are scheduled on day d. */
  function Occupancy(table: seq<Family>, families: seq<int>, d: int): nat
    requires |families| <= |table|
  {
    if |families| == 0 then 0
    else
      var n := |families| - 1;
      Occupancy(table, families[..n], d) + (if families[n] == d then table[n].nPeople else 0)
  }

  /** Occupancy summed over days 1..hi. */
  ghost function OccupancyUpTo(table: seq<Family>, families: seq<int>, hi: int): nat
    requires |families| <= |table|
    decreases hi
  {
    if hi < 1 then 0 else OccupancyUpTo(table, families, hi - 1) + Occupancy(table, families, hi)
  }

  /** A `days` dictionary summed over days 1..hi. */
  function DaysTotal(days: map<int, int>, hi: int): int
    requires forall d :: 1 <= d <= hi ==> d in days
    decreases hi
  {
    if hi < 1 then 0 else DaysTotal(days, hi - 1) + days[hi]
  }

  /** The state `generate_solution` leaves behind: every family scheduled on a
      day, `days` keyed by the 100 days, each day's count equal to the people
      scheduled on it and never above the cap. */
  ghost predicate Feasible(table: seq<Family>, families: seq<int>, days: map<int, int>) {
    && |families| == |table|
    && (forall i :: 0 <= i < |families| ==> IsDay(families[i]))
    && IsCalendar(days)
    && (forall d :: IsDay(d) ==> days[d] == Occupancy(table, families, d) <= MaxOccupancy)
  }

  lemma {:induction false} OccupancyUpToAppend(table: seq<Family>, families: seq<int>, hi: int)
    requires 0 < |families| <= |table|
    ensures var n := |families| - 1;
      OccupancyUpTo(table, families, hi)
        == OccupancyUpTo(table, families[..n], hi) + (if 1 <= families[n] <= hi then table[n].nPeople else 0)
    decreases hi
  {
    if hi >= 1 {
      OccupancyUpToAppend(table, families, hi - 1);
    }
  }

  lemma {:induction false} NothingScheduled(table: seq<Family>, families: seq<int>, hi: int)
    requires |families| == 0 <= |table|
    ensures OccupancyUpTo(table, families, hi) == 0
    decreases hi
  {
    if hi >= 1 {
      NothingScheduled(table, families, hi - 1);
    }
  }

  /** Summed over all days, occupancy counts every scheduled person once. */
  lemma {:induction false} OccupancyAccountsForEveryone(table: seq<Family>, families: seq<int>)
    requires |families| <= |table|
    requires forall i :: 0 <= i < |families| ==> IsDay(families[i])
    ensures OccupancyUpTo(table, families, NDays) == TotalPeople(table[..|families|])
  {
    if |families| == 0 {
      NothingScheduled(table, families, NDays);
    } else {
      var n := |families| - 1;
      OccupancyAccountsForEveryone(table, families[..n]);
      OccupancyUpToAppend(table, families, NDays);
      assert table[..|families|][..n] == table[..n];
    }
  }

  lemma {:induction false} DaysTotalIsOccupancy(table: seq<Family>, families: seq<int>, days: map<int, int>, hi: int)
    requires |families| <= |table| && hi <= NDays
    requires forall d :: 1 <= d <= hi ==> d in days && days[d] == Occupancy(table, families, d)
    ensures DaysTotal(days, hi) == OccupancyUpTo(table, families, hi)
    decreases hi
  {
    if hi >= 1 {
      DaysTotalIsOccupancy(table, families, days, hi - 1);
    }
  }

  /** After construction the days dictionary holds every family's people
      exactly once. */
  lemma DaysHoldEveryone(table: seq<Family>, families: seq<int>, days: map<int, int>)
    requires Feasible(table, families, days)
    ensures DaysTotal(days, NDays) == TotalPeople(table)
  {
    DaysTotalIsOccupancy(table, families, days, NDays);
    OccupancyAccountsForEveryone(table, families);
    assert table[..|families|] == table;
  }

  // ---------------------------------------------------------------------
  // Preference cost
  // ---------------------------------------------------------------------

  /** Consolation gift for scheduling `family` on `day`: the first listed
      choice equal to the day decides the amount. */
  function Gift(family: Family, day: int): nat
    requires |family.choices| == NChoices
  {
    var c, n := family.choices, family.nPeople;
    if day == c[0] then 0
    else if day == c[1] then 50
    else if day == c[2] then 50 + 9 * n
    else if day == c[3] then 100 + 9 * n
    else if day == c[4] then 200 + 9 * n
    else if day == c[5] then 200 + 18 * n
    else if day == c[6] then 300 + 18 * n
    else if day == c[7] then 300 + 36 * n
    else if day == c[8] then 400 + 36 * n
    else if day == c[9] then 500 + (36 + 199) * n
    else 500 + (36 + 398) * n
  }

  /** Position of the first choice equal to `day`, or |choices| if none is. */
  function ChoiceRank(choices: seq<int>, day: int): (r: nat)
    ensures r <= |choices|
    ensures r < |choices| ==> choices[r] == day
    ensures forall k :: 0 <= k < r ==> choices[k] != day
  {
    if |choices| == 0 then 0
    else if choices[0] == day then 0
    else 1 + ChoiceRank(choices[1..], day)
  }

  /** The Kaggle gift table, indexed by rank; rank 10 means "no choice". */
  function GiftForRank(rank: nat, n: nat): nat
    requires rank <= NChoices
  {
    [0, 50, 50 + 9 * n, 100 + 9 * n, 200 + 9 * n, 200 + 18 * n,
     300 + 18 * n, 300 + 36 * n, 400 + 36 * n, 500 + 235 * n, 500 + 434 * n][rank]
  }

  /** The if-chain of `fitness` is the gift table applied to the rank of the
      first matching choice. */
  lemma GiftIsRankTable(family: Family, day: int)
    requires |family.choices| == NChoices
    ensures Gift(family, day) == GiftForRank(ChoiceRank(family.choices, day), family.nPeople)
  {
  }

  /** Only the first choice is free. */
  lemma GiftZeroIffFirstChoice(family: Family, day: int)
    requires |family.choices| == NChoices
    ensures Gift(family, day) == 0 <==> day == family.choices[0]
    ensures Gift(family, day) <= 500 + 434 * family.nPeople
  {
  }

  /** Sum of the gifts of the first |families| families. */
  function PreferenceCost(table: seq<Family>, families: seq<int>): nat
    requires WellFormed(table) && |families| <= |table|
  {
    if |families| == 0 then 0
    else
      var n := |families| - 1;
      PreferenceCost(table, families[..n]) + Gift(table[n], families[n])
  }

  /** The preference cost is zero exactly when every family gets its first choice. */
  lemma {:induction false} PreferenceCostZeroIff(table: seq<Family>, families: seq<int>)
    requires WellFormed(table) && |families| <= |table|
    ensures PreferenceCost(table, families) == 0
      <==> forall i :: 0 <= i < |families| ==> families[i] == table[i].choices[0]
  {
    if |families| > 0 {
      var n := |families| - 1;
      PreferenceCostZeroIff(table, families[..n]);
      GiftZeroIffFirstChoice(table[n], families[n]);
      if PreferenceCost(table, families) == 0 {
        forall i | 0 <= i < |families| ensures families[i] == table[i].choices[0] {
          if i < n {
            assert families[..n][i] == families[i];
          }
        }
      }
    }
  }

  /** No family costs more than the "no choice matched" gift. */
  lemma {:induction false} PreferenceCostBound(table: seq<Family>, families: seq<int>)
    requires WellFormed(table) && |families| <= |table|
    ensures PreferenceCost(table, families) <= 500 * |families| + 434 * TotalPeople(table[..|families|])
  {
    if |families| > 0 {
      var n := |families| - 1;
      PreferenceCostBound(table, families[..n]);
      GiftZeroIffFirstChoice(table[n], families[n]);
      assert table[..|families|][..n] == table[..n];
    }
  }

  /** The fitness test: three families of 125 people with choices 1..10. */
  lemma PreferenceCostExamples()
    ensures var f := Family(125, [1, 2, 3, 4, 5, 6, 7, 8, 9, 10]);
      var table := [f, f, f];
      && PreferenceCost(table, [1, 2, 3]) == 50 * 2 + 9 * 125
      && PreferenceCost(table, [3, 3, 3]) == (50 + 9 * 125) * 3
      && PreferenceCost(table, [1, 1, 2]) == 50
  {
    var f := Family(125, [1, 2, 3, 4, 5, 6, 7, 8, 9, 10]);
    var table := [f, f, f];
    assert [1, 2, 3][..2] == [1, 2] && [1, 2][..1] == [1] && [1][..0] == [];
    assert [3, 3, 3][..2] == [3, 3] && [3, 3][..1] == [3] && [3][..0] == [];
    assert [1, 1, 2][..2] == [1, 1] && [1, 1][..1] == [1];
    assert PreferenceCost(table, [1]) == 0;
    assert PreferenceCost(table, [3]) == 50 + 9 * 125;
    assert PreferenceCost(table, [1, 2]) == 50;
    assert PreferenceCost(table, [3, 3]) == (50 + 9 * 125) * 2;
  }

  // ---------------------------------------------------------------------
  // Accounting penalty
  // ---------------------------------------------------------------------

  /** `base ** exponent` on floating-point numbers. */
  type Power = (real, real) -> real

  function Abs(x: int): nat {
    if x < 0 then -x else x
  }

  /** The exponent as line 179 computes it for a day holding `count` people
      whose following day holds `next`: the difference is not made absolute,
      so a day with fewer people than the next gets an exponent below 1/2. */
  function ExponentAsWritten(count: int, next: int): (e: real)
    ensures e < 0.5 <==> count < next
  {
    0.5 + (count - next) as real / 50.0
  }

  /** The exponent of the penalty the code refers to, 1/2 + |N_d - N_(d+1)| / 50:
      never below 1/2 and the same whichever of the two days is larger. */
  function Exponent(count: int, next: int): (e: real)
    ensures e >= 0.5
    ensures e == 0.5 <==> count == next
  {
    0.5 + Abs(count - next) as real / 50.0
  }

  /** The two exponents agree exactly when the day is at least as full as the next. */
  lemma ExponentsAgree(count: int, next: int)
    ensures ExponentAsWritten(count, next) == Exponent(count, next) <==> count >= next
    ensures Exponent(count, next) == Exponent(next, count)
  {
  }

  /** 150 people on day 99 and 300 on day 100: line 179 gives exponent -2.5
      where the metric has 3.5. */
  lemma ExponentCounterexample()
    ensures ExponentAsWritten(150, 300) == -2.5
    ensures Exponent(150, 300) == 3.5
  {
  }

  /** How the exponent of a day is formed from its count and the next day's. */
  type ExponentRule = (int, int) -> real

  /** One day's share of the penalty, (N_d - 125) / 400 * N_d ** exponent
      (line 180): nothing for a day holding exactly 125 people. */
  function DayPenalty(power: Power, exponent: ExponentRule, count: int, next: int): (r: real)
    ensures count == MinOccupancy ==> r == 0.0
  {
    (count - MinOccupancy) as real / 400.0 * power(count as real, exponent(count, next))
  }

  /** `list(self.days.values())`: the people of days 1..100, in day order. */
  function DayCounts(days: map<int, int>): (r: seq<int>)
    requires IsCalendar(days)
    ensures |r| == NDays
    ensures forall i :: 0 <= i < NDays ==> r[i] == days[i + 1]
  {
    seq(NDays, i requires 0 <= i < NDays => days[i + 1])
  }

  /** The penalty of the days listed in `counts`, each day compared with the
      one listed after it and the last one with `next`. */
  function Penalty(power: Power, exponent: ExponentRule, counts: seq<int>, next: int): real {
    if |counts| == 0 then 0.0
    else
      var n := |counts| - 1;
      Penalty(power, exponent, counts[..n], counts[n]) + DayPenalty(power, exponent, counts[n], next)
  }

  /** The accounting penalty as lines 176-181 compute it, with line 179's
      signed exponent; day 100 is compared with itself, because the loop
      starts with `previous_day` set to the last count. */
  function AccountingAsWritten(power: Power, days: map<int, int>): real
    requires IsCalendar(days)
  {
    var counts := DayCounts(days);
    Penalty(power, ExponentAsWritten, counts, counts[NDays - 1])
  }

  /** The accounting penalty of the metric, with the absolute difference in
      the exponent. */
  function AccountingOf(power: Power, days: map<int, int>): real
    requires IsCalendar(days)
  {
    var counts := DayCounts(days);
    Penalty(power, Exponent, counts, counts[NDays - 1])
  }

  /** Days all holding exactly 125 people have no penalty, whatever the
      exponent rule. */
  lemma {:induction false} PenaltyAtLimit(power: Power, exponent: ExponentRule, counts: seq<int>, next: int)
    requires forall i :: 0 <= i < |counts| ==> counts[i] == MinOccupancy
    ensures Penalty(power, exponent, counts, next) == 0.0
  {
    if |counts| > 0 {
      var n := |counts| - 1;
      PenaltyAtLimit(power, exponent, counts[..n], counts[n]);
    }
  }

  /** A calendar with 125 people on every day has no accounting penalty. */
  lemma AccountingAtLimit(power: Power, days: map<int, int>)
    requires IsCalendar(days)
    requires forall d :: IsDay(d) ==> days[d] == MinOccupancy
    ensures AccountingOf(power, days) == 0.0
    ensures AccountingAsWritten(power, days) == 0.0
  {
    var counts := DayCounts(days);
    forall i | 0 <= i < |counts| ensures counts[i] == MinOccupancy {
      assert IsDay(i + 1);
    }
    PenaltyAtLimit(power, Exponent, counts, counts[NDays - 1]);
    PenaltyAtLimit(power, ExponentAsWritten, counts, counts[NDays - 1]);
  }

  /** Where every day is at least as full as the one after it, the two
      exponents agree day by day, and so do the penalties. */
  lemma {:induction false} PenaltiesAgree(power: Power, counts: seq<int>, next: int)
    requires forall i :: 0 <= i < |counts| - 1 ==> counts[i] >= counts[i + 1]
    requires |counts| > 0 ==> counts[|counts| - 1] >= next
    ensures Penalty(power, ExponentAsWritten, counts, next) == Penalty(power, Exponent, counts, next)
  {
    if |counts| > 0 {
      var n := |counts| - 1;
      PenaltiesAgree(power, counts[..n], counts[n]);
      ExponentsAgree(counts[n], next);
    }
  }

  /** On a calendar whose counts never grow from one day to the next, the
      accounting penalty as written is the metric's. */
  lemma AccountingAgrees(power: Power, days: map<int, int>)
    requires IsCalendar(days)
    requires forall d :: 1 <= d < NDays ==> days[d] >= days[d + 1]
    ensures AccountingAsWritten(power, days) == AccountingOf(power, days)
  {
    var counts := DayCounts(days);
    forall i | 0 <= i < |counts| - 1 ensures counts[i] >= counts[i + 1] {
      assert days[i + 1] >= days[i + 2];
    }
    PenaltiesAgree(power, counts, counts[NDays - 1]);
  }

  /** Days 1..98 at 125 people, day 99 at 150 and day 100 at 300: the penalty
      as written takes day 99 to the power -2.5 where the metric takes it to
      the power 3.5, and the two penalties differ by exactly that term. */
  lemma AccountingCounterexample(power: Power, days: map<int, int>)
    requires IsCalendar(days)
    requires forall d :: 1 <= d < NDays - 1 ==> days[d] == MinOccupancy
    requires days[NDays - 1] == 150 && days[NDays] == 300
    ensures AccountingAsWritten(power, days) - AccountingOf(power, days)
      == 25.0 / 400.0 * (power(150.0, -2.5) - power(150.0, 3.5))
  {
    var counts := DayCounts(days);
    var n := NDays - 1;
    var head := counts[..n - 1];
    assert counts[..n][..n - 1] == head && counts[..n][n - 1] == 150;
    assert counts[..n + 1] == counts && counts[n] == 300;
    forall i | 0 <= i < |head| ensures head[i] == MinOccupancy {
      assert days[i + 1] == MinOccupancy;
    }
    PenaltyAtLimit(power, ExponentAsWritten, head, 150);
    PenaltyAtLimit(power, Exponent, head, 150);
    ExponentCounterexample();
    calc {
      AccountingAsWritten(power, days);
      Penalty(power, ExponentAsWritten, counts[..n], 300) + DayPenalty(power, ExponentAsWritten, 300, 300);
      Penalty(power, ExponentAsWritten, head, 150) + DayPenalty(power, ExponentAsWritten, 150, 300)
        + DayPenalty(power, ExponentAsWritten, 300, 300);
      25.0 / 400.0 * power(150.0, -2.5) + DayPenalty(power, Exponent, 300, 300);
    }
    calc {
      AccountingOf(power, days);
      Penalty(power, Exponent, counts[..n], 300) + DayPenalty(power, Exponent, 300, 300);
      Penalty(power, Exponent, head, 150) + DayPenalty(power, Exponent, 150, 300)
        + DayPenalty(power, Exponent, 300, 300);
      25.0 / 400.0 * power(150.0, 3.5) + DayPenalty(power, Exponent, 300, 300);
    }
  }

  /** The accounting loop of `fitness` (lines 176-181), for a given exponent
      rule: walk the counts from the last day to the first, each compared
      with the day visited before it. With line 179's rule it computes
      `AccountingAsWritten`; `Fitness` passes the metric's. */
  method AccountingPenalty(power: Power, exponent: ExponentRule, days: map<int, int>) returns (penalty: real)
    requires IsCalendar(days)
    ensures penalty == Penalty(power, exponent, DayCounts(days), days[NDays])
    ensures exponent == ExponentAsWritten ==> penalty == AccountingAsWritten(power, days)
    ensures exponent == Exponent ==> penalty == AccountingOf(power, days)
  {
    var counts := DayCounts(days);
    var previous := counts[|counts| - 1];
    penalty := 0.0;
    var i := |counts|;
    assert counts[..i] == counts;
    while i > 0
      invariant 0 <= i <= |counts|
      invariant penalty + Penalty(power, exponent, counts[..i], previous) == Penalty(power, exponent, counts, counts[NDays - 1])
    {
      var count := counts[i - 1];
      assert counts[..i][..i - 1] == counts[..i - 1];
      penalty := penalty + DayPenalty(power, exponent, count, previous);
      previous := count;
      i := i - 1;
    }
  }

  /** fitness = preference cost + accounting penalty. */
  function FitnessOf(table: seq<Family>, power: Power, families: seq<int>, days: map<int, int>): real
    requires WellFormed(table) && |families| <= |table| && IsCalendar(days)
  {
    PreferenceCost(table, families) as real + AccountingOf(power, days)
  }

  /** With 125 people on every day the fitness is the preference cost alone,
      as the fitness test expects. */
  lemma FitnessAtLimit(table: seq<Family>, power: Power, families: seq<int>, days: map<int, int>)
    requires WellFormed(table) && |families| <= |table| && IsCalendar(days)
    requires forall d :: IsDay(d) ==> days[d] == MinOccupancy
    ensures FitnessOf(table, power, families, days) == PreferenceCost(table, families) as real
  {
    AccountingAtLimit(power, days);
  }

  /** What holds between two placements of `generate_solution`: the first
      |placed| families are scheduled, `occupancy` counts their people per day
      within the cap, `underCount` is the number of flagged days, and a day is
      flagged exactly while its occupancy has not exceeded 125. */
  ghost predicate Building(table: seq<Family>, placed: seq<int>, occupancy: map<int, int>,
                           flags: seq<bool>, underCount: int)
  {
    Tally(table, placed, occupancy) && Flagged(occupancy, flags, underCount)
  }

  /** The families placed so far are on valid days, and `occupancy` counts
      exactly their people, at most 300 a day. */
  ghost predicate Tally(table: seq<Family>, placed: seq<int>, occupancy: map<int, int>) {
    && |placed| <= |table|
    && (forall j :: 0 <= j < |placed| ==> IsDay(placed[j]))
    && IsCalendar(occupancy)
    && (forall d :: IsDay(d) ==> occupancy[d] == Occupancy(table, placed, d) <= MaxOccupancy)
  }

  /** `flags` marks the days still at or under 125 people (index 0 unused and
      set), and `underCount` is how many days are marked. */
  ghost predicate Flagged(occupancy: map<int, int>, flags: seq<bool>, underCount: int) {
    && |flags| == NDays + 1 && flags[0] && underCount == CountTrue(flags) - 1
    && (forall d :: IsDay(d) ==> (d in occupancy && (flags[d] <==> occupancy[d] <= MinOccupancy)))
  }

  /** Accepting a drawn day for the next family (lines 92-97) keeps the
      construction state consistent. */
  lemma PlaceFamily(table: seq<Family>, placed: seq<int>, occupancy: map<int, int>,
                    flags: seq<bool>, underCount: int, day: int)
    requires Building(table, placed, occupancy, flags, underCount)
    requires |placed| < |table| && IsDay(day) && (flags[day] <==> underCount > 0)
    requires occupancy[day] + table[|placed|].nPeople <= MaxOccupancy
    ensures var occupancy' := occupancy[day := occupancy[day] + table[|placed|].nPeople];
      var clear := underCount > 0 && occupancy'[day] > MinOccupancy;
      Building(table, placed + [day], occupancy',
               if clear then flags[day := false] else flags,
               if clear then underCount - 1 else underCount)
  {
    var placed' := placed + [day];
    assert placed'[..|placed|] == placed;
    var occupancy' := occupancy[day := occupancy[day] + table[|placed|].nPeople];
    if underCount > 0 && occupancy'[day] > MinOccupancy {
      CountTrueClear(flags, day);
    }
  }

  /** The state before the first family is placed: every day empty and flagged. */
  lemma BuildingStart(table: seq<Family>, occupancy: map<int, int>, flags: seq<bool>)
    requires IsCalendar(occupancy)
    requires forall e :: e in occupancy ==> occupancy[e] == 0
    requires flags == seq(NDays + 1, _ => true)
    ensures Building(table, [], occupancy, flags, NDays)
  {
    CountAllTrue(NDays + 1);
  }

  /** A finished construction is feasible. */
  lemma BuildingDone(table: seq<Family>, placed: seq<int>, occupancy: map<int, int>,
                     flags: seq<bool>, underCount: int)
    requires Building(table, placed, occupancy, flags, underCount) && |placed| == |table|
    ensures Feasible(table, placed, occupancy)
  {
  }

  /** The `days` dictionary before any family is placed: days 1..100, all 0. */
  method EmptyDays() returns (days: map<int, int>)
    ensures IsCalendar(days)
    ensures forall d :: d in days ==> days[d] == 0
  {
    days := map[];
    var d := 1;
    while d <= NDays
      invariant 1 <= d <= NDays + 1
      invariant forall e :: e in days <==> 1 <= e < d
      invariant forall e :: e in days ==> days[e] == 0
    {
      days := days[d := 0];
      d := d + 1;
    }
  }

  /** Every day picked by draws lo..hi-1 would pass 300 people with `size`
      more. */
  ghost predicate AllRejected(size: nat, occupancy: map<int, int>, flags: seq<bool>, underCount: int,
                              draws: seq<nat>, lo: nat, hi: nat)
    requires IsCalendar(occupancy)
    requires |flags| == NDays + 1 && flags[0] && underCount == CountTrue(flags) - 1
    requires hi <= |draws|
  {
    forall m :: lo <= m < hi ==> occupancy[PickDay(flags, underCount, draws[m])] + size > MaxOccupancy
  }

  /** A rejected draw extends a run of rejected draws by one. */
  lemma RejectOne(size: nat, occupancy: map<int, int>, flags: seq<bool>, underCount: int,
                  draws: seq<nat>, lo: nat, hi: nat)
    requires IsCalendar(occupancy)
    requires |flags| == NDays + 1 && flags[0] && underCount == CountTrue(flags) - 1
    requires hi < |draws| && AllRejected(size, occupancy, flags, underCount, draws, lo, hi)
    requires occupancy[PickDay(flags, underCount, draws[hi])] + size > MaxOccupancy
    ensures AllRejected(size, occupancy, flags, underCount, draws, lo, hi + 1)
  {
  }

  /** The `while True` loop of `generate_solution` (lines 85-91, 98): draw
      days until one can take `size` more people without exceeding 300.
      `found` is false when the draws run out first. */
  method DrawDay(size: nat, occupancy: map<int, int>, flags: seq<bool>, underCount: int,
                 draws: seq<nat>, next: nat)
    returns (found: bool, day: int, next': nat)
    requires IsCalendar(occupancy)
    requires |flags| == NDays + 1 && flags[0] && underCount == CountTrue(flags) - 1
    requires next <= |draws|
    ensures next <= next' <= |draws|
    ensures !found ==> next' == |draws|
    ensures found ==> next < next' && day == PickDay(flags, underCount, draws[next' - 1])
    ensures found ==> IsDay(day) && (flags[day] <==> underCount > 0)
    ensures found ==> occupancy[day] + size <= MaxOccupancy
    ensures found ==> AllRejected(size, occupancy, flags, underCount, draws, next, next' - 1)
    ensures !found ==> AllRejected(size, occupancy, flags, underCount, draws, next, next')
  {
    next' := next;
    while true
      invariant next <= next' <= |draws|
      invariant AllRejected(size, occupancy, flags, underCount, draws, next, next')
      decreases |draws| - next'
    {
      if next' == |draws| {
        return false, 0, next';
      }
      day := PickDay(flags, underCount, draws[next']);
      if occupancy[day] + size <= MaxOccupancy {
        return true, day, next' + 1;
      }
      RejectOne(size, occupancy, flags, underCount, draws, next, next');
      next' := next' + 1;
    }
  }

  /** The first |placed| cells of the `families` array hold the days placed so far. */
  ghost predicate Holds(families: array<int>, placed: seq<int>)
    reads families
  {
    |placed| <= families.Length && forall j :: 0 <= j < |placed| ==> families[j] == placed[j]
  }

  /** Book family |placed| on `day` (lines 93-97): record the day for the
      family, add its people to the day and clear the day's under-limit flag
      once the day has passed 125 people, as long as some day is still
      flagged. */
  method BookDay(table: seq<Family>, family: nat, ghost placed: seq<int>, families: array<int>,
                 occupancy: map<int, int>, underLimits: array<bool>, underCount: int, day: int)
    returns (occupancy': map<int, int>, underCount': int)
    requires family == |placed| < |table| == families.Length && Holds(families, placed)
    requires Building(table, placed, occupancy, underLimits[..], underCount)
    requires IsDay(day) && (underLimits[day] <==> underCount > 0)
    requires occupancy[day] + table[|placed|].nPeople <= MaxOccupancy
    modifies families, underLimits
    ensures Holds(families, placed + [day])
    ensures Building(table, placed + [day], occupancy', underLimits[..], underCount')
  {
    ghost var flags := underLimits[..];
    PlaceFamily(table, placed, occupancy, flags, underCount, day);
    families[family] := day;
    occupancy' := occupancy[day := occupancy[day] + table[family].nPeople];
    underCount' := underCount;
    if underCount > 0 && occupancy'[day] > MinOccupancy {
      underLimits[day] := false;
      underCount' := underCount - 1;
      assert underLimits[..] == flags[day := false];
    }
  }

  /** One pass of the `for` loop of `generate_solution` (lines 84-98): draw
      a day for family |placed| and book it there; `found` is false when
      the draws run out first. */
  method PlaceNext(table: seq<Family>, family: nat, ghost placed: seq<int>, families: array<int>,
                   occupancy: map<int, int>, underLimits: array<bool>, underCount: int,
                   draws: seq<nat>, pos: nat)
    returns (found: bool, day: int, occupancy': map<int, int>, underCount': int, next: nat)
    requires family == |placed| < |table| == families.Length && Holds(families, placed)
    requires Building(table, placed, occupancy, underLimits[..], underCount)
    requires pos <= |draws|
    modifies families, underLimits
    ensures pos <= next <= |draws|
    ensures !found ==> next == |draws|
    ensures found ==> pos < next && day == PickDay(old(underLimits[..]), underCount, draws[next - 1])
    ensures found ==> AllRejected(table[family].nPeople, occupancy, old(underLimits[..]), underCount, draws, pos, next - 1)
    ensures !found ==> AllRejected(table[family].nPeople, occupancy, old(underLimits[..]), underCount, draws, pos, |draws|)
    ensures found ==> Holds(families, placed + [day])
    ensures found ==> Building(table, placed + [day], occupancy', underLimits[..], underCount')
  {
    occupancy', underCount' := occupancy, underCount;
    found, day, next := DrawDay(table[family].nPeople, occupancy, underLimits[..], underCount, draws, pos);
    if found {
      occupancy', underCount' := BookDay(table, family, placed, families, occupancy, underLimits, underCount, day);
    }
  }

  /** The computation of `generate_solution` (lines 74-99): schedule the
      families in table order, each on the first drawn day that can take it
      without exceeding 300 people. Draws are taken from `draws` starting
      at `pos`; `next` is the first draw not consumed. Running out of draws
      stands for the source's retry loop never finding a day: `ok` is then
      false. */
  method Construct(table: seq<Family>, draws: seq<nat>, pos: nat)
    returns (ok: bool, families: seq<int>, days: map<int, int>, next: nat)
    requires pos <= |draws|
    ensures pos <= next <= |draws|
    ensures !ok ==> next == |draws|
    ensures ok ==> Feasible(table, families, days)
  {
    var n := |table|;
    var placed := new int[n];
    var occupancy := EmptyDays();
    var underLimits := new bool[NDays + 1](_ => true);
    var underCount := NDays;
    ghost var sofar: seq<int> := [];
    assert underLimits[..] == seq(NDays + 1, _ => true);
    BuildingStart(table, occupancy, underLimits[..]);
    next := pos;
    var i := 0;
    while i < n
      invariant 0 <= i <= n && pos <= next <= |draws|
      invariant |sofar| == i && Holds(placed, sofar)
      invariant Building(table, sofar, occupancy, underLimits[..], underCount)
    {
      var found, day;
      found, day, occupancy, underCount, next := PlaceNext(table, i, sofar, placed, occupancy, underLimits, underCount, draws, next);
      if !found {
        ok, families, days := false, [], map[];
        return;
      }
      sofar := sofar + [day];
      i := i + 1;
    }
    assert placed[..] == sofar;
    BuildingDone(table, sofar, occupancy, underLimits[..], underCount);
    ok, families, days := true, placed[..], occupancy;
  }

  // ---------------------------------------------------------------------
  // The antibody
  // ---------------------------------------------------------------------

  class Antibody {
    /** Day of each family, indexed by family id. */
    var families: seq<int>
    /** People scheduled per day, keyed by day. */
    var days: map<int, int>
    var affinityValue: int
    var fitnessValue: real

    /** `Antibody(families, days)`; `Antibody()` passes [] and map[]. */
    constructor (families: seq<int>, days: map<int, int>)
      ensures this.families == families && this.days == days
      ensures affinityValue == 0 && fitnessValue == 0.0
    {
      this.families := families;
      this.days := days;
      affinityValue := 0;
      fitnessValue := 0.0;
    }

    /** `__eq__`: antibodies are equal when their fitness values are. */
    function Equals(other: Antibody): bool
      reads this, other
    {
      fitnessValue == other.fitnessValue
    }

    /** `__lt__`: lower fitness comes first. */
    function LessThan(other: Antibody): bool
      reads this, other
    {
      fitnessValue < other.fitnessValue
    }

    /** `affinity`: number of families scheduled on the same day in both. */
    function Affinity(other: Antibody): (r: nat)
      reads this, other
      requires |families| == |other.families|
      ensures r == |AgreeingFamilies(families, other.families)|
      ensures r <= |families|
    {
      MatchesCountsAgreement(families, other.families);
      Matches(families, other.families)
    }

    /** `generate_solution`: build a random feasible schedule and store it
        (lines 100-101); when the draws run out nothing is stored. */
    method GenerateSolution(table: seq<Family>, draws: seq<nat>, pos: nat) returns (ok: bool, next: nat)
      requires pos <= |draws|
      modifies this`families, this`days
      ensures pos <= next <= |draws|
      ensures !ok ==> next == |draws|
      ensures ok ==> Feasible(table, families, days)
      ensures !ok ==> families == old(families) && days == old(days)
    {
      var assignment, occupancy;
      ok, assignment, occupancy, next := Construct(table, draws, pos);
      if ok {
        families := assignment;
        days := occupancy;
      }
    }

    /** `fitness`: store the preference cost plus the accounting penalty. */
    method Fitness(table: seq<Family>, power: Power)
      requires WellFormed(table) && |families| <= |table| && IsCalendar(days)
      modifies this`fitnessValue
      ensures fitnessValue == FitnessOf(table, power, families, days)
    {
      var preferenceCost := 0;
      var i := 0;
      while i < |families|
        invariant 0 <= i <= |families|
        invariant preferenceCost == PreferenceCost(table, families[..i])
      {
        assert families[..i + 1][..i] == families[..i];
        preferenceCost := preferenceCost + Gift(table[i], families[i]);
        i := i + 1;
      }
      assert families[..i] == families;
      var accountingPenalty := AccountingPenalty(power, Exponent, days);
      fitnessValue := preferenceCost as real + accountingPenalty;
    }
  }

  lemma {:induction false} CountAllTrue(n: nat)
    ensures CountTrue(seq(n, _ => true)) == n
  {
    if n > 0 {
      CountAllTrue(n - 1);
      assert seq(n, _ => true)[..n - 1] == seq(n - 1, _ => true);
    }
  }

  /** `__eq__` and `__lt__` order antibodies by fitness alone: exactly one of
      a < b, a == b, b < a holds, and `<` is transitive. */
  lemma FitnessOrder(a: Antibody, b: Antibody, c: Antibody)
    ensures a.LessThan(b) || a.Equals(b) || b.LessThan(a)
    ensures !(a.LessThan(b) && a.Equals(b)) && !(a.LessThan(b) && b.LessThan(a))
    ensures a.Equals(b) <==> b.Equals(a)
    ensures a.LessThan(b) && b.LessThan(c) ==> a.LessThan(c)
    ensures !a.LessThan(a) && a.Equals(a)
  {
  }
}
