# Santa's Workshop Tour 2019: an artificial immune system, modelled in Dafny

The repository schedules a table of families over the 100 days before Christmas
with an artificial immune system. A candidate schedule (an *antibody*)
gives each family a day, counts the people per day, and caches two scores:

- *affinity*: summed over the other members of the population, the number
  of families the two antibodies schedule on the same day (so at most
  n − 1 times the number of families);
- *fitness*: the Kaggle cost, which is the preference cost (consolation
  gifts by choice rank) plus the accounting penalty (a function of the
  day-by-day occupancy).

This project models the core of that system:

- the random constructor of an antibody, which keeps every day at or below
  300 people and tries days still at or below 125 first;
- pairwise affinity and the all-pairs accumulation over a population;
- the preference cost, the accounting loop and the fitness pass over a
  population (running minimum and average);
- the threshold selector.

It then proves what these promise.

Modules, one per source file:

- `families.dfy`: `Families`, the family table (size and ten ranked
  choices per family) and the constants 100, 300, 125 and 10.
- `antibody.dfy`: `Antibodies`, covering `santas_workshop_tour/antibody.py`.
  - The construction is imperative. `Construct` keeps the `families` and
    `days_under_limits` buffers as arrays and `days` as a map. It
    threads the under-limit counter.
  - `Antibody` is a class with the four fields the source updates.
- `immune_system.dfy`: `ImmuneSystem`, covering
  `santas_workshop_tour/artificial_immune_system.py`. The class methods
  update the members' `affinityValue` and `fitnessValue` fields in place,
  and are proved against specification functions (`TotalAffinity`,
  `FitnessOf`, `Sum`).
- `selector.dfy`: `Selectors`, covering `santas_workshop_tour/selector.py`.
  `Select` is a pure filter that reads the members' affinity fields.

Inputs the model cannot compute are parameters:

- the random source is an oracle sequence `draws` of raw numbers, with a
  position threaded through the calls. `np.random.randint(low, high)` is
  `low + raw % (high - low)`.
- floating-point exponentiation is a parameter `power: (real, real) -> real`.

## Model

| member | source | states |
|---|---|---|
| Antibodies.RandInt | santas_workshop_tour/antibody.py:88-91 | a random integer drawn for `randint(low, high)` lies in [low, high) |
| Antibodies.NonZero | santas_workshop_tour/antibody.py:89 | `np.nonzero` lists exactly the flagged indices, in strictly increasing order, as many as there are flags set |
| Antibodies.PickDay | santas_workshop_tour/antibody.py:86-91 | the proposed day is in 1..100, and it is a flagged day exactly when the under-limit counter is positive |
| Antibodies.CountTrueClear | santas_workshop_tour/antibody.py:95-97 | clearing a set flag lowers the number of flagged days by one, which keeps `len_days_under_limits` equal to the flag count |
| Antibodies.EmptyDays | santas_workshop_tour/antibody.py:76-78 | the initial `days` dictionary has exactly the keys 1..100, all mapped to 0 |
| Antibodies.BuildingStart | santas_workshop_tour/antibody.py:74-80 | before any family is placed, all 100 days are empty and flagged and the counter is 100 |
| Antibodies.DrawDay | santas_workshop_tour/antibody.py:85-92 | the retry loop accepts the day picked by the last draw it consumed, and rejects every day picked before it because that day would pass 300 people; the accepted day is in 1..100, can take the family within 300 people, and is flagged exactly when some day still is; it fails only once every draw is consumed, every one of them having picked a day that would pass 300 |
| Antibodies.PlaceFamily | santas_workshop_tour/antibody.py:92-97 | accepting a day keeps the occupancy equal to the people placed on each day, keeps it at most 300, and keeps a day flagged exactly while it is at or under 125 (once the counter is zero, no flag changes any more) |
| Antibodies.BookDay | santas_workshop_tour/antibody.py:93-97 | booking writes the family's day into the array and updates occupancy, flags and counter so that the construction invariant holds one family further |
| Antibodies.PlaceNext | santas_workshop_tour/antibody.py:84-98 | one family's turn books the day picked by the last draw it consumed, every earlier pick having been a day that would pass 300, and keeps the construction invariant one family further; or it fails having consumed every draw, each of them rejected |
| Antibodies.BuildingDone | santas_workshop_tour/antibody.py:83-99 | once every family is placed, the schedule is feasible |
| Antibodies.Construct | santas_workshop_tour/antibody.py:74-99 | a completed construction schedules every family on a day in 1..100, `days` has exactly the 100 days as keys, and each day holds exactly the people scheduled on it, never more than 300; the construction fails only once every draw is consumed |
| Antibodies.OccupancyAccountsForEveryone | santas_workshop_tour/antibody.py:92-94 | summed over the 100 days, occupancy counts every placed person exactly once |
| Antibodies.DaysHoldEveryone | santas_workshop_tour/antibody.py:76-78 | after construction the day counts add up to the total number of people in the table |
| Antibodies.Matches | santas_workshop_tour/antibody.py:115 | the element-wise agreement count of two equally long assignments is at most their length (see `MatchesCountsAgreement`) |
| Antibodies.MatchesCountsAgreement | santas_workshop_tour/antibody.py:104-115 | `(a == b).sum()` is the number of families scheduled on the same day in both assignments |
| Antibodies.MatchesSymmetric | santas_workshop_tour/antibody.py:104-115 | affinity does not depend on the order of the two antibodies |
| Antibodies.MatchesSelf | santas_workshop_tour/antibody.py:104-115 | an assignment agrees with itself on every family |
| Antibodies.MatchesExamples | tests/test_antibody.py:7-14 | the three pairs of the antibody test have affinities 4, 1 and 0 |
| Antibodies.Gift | santas_workshop_tour/antibody.py:150-171 | the consolation gift of the if-chain (no contract of its own: see `GiftIsRankTable` and `GiftZeroIffFirstChoice`) |
| Antibodies.PreferenceCost | santas_workshop_tour/antibody.py:146-173 | the sum of the families' gifts (no contract of its own: see `PreferenceCostZeroIff` and `PreferenceCostBound`; `Antibody.Fitness` computes it with a loop) |
| Antibodies.GiftIsRankTable | santas_workshop_tour/antibody.py:150-171 | the if-chain of gifts is the gift table indexed by the rank of the first choice equal to the day (rank 10 when none is) |
| Antibodies.GiftZeroIffFirstChoice | santas_workshop_tour/antibody.py:150-171 | a gift is zero exactly for the first choice, and never more than 500 + 434 per person |
| Antibodies.PreferenceCostZeroIff | santas_workshop_tour/antibody.py:146-173 | the preference cost is zero exactly when every family gets its first choice |
| Antibodies.PreferenceCostBound | santas_workshop_tour/antibody.py:146-173 | the preference cost is at most 500 per family plus 434 per person |
| Antibodies.PreferenceCostExamples | tests/test_artificial_immune_system.py:57-69 | with three families of 125 people and choices 1..10, assignments [1,2,3], [3,3,3] and [1,1,2] cost 50·2 + 9·125, 3·(50 + 9·125) and 50 |
| Antibodies.ExponentAsWritten | santas_workshop_tour/antibody.py:179 | the exponent as written drops below 1/2 exactly when the day holds fewer people than the next one |
| Antibodies.Exponent | santas_workshop_tour/antibody.py:179 | the exponent of the metric is never below 1/2, and it is exactly 1/2 when the two days hold the same number of people |
| Antibodies.ExponentsAgree | santas_workshop_tour/antibody.py:179 | the written and the intended exponent agree exactly when the day is at least as full as the next; the intended one is symmetric |
| Antibodies.ExponentCounterexample | santas_workshop_tour/antibody.py:179 | for 150 people followed by 300, line 179 gives −2.5 where the metric gives 3.5 |
| Antibodies.DayCounts | santas_workshop_tour/antibody.py:176 | `list(days.values())` holds 100 counts, position i holding day i + 1 |
| Antibodies.DayPenalty | santas_workshop_tour/antibody.py:180 | one day's share, (N_d − 125) / 400 · N_d ** exponent, is zero for a day holding exactly 125 people |
| Antibodies.Penalty | santas_workshop_tour/antibody.py:177-181 | the sum of the day shares, each day compared with the day after it and the last with the count the loop starts from (no contract of its own: specification of `AccountingPenalty`) |
| Antibodies.AccountingAsWritten | santas_workshop_tour/antibody.py:176-181 | the accounting penalty with line 179's signed exponent, day 100 compared with itself (no contract of its own: specification of `AccountingPenalty`) |
| Antibodies.AccountingOf | santas_workshop_tour/antibody.py:176-181 | the accounting penalty with the metric's absolute exponent (no contract of its own: see `AccountingAgrees` and `AccountingCounterexample`) |
| Antibodies.AccountingPenalty | santas_workshop_tour/antibody.py:175-181 | the loop walks the counts from the last day to the first, comparing each with the day visited before it (the last with itself); its sum is the penalty of the calendar for the exponent rule given, so with line 179's rule it is `AccountingAsWritten` and with the metric's `AccountingOf` |
| Antibodies.PenaltyAtLimit | santas_workshop_tour/antibody.py:180 | days all holding exactly 125 people have no penalty, whatever the exponent rule |
| Antibodies.AccountingAtLimit | santas_workshop_tour/antibody.py:175-181 | a calendar with 125 people on every day has no accounting penalty, as written or as intended |
| Antibodies.PenaltiesAgree | santas_workshop_tour/antibody.py:178-181 | where every day is at least as full as the next, the signed and the absolute exponent give the same penalty |
| Antibodies.AccountingAgrees | santas_workshop_tour/antibody.py:176-181 | on a calendar whose counts never grow from one day to the next, the penalty as written is the metric's |
| Antibodies.AccountingCounterexample | santas_workshop_tour/antibody.py:176-181 | with days 1..98 at 125, day 99 at 150 and day 100 at 300, the two penalties differ by exactly 25/400 · (150 ** −2.5 − 150 ** 3.5) |
| Antibodies.FitnessOf | santas_workshop_tour/antibody.py:183 | fitness is the preference cost plus the metric's accounting penalty (no contract of its own: specification of `Antibody.Fitness`; see `FitnessAtLimit`) |
| Antibodies.FitnessAtLimit | tests/test_artificial_immune_system.py:57-69 | with 125 people on every day the fitness equals the preference cost, which is what the fitness test intends (its `days` is a 3-element array, on which line 176 would fail) |
| Antibodies.Antibody.constructor | santas_workshop_tour/antibody.py:18-31 | a new antibody stores the given families and days, with affinity 0 and fitness 0.0 |
| Antibodies.Antibody.Equals | santas_workshop_tour/antibody.py:33-44 | `__eq__` is equality of fitness values (no contract of its own: see `FitnessOrder`) |
| Antibodies.Antibody.LessThan | santas_workshop_tour/antibody.py:46-58 | `__lt__` is the order of fitness values (no contract of its own: see `FitnessOrder`) |
| Antibodies.FitnessOrder | santas_workshop_tour/antibody.py:33-58 | `==` and `<` compare fitness alone: exactly one of a < b, a == b and b < a holds, `==` is reflexive and symmetric, and `<` is irreflexive and transitive |
| Antibodies.Antibody.Affinity | santas_workshop_tour/antibody.py:104-115 | the affinity of two antibodies is the number of families they schedule alike, at most the number of families |
| Antibodies.Antibody.GenerateSolution | santas_workshop_tour/antibody.py:60-102 | the stored families and days form a feasible schedule; it fails only once every draw is consumed, and then nothing is stored |
| Antibodies.Antibody.Fitness | santas_workshop_tour/antibody.py:117-184 | the stored fitness is the preference cost of the assignment plus the accounting penalty of the days |
| ImmuneSystem.ArtificialImmuneSystem.constructor | santas_workshop_tour/artificial_immune_system.py:18-45 | the system keeps the family table, the population size and the number of generations it is given |
| ImmuneSystem.ArtificialImmuneSystem.GeneratePopulation | santas_workshop_tour/artificial_immune_system.py:47-57 | when it succeeds, the population has exactly `population_size` fresh, distinct antibodies, each feasible, with zero affinity and zero fitness; it never has more, it fails only once every draw is consumed, and a size of 0 always succeeds |
| ImmuneSystem.ArtificialImmuneSystem.NewAntibody | santas_workshop_tour/artificial_immune_system.py:55 | `Antibody().generate_solution(...)` yields a fresh antibody which, when built, is feasible with zero scores; it fails only once every draw is consumed |
| ImmuneSystem.ArtificialImmuneSystem.Affinity | santas_workshop_tour/artificial_immune_system.py:59-70 | scores are not reset: each member's affinity grows by exactly the sum of its affinities with every other member, and no member's assignment changes |
| ImmuneSystem.ArtificialImmuneSystem.AddPairsOf | santas_workshop_tour/artificial_immune_system.py:67-70 | comparing member i with every later member credits every pair of row i to both of its members |
| ImmuneSystem.ArtificialImmuneSystem.CreditPair | santas_workshop_tour/artificial_immune_system.py:68-70 | one comparison moves the credited scores from column j to column j + 1 |
| ImmuneSystem.ArtificialImmuneSystem.AddPair | santas_workshop_tour/artificial_immune_system.py:68-70 | both members of the pair gain the same pairwise affinity |
| ImmuneSystem.CreditStep | santas_workshop_tour/artificial_immune_system.py:66-70 | visiting the pair (i, j) adds its affinity to members i and j and to no other member |
| ImmuneSystem.CreditNextRow | santas_workshop_tour/artificial_immune_system.py:66-67 | finishing row i of the nested loop is the same as starting row i + 1 |
| ImmuneSystem.EachPairCountedTwice | santas_workshop_tour/artificial_immune_system.py:66-70 | the members' total affinities add up to twice the sum over the unordered pairs, so each pair is credited exactly once to each side |
| ImmuneSystem.TotalAffinityBound | santas_workshop_tour/artificial_immune_system.py:59-70 | a member's total affinity is at most (n − 1) times the number of families |
| ImmuneSystem.ExampleMatches | tests/test_artificial_immune_system.py:39-55 | the affinity test's first two assignments agree on 3 families (the other two pairs are those of the antibody test) |
| ImmuneSystem.AffinityExample | tests/test_artificial_immune_system.py:39-55 | starting from zero, the affinity test's three antibodies score 4, 3 and 1 |
| ImmuneSystem.ArtificialImmuneSystem.Fitness | santas_workshop_tour/artificial_immune_system.py:72-88 | every member stores its fitness; the minimum is at most the sentinel and at most every member's fitness, and it is either the sentinel or some member's fitness; the average is the sum of the fitness values over the population size |
| ImmuneSystem.ArtificialImmuneSystem.EvaluateAll | santas_workshop_tour/artificial_immune_system.py:81-86 | the loop leaves every member scored, with the running sum and running minimum it promises |
| ImmuneSystem.ArtificialImmuneSystem.Evaluate | santas_workshop_tour/artificial_immune_system.py:82-83 | scoring member k keeps the scores already stored in members before it |
| ImmuneSystem.Record | santas_workshop_tour/artificial_immune_system.py:84-86 | the sum grows by the value, and the minimum drops to the value exactly when the value is strictly smaller |
| Selectors.BasicSelector.constructor | santas_workshop_tour/selector.py:12-22 | the selector keeps the threshold it is given |
| Selectors.BasicSelector.Select | santas_workshop_tour/selector.py:40-55 | every selected member comes from the population and has affinity at most the threshold, and the result is no longer than the input |
| Selectors.SelectKeepsExactly | santas_workshop_tour/selector.py:50-55 | a member is selected exactly when its affinity is at most the threshold |
| Selectors.SelectCounts | santas_workshop_tour/selector.py:50-55 | a kept member appears as often as in the input, and a dropped one not at all |
| Selectors.SelectIsSubsequence | santas_workshop_tour/selector.py:50-55 | the selection keeps the input's order |
| Selectors.SubsequenceBounds | santas_workshop_tour/selector.py:50-55 | a subsequence is no longer than its sequence and holds no element more often than it |
| Selectors.SelectAppend | santas_workshop_tour/selector.py:50-55 | selecting from a concatenation concatenates the selections |
| Selectors.SelectKeepsAll | santas_workshop_tour/selector.py:52 | a population entirely within the threshold is returned whole |
| Selectors.SelectDropsAll | santas_workshop_tour/selector.py:52 | a population entirely above the threshold gives the empty list |
| Selectors.SelectAbsorbs | santas_workshop_tour/selector.py:52 | selecting with a smaller threshold after a larger one is the same as selecting with the smaller one alone |
| Selectors.SelectIdempotent | santas_workshop_tour/selector.py:50-55 | selecting from a selection returns it unchanged |
| Selectors.SelectMonotone | santas_workshop_tour/selector.py:52 | a larger threshold keeps every member a smaller one keeps, and the smaller threshold's selection is a subsequence of the larger's |
| Selectors.SelectExample | tests/test_selector.py:9-33 | with affinities 15, 20, …, 60 and threshold 30, exactly the first four members survive |

## Left out

- Floating point: the fitness sums and the accounting penalty are exact
  reals. `x ** e` is the parameter `power`, and nothing is proved about
  its values. In particular the `ZeroDivisionError` that `0 ** e` raises for
  a negative `e` (an empty day followed by one with more than 25 people,
  under line 179's exponent) is not modelled.
- Random numbers: `np.random.randint` is an oracle of raw draws mapped into
  the requested range; the distribution is not modelled.
- Antibodies.Construct: the source's `while True` retry never ends when no
  day can take a family. The model's retry ends when the draws run out:
  `ok` is then false and every draw is consumed (then `GenerateSolution`
  stores nothing and `GeneratePopulation` stops early). No feasibility
  condition on the table is stated, so the model does not show that a day
  is always found.
- Antibodies.Antibody.GenerateSolution: promises a feasible schedule only
  when `ok`, and `ok` is false only once every draw is consumed; as for
  `Construct`, nothing shows that it succeeds.
- ImmuneSystem.ArtificialImmuneSystem.NewAntibody: the antibody is feasible
  with zero scores only when `built`, which, as for `GenerateSolution`,
  nothing forces; a failure consumes every draw.
- ImmuneSystem.ArtificialImmuneSystem.GeneratePopulation: promises
  `population_size` members only when `ok`; it stops early, with fewer
  members and every draw consumed, when one antibody cannot be built. Only
  a size of 0 is shown always to succeed.
- Antibodies.Construct: the source states no lower bound of 125 people per
  day, and the model follows the code. A feasible schedule may leave days
  under 125, and even empty.
- Antibodies.Antibody.constructor: `Antibody()` with no arguments stores
  `None`. The model passes `[]` and `map[]` instead.
- Antibodies.Antibody.Affinity: requires two assignments of the same length.
  The numpy element-wise comparison of unequal lengths is not modelled.
- Antibodies.Antibody.Fitness: requires `days` to hold exactly the keys
  1..100, which `GenerateSolution` always provides. A dictionary in another
  insertion order, or with other keys, would make `list(days.values())`
  list different days. The model reads the counts in key order.
- Antibodies.Antibody.Fitness: passes the metric's exponent rule to
  `AccountingPenalty` (see Findings), not the one line 179 computes, so the
  stored fitness is `AccountingOf`, not `AccountingAsWritten`; the two agree
  on calendars whose counts never grow from one day to the next.
- Antibodies.FitnessOf: adds the metric's accounting penalty
  (`AccountingOf`), not the one line 179 computes (`AccountingAsWritten`);
  see Findings. The two, and hence the two fitness values, agree on
  calendars whose counts never grow from one day to the next
  (`AccountingAgrees`).
- Antibodies.FitnessOrder: the `NotImplemented` result for a non-`Antibody`
  operand of `==` and `<` does not arise in the typed model.
- ImmuneSystem.ArtificialImmuneSystem.Affinity: requires the population to
  hold no antibody object twice. A repeated object would be credited twice
  with its affinity with itself, and that aliasing is not modelled.
- ImmuneSystem.ArtificialImmuneSystem.Fitness: requires a non-empty
  population, because the source divides by `len(population)`. The source's
  integer start values (sentinel 999999999999 and sum 0) are reals here.
- `optimize`, the clonator and mutator strategies, and `select_best`: left
  out. The generation loop consists of logging and calls to collaborators
  whose concrete classes are not part of this model.
- `santas_workshop_tour/cli.py`, `santas_workshop_tour/__main__.py`, CSV
  loading through pandas and logging: these are I/O, and are not part of
  this model.
- Percentile or positive selection, and the test expectations with no
  matching code (`generate_population(n=...)`, `fitness` returning an
  antibody): left out, since the code that would implement them is not
  shown.

## Findings

| source | as written | input that shows it | evidently intended | confidence | as-written member | corrected member |
|---|---|---|---|---|---|---|
| santas_workshop_tour/antibody.py:179 | exponent `1/2 + (N_d − N_(d+1)) / 50`, keeping the sign of the difference | day 99 with 150 people and day 100 with 300: the exponent is −2.5 | `1/2 + abs(N_d − N_(d+1)) / 50`, as in the competition's evaluation linked at line 137, giving 3.5 | high; not executed | Antibodies.ExponentAsWritten, Antibodies.ExponentCounterexample, Antibodies.AccountingAsWritten, Antibodies.AccountingCounterexample | Antibodies.Exponent, Antibodies.ExponentsAgree, Antibodies.AccountingOf, Antibodies.AccountingAgrees |
