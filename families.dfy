/** The family table the optimiser works on: one record per family, indexed by
    family id (row order), holding the family's size and its ten ranked
    preferred days. The table is read-only for the whole run. */
module Families {

  /** Days are numbered 1..NDays. */
  const NDays: int := 100
  /** No day may ever host more people than this. */
  const MaxOccupancy: int := 300
  /** A day stays "under limit" (preferred by the random constructor) until its
      occupancy exceeds this. */
  const MinOccupancy: int := 125
  /** Every family ranks exactly this many preferred days. */
  const NChoices: int := 10

  /** One row of the table: `n_people` and `choice_0` .. `choice_9`. */
  datatype Family = Family(nPeople: nat, choices: seq<int>)

  /** Every row lists exactly ten choices. */
  predicate WellFormed(table: seq<Family>) {
    forall i :: 0 <= i < |table| ==> |table[i].choices| == NChoices
  }

  predicate IsDay(d: int) {
    1 <= d <= NDays
  }

  /** A dictionary keyed by exactly the days 1..100. */
  ghost predicate IsCalendar<V>(days: map<int, V>) {
    forall d :: d in days <==> 1 <= d <= NDays
  }

  /** Number of people over all families of the table. */
  function TotalPeople(table: seq<Family>): nat {
    if |table| == 0 then 0 else TotalPeople(table[..|table| - 1]) + table[|table| - 1].nPeople
  }
}
