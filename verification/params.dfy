/** The cost configuration of `edit_distance`: a fixed set of defaults,
    overridden key by key by whatever the caller passes as keyword
    arguments. */
module Params {
  import opened Maybe

  /** The five settings the algorithm reads. */
  datatype Costs = Costs(
    deleteCost: int,
    insertCost: int,
    substituteCost: int,
    matchCost: int,
    showSteps: bool)

  /** `default_params`: DELETE 1, INSERT 1, SUBSTITUTE 2, MATCH 0, no trace. */
  const Defaults: Costs := Costs(1, 1, 2, 0, false)

  /** The keyword arguments a caller may pass; `None` means the key is absent. */
  datatype Overrides = Overrides(
    deleteCost: Option<int>,
    insertCost: Option<int>,
    substituteCost: Option<int>,
    matchCost: Option<int>,
    showSteps: Option<bool>)

  /** A call with no keyword arguments. */
  const NoOverrides: Overrides := Overrides(None, None, None, None, None)

  /** Every key given explicitly, with the values of `c`. */
  function AllOf(c: Costs): (o: Overrides)
    ensures o.deleteCost.Some? && o.insertCost.Some? && o.substituteCost.Some?
    ensures o.matchCost.Some? && o.showSteps.Some?
  {
    Overrides(Some(c.deleteCost), Some(c.insertCost), Some(c.substituteCost), Some(c.matchCost), Some(c.showSteps))
  }

  /** Copy the defaults, then update with the given keys. Each key that is
      present wins; each key that is absent keeps its default. */
  function Merge(o: Overrides): (c: Costs)
    ensures o.deleteCost.Some? ==> c.deleteCost == o.deleteCost.value
    ensures o.deleteCost.None? ==> c.deleteCost == 1
    ensures o.insertCost.Some? ==> c.insertCost == o.insertCost.value
    ensures o.insertCost.None? ==> c.insertCost == 1
    ensures o.substituteCost.Some? ==> c.substituteCost == o.substituteCost.value
    ensures o.substituteCost.None? ==> c.substituteCost == 2
    ensures o.matchCost.Some? ==> c.matchCost == o.matchCost.value
    ensures o.matchCost.None? ==> c.matchCost == 0
    ensures o.showSteps.Some? ==> c.showSteps == o.showSteps.value
    ensures o.showSteps.None? ==> !c.showSteps
  {
    Costs(
      if o.deleteCost.Some? then o.deleteCost.value else Defaults.deleteCost,
      if o.insertCost.Some? then o.insertCost.value else Defaults.insertCost,
      if o.substituteCost.Some? then o.substituteCost.value else Defaults.substituteCost,
      if o.matchCost.Some? then o.matchCost.value else Defaults.matchCost,
      if o.showSteps.Some? then o.showSteps.value else Defaults.showSteps)
  }

  /** With no keyword arguments the configuration is exactly the defaults,
      and passing every key reproduces the configuration they spell out. */
  lemma MergeRoundTrip(c: Costs)
    ensures Merge(NoOverrides) == Defaults
    ensures Merge(AllOf(c)) == c
  {
  }

  /** Overriding one key changes that setting and no other. */
  lemma MergeOneKey(o: Overrides, d: int)
    ensures var c := Merge(o); var c' := Merge(o.(deleteCost := Some(d)));
      c'.deleteCost == d && c' == c.(deleteCost := d)
    ensures var c := Merge(o); var c' := Merge(o.(insertCost := Some(d)));
      c'.insertCost == d && c' == c.(insertCost := d)
    ensures var c := Merge(o); var c' := Merge(o.(substituteCost := Some(d)));
      c'.substituteCost == d && c' == c.(substituteCost := d)
    ensures var c := Merge(o); var c' := Merge(o.(matchCost := Some(d)));
      c'.matchCost == d && c' == c.(matchCost := d)
  {
  }
}
