/** What the models know of an accelerator: at each visit it takes a prefix of the burst it is
  offered and returns the oldest operations it holds; how many of either is up to it. */
module Device {

  /** What the device accepts and returns at one visit. */
  datatype Visit = Visit(accept: nat, give: nat)

  /** The device accepts and returns something whenever it is visited. */
  predicate Eager(schedule: seq<Visit>) {
    forall v | v in schedule :: v.accept > 0 && v.give > 0
  }
}
