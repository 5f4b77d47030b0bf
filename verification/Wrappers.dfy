/** Result types shared by the models. */
module Wrappers {
  datatype Option<+T> = None | Some(value: T)

  /**
   A predicate written `forall k: nat :: Open(k) ==> ...` is looked into only by a proof that
   asserts Open(0); to every other proof it is an atom.
   */
  predicate Open(k: nat) {
    true
  }

  /** What the predicates of a layer are about. */
  datatype Layer =
    | OfRowsRead
    | OfRowText
    | OfFieldRead
    | OfFieldText
    | OfGenerators
    | OfIdentity
    | OfBlockLists
    | OfBlockArrays
    | OfDestinations
    | OfPasses
    | OfRuns
    | OfStreams
    | OfRequests
    | OfTables
    | OfMoves
    | OfTallies
    | OfAbsence

  /** The same for predicates in layers: proving one of a layer looks into those of this layer only. */
  predicate OpenIn(layer: Layer, k: nat) {
    true
  }
}
