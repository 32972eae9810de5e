/**
  The one ordered domain the observer compares mutations in: a generation and an
  ordinal, handed out in strictly increasing order and never twice.
 */
module MutationIdentity {

  const U64_MAX: nat := 0xFFFF_FFFF_FFFF_FFFF

  datatype SourceKind = SynchronousMutation | DeferredMutation | ReplayUse

  datatype OrderingIdentity = OrderingIdentity(generation: nat, ordinal: nat, source: SourceKind) {
    predicate IsValid() {
      generation != 0 && ordinal != 0
    }
  }

  const NO_ORDERING := OrderingIdentity(0, 0, SynchronousMutation)

  predicate Precedes(earlier: OrderingIdentity, later: OrderingIdentity) {
    && earlier.IsValid() && later.IsValid()
    && earlier.generation == later.generation
    && earlier.ordinal < later.ordinal
  }

  datatype SourceIdentity = SourceIdentity(resource: nat, backingGeneration: nat, sourceOrdinal: nat) {
    predicate IsValid() {
      resource != 0 && backingGeneration != 0 && sourceOrdinal != 0
    }
  }

  predicate SameResourceGeneration(left: SourceIdentity, right: SourceIdentity) {
    left.resource == right.resource && left.backingGeneration == right.backingGeneration
  }

  predicate SourceOrdinalPrecedes(earlier: SourceIdentity, later: SourceIdentity) {
    earlier.sourceOrdinal != 0 && later.sourceOrdinal != 0 && earlier.sourceOrdinal < later.sourceOrdinal
  }

  /** A reset moves to a new generation before ordinals restart; running out ends the policy for good. */
  class OrderingPolicy {
    var generation: nat
    var nextOrdinal: nat
    var valid: bool

    ghost predicate Valid()
      reads this
    {
      1 <= generation <= U64_MAX && 1 <= nextOrdinal <= U64_MAX
    }

    /** Whether an identity of the given generation and ordinal could already have been issued. */
    predicate Spent(g: nat, o: nat)
      reads this
    {
      g < generation || (g == generation && o < nextOrdinal)
    }

    constructor ()
      ensures Valid() && generation == 1 && nextOrdinal == 1 && valid
    {
      generation, nextOrdinal, valid := 1, 1, true;
    }

    /** A fresh identity, or the invalid one once the ordinals or the policy are spent. */
    method Issue(source: SourceKind) returns (id: OrderingIdentity)
      requires Valid()
      modifies this`nextOrdinal
      ensures Valid()
      ensures id.IsValid() <==> valid && old(nextOrdinal) < U64_MAX
      ensures id.IsValid() ==>
        && id == OrderingIdentity(generation, old(nextOrdinal), source)
        && !old(Spent(id.generation, id.ordinal)) && Spent(id.generation, id.ordinal)
      ensures id.IsValid() ==> nextOrdinal == old(nextOrdinal) + 1
      ensures !id.IsValid() ==> id == NO_ORDERING && nextOrdinal == old(nextOrdinal)
      ensures forall g: nat, o: nat :: old(Spent(g, o)) ==> Spent(g, o)
    {
      if !valid || nextOrdinal == 0 || nextOrdinal == U64_MAX {
        return NO_ORDERING;
      }
      id := OrderingIdentity(generation, nextOrdinal, source);
      nextOrdinal := nextOrdinal + 1;
    }

    method Reset() returns (ok: bool)
      requires Valid()
      modifies this
      ensures Valid()
      ensures ok <==> old(valid) && old(generation) < U64_MAX
      ensures ok ==> valid && generation == old(generation) + 1 && nextOrdinal == 1
      ensures !ok ==> !valid && generation == old(generation) && nextOrdinal == old(nextOrdinal)
      ensures forall g: nat, o: nat :: old(Spent(g, o)) ==> Spent(g, o)
    {
      if !valid || generation == U64_MAX {
        valid := false;
        return false;
      }
      generation := generation + 1;
      nextOrdinal := 1;
      ok := true;
    }
  }
}
