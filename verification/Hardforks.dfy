/** Fork activation, and the gate that decides in which block a fork's migration runs. */
module Hardforks {
  import opened Primitives

  datatype ForkActivation = Timestamp(at: U64) | Never

  datatype ChainSpec = ChainSpec(
    chainId: U64, regolith: ForkActivation, canyon: ForkActivation, granite: ForkActivation,
    holocene: ForkActivation, isthmus: ForkActivation, jovian: ForkActivation)

  predicate Active(fork: ForkActivation, timestamp: U64) {
    fork.Timestamp? && fork.at <= timestamp
  }

  // Active now, but not two seconds ago: the block time the gate assumes.
  predicate AtTransition(fork: ForkActivation, timestamp: U64) {
    Active(fork, timestamp) && !Active(fork, SaturatingSub(timestamp, 2))
  }
}
