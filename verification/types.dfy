/**
  Value types shared by the simulator model: genomic positions, identifiers,
  the rows of an ancestry record, and the random draws the driver consumes.
*/
module Types {

  /** A genomic coordinate (tskit's `Position`, an f64). */
  type Position = real

  /** A half-open genomic interval `[.0, .1)`. */
  type Interval = (Position, Position)

  /** The two node ids of one diploid individual. */
  type NodePair = (int, int)

  /** An unsigned byte, as used for allelic states. */
  type Byte = x: int | 0 <= x < 256

  /** The null id of every tskit table (`NodeId::NULL`, `SiteId::NULL`, `MutationId::NULL`). */
  const NULL: int := -1

  /** Population ids, in the order the driver creates them. */
  const ANCESTRAL: int := 0
  const POP1: int := 1
  const POP2: int := 2

  /** `b'a'`: the ancestral state of every site. */
  const STATE_A: Byte := 97

  /** The cap on how far a derived state advances from `'a'`. */
  const STATE_CAP: nat := 45

  datatype Individual = Individual(parents: seq<int>)

  datatype Node = Node(isSample: bool, time: int, population: int, individual: int)

  datatype Edge = Edge(left: Position, right: Position, parent: int, child: int)

  datatype Site = Site(position: int, ancestralState: seq<Byte>)

  datatype Mutation = Mutation(site: int, node: int, parent: int, time: int, derivedState: seq<Byte>)

  /** Outcome of the draws made by one `find_parent` call: the migration coin
      (consulted only for a non-ancestral child) and the offset into the half drawn from. */
  datatype ParentDraw = ParentDraw(migrate: bool, offset: nat)

  /** Outcome of the draws made for one of the four segments of an offspring:
      the offset of the mutation position and the `gen_bool` that decides placement. */
  datatype SegmentDraw = SegmentDraw(offset: nat, addMutation: bool)

  /** All draws made for one offspring, in the order `simulate_two_treesequences`
      makes them. */
  datatype OffspringDraw = OffspringDraw(
    breakpoint1: nat, breakpoint2: nat,
    parent1: ParentDraw, parent2: ParentDraw,
    segments: seq<SegmentDraw>)

  /** Rust's `as usize` on a float that already holds an integer: negative values saturate to 0. */
  function Saturate(k: int): nat
  {
    if k < 0 then 0 else k
  }

  /** `f64::ceil` on the reals. */
  function Ceil(x: real): (r: int)
    ensures x <= r as real < x + 1.0
  {
    -((-x).Floor)
  }
}
