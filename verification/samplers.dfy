/**
  The sampling helpers of the simulator: recombination breakpoints, mutation
  positions, derived allelic states and parent selection. Every random draw is
  an explicit parameter: `gen_range(lo..hi)` is the offset `u` of the drawn
  value from `lo` (so `u < hi - lo`), and `gen_bool` is a boolean outcome.
*/
module Samplers {
  import opened Types

  /** `f64::floor(x) as usize`: the number of whole ticks below `x`. */
  function Ticks(x: Position): nat
  {
    Saturate(x.Floor)
  }

  /** `f64::ceil(x) as usize`: the first whole tick at or after `x`. */
  function FirstTick(x: Position): nat
  {
    Saturate(Ceil(x))
  }

  /** `find_breakpoint`: a breakpoint drawn from `1..floor(seqlen)`. It is never
      0 and never the end of the genome, so both segments it delimits hold at
      least one tick at which a mutation can be placed. */
  function FindBreakpoint(seqlen: Position, u: nat): (r: int)
    requires 1 + u < Ticks(seqlen)
    ensures 1 <= r < Ticks(seqlen)
    ensures 0.0 < r as real < seqlen
    ensures FirstTick(0.0) < Ticks(r as real) && FirstTick(r as real) < Ticks(seqlen)
  {
    1 + u
  }

  /** `find_mutation_pos`: a tick drawn from `ceil(s)..floor(e)`. */
  function FindMutationPos(s: Position, e: Position, u: nat): (r: nat)
    requires FirstTick(s) + u < Ticks(e)
    ensures FirstTick(s) <= r < Ticks(e)
    ensures s <= r as real < e
  {
    FirstTick(s) + u
  }

  /** The derived state of a mutation preceded by `prior` mutations at its
      position: `'a'` advanced by `prior + 1`, capped at `'a' + 45`. */
  function DerivedState(prior: nat): (r: seq<Byte>)
    ensures |r| == 1
    ensures STATE_A < r[0] <= STATE_A + STATE_CAP
    ensures prior < STATE_CAP ==> r[0] == STATE_A + prior + 1
    ensures prior >= STATE_CAP ==> r[0] == STATE_A + STATE_CAP
  {
    var x := prior + 1;
    [STATE_A + (if x > STATE_CAP then STATE_CAP else x)]
  }

  /** `calc_derived_state`: the state for a new mutation at `pos`, from the
      per-position count of mutations placed so far. */
  function CalcDerivedState(siteLastMutationOrder: seq<nat>, pos: nat): (r: seq<Byte>)
    requires pos < |siteLastMutationOrder|
    ensures |r| == 1 && r[0] != STATE_A
    ensures STATE_A < r[0] <= STATE_A + STATE_CAP
    ensures siteLastMutationOrder[pos] < STATE_CAP ==> r[0] == STATE_A + siteLastMutationOrder[pos] + 1
    ensures siteLastMutationOrder[pos] >= STATE_CAP ==> r[0] == STATE_A + STATE_CAP
  {
    DerivedState(siteLastMutationOrder[pos])
  }

  /** Recurrent mutations at one position receive distinct states until the cap. */
  lemma DerivedStatesDistinct(c1: nat, c2: nat)
    requires c1 < c2 < STATE_CAP
    ensures DerivedState(c1)[0] < DerivedState(c2)[0]
  {
  }

  datatype ParentChoice = ParentChoice(parent: NodePair, population: int)

  /** `Picked` is `find_parent`'s return value; `WrongPopulation` is its
      `panic!("wrong population id encountered")`. */
  datatype ParentOutcome = Picked(choice: ParentChoice) | WrongPopulation

  /** The population a parent is drawn from: an ancestral child never migrates,
      a migrant from population 1 draws from 2 and any other migrant from 1. */
  function ParentPopulation(childPop: int, migrate: bool): int
  {
    var isMigrant := childPop != ANCESTRAL && migrate;
    if isMigrant then (if childPop == POP1 then POP2 else POP1) else childPop
  }

  /** The size of the range `find_parent` draws its index from. */
  function ParentRange(poolSize: nat, childPop: int): nat
  {
    if childPop == ANCESTRAL then poolSize else poolSize / 2
  }

  /** `find_parent`: draw a parent pair from the whole pool (ancestral
      population), from its first half (population 1) or from its second half
      (population 2). */
  function FindParent(parents: seq<NodePair>, childPop: int, migrate: bool, u: nat): (r: ParentOutcome)
    requires |parents| % 2 == 0
    requires u < ParentRange(|parents|, childPop)
    ensures r.Picked? <==> ParentPopulation(childPop, migrate) in {ANCESTRAL, POP1, POP2}
    ensures childPop == ANCESTRAL ==> r.Picked? && r.choice.population == ANCESTRAL && r.choice.parent in parents
    ensures childPop in {POP1, POP2} ==> r.Picked? && (r.choice.population != childPop <==> migrate)
    ensures childPop == POP1 && migrate ==> r.Picked? && r.choice.population == POP2
    ensures childPop == POP2 && migrate ==> r.Picked? && r.choice.population == POP1
    ensures r.Picked? && r.choice.population == POP1 ==> r.choice.parent in parents[..|parents| / 2]
    ensures r.Picked? && r.choice.population == POP2 ==> r.choice.parent in parents[|parents| / 2..]
    ensures r.Picked? ==> r.choice.population in {ANCESTRAL, POP1, POP2} && r.choice.parent in parents
  {
    var poolSize := |parents|;
    var parentPop := ParentPopulation(childPop, migrate);
    if parentPop == ANCESTRAL then
      Picked(ParentChoice(parents[u], parentPop))
    else if parentPop == POP1 then
      assert parents[u] == parents[..poolSize / 2][u];
      Picked(ParentChoice(parents[u], parentPop))
    else if parentPop == POP2 then
      assert parents[poolSize / 2 + u] == parents[poolSize / 2..][u];
      Picked(ParentChoice(parents[poolSize / 2 + u], parentPop))
    else
      WrongPopulation
  }
}
