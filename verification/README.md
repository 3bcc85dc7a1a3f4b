# Two-population forward simulator: a verified model

This project models the forward-in-time, diploid, two-population simulator in
tskit-rust's `src/test_data.rs` (`simulate_two_treesequences` and its helpers).

The simulator builds two ancestry records in lock-step:
- a *full* record, whose edges span the whole genome;
- a *truncated* record, whose edges are the full edges clipped to a sorted list of
  disjoint keep-intervals.

It starts from `pop_size` founders at time `start_time`. It then runs `start_time`
generations of `pop_size` offspring each. Every offspring has two recombination
breakpoints, two parent pairs drawn from the previous generation (with migration
between the two sub-populations in the generations with `t > split_time`,
before the run reaches `split_time`), and one node pair. Its four
inherited segments can each carry one recurrent mutation.

Every random draw is an explicit input. A `gen_range(lo..hi)` draw is its offset
`u` from `lo`, and a precondition bounds it by `hi - lo`. A `gen_bool` draw is a
boolean outcome. `draws[t][i]` holds everything drawn for offspring `i` of
generation `t`.

Modules (one file each):
- `Types` (`types.dfy`): the rows of a record (individual, node, edge, site,
  mutation), positions as reals, the draw records, and the `as usize` and `ceil`
  conversions.
- `Overlaps` (`overlaps.dfy`): `find_overlaps`. A specification function
  `Overlaps`, the lemmas about it, and the imperative `FindOverlaps` loop proved
  equal to it.
- `Samplers` (`samplers.dfy`): `find_breakpoint`, `find_mutation_pos`,
  `calc_derived_state` and `find_parent` as pure functions of their draws.
- `Tables` (`tables.dfy`): the `TableCollection` class. It is an append-only record
  whose `add_*` methods append a row and return its id.
- `Records` (`records.dfy`): the site and mutation bookkeeping of one record, stated
  on values. This covers the per-position site ids, last mutations and counts, the
  recurrence chains, and the mirror of truncated mutations onto full ones.
- `Lockstep` (`lockstep.dfy`): the invariants the driver keeps across steps:
  - both records share individuals and nodes;
  - nodes are well formed (population rule, sample rule), and each offspring node
    has the population of its offspring index;
  - full edges join consecutive generations;
  - truncated edges are clipped full edges;
  - sites and mutations are consistent and mirrored;
  - each generation's pool is a band of consecutive node ids.
- `Steps` (`steps.dfy`): one segment and one offspring as value-level steps, with
  the lemmas that each step keeps the invariants.
- `Simulation` (`simulation.dfy`): the driver, as imperative methods on the two
  `TableCollection` objects. It has the nested generation, offspring, segment and
  piece loops, and the `parents`/`children` swap.

The driver's postcondition states the lock-step properties:
- identical individuals and nodes in both records;
- every offspring node `k` has the population of offspring `i = (k / 2) % pop_size`
  of its generation (its individual's id, less the individuals of older
  generations) under the *split rule*: ancestral unless `t > split_time`, then pop1 for
  `i < pop_size / 2` and pop2 otherwise;
- the sample flag is set exactly at `t == 0`;
- every full edge joins a node to a node exactly one generation older;
- every truncated edge lies inside a keep-interval and inside the full edge it was
  clipped from;
- every truncated site has a full site at the same position, inside a keep-interval;
- every truncated mutation repeats a distinct full mutation;
- mutation chains are well formed in both records;
- the per-position arrays are indexed in bounds and agree with the records;
- the sample list is exactly the set of sample nodes.

Two details of `src/test_data.rs` that the model follows:
- The keep-interval ordering is asserted inside `find_overlaps`, at every call, and
  not once up front. So the model requires it only when there is an offspring to
  clip (`ParametersOk`: `popSize > 0 ==> SortedDisjoint(intervals)`).
- The counter behind a derived state (`site_last_mutation_order`) exists only for
  the full record. A truncated mutation carries the state computed for the full
  mutation it copies (`Mirrors`), not a count of its own record.

## Model

| member | source | states |
|---|---|---|
| Types.Ceil | src/test_data.rs:164 | `ceil(x)` is the least integer at or above `x` (`x <= r < x + 1`) |
| Overlaps.SortedIsPairwise | src/test_data.rs:141-145 | the two assertions (`a <= b` per interval, neighbours ordered) imply that any earlier interval ends before any later one starts |
| Overlaps.SortedPairwiseOrdered | src/test_data.rs:141-145 | sorted, disjoint keep-intervals are pairwise ordered |
| Overlaps.OverlapsInside | src/test_data.rs:149-157 | there are never more pieces than keep-intervals; every piece lies inside `[start, end)` and inside one keep-interval |
| Overlaps.OverlapsNotInverted | src/test_data.rs:149-157 | on a segment with `start <= end`, every piece has `left <= right` |
| Overlaps.OverlapsOrdered | src/test_data.rs:141-157 | over sorted, disjoint keep-intervals the pieces come out ordered and pairwise disjoint |
| Overlaps.OverlapsCover | src/test_data.rs:149-157 | a point is in some piece iff it is in `[start, end)` and in some keep-interval |
| Overlaps.OverlapsMembers | src/test_data.rs:149-157 | a piece is exactly `(max(m, start), min(n, end))` of a keep-interval that is not skipped (`!(n <= start \|\| end <= m)`), and every such interval's clip is a piece |
| Overlaps.FindOverlaps | src/test_data.rs:136-158 | the cleared-then-filled buffer equals the clipping specification; its pieces lie inside the segment and a keep-interval, are not inverted, are pairwise ordered, and cover exactly the kept points of the segment |
| Samplers.FindBreakpoint | src/test_data.rs:96-101 | the breakpoint is in `[1, floor(seqlen))`, strictly inside the genome, and both segments it delimits hold at least one whole tick |
| Samplers.FindMutationPos | src/test_data.rs:160-167 | the position is a whole tick in `[ceil(s), floor(e))`, hence inside the segment `[s, e)` |
| Samplers.DerivedState | src/test_data.rs:170-174 | one byte, `'a' + prior + 1` below the cap and `'a' + 45` from it, always above `'a'` |
| Samplers.CalcDerivedState | src/test_data.rs:169-175 | for `pos` in bounds: one byte, never the ancestral `'a'`, at most `'a' + 45`, equal to `'a' + min(order[pos] + 1, 45)` |
| Samplers.DerivedStatesDistinct | src/test_data.rs:169-175 | below the cap, later recurrent mutations at a position get strictly larger states |
| Samplers.FindParent | src/test_data.rs:68-94 | an ancestral child never migrates and draws from the whole pool; a pop1 or pop2 child changes population iff it migrates (1 to 2, 2 to 1); a pop1 parent comes from the first half of the pool and a pop2 parent from the second; a parent is picked iff the parent population is 0, 1 or 2, and the error outcome covers every other population |
| Records.LastAt | src/test_data.rs:303-309 | the last mutation at a site is NULL or an in-bounds index of a mutation at that site |
| Records.LastAtIsLast | src/test_data.rs:303-309 | no later mutation is at the same site |
| Records.CountAt | src/test_data.rs:310 | the count of mutations at a site is at most the record's length, and is 0 iff the site has no last mutation |
| Records.LastAtAppend | src/test_data.rs:305-310 | appending a mutation makes it the site's last one and adds one to the site's count, leaving other sites unchanged |
| Records.ChainAt | src/test_data.rs:303-307 | in a well-formed record every mutation, not only the newest, is on an existing site, and its parent is the previous mutation at that site |
| Records.ChainsWiden | src/test_data.rs:297-301 | creating sites keeps the chains well formed |
| Records.StateAt | src/test_data.rs:292 | in the full record every mutation's derived state is fixed by the number of earlier mutations at its site |
| Records.SitePositionsUnique | src/test_data.rs:297-301 | a record never holds two sites at the same position |
| Records.NoSiteNoMutation | src/test_data.rs:297-304 | a position without a site has a NULL last mutation and no mutation on the NULL site |
| Records.FreshSiteUnused | src/test_data.rs:297-304 | a site id not yet created has no mutation |
| Records.PlaceKeepsSites | src/test_data.rs:297-301 | creating the site only when the position has none keeps one site per position and points the position at its site; no other position changes |
| Records.PlaceKeepsChains | src/test_data.rs:303-307 | a new mutation whose parent is the position's last mutation keeps every chain well formed, and every site keeps a mutation |
| Records.PlaceKeepsRecord | src/test_data.rs:296-310 | placing a mutation keeps the record's site index, chains and last-mutation array consistent, and existing site ids do not move |
| Records.PlaceSiteCount | src/test_data.rs:292-310 | the count at the position before a placement is the count of mutations at the site it is placed on |
| Records.AppendKeepsStates | src/test_data.rs:292-307 | a mutation appended with the state its count fixes keeps every state counted |
| Records.PlaceKeepsCounts | src/test_data.rs:292-310 | placing with `calc_derived_state`'s state and incrementing `site_last_mutation_order[pos]` keeps counts and states in step |
| Records.OrderAfterAppend | src/test_data.rs:310 | the incremented counter array still counts each position's full mutations |
| Records.PlaceFullKeeps | src/test_data.rs:295-311 | a full-record placement keeps the record, its counts and the truncated record's mirror consistent, and leaves the new mutation as the newest one |
| Records.PlaceTruncatedKeeps | src/test_data.rs:318-331 | copying the newest full mutation into the truncated record at a kept position keeps that record consistent, extends the mirror by that mutation, and keeps every truncated site a kept full site |
| Records.FullGrowthKeepsMirrors | src/test_data.rs:295-311 | growing the full record keeps every truncated mutation mirrored |
| Records.CopiesKeptStep | src/test_data.rs:295-332 | after a segment, a full mutation is copied into the truncated record exactly when it was drawn and its position is kept, and earlier mutations keep their sites |
| Records.MirrorNewest | src/test_data.rs:318-331 | a truncated copy of the newest full mutation extends the strictly increasing mirror map |
| Lockstep.ChildPopulation | src/test_data.rs:252-256 | the child population is ancestral iff `t <= split_time`, pop1 iff `t > split_time` and `i < pop_size / 2`, and pop2 iff `t > split_time` and `i >= pop_size / 2` |
| Lockstep.PoolNodes | src/test_data.rs:350-353 | the flattened pool lists each pair's two nodes in order, and holds exactly the pool's node ids |
| Lockstep.PoolInBand | src/test_data.rs:233-237 | a pool of consecutive node pairs laid over a band of one generation holds only nodes of that generation |
| Lockstep.ConsecutiveNodes | src/test_data.rs:350-353 | the node ids of a consecutive pool are exactly `first` to `first + 2 * pool_size - 1` |
| Lockstep.NotInEarlierPiece | src/test_data.rs:314-318 | a position inside one of the ordered pieces lies in no earlier piece, so at most one piece copies the mutation |
| Lockstep.ChildKeeps | src/test_data.rs:262-274 | the offspring's individual and two nodes, added identically to both records, keep the records' individuals and nodes equal and every node well formed (its population rule and sample rule) |
| Lockstep.FullEdgeKeeps | src/test_data.rs:284 | a full edge between consecutive generations keeps the ancestry consistent and the truncated edges' sources valid |
| Lockstep.TruncatedEdgesKeep | src/test_data.rs:313-315 | the pieces of a full edge, added as truncated edges, are each clipped from that edge and inside a keep-interval |
| Lockstep.BatchTotalIsProduct | src/test_data.rs:226-247 | the founders and `m - 1` generations of `pop_size` offspring each hold `pop_size * m` individuals |
| Lockstep.OffspringIndex | src/test_data.rs:247-263 | the individual added as offspring `i` after whole generations has id `i` modulo `pop_size` |
| Lockstep.PopulationByIndex | src/test_data.rs:252-256 | an offspring node `k` has the population the split rule gives offspring `(k / 2) % pop_size` of its generation |
| Lockstep.ChildPopulationKeeps | src/test_data.rs:252-274 | the two nodes of offspring `i` of generation `t`, with the population the split rule gives `i`, keep every node's population tied to its offspring index |
| Lockstep.ClippedEdgesAppend | src/test_data.rs:313-315 | a new full edge adds exactly its clipped pieces, in order, at the end of the truncated edges |
| Lockstep.ClippedEdgesConcat | src/test_data.rs:313-315 | the truncated edges of a batch of full edges follow those of the earlier full edges, unchanged |
| Lockstep.ClippedEdgesComplete | src/test_data.rs:313-315 | no kept ancestry is lost: a point of a full edge inside a keep-interval is covered by a truncated edge between the same parent and child |
| Lockstep.MutationOnNodeKeeps | src/test_data.rs:305-306 | a mutation on an existing node at that node's time keeps every mutation on its node |
| Lockstep.FoundersOk | src/test_data.rs:226-241 | the founders (parentless individuals, ancestral non-sample nodes at `start_time`) satisfy the lock-step invariant |
| Lockstep.StartOk | src/test_data.rs:216-223 | the initial per-position vectors (counts 0, site ids and last mutations NULL, `floor(seqlen)` entries) satisfy the site invariant over empty records |
| Steps.FullSitesStep | src/test_data.rs:292-311 | the drawn mutation in the full record keeps both records' sites and mutations consistent, and is then the full record's newest mutation at `pos` |
| Steps.TruncatedEdgesStep | src/test_data.rs:313-315 | the segment's truncated edges are clipped from its full edge, the newest one |
| Steps.TruncatedSitesStep | src/test_data.rs:318-332 | a truncated copy of the mutation, made exactly when the mutation was drawn and its position is kept, keeps the records consistent and the mirror injective |
| Steps.SegmentKeeps | src/test_data.rs:278-333 | one segment (its full edge, its clipped truncated edges, the drawn mutation and its copy at a kept position) keeps both records consistent and in lock-step |
| Steps.DrawnParents | src/test_data.rs:258-260 | both parent pairs `find_parent` draws for an offspring are pairs of the previous generation's pool |
| Steps.OffspringSegmentsReady | src/test_data.rs:278-283 | all four segments are non-empty edges from a node of generation `t + 1` to one of generation `t`, and each mutation draw is in range |
| Steps.SegmentEdgesGrow | src/test_data.rs:278-284 | the full edges of the segments grow one segment per iteration |
| Steps.OffspringJoins | src/test_data.rs:268-274 | the offspring's two nodes, at time `t`, extend the band of generation `t`, and its node pair joins the pool being built |
| Steps.GenerationStarts | src/test_data.rs:246-247 | before the first offspring, the parents' pool is generation `t + 1`, the newest nodes, and no child exists |
| Steps.GenerationGrows | src/test_data.rs:247-337 | the records after offspring `i` are those before generation `t` followed by the individuals, node pairs (population by the split rule, sample iff `t == 0`) and four full edges per offspring of the first `i + 1` offspring, as functions of the draws |
| Steps.GenerationDone | src/test_data.rs:337-343 | after the last offspring, `children` (the next `parents`) is the pool of generation `t`, and all older nodes precede it |
| Steps.FinalSamples | src/test_data.rs:350-353 | the final pool's node ids are in bounds, and a node is a sample iff it is in the final pool |
| Tables.TableCollection.constructor | src/test_data.rs:199-202 | a new record of the given length with empty tables |
| Tables.TableCollection.AddPopulation | src/test_data.rs:48-52 | appends the population and returns its id, the old row count |
| Tables.TableCollection.AddIndividual | src/test_data.rs:63-65 | appends the individual with its parents and returns its id |
| Tables.TableCollection.AddNode | src/test_data.rs:103-122 | appends the node with its sample flag, time, population and individual, and returns its id |
| Tables.TableCollection.AddEdge | src/test_data.rs:124-134 | appends the edge and returns its id |
| Tables.TableCollection.AddSite | src/test_data.rs:299-300 | appends the site and returns its id |
| Tables.TableCollection.AddMutation | src/test_data.rs:305-307 | appends the mutation and returns its id |
| Simulation.NewRecord | src/test_data.rs:199-213 | a fresh record whose populations are "ancestor", "pop1" and "pop2" with ids ANCESTRAL, POP1 and POP2, and whose other tables are empty |
| Simulation.AddInd | src/test_data.rs:54-66 | appends an individual whose parents are the individuals of the two parent pairs' first nodes |
| Simulation.AddFounders | src/test_data.rs:226-241 | `pop_size` parentless individuals and `2 * pop_size` ancestral, non-sample nodes at `start_time`, identical in both records; the pool is the pairs `(2r, 2r + 1)` |
| Simulation.AddChild | src/test_data.rs:262-275 | the offspring's individual and two identical nodes (sample iff `t == 0`), appended identically to both records; the pair is the two new node ids |
| Simulation.PlaceMutation | src/test_data.rs:296-310 | the site is created iff the position has none, the new mutation's parent is the position's last mutation, and it becomes the last one |
| Simulation.RecordFull | src/test_data.rs:284-311 | the segment's full edge is appended; when the mutation is drawn it is placed and the position's count goes up by one; otherwise sites, mutations and vectors are unchanged |
| Simulation.RecordTruncated | src/test_data.rs:313-333 | the truncated edges are the clipped pieces; the mutation is copied iff it was drawn and its position lies in a keep-interval; otherwise nothing else changes |
| Simulation.AddSegment | src/test_data.rs:278-333 | one segment's full edge, mutation position, state and placement in both records; both records stay consistent and in lock-step |
| Simulation.AddSegments | src/test_data.rs:277-334 | the four segments `(0, b1, p1.0, c.0)`, `(b1, L, p1.1, c.0)`, `(0, b2, p2.0, c.1)`, `(b2, L, p2.1, c.1)` are appended as full edges in that order, and their clipped pieces as truncated edges in the same order; both records stay consistent and in lock-step |
| Simulation.AddChildOf | src/test_data.rs:252-275 | the offspring's population by the split rule, its individual and nodes in both records, and its node pair joins the generation's pool |
| Simulation.AddOffspring | src/test_data.rs:247-334 | the parents are the `find_parent` choices from the previous generation's pool; the records gain exactly the offspring's individual (parents from `add_ind`), its two nodes (population by the split rule, sample iff `t == 0`, ids the two next ones), its four full edges and their clipped pieces as truncated edges; both records stay consistent and every node keeps its population rule |
| Simulation.CollectSamples | src/test_data.rs:350-353 | the sample list is the final pool's node ids, pair by pair |
| Simulation.AddNextOffspring | src/test_data.rs:247-338 | one turn of the offspring loop: the individuals, nodes and full edges grow from the first `i` offspring's contents to the first `i + 1`'s, as functions of the draws; the offspring's node pair joins `children`, and the records stay consistent |
| Simulation.AddGeneration | src/test_data.rs:246-344 | `pop_size` offspring from the pool of generation `t + 1`: the records gain exactly the generation's individuals, node pairs and full edges as functions of the draws, and the clipped pieces of those edges as truncated edges; their node pairs, in order, form the pool of generation `t`; the individual count reaches `pop_size * (start_time - t + 1)` |
| Simulation.AddGenerations | src/test_data.rs:246-344 | after `start_time` generations the pool is generation 0, there are `pop_size * (start_time + 1)` individuals, every node keeps its population rule, and both records stay consistent |
| Simulation.StartRecords | src/test_data.rs:191-241 | two fresh, distinct records with their populations; every per-position vector has `floor(seqlen)` entries, counts 0 and site ids and last mutations NULL; no edge, site or mutation; `pop_size` parentless individuals and `2 * pop_size` ancestral non-sample nodes at `start_time`, identical in both records; the pool is the pairs `(2r, 2r + 1)` |
| Simulation.SimulateTwoTreeSequences | src/test_data.rs:180-353 | both records share individuals and nodes, all well formed, and every offspring node has the population the split rule gives its offspring index; full edges join consecutive generations; truncated edges are clipped full edges inside keep-intervals; sites and mutations are consistent and mirrored; `pop_size * (start_time + 1)` individuals; a node is a sample iff it is in the returned sample list |

## Left out

- Sorting, simplification, index building and the conversion to tree sequences
  (`src/test_data.rs:346-369`) are calls into the tskit C library. The model stops
  with the sample list and returns both records as they stand before these calls.
- `MyMeta` (`src/test_data.rs:14-46`) is a wrapper over UTF-8 string conversion.
  A population's metadata is modelled as its name.
- The random number generator and its seed (`src/test_data.rs:191`) are not
  modelled: every draw is an input, bounded as `gen_range` would bound it.
- The placement probability `min((e - s) * 0.01, 1.0)` (`src/test_data.rs:287-291`)
  is floating-point arithmetic feeding `gen_bool`. Only the boolean outcome is
  modelled.
- The `assert!`/`assert_eq!` panics and the range panics of `gen_range` are
  preconditions:
  - `split_time < start_time`;
  - an even `pop_size`;
  - sorted, disjoint keep-intervals;
  - `floor(seqlen) >= 2`;
  - a positive genome length for `TableCollection::new`.
  The `.unwrap()` calls on table operations are modelled as operations that always
  succeed.
- The saturation of `as usize` at `usize::MAX` for huge floats is not modelled,
  because positions in the model are bounded by the genome length.
- Integer widths are unbounded. No `usize` counter or node id is near its limit in
  a run that fits in memory.
- NaN and infinite positions are not modelled, because positions are exact reals.
- The five per-position `Vec`s are `seq` values in a `PositionVectors` datatype.
  The driver's helpers take them and return them updated, so update in place and
  aliasing are not captured. The truncated-record output buffer of
  `find_overlaps` is a fresh sequence per call rather than one reused `Vec`.
- Individual flags and location (always 0 and `None`) are not stored. Node flags
  are reduced to the sample bit. Times are kept as integers rather than `f64`.
- The population returned by `find_parent` is discarded by the driver. It is
  modelled and proved, but not used.
- Simulation.SimulateTwoTreeSequences: states the lock-step invariants, the
  population rule, the individual count and the sample list, not the records'
  contents as a function of the draws. AddGeneration states the individuals,
  nodes, full edges and truncated edges of each generation as such functions.
- Simulation.AddSegments: states the edges of both records exactly, but the sites,
  mutations and per-position vectors only through the invariants (`RecordsOk`).
  Each single segment's sites and mutations are stated exactly by AddSegment
  (`FullStep`, `TruncatedStep`). A closed form over several segments would have to
  replay the site bookkeeping of every earlier one.
- Simulation.AddOffspring: states individuals, nodes and edges exactly; sites,
  mutations and vectors only through the invariants, as for AddSegments.
- Simulation.AddNextOffspring: states individuals, nodes and full edges exactly;
  the truncated edges follow through `RecordsOk`; sites, mutations and vectors
  only through the invariants, as for AddOffspring.
- Simulation.AddGeneration: states individuals, nodes and edges exactly; sites,
  mutations and vectors only through the invariants, as for AddSegments.
- Simulation.AddGenerations: states the invariants, the final pool and the
  individual count, not the contents; AddGeneration states those generation by
  generation.
- `src/individual_table.rs`, `src/sys/site_table.rs`, `src/sys/migration_table.rs`,
  `src/sys/trait_impls.rs`, `tskit_rust_examples/tree_traversals.rs` and
  `testdata/gen_trees.py` are not part of this model. They are table accessors,
  C bindings, a command-line example and a fixture generator.
