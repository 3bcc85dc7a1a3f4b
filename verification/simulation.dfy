/**
  The driver `simulate_two_treesequences`: a two-population, diploid,
  recombining forward simulation that writes a full ancestry record and a
  truncated one (edges clipped to the keep-intervals) in lock-step. Every
  random draw is a parameter: `draws[t][i]` holds the draws made for
  offspring `i` of generation `t`. Line numbers in the comments below refer
  to `src/test_data.rs`.
*/
module Simulation {
  import opened Types
  import opened Overlaps
  import opened Samplers
  import opened Tables
  import opened Records
  import opened Lockstep
  import opened Steps

  /** The population names, in the order both records create them. */
  const POPULATION_NAMES: seq<string> := ["ancestor", "pop1", "pop2"]

  /** `src/test_data.rs`, lines 191-213: a record for `seqlen` with the populations "ancestor",
      "pop1" and "pop2", whose ids are ANCESTRAL, POP1 and POP2. */
  method NewRecord(seqlen: Position) returns (tables: TableCollection)
    requires seqlen > 0.0
    ensures fresh(tables) && tables.sequenceLength == seqlen
    ensures tables.populations == POPULATION_NAMES
    ensures tables.populations[ANCESTRAL] == "ancestor" && tables.populations[POP1] == "pop1" && tables.populations[POP2] == "pop2"
    ensures tables.individuals == [] && tables.nodes == [] && tables.edges == []
    ensures tables.sites == [] && tables.mutations == []
  {
    tables := new TableCollection(seqlen);
    var popAnc := tables.AddPopulation("ancestor");
    var pop1 := tables.AddPopulation("pop1");
    var pop2 := tables.AddPopulation("pop2");
    assert popAnc == ANCESTRAL && pop1 == POP1 && pop2 == POP2;
  }

  /** `add_ind`: a new individual whose parents are the individuals of the two
      parent pairs' first nodes. */
  method AddInd(tables: TableCollection, parent1: NodePair, parent2: NodePair) returns (id: int)
    requires 0 <= parent1.0 < |tables.nodes| && 0 <= parent2.0 < |tables.nodes|
    modifies tables`individuals
    ensures tables.individuals == old(tables.individuals) + [Individual([tables.nodes[parent1.0].individual, tables.nodes[parent2.0].individual])]
    ensures id == |old(tables.individuals)|
  {
    var parent1Ind := tables.nodes[parent1.0].individual;
    var parent2Ind := tables.nodes[parent2.0].individual;
    id := tables.AddIndividual([parent1Ind, parent2Ind]);
  }

  /** `src/test_data.rs`, lines 226-241: `pop_size` founders at `start_time`, each an individual
      without parents and two ancestral non-sample nodes, added identically to
      both records; the founders' node pairs form the first parent pool. */
  method AddFounders(tables: TableCollection, trTables: TableCollection, popSize: nat, startTime: nat)
    returns (parents: seq<NodePair>)
    requires tables != trTables
    requires tables.individuals == [] && tables.nodes == [] && trTables.individuals == [] && trTables.nodes == []
    modifies tables`individuals, tables`nodes, trTables`individuals, trTables`nodes
    ensures |parents| == popSize && forall r :: 0 <= r < popSize ==> parents[r] == (2 * r, 2 * r + 1)
    ensures |tables.individuals| == popSize && trTables.individuals == tables.individuals
    ensures forall r :: 0 <= r < popSize ==> tables.individuals[r] == Individual([])
    ensures |tables.nodes| == 2 * popSize && trTables.nodes == tables.nodes
    ensures forall k :: 0 <= k < |tables.nodes| ==> tables.nodes[k] == Node(false, startTime, ANCESTRAL, k / 2)
  {
    parents := [];
    for q := 0 to popSize
      invariant |parents| == q && forall r :: 0 <= r < q ==> parents[r] == (2 * r, 2 * r + 1)
      invariant |tables.individuals| == q && trTables.individuals == tables.individuals
      invariant forall r :: 0 <= r < q ==> tables.individuals[r] == Individual([])
      invariant |tables.nodes| == 2 * q && trTables.nodes == tables.nodes
      invariant forall k :: 0 <= k < |tables.nodes| ==> tables.nodes[k] == Node(false, startTime, ANCESTRAL, k / 2)
    {
      var parentInd := tables.AddIndividual([]);
      var _ := trTables.AddIndividual([]);
      var node0 := tables.AddNode(false, startTime, ANCESTRAL, parentInd);
      var node1 := tables.AddNode(false, startTime, ANCESTRAL, parentInd);
      parents := parents + [(node0, node1)];
      var _ := trTables.AddNode(false, startTime, ANCESTRAL, parentInd);
      var _ := trTables.AddNode(false, startTime, ANCESTRAL, parentInd);
    }
  }

  /** `src/test_data.rs`, lines 262-275: the offspring's individual and its two nodes, added
      identically to both records. */
  method AddChild(tables: TableCollection, trTables: TableCollection, parent1: NodePair, parent2: NodePair, t: nat, childPop: int)
    returns (child: NodePair)
    requires tables != trTables
    requires trTables.individuals == tables.individuals && trTables.nodes == tables.nodes
    requires 0 <= parent1.0 < |tables.nodes| && 0 <= parent2.0 < |tables.nodes|
    modifies tables`individuals, tables`nodes, trTables`individuals, trTables`nodes
    ensures var ind := Individual([old(tables.nodes)[parent1.0].individual, old(tables.nodes)[parent2.0].individual]);
            tables.individuals == old(tables.individuals) + [ind]
    ensures tables.nodes == old(tables.nodes) + [Node(t == 0, t, childPop, |old(tables.individuals)|), Node(t == 0, t, childPop, |old(tables.individuals)|)]
    ensures trTables.individuals == tables.individuals && trTables.nodes == tables.nodes
    ensures child == (|old(tables.nodes)|, |old(tables.nodes)| + 1)
  {
    var childInd := AddInd(tables, parent1, parent2);
    var _ := AddInd(trTables, parent1, parent2);
    var isSample := t == 0;
    var node0 := tables.AddNode(isSample, t, childPop, childInd);
    var node1 := tables.AddNode(isSample, t, childPop, childInd);
    child := (node0, node1);
    var _ := trTables.AddNode(isSample, t, childPop, childInd);
    var _ := trTables.AddNode(isSample, t, childPop, childInd);
  }

  /** `src/test_data.rs`, lines 296-310 (full record) and 319-331 (truncated record): create the
      site at `pos` if the record has none, add a mutation whose parent is the
      position's last mutation, and make it the last one. `siteIdMap` and
      `lastMutation` are the record's per-position vectors, returned updated. */
  method PlaceMutation(tables: TableCollection, siteIdMap: seq<int>, lastMutation: seq<int>,
                       pos: nat, node: int, time: int, derivedState: seq<Byte>)
    returns (siteIdMap': seq<int>, lastMutation': seq<int>)
    requires pos < |siteIdMap| == |lastMutation|
    modifies tables`sites, tables`mutations
    ensures Placed(old(tables.sites), old(tables.mutations), siteIdMap, lastMutation, pos, node, time, derivedState,
                   tables.sites, tables.mutations, siteIdMap', lastMutation')
  {
    siteIdMap', lastMutation' := siteIdMap, lastMutation;
    var siteNotExist := siteIdMap'[pos] == NULL;
    if siteNotExist {
      var newSite := tables.AddSite(pos, [STATE_A]);
      siteIdMap' := siteIdMap'[pos := newSite];
    }
    var parentMut := lastMutation'[pos];
    var site := siteIdMap'[pos];
    var newMutation := tables.AddMutation(site, node, parentMut, time, derivedState);
    lastMutation' := lastMutation'[pos := newMutation];
  }

  /** `src/test_data.rs`, lines 284 and 292-313: the segment's edge in the full record and, when a
      mutation is drawn, its site (created on first use) and its mutation, whose
      parent is the position's previous mutation; the position's count goes up by one. */
  method RecordFull(tables: TableCollection, v: PositionVectors, seg: Segment, t: nat, pos: nat, add: bool, ds: seq<Byte>)
    returns (v': PositionVectors)
    requires pos < |v.siteIdMapTables| == |v.siteLastMutationTables| == |v.siteLastMutationOrder|
    modifies tables`edges, tables`sites, tables`mutations
    ensures tables.edges == old(tables.edges) + [SegmentEdge(seg)]
    ensures FullStep(old(tables.sites), old(tables.mutations), v, pos, seg.child, t, ds, add, tables.sites, tables.mutations, v')
  {
    var _ := tables.AddEdge(seg.start, seg.end, seg.parent, seg.child);
    v' := v;
    if add {
      var siteIdMap, lastMutation := PlaceMutation(tables, v.siteIdMapTables, v.siteLastMutationTables, pos, seg.child, t, ds);
      v' := v.(siteIdMapTables := siteIdMap, siteLastMutationTables := lastMutation,
               siteLastMutationOrder := v.siteLastMutationOrder[pos := v.siteLastMutationOrder[pos] + 1]);
    }
  }

  /** `src/test_data.rs`, lines 315-332: `find_overlaps`, then for every piece the truncated edge
      and, when the drawn mutation lies in the piece, its copy in the truncated
      record. The pieces are ordered, so at most one of them holds the mutation,
      and together they hold the mutation exactly when its position is kept. */
  method RecordTruncated(trTables: TableCollection, intervals: seq<Interval>, v: PositionVectors,
                         seg: Segment, t: nat, pos: nat, add: bool, ds: seq<Byte>)
    returns (v': PositionVectors)
    requires SortedDisjoint(intervals)
    requires pos < |v.siteIdMapTrTbls| == |v.siteLastMutationTrTbls|
    requires seg.start <= pos as real < seg.end
    modifies trTables`edges, trTables`sites, trTables`mutations
    ensures trTables.edges == old(trTables.edges) + EdgesOf(Overlaps.Overlaps(seg.start, seg.end, intervals), seg.parent, seg.child)
    ensures TruncatedStep(old(trTables.sites), old(trTables.mutations), v, pos, seg.child, t, ds,
                          add && InUnion(pos as real, intervals), trTables.sites, trTables.mutations, v')
  {
    var buffer := FindOverlaps(seg.start, seg.end, intervals);
    var siteIdMap, lastMutation := v.siteIdMapTrTbls, v.siteLastMutationTrTbls;
    ghost var copied := false;
    var mutPosF := pos as real;
    for j := 0 to |buffer|
      invariant trTables.edges == old(trTables.edges) + EdgesOf(buffer[..j], seg.parent, seg.child)
      invariant copied <==> add && InUnion(mutPosF, buffer[..j])
      invariant copied ==> Placed(old(trTables.sites), old(trTables.mutations), v.siteIdMapTrTbls, v.siteLastMutationTrTbls,
                                  pos, seg.child, t, ds, trTables.sites, trTables.mutations, siteIdMap, lastMutation)
      invariant !copied ==> trTables.sites == old(trTables.sites) && trTables.mutations == old(trTables.mutations) &&
                            siteIdMap == v.siteIdMapTrTbls && lastMutation == v.siteLastMutationTrTbls
    {
      var (s_, e_) := buffer[j];
      var _ := trTables.AddEdge(s_, e_, seg.parent, seg.child);
      assert buffer[..j + 1] == buffer[..j] + [buffer[j]];
      InUnionAppend(mutPosF, buffer[..j], [buffer[j]]);
      assert InUnion(mutPosF, [buffer[j]]) <==> s_ <= mutPosF < e_ by {
        assert [buffer[j]][0] == buffer[j];
      }
      if add && s_ <= mutPosF && e_ > mutPosF {
        NotInEarlierPiece(mutPosF, buffer, j);
        siteIdMap, lastMutation := PlaceMutation(trTables, siteIdMap, lastMutation, pos, seg.child, t, ds);
        copied := true;
      }
    }
    assert buffer[..|buffer|] == buffer;
    OverlapsCover(seg.start, seg.end, intervals, mutPosF);
    v' := v.(siteIdMapTrTbls := siteIdMap, siteLastMutationTrTbls := lastMutation);
  }

  /** `src/test_data.rs`, lines 278-333 for one segment: the full edge, the mutation position and
      the state it would receive, the mutation in the full record when drawn,
      then the truncated edges and the mutation's copy when its position is kept;
      both records stay consistent and in lock-step. */
  method AddSegment(p: Parameters, tables: TableCollection, trTables: TableCollection, v: PositionVectors,
                    ghost ms: seq<nat>, ghost es: seq<nat>, seg: Segment, t: nat, draw: SegmentDraw)
    returns (pos: nat, ds: seq<Byte>, v': PositionVectors, ghost ms': seq<nat>, ghost es': seq<nat>)
    requires tables != trTables && SortedDisjoint(p.intervals)
    requires RecordsOk(p, v, ms, es, tables.individuals, tables.nodes, tables.edges, tables.sites, tables.mutations,
                        trTables.individuals, trTables.nodes, trTables.edges, trTables.sites, trTables.mutations)
    requires SegmentReady(seg, draw, tables.nodes, p.seqlen, t)
    modifies tables`edges, tables`sites, tables`mutations, trTables`edges, trTables`sites, trTables`mutations
    ensures RecordsOk(p, v', ms', es', tables.individuals, tables.nodes, tables.edges, tables.sites, tables.mutations,
                       trTables.individuals, trTables.nodes, trTables.edges, trTables.sites, trTables.mutations)
    ensures tables.edges == old(tables.edges) + [SegmentEdge(seg)]
    ensures trTables.edges == old(trTables.edges) + EdgesOf(Overlaps.Overlaps(seg.start, seg.end, p.intervals), seg.parent, seg.child)
    ensures pos == FindMutationPos(seg.start, seg.end, draw.offset)
    ensures ds == CalcDerivedState(v.siteLastMutationOrder, pos)
    ensures var v1 := v'.(siteIdMapTrTbls := v.siteIdMapTrTbls, siteLastMutationTrTbls := v.siteLastMutationTrTbls);
            FullStep(old(tables.sites), old(tables.mutations), v, pos, seg.child, t, ds, draw.addMutation,
                     tables.sites, tables.mutations, v1) &&
            TruncatedStep(old(trTables.sites), old(trTables.mutations), v1, pos, seg.child, t, ds,
                          draw.addMutation && InUnion(pos as real, p.intervals), trTables.sites, trTables.mutations, v')
  {
    pos := FindMutationPos(seg.start, seg.end, draw.offset);
    ds := CalcDerivedState(v.siteLastMutationOrder, pos);
    ghost var edges0, sites0, muts0 := tables.edges, tables.sites, tables.mutations;
    ghost var trEdges0, trSites0, trMuts0 := trTables.edges, trTables.sites, trTables.mutations;
    var v1 := RecordFull(tables, v, seg, t, pos, draw.addMutation, ds);
    v' := RecordTruncated(trTables, p.intervals, v1, seg, t, pos, draw.addMutation, ds);
    ms', es' := SegmentKeeps(p, v, ms, es, tables.individuals, tables.nodes, edges0, sites0, muts0,
                             trEdges0, trSites0, trMuts0, seg, t, pos, draw.addMutation, ds, v1,
                             tables.sites, tables.mutations, trTables.sites, trTables.mutations, v');
  }

  /** `src/test_data.rs`, lines 277-336: the four segments of an offspring whose parents are of
      generation `t + 1` and whose nodes are of generation `t`, in order. */
  method AddSegments(p: Parameters, tables: TableCollection, trTables: TableCollection, v: PositionVectors,
                     ghost ms: seq<nat>, ghost es: seq<nat>, parent1: NodePair, parent2: NodePair, child: NodePair,
                     t: nat, draw: OffspringDraw, ghost childPop: int)
    returns (v': PositionVectors, ghost ms': seq<nat>, ghost es': seq<nat>)
    requires tables != trTables && SortedDisjoint(p.intervals)
    requires RecordsOk(p, v, ms, es, tables.individuals, tables.nodes, tables.edges, tables.sites, tables.mutations,
                        trTables.individuals, trTables.nodes, trTables.edges, trTables.sites, trTables.mutations)
    requires ValidOffspringDraw(draw, p.seqlen, p.popSize, childPop)
    requires NodeAt(tables.nodes, parent1.0, t + 1) && NodeAt(tables.nodes, parent1.1, t + 1)
    requires NodeAt(tables.nodes, parent2.0, t + 1) && NodeAt(tables.nodes, parent2.1, t + 1)
    requires NodeAt(tables.nodes, child.0, t) && NodeAt(tables.nodes, child.1, t)
    modifies tables`edges, tables`sites, tables`mutations, trTables`edges, trTables`sites, trTables`mutations
    ensures RecordsOk(p, v', ms', es', tables.individuals, tables.nodes, tables.edges, tables.sites, tables.mutations,
                       trTables.individuals, trTables.nodes, trTables.edges, trTables.sites, trTables.mutations)
    ensures tables.edges == old(tables.edges) +
              SegmentEdges(Segments(p.seqlen, FindBreakpoint(p.seqlen, draw.breakpoint1), FindBreakpoint(p.seqlen, draw.breakpoint2),
                                    parent1, parent2, child))
    ensures trTables.edges == old(trTables.edges) +
              ClippedEdges(SegmentEdges(Segments(p.seqlen, FindBreakpoint(p.seqlen, draw.breakpoint1),
                                                 FindBreakpoint(p.seqlen, draw.breakpoint2), parent1, parent2, child)),
                           p.intervals)
  {
    var breakpoint1 := FindBreakpoint(p.seqlen, draw.breakpoint1);
    var breakpoint2 := FindBreakpoint(p.seqlen, draw.breakpoint2);
    var segments := Segments(p.seqlen, breakpoint1, breakpoint2, parent1, parent2, child);
    OffspringSegmentsReady(p, tables.nodes, parent1, parent2, child, t, draw, childPop);
    v', ms', es' := v, ms, es;
    for k := 0 to |segments|
      invariant tables.edges == old(tables.edges) + SegmentEdges(segments[..k])
      invariant RecordsOk(p, v', ms', es', tables.individuals, tables.nodes, tables.edges, tables.sites, tables.mutations,
                           trTables.individuals, trTables.nodes, trTables.edges, trTables.sites, trTables.mutations)
    {
      SegmentEdgesGrow(old(tables.edges), tables.edges, segments, k);
      var _, _, v1, ms1, es1 := AddSegment(p, tables, trTables, v', ms', es', segments[k], t, draw.segments[k]);
      v', ms', es' := v1, ms1, es1;
    }
    assert segments[..|segments|] == segments;
    ClippedEdgesConcat(old(tables.edges), SegmentEdges(segments), p.intervals);
  }

  /** `src/test_data.rs`, lines 262-275 for offspring `i` of generation `t`, whose parents are
      nodes of generation `t + 1`: its individual and its two nodes in both
      records. */
  method AddChildOf(p: Parameters, tables: TableCollection, trTables: TableCollection, ghost es: seq<nat>,
                    ghost parents: seq<NodePair>, ghost first: int, ghost mid: int, ghost children: seq<NodePair>,
                    parent1: NodePair, parent2: NodePair, t: nat, i: nat)
    returns (child: NodePair)
    requires tables != trTables && t < p.startTime && i < p.popSize
    requires |tables.individuals| == BatchTotal(p.popSize, p.startTime - t) + i
    requires AncestryOk(p, tables.individuals, tables.nodes, tables.edges, trTables.individuals, trTables.nodes, trTables.edges, es)
    requires MutationsOnNodes(tables.nodes, tables.mutations, trTables.mutations)
    requires NodeAt(tables.nodes, parent1.0, t + 1) && NodeAt(tables.nodes, parent1.1, t + 1)
    requires NodeAt(tables.nodes, parent2.0, t + 1) && NodeAt(tables.nodes, parent2.1, t + 1)
    requires Layout(tables.nodes, first, mid, parents, children, t)
    requires OffspringPopulations(tables.nodes, p)
    modifies tables`individuals, tables`nodes, trTables`individuals, trTables`nodes
    ensures AncestryOk(p, tables.individuals, tables.nodes, tables.edges, trTables.individuals, trTables.nodes, trTables.edges, es)
    ensures MutationsOnNodes(tables.nodes, tables.mutations, trTables.mutations)
    ensures NodeAt(tables.nodes, parent1.0, t + 1) && NodeAt(tables.nodes, parent1.1, t + 1)
    ensures NodeAt(tables.nodes, parent2.0, t + 1) && NodeAt(tables.nodes, parent2.1, t + 1)
    ensures NodeAt(tables.nodes, child.0, t) && NodeAt(tables.nodes, child.1, t)
    ensures child == (|old(tables.nodes)|, |old(tables.nodes)| + 1)
    ensures tables.individuals == old(tables.individuals) +
              [Individual([old(tables.nodes)[parent1.0].individual, old(tables.nodes)[parent2.0].individual])]
    ensures var n := Node(t == 0, t, ChildPopulation(t, p.splitTime, i, p.popSize), |old(tables.individuals)|);
            tables.nodes == old(tables.nodes) + [n, n]
    ensures Layout(tables.nodes, first, mid, parents, children + [child], t)
    ensures OffspringPopulations(tables.nodes, p)
  {
    var childPop := ChildPopulation(t, p.splitTime, i, p.popSize);
    ghost var inds0, nodes0 := tables.individuals, tables.nodes;
    ghost var n := Node(t == 0, t, childPop, |inds0|);
    child := AddChild(tables, trTables, parent1, parent2, t, childPop);
    ChildKeeps(p, inds0, nodes0, tables.edges, trTables.edges, es, tables.mutations, trTables.mutations,
               parent1, parent2, t, i, tables.individuals, tables.nodes);
    OffspringJoins(nodes0, first, mid, parents, children, n, t, tables.nodes);
    ChildPopulationKeeps(p, nodes0, n, t, i, tables.nodes);
  }

  /** `src/test_data.rs`, lines 247-337 for offspring `i` of generation `t`: its breakpoints, its
      population, its two parents drawn from the pool of generation `t + 1`,
      its individual and nodes, and the edges of its four segments. */
  method AddOffspring(p: Parameters, tables: TableCollection, trTables: TableCollection, v: PositionVectors,
                      ghost ms: seq<nat>, ghost es: seq<nat>, parents: seq<NodePair>,
                      ghost first: int, ghost mid: int, ghost children: seq<NodePair>,
                      t: nat, i: nat, draws: seq<OffspringDraw>)
    returns (child: NodePair, parent1: NodePair, parent2: NodePair, v': PositionVectors, ghost ms': seq<nat>, ghost es': seq<nat>)
    requires tables != trTables && ParametersOk(p)
    requires RecordsOk(p, v, ms, es, tables.individuals, tables.nodes, tables.edges, tables.sites, tables.mutations,
                        trTables.individuals, trTables.nodes, trTables.edges, trTables.sites, trTables.mutations)
    requires |parents| == p.popSize && i < p.popSize && t < p.startTime
    requires |tables.individuals| == BatchTotal(p.popSize, p.startTime - t) + i
    requires Layout(tables.nodes, first, mid, parents, children, t)
    requires ValidGeneration(draws, p, t) && OffspringPopulations(tables.nodes, p)
    modifies tables`individuals, tables`nodes, tables`edges, tables`sites, tables`mutations
    modifies trTables`individuals, trTables`nodes, trTables`edges, trTables`sites, trTables`mutations
    ensures RecordsOk(p, v', ms', es', tables.individuals, tables.nodes, tables.edges, tables.sites, tables.mutations,
                       trTables.individuals, trTables.nodes, trTables.edges, trTables.sites, trTables.mutations)
    ensures (parent1, parent2) == DrawnParents(p, parents, t, i, draws[i])
    ensures NodeAt(old(tables.nodes), parent1.0, t + 1) && NodeAt(old(tables.nodes), parent2.0, t + 1)
    ensures child == (|old(tables.nodes)|, |old(tables.nodes)| + 1)
    ensures tables.individuals == old(tables.individuals) + [OffspringIndividual(p, parents, t, i, draws[i])]
    ensures var n := Node(t == 0, t, ChildPopulation(t, p.splitTime, i, p.popSize), |old(tables.individuals)|);
            tables.nodes == old(tables.nodes) + [n, n]
    ensures tables.edges == old(tables.edges) + OffspringEdges(p, parents, t, i, draws[i], child)
    ensures trTables.edges == old(trTables.edges) + ClippedEdges(OffspringEdges(p, parents, t, i, draws[i], child), p.intervals)
    ensures Layout(tables.nodes, first, mid, parents, children + [child], t)
    ensures OffspringPopulations(tables.nodes, p)
  {
    var childPop := ChildPopulation(t, p.splitTime, i, p.popSize);
    var draw := draws[i];
    parent1 := FindParent(parents, childPop, draw.parent1.migrate, draw.parent1.offset).choice.parent;
    parent2 := FindParent(parents, childPop, draw.parent2.migrate, draw.parent2.offset).choice.parent;
    assert NodeOk(tables.nodes[parent1.0], parent1.0, p) && NodeOk(tables.nodes[parent2.0], parent2.0, p);
    child := AddChildOf(p, tables, trTables, es, parents, first, mid, children, parent1, parent2, t, i);
    v', ms', es' := AddSegments(p, tables, trTables, v, ms, es, parent1, parent2, child, t, draw, childPop);
    ClippedEdgesConcat(old(tables.edges), OffspringEdges(p, parents, t, i, draws[i], child), p.intervals);
  }

  /** `src/test_data.rs`, lines 350-353: the sample list is the node ids of the final pool. */
  method CollectSamples(parents: seq<NodePair>) returns (samples: seq<int>)
    ensures samples == PoolNodes(parents)
  {
    samples := [];
    for i := 0 to |parents|
      invariant samples == PoolNodes(parents[..i])
    {
      assert parents[..i + 1][..i] == parents[..i];
      samples := samples + [parents[i].0, parents[i].1];
    }
    assert parents[..|parents|] == parents;
  }

  /** Offspring `i` of generation `t` joins those before it. */
  method AddNextOffspring(p: Parameters, tables: TableCollection, trTables: TableCollection, v: PositionVectors,
                          ghost ms: seq<nat>, ghost es: seq<nat>, parents: seq<NodePair>,
                          ghost first: int, ghost mid: int, children: seq<NodePair>,
                          t: nat, i: nat, draws: seq<OffspringDraw>,
                          ghost inds0: seq<Individual>, ghost nodes0: seq<Node>, ghost edges0: seq<Edge>)
    returns (children': seq<NodePair>, v': PositionVectors, ghost ms': seq<nat>, ghost es': seq<nat>)
    requires tables != trTables && ParametersOk(p)
    requires |parents| == p.popSize && t < p.startTime && ValidGeneration(draws, p, t) && i < p.popSize
    requires |inds0| == BatchTotal(p.popSize, p.startTime - t) && |nodes0| == mid
    requires RecordsOk(p, v, ms, es, tables.individuals, tables.nodes, tables.edges, tables.sites, tables.mutations,
                        trTables.individuals, trTables.nodes, trTables.edges, trTables.sites, trTables.mutations)
    requires |children| == i && Layout(tables.nodes, first, mid, parents, children, t)
    requires OffspringPopulations(tables.nodes, p)
    requires tables.individuals == inds0 + GenerationIndividuals(p, parents, t, draws, i)
    requires tables.nodes == nodes0 + GenerationNodes(p, t, |inds0|, i)
    requires tables.edges == edges0 + GenerationEdges(p, parents, t, draws, mid, i)
    modifies tables`individuals, tables`nodes, tables`edges, tables`sites, tables`mutations
    modifies trTables`individuals, trTables`nodes, trTables`edges, trTables`sites, trTables`mutations
    ensures RecordsOk(p, v', ms', es', tables.individuals, tables.nodes, tables.edges, tables.sites, tables.mutations,
                       trTables.individuals, trTables.nodes, trTables.edges, trTables.sites, trTables.mutations)
    ensures |children'| == i + 1 && Layout(tables.nodes, first, mid, parents, children', t)
    ensures OffspringPopulations(tables.nodes, p)
    ensures tables.individuals == inds0 + GenerationIndividuals(p, parents, t, draws, i + 1)
    ensures tables.nodes == nodes0 + GenerationNodes(p, t, |inds0|, i + 1)
    ensures tables.edges == edges0 + GenerationEdges(p, parents, t, draws, mid, i + 1)
  {
    ghost var inds1, nodes1, edges1 := tables.individuals, tables.nodes, tables.edges;
    var child, parent1, parent2;
    child, parent1, parent2, v', ms', es' := AddOffspring(p, tables, trTables, v, ms, es, parents, first, mid, children, t, i, draws);
    GenerationGrows(p, parents, t, draws, mid, i, inds0, nodes0, edges0, inds1, nodes1, edges1, child,
                    tables.individuals, tables.nodes, tables.edges);
    children' := children + [child];
  }

  /** `src/test_data.rs`, lines 244-343 for generation `t`: `pop_size` offspring drawn from the
      pool of generation `t + 1`, in order. The parents' pool is the newest
      band of nodes, from `first` on; the offspring's node pairs form the
      pool of generation `t`, the band that follows it. */
  method AddGeneration(p: Parameters, tables: TableCollection, trTables: TableCollection, v: PositionVectors,
                       ghost ms: seq<nat>, ghost es: seq<nat>, parents: seq<NodePair>, ghost first: int,
                       t: nat, draws: seq<OffspringDraw>)
    returns (children: seq<NodePair>, v': PositionVectors, ghost ms': seq<nat>, ghost es': seq<nat>)
    requires tables != trTables && ParametersOk(p)
    requires RecordsOk(p, v, ms, es, tables.individuals, tables.nodes, tables.edges, tables.sites, tables.mutations,
                        trTables.individuals, trTables.nodes, trTables.edges, trTables.sites, trTables.mutations)
    requires |parents| == p.popSize && t < p.startTime && ValidGeneration(draws, p, t)
    requires Generation(tables.nodes, first, parents, t + 1)
    requires |tables.individuals| == BatchTotal(p.popSize, p.startTime - t) && OffspringPopulations(tables.nodes, p)
    modifies tables`individuals, tables`nodes, tables`edges, tables`sites, tables`mutations
    modifies trTables`individuals, trTables`nodes, trTables`edges, trTables`sites, trTables`mutations
    ensures RecordsOk(p, v', ms', es', tables.individuals, tables.nodes, tables.edges, tables.sites, tables.mutations,
                       trTables.individuals, trTables.nodes, trTables.edges, trTables.sites, trTables.mutations)
    ensures |children| == p.popSize && Generation(tables.nodes, |old(tables.nodes)|, children, t)
    ensures |tables.individuals| == BatchTotal(p.popSize, p.startTime - t + 1) && OffspringPopulations(tables.nodes, p)
    ensures tables.individuals == old(tables.individuals) + GenerationIndividuals(p, parents, t, draws, p.popSize)
    ensures tables.nodes == old(tables.nodes) + GenerationNodes(p, t, |old(tables.individuals)|, p.popSize)
    ensures tables.edges == old(tables.edges) + GenerationEdges(p, parents, t, draws, |old(tables.nodes)|, p.popSize)
    ensures trTables.edges == old(trTables.edges) + ClippedEdges(GenerationEdges(p, parents, t, draws, |old(tables.nodes)|, p.popSize), p.intervals)
  {
    GenerationStarts(tables.nodes, first, parents, t);
    ghost var inds0, nodes0, edges0 := tables.individuals, tables.nodes, tables.edges;
    ghost var mid := |nodes0|;
    children := [];
    v', ms', es' := v, ms, es;
    for i := 0 to p.popSize
      invariant RecordsOk(p, v', ms', es', tables.individuals, tables.nodes, tables.edges, tables.sites, tables.mutations,
                           trTables.individuals, trTables.nodes, trTables.edges, trTables.sites, trTables.mutations)
      invariant |children| == i && Layout(tables.nodes, first, mid, parents, children, t)
      invariant OffspringPopulations(tables.nodes, p)
      invariant tables.individuals == inds0 + GenerationIndividuals(p, parents, t, draws, i)
      invariant tables.nodes == nodes0 + GenerationNodes(p, t, |inds0|, i)
      invariant tables.edges == edges0 + GenerationEdges(p, parents, t, draws, mid, i)
    {
      children, v', ms', es' := AddNextOffspring(p, tables, trTables, v', ms', es', parents, first, mid, children, t, i, draws,
                                                 inds0, nodes0, edges0);
    }
    GenerationDone(tables.nodes, first, mid, parents, children, t);
    ClippedEdgesConcat(edges0, GenerationEdges(p, parents, t, draws, mid, p.popSize), p.intervals);
  }

  /** Founder pair `r` of the pool is the node pair `(2r, 2r + 1)`. */
  ghost predicate FounderPair(parents: seq<NodePair>, r: int)
  {
    0 <= r < |parents| && parents[r] == (2 * r, 2 * r + 1)
  }

  /** Founder `r` is an individual without parents. */
  ghost predicate FounderIndividual(inds: seq<Individual>, r: int)
  {
    0 <= r < |inds| && inds[r] == Individual([])
  }

  /** Node `k` is an ancestral, non-sample node of founder `k / 2` at `start_time`. */
  ghost predicate FounderNode(p: Parameters, nodes: seq<Node>, k: int)
  {
    0 <= k < |nodes| && nodes[k] == Node(false, p.startTime, ANCESTRAL, k / 2)
  }

  /** `src/test_data.rs`, lines 191-241: both records with their populations, the per-position
      vectors with every count 0 and no site or mutation, and the founders. */
  method StartRecords(p: Parameters)
    returns (tables: TableCollection, trTables: TableCollection, v: PositionVectors, parents: seq<NodePair>)
    requires ParametersOk(p)
    ensures fresh(tables) && fresh(trTables) && tables != trTables
    ensures tables.populations == POPULATION_NAMES && trTables.populations == POPULATION_NAMES
    ensures RecordsOk(p, v, [], [], tables.individuals, tables.nodes, tables.edges, tables.sites, tables.mutations,
                       trTables.individuals, trTables.nodes, trTables.edges, trTables.sites, trTables.mutations)
    ensures |parents| == p.popSize && Generation(tables.nodes, 0, parents, p.startTime)
    ensures |tables.individuals| == p.popSize && OffspringPopulations(tables.nodes, p)
    ensures v.siteLastMutationOrder == seq(Ticks(p.seqlen), _ => 0)
    ensures v.siteLastMutationTables == seq(Ticks(p.seqlen), _ => NULL) && v.siteLastMutationTrTbls == seq(Ticks(p.seqlen), _ => NULL)
    ensures v.siteIdMapTables == seq(Ticks(p.seqlen), _ => NULL) && v.siteIdMapTrTbls == seq(Ticks(p.seqlen), _ => NULL)
    ensures tables.edges == [] && tables.sites == [] && tables.mutations == []
    ensures trTables.edges == [] && trTables.sites == [] && trTables.mutations == []
    ensures forall r :: 0 <= r < p.popSize ==> FounderPair(parents, r)
    ensures trTables.individuals == tables.individuals && forall r :: 0 <= r < p.popSize ==> FounderIndividual(tables.individuals, r)
    ensures |tables.nodes| == 2 * p.popSize && trTables.nodes == tables.nodes
    ensures forall k :: 0 <= k < |tables.nodes| ==> FounderNode(p, tables.nodes, k)
  {
    tables := NewRecord(p.seqlen);
    trTables := NewRecord(p.seqlen);
    var numSites := Ticks(p.seqlen);
    v := PositionVectors(seq(numSites, _ => 0), seq(numSites, _ => NULL), seq(numSites, _ => NULL),
                         seq(numSites, _ => NULL), seq(numSites, _ => NULL));
    StartOk(p, v);
    parents := AddFounders(tables, trTables, p.popSize, p.startTime);
    FoundersOk(p, tables.individuals, tables.nodes);
  }

  /** `src/test_data.rs`, lines 244-344: the `start_time` generations, from `start_time - 1` down
      to 0, each bred from the pool of the generation before it; the last
      pool is generation 0. */
  method AddGenerations(p: Parameters, tables: TableCollection, trTables: TableCollection, v: PositionVectors,
                        ghost ms: seq<nat>, ghost es: seq<nat>, parents: seq<NodePair>, draws: seq<seq<OffspringDraw>>)
    returns (pool: seq<NodePair>, v': PositionVectors, ghost ms': seq<nat>, ghost es': seq<nat>, ghost first: int)
    requires tables != trTables && ParametersOk(p) && ValidDraws(draws, p)
    requires RecordsOk(p, v, ms, es, tables.individuals, tables.nodes, tables.edges, tables.sites, tables.mutations,
                        trTables.individuals, trTables.nodes, trTables.edges, trTables.sites, trTables.mutations)
    requires |parents| == p.popSize && Generation(tables.nodes, 0, parents, p.startTime)
    requires |tables.individuals| == BatchTotal(p.popSize, 1) && OffspringPopulations(tables.nodes, p)
    modifies tables`individuals, tables`nodes, tables`edges, tables`sites, tables`mutations
    modifies trTables`individuals, trTables`nodes, trTables`edges, trTables`sites, trTables`mutations
    ensures RecordsOk(p, v', ms', es', tables.individuals, tables.nodes, tables.edges, tables.sites, tables.mutations,
                       trTables.individuals, trTables.nodes, trTables.edges, trTables.sites, trTables.mutations)
    ensures |pool| == p.popSize && Generation(tables.nodes, first, pool, 0)
    ensures |tables.individuals| == BatchTotal(p.popSize, p.startTime + 1) && OffspringPopulations(tables.nodes, p)
  {
    pool, v', ms', es', first := parents, v, ms, es, 0;
    for t := p.startTime downto 0
      invariant RecordsOk(p, v', ms', es', tables.individuals, tables.nodes, tables.edges, tables.sites, tables.mutations,
                           trTables.individuals, trTables.nodes, trTables.edges, trTables.sites, trTables.mutations)
      invariant |pool| == p.popSize && Generation(tables.nodes, first, pool, t) && OffspringPopulations(tables.nodes, p)
      invariant |tables.individuals| == BatchTotal(p.popSize, p.startTime - t + 1)
    {
      var children;
      ghost var mid := |tables.nodes|;
      children, v', ms', es' := AddGeneration(p, tables, trTables, v', ms', es', pool, first, t, draws[t]);
      pool, first := children, mid;
    }
  }

  /** `simulate_two_treesequences`, lines 180-353: the founders, then
      `start_time` generations of `pop_size` offspring each, written to both
      records in lock-step, and the final generation's nodes as samples. */
  method SimulateTwoTreeSequences(p: Parameters, draws: seq<seq<OffspringDraw>>)
    returns (tables: TableCollection, trTables: TableCollection, samples: seq<int>,
             ghost vectors: PositionVectors, ghost mutationSource: seq<nat>, ghost edgeSource: seq<nat>)
    requires ParametersOk(p) && ValidDraws(draws, p)
    ensures tables.populations == POPULATION_NAMES && trTables.populations == POPULATION_NAMES
    ensures RecordsOk(p, vectors, mutationSource, edgeSource, tables.individuals, tables.nodes, tables.edges, tables.sites, tables.mutations,
                      trTables.individuals, trTables.nodes, trTables.edges, trTables.sites, trTables.mutations)
    ensures OffspringPopulations(tables.nodes, p)
    ensures |tables.individuals| == p.popSize * (p.startTime + 1)
    ensures |samples| == 2 * p.popSize
    ensures forall x :: x in samples ==> 0 <= x < |tables.nodes|
    ensures forall k :: 0 <= k < |tables.nodes| ==> (tables.nodes[k].isSample <==> k in samples)
  {
    var v, parents;
    tables, trTables, v, parents := StartRecords(p);
    ghost var first;
    parents, vectors, mutationSource, edgeSource, first := AddGenerations(p, tables, trTables, v, [], [], parents, draws);
    samples := CollectSamples(parents);
    FinalSamples(tables.individuals, tables.nodes, p, parents, first);
    BatchTotalIsProduct(p.popSize, p.startTime + 1);
  }
}
