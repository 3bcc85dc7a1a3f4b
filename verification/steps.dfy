/**
  One segment of one offspring, as the driver records it: what the full and
  the truncated record gain (`src/test_data.rs`, lines 284-332), and the lemmas that show both
  records stay in lock-step across it. Line numbers in the comments below
  refer to `src/test_data.rs`.
*/
module Steps {
  import opened Types
  import opened Overlaps
  import opened Samplers
  import opened Records
  import opened Lockstep

  /** The full record's sites and mutations and the per-position vectors after
      the segment's mutation draw: the drawn mutation is placed when `add` holds,
      and the position's count goes up by one; nothing changes otherwise. The
      truncated record's vectors are left alone. */
  ghost predicate FullStep(sites: seq<Site>, muts: seq<Mutation>, v: PositionVectors,
                           pos: nat, node: int, time: int, ds: seq<Byte>, add: bool,
                           sites': seq<Site>, muts': seq<Mutation>, v': PositionVectors)
  {
    pos < |v.siteIdMapTables| == |v.siteLastMutationTables| == |v.siteLastMutationOrder| &&
    v'.siteIdMapTrTbls == v.siteIdMapTrTbls && v'.siteLastMutationTrTbls == v.siteLastMutationTrTbls &&
    (add ==>
      Placed(sites, muts, v.siteIdMapTables, v.siteLastMutationTables, pos, node, time, ds,
             sites', muts', v'.siteIdMapTables, v'.siteLastMutationTables) &&
      v'.siteLastMutationOrder == v.siteLastMutationOrder[pos := v.siteLastMutationOrder[pos] + 1]) &&
    (!add ==> sites' == sites && muts' == muts && v' == v)
  }

  /** The truncated record's sites and mutations and the per-position vectors
      after the segment: the drawn mutation is copied when `kept` holds; the
      full record's vectors are left alone. */
  ghost predicate TruncatedStep(trSites: seq<Site>, trMuts: seq<Mutation>, v: PositionVectors,
                                pos: nat, node: int, time: int, ds: seq<Byte>, kept: bool,
                                trSites': seq<Site>, trMuts': seq<Mutation>, v': PositionVectors)
  {
    pos < |v.siteIdMapTrTbls| == |v.siteLastMutationTrTbls| &&
    v'.siteIdMapTables == v.siteIdMapTables && v'.siteLastMutationTables == v.siteLastMutationTables &&
    v'.siteLastMutationOrder == v.siteLastMutationOrder &&
    (kept ==>
      Placed(trSites, trMuts, v.siteIdMapTrTbls, v.siteLastMutationTrTbls, pos, node, time, ds,
             trSites', trMuts', v'.siteIdMapTrTbls, v'.siteLastMutationTrTbls)) &&
    (!kept ==> trSites' == trSites && trMuts' == trMuts && v' == v)
  }

  /** What a segment needs to be recorded: a well-formed full edge from a node
      of generation `t + 1` to a node of generation `t`, and a mutation-position
      draw inside the segment's range. */
  ghost predicate SegmentReady(seg: Segment, draw: SegmentDraw, nodes: seq<Node>, seqlen: Position, t: nat)
  {
    EdgeOk(SegmentEdge(seg), nodes, seqlen) && nodes[seg.child].time == t &&
    FirstTick(seg.start) + draw.offset < Ticks(seg.end)
  }

  /** The drawn mutation in the full record (lines 292-313) keeps the records
      consistent and is left as the full record's newest mutation. */
  lemma FullSitesStep(p: Parameters, nodes: seq<Node>, sites: seq<Site>, muts: seq<Mutation>,
                      trSites: seq<Site>, trMuts: seq<Mutation>, v: PositionVectors, ms: seq<nat>,
                      seg: Segment, t: nat, pos: nat, add: bool, ds: seq<Byte>,
                      sites': seq<Site>, muts': seq<Mutation>, v': PositionVectors)
    requires VariantsOk(p, v, sites, muts, trSites, trMuts, ms)
    requires MutationsOnNodes(nodes, muts, trMuts)
    requires 0 <= seg.child < |nodes| && nodes[seg.child].time == t
    requires pos < Ticks(p.seqlen) && ds == CalcDerivedState(v.siteLastMutationOrder, pos)
    requires FullStep(sites, muts, v, pos, seg.child, t, ds, add, sites', muts', v')
    ensures VariantsOk(p, v', sites', muts', trSites, trMuts, ms)
    ensures MutationsOnNodes(nodes, muts', trMuts)
    ensures add ==> NewestAt(sites', muts', ms, pos, seg.child, t, ds) && v'.siteIdMapTables[pos] != NULL
    ensures sites <= sites' && muts <= muts'
    ensures add ==> |muts'| == |muts| + 1
    ensures !add ==> muts' == muts
  {
    if add {
      PlaceFullKeeps(sites, muts, v.siteIdMapTables, v.siteLastMutationTables, v.siteLastMutationOrder,
                     trSites, trMuts, ms, p.intervals, pos, seg.child, t,
                     sites', muts', v'.siteIdMapTables, v'.siteLastMutationTables);
      MutationOnNodeKeeps(muts, nodes, muts'[|muts|]);
    }
  }

  /** The truncated edges of a segment (lines 315-318) are clipped from the
      segment's full edge, the newest one. */
  lemma TruncatedEdgesStep(p: Parameters, inds: seq<Individual>, nodes: seq<Node>, trInds: seq<Individual>, trNodes: seq<Node>,
                           edges: seq<Edge>, trEdges: seq<Edge>, es: seq<nat>, seg: Segment, trEdges': seq<Edge>)
    returns (es': seq<nat>)
    requires AncestryOk(p, inds, nodes, edges, trInds, trNodes, trEdges, es)
    requires SortedDisjoint(p.intervals)
    requires |edges| > 0 && edges[|edges| - 1] == SegmentEdge(seg)
    requires trEdges' == trEdges + EdgesOf(Overlaps.Overlaps(seg.start, seg.end, p.intervals), seg.parent, seg.child)
    ensures AncestryOk(p, inds, nodes, edges, trInds, trNodes, trEdges', es')
  {
    var q := |edges| - 1;
    TruncatedEdgesKeep(p, inds, nodes, edges, trEdges, es, q);
    es' := es + seq(|Overlaps.Overlaps(seg.start, seg.end, p.intervals)|, _ => q);
  }

  /** The copy of the drawn mutation in the truncated record (lines 319-331),
      made exactly when its position is kept, repeats the full record's newest
      mutation. */
  lemma TruncatedSitesStep(p: Parameters, nodes: seq<Node>, sites: seq<Site>, muts: seq<Mutation>,
                           trSites: seq<Site>, trMuts: seq<Mutation>, v: PositionVectors, ms: seq<nat>,
                           seg: Segment, t: nat, pos: nat, add: bool, ds: seq<Byte>,
                           trSites': seq<Site>, trMuts': seq<Mutation>, v': PositionVectors)
    returns (ms': seq<nat>)
    requires VariantsOk(p, v, sites, muts, trSites, trMuts, ms)
    requires MutationsOnNodes(nodes, muts, trMuts)
    requires 0 <= seg.child < |nodes| && nodes[seg.child].time == t
    requires add ==> NewestAt(sites, muts, ms, pos, seg.child, t, ds) && pos < |v.siteIdMapTables| && v.siteIdMapTables[pos] != NULL
    requires TruncatedStep(trSites, trMuts, v, pos, seg.child, t, ds, add && InUnion(pos as real, p.intervals), trSites', trMuts', v')
    ensures VariantsOk(p, v', sites, muts, trSites', trMuts', ms')
    ensures MutationsOnNodes(nodes, muts, trMuts')
    ensures ms' == if add && InUnion(pos as real, p.intervals) then ms + [|muts| - 1] else ms
  {
    ms' := ms;
    if add && InUnion(pos as real, p.intervals) {
      PlaceTruncatedKeeps(sites, muts, v.siteIdMapTables, trSites, trMuts, v.siteIdMapTrTbls, v.siteLastMutationTrTbls,
                          ms, p.intervals, pos, seg.child, t, ds, trSites', trMuts', v'.siteIdMapTrTbls, v'.siteLastMutationTrTbls);
      MutationOnNodeKeeps(trMuts, nodes, trMuts'[|trMuts|]);
      ms' := ms + [|muts| - 1];
    }
  }

  /** One segment (lines 284-332) keeps both records consistent and in
      lock-step: its full edge, its truncated edges, the drawn mutation and
      its copy at a kept position. */
  lemma SegmentKeeps(p: Parameters, v: PositionVectors, ms: seq<nat>, es: seq<nat>,
                     inds: seq<Individual>, nodes: seq<Node>, edges: seq<Edge>, sites: seq<Site>, muts: seq<Mutation>,
                     trEdges: seq<Edge>, trSites: seq<Site>, trMuts: seq<Mutation>,
                     seg: Segment, t: nat, pos: nat, add: bool, ds: seq<Byte>, v1: PositionVectors,
                     sites': seq<Site>, muts': seq<Mutation>, trSites': seq<Site>, trMuts': seq<Mutation>, v': PositionVectors)
    returns (ms': seq<nat>, es': seq<nat>)
    requires SortedDisjoint(p.intervals)
    requires RecordsOk(p, v, ms, es, inds, nodes, edges, sites, muts, inds, nodes, trEdges, trSites, trMuts)
    requires EdgeOk(SegmentEdge(seg), nodes, p.seqlen) && nodes[seg.child].time == t
    requires pos < Ticks(p.seqlen) && ds == CalcDerivedState(v.siteLastMutationOrder, pos)
    requires FullStep(sites, muts, v, pos, seg.child, t, ds, add, sites', muts', v1)
    requires TruncatedStep(trSites, trMuts, v1, pos, seg.child, t, ds, add && InUnion(pos as real, p.intervals), trSites', trMuts', v')
    ensures RecordsOk(p, v', ms', es', inds, nodes, edges + [SegmentEdge(seg)], sites', muts', inds, nodes,
                      trEdges + EdgesOf(Overlaps.Overlaps(seg.start, seg.end, p.intervals), seg.parent, seg.child),
                      trSites', trMuts')
  {
    var edges' := edges + [SegmentEdge(seg)];
    FullEdgeKeeps(p, inds, nodes, edges, trEdges, es, SegmentEdge(seg));
    FullSitesStep(p, nodes, sites, muts, trSites, trMuts, v, ms, seg, t, pos, add, ds, sites', muts', v1);
    es' := TruncatedEdgesStep(p, inds, nodes, inds, nodes, edges', trEdges, es, seg,
                              trEdges + EdgesOf(Overlaps.Overlaps(seg.start, seg.end, p.intervals), seg.parent, seg.child));
    ms' := TruncatedSitesStep(p, nodes, sites', muts', trSites, trMuts, v1, ms, seg, t, pos, add, ds, trSites', trMuts', v');
    ClippedEdgesAppend(edges, SegmentEdge(seg), p.intervals);
    CopiesKeptStep(sites, muts, ms, p.intervals, sites', muts', ms', pos, add);
  }

  /** Every segment of an offspring (lines 278-283) can be recorded: its
      breakpoints lie strictly inside the genome, its parents are of generation
      `t + 1` and the offspring's nodes of generation `t`. */
  lemma OffspringSegmentsReady(p: Parameters, nodes: seq<Node>, parent1: NodePair, parent2: NodePair, child: NodePair,
                               t: nat, draw: OffspringDraw, childPop: int)
    requires ValidOffspringDraw(draw, p.seqlen, p.popSize, childPop)
    requires NodeAt(nodes, parent1.0, t + 1) && NodeAt(nodes, parent1.1, t + 1)
    requires NodeAt(nodes, parent2.0, t + 1) && NodeAt(nodes, parent2.1, t + 1)
    requires NodeAt(nodes, child.0, t) && NodeAt(nodes, child.1, t)
    ensures var segs := Segments(p.seqlen, FindBreakpoint(p.seqlen, draw.breakpoint1), FindBreakpoint(p.seqlen, draw.breakpoint2),
                                 parent1, parent2, child);
            forall k :: 0 <= k < 4 ==> SegmentReady(segs[k], draw.segments[k], nodes, p.seqlen, t)
  {
    var b1, b2 := FindBreakpoint(p.seqlen, draw.breakpoint1), FindBreakpoint(p.seqlen, draw.breakpoint2);
    var segs := Segments(p.seqlen, b1, b2, parent1, parent2, child);
    var spans := [(0.0, b1 as real), (b1 as real, p.seqlen), (0.0, b2 as real), (b2 as real, p.seqlen)];
    forall k | 0 <= k < 4 ensures SegmentReady(segs[k], draw.segments[k], nodes, p.seqlen, t) {
      assert segs[k].start == spans[k].0 && segs[k].end == spans[k].1;
    }
  }

  /** The full edges of a list of segments grow by one segment at a time. */
  lemma SegmentEdgesGrow(edges0: seq<Edge>, edges: seq<Edge>, segs: seq<Segment>, k: nat)
    requires k < |segs| && edges == edges0 + SegmentEdges(segs[..k])
    ensures edges + [SegmentEdge(segs[k])] == edges0 + SegmentEdges(segs[..k + 1])
  {
    assert SegmentEdges(segs[..k + 1]) == SegmentEdges(segs[..k]) + [SegmentEdge(segs[k])];
  }

  /** While generation `t` is being added: the parents' pool holds nodes of
      generation `t + 1`, which occupy the band from `first` to `mid` after the
      older generations, and the offspring added so far occupy the band from
      `mid` on, in the order of the pool being built. */
  ghost predicate Layout(nodes: seq<Node>, first: int, mid: int, parents: seq<NodePair>, children: seq<NodePair>, t: nat)
  {
    PoolAt(parents, nodes, t + 1) &&
    Band(nodes, first, mid, t + 1) && OlderThan(nodes, first, t + 1) &&
    Band(nodes, mid, |nodes|, t) && Consecutive(children, mid) && |nodes| == mid + 2 * |children|
  }

  /** An offspring's two nodes, of generation `t`, extend the band of
      generation `t` and its node pair joins the pool being built. */
  lemma OffspringJoins(nodes: seq<Node>, first: int, mid: int, parents: seq<NodePair>, children: seq<NodePair>,
                       n: Node, t: nat, nodes': seq<Node>)
    requires Layout(nodes, first, mid, parents, children, t) && n.time == t && nodes' == nodes + [n, n]
    ensures Layout(nodes', first, mid, parents, children + [(|nodes|, |nodes| + 1)], t)
  {
    var u, children' := t + 1, children + [(|nodes|, |nodes| + 1)];
    forall pair | pair in parents ensures NodeAt(nodes', pair.0, u) && NodeAt(nodes', pair.1, u) {
      assert NodeAt(nodes, pair.0, u) && NodeAt(nodes, pair.1, u);
    }
    forall k | first <= k < mid ensures NodeAt(nodes', k, u) {
      assert NodeAt(nodes, k, u);
    }
    forall k | mid <= k < |nodes'| ensures NodeAt(nodes', k, t) {
      if k < |nodes| { assert NodeAt(nodes, k, t); }
    }
    forall j | 0 <= j < |children'| ensures children'[j] == (mid + 2 * j, mid + 2 * j + 1) {
      if j < |children| { assert children[j] == (mid + 2 * j, mid + 2 * j + 1); }
    }
  }

  /** Before the first offspring of generation `t`: the parents' pool is generation `t + 1`. */
  lemma GenerationStarts(nodes: seq<Node>, first: int, parents: seq<NodePair>, t: nat)
    requires Generation(nodes, first, parents, t + 1)
    ensures Layout(nodes, first, |nodes|, parents, [], t)
  {
    PoolInBand(parents, first, nodes, t + 1);
  }

  /** The two parent pairs `find_parent` draws for offspring `i` of
      generation `t` (lines 250-258); both come from the pool. */
  function DrawnParents(p: Parameters, parents: seq<NodePair>, t: nat, i: nat, draw: OffspringDraw): (r: (NodePair, NodePair))
    requires |parents| == p.popSize && p.popSize % 2 == 0
    requires ValidOffspringDraw(draw, p.seqlen, p.popSize, ChildPopulation(t, p.splitTime, i, p.popSize))
    ensures r.0 in parents && r.1 in parents
  {
    var childPop := ChildPopulation(t, p.splitTime, i, p.popSize);
    (FindParent(parents, childPop, draw.parent1.migrate, draw.parent1.offset).choice.parent,
     FindParent(parents, childPop, draw.parent2.migrate, draw.parent2.offset).choice.parent)
  }

  /** The full edges of offspring `i` of generation `t` whose nodes are
      `child` (lines 277-285): its four segments, inherited from the drawn
      parents on either side of the drawn breakpoints. */
  function OffspringEdges(p: Parameters, parents: seq<NodePair>, t: nat, i: nat, draw: OffspringDraw, child: NodePair): seq<Edge>
    requires |parents| == p.popSize && p.popSize % 2 == 0
    requires ValidOffspringDraw(draw, p.seqlen, p.popSize, ChildPopulation(t, p.splitTime, i, p.popSize))
  {
    var pp := DrawnParents(p, parents, t, i, draw);
    SegmentEdges(Segments(p.seqlen, FindBreakpoint(p.seqlen, draw.breakpoint1), FindBreakpoint(p.seqlen, draw.breakpoint2),
                          pp.0, pp.1, child))
  }

  /** The individual of offspring `i` (line 262): its parents are the
      individuals of the drawn parents' first nodes, node `k` belonging to
      individual `k / 2`. */
  function OffspringIndividual(p: Parameters, parents: seq<NodePair>, t: nat, i: nat, draw: OffspringDraw): Individual
    requires |parents| == p.popSize && p.popSize % 2 == 0
    requires ValidOffspringDraw(draw, p.seqlen, p.popSize, ChildPopulation(t, p.splitTime, i, p.popSize))
  {
    var pp := DrawnParents(p, parents, t, i, draw);
    Individual([pp.0.0 / 2, pp.1.0 / 2])
  }

  /** The individuals of the first `n` offspring of generation `t`, in order. */
  function GenerationIndividuals(p: Parameters, parents: seq<NodePair>, t: nat, draws: seq<OffspringDraw>, n: nat): seq<Individual>
    requires |parents| == p.popSize && p.popSize % 2 == 0 && n <= p.popSize && ValidGeneration(draws, p, t)
  {
    seq(n, j requires 0 <= j < n => OffspringIndividual(p, parents, t, j, draws[j]))
  }

  /** The nodes of the first `n` offspring of generation `t`, the first of
      which is individual `firstInd`: two per offspring, of its individual,
      at time `t`, samples exactly at time 0, in the offspring's population. */
  function GenerationNodes(p: Parameters, t: nat, firstInd: int, n: nat): seq<Node>
  {
    seq(2 * n, k requires 0 <= k < 2 * n =>
      Node(t == 0, t, ChildPopulation(t, p.splitTime, k / 2, p.popSize), firstInd + k / 2))
  }

  /** The full edges of the first `n` offspring of generation `t`, whose
      node pairs start at node `mid`: the four edges of each offspring, in order. */
  function GenerationEdges(p: Parameters, parents: seq<NodePair>, t: nat, draws: seq<OffspringDraw>, mid: int, n: nat): seq<Edge>
    requires |parents| == p.popSize && p.popSize % 2 == 0 && n <= p.popSize && ValidGeneration(draws, p, t)
  {
    seq(4 * n, k requires 0 <= k < 4 * n =>
      OffspringEdges(p, parents, t, k / 4, draws[k / 4], (mid + 2 * (k / 4), mid + 2 * (k / 4) + 1))[k % 4])
  }

  /** One more offspring of generation `t`, as `AddOffspring` records it:
      its individual, its two nodes and its four edges extend those of the
      offspring before it. */
  lemma GenerationGrows(p: Parameters, parents: seq<NodePair>, t: nat, draws: seq<OffspringDraw>, mid: int, i: nat,
                        inds0: seq<Individual>, nodes0: seq<Node>, edges0: seq<Edge>,
                        inds: seq<Individual>, nodes: seq<Node>, edges: seq<Edge>, child: NodePair,
                        inds': seq<Individual>, nodes': seq<Node>, edges': seq<Edge>)
    requires |parents| == p.popSize && p.popSize % 2 == 0 && i < p.popSize && ValidGeneration(draws, p, t)
    requires |nodes0| == mid
    requires inds == inds0 + GenerationIndividuals(p, parents, t, draws, i)
    requires nodes == nodes0 + GenerationNodes(p, t, |inds0|, i)
    requires edges == edges0 + GenerationEdges(p, parents, t, draws, mid, i)
    requires child.0 == |nodes| && child.1 == |nodes| + 1
    requires inds' == inds + [OffspringIndividual(p, parents, t, i, draws[i])]
    requires var n := Node(t == 0, t, ChildPopulation(t, p.splitTime, i, p.popSize), |inds|);
             nodes' == nodes + [n, n]
    requires edges' == edges + OffspringEdges(p, parents, t, i, draws[i], child)
    ensures inds' == inds0 + GenerationIndividuals(p, parents, t, draws, i + 1)
    ensures nodes' == nodes0 + GenerationNodes(p, t, |inds0|, i + 1)
    ensures edges' == edges0 + GenerationEdges(p, parents, t, draws, mid, i + 1)
  {
    assert GenerationIndividuals(p, parents, t, draws, i + 1) ==
           GenerationIndividuals(p, parents, t, draws, i) + [OffspringIndividual(p, parents, t, i, draws[i])];
    var n := Node(t == 0, t, ChildPopulation(t, p.splitTime, i, p.popSize), |inds0| + i);
    assert GenerationNodes(p, t, |inds0|, i + 1) == GenerationNodes(p, t, |inds0|, i) + [n, n];
    var before, after := GenerationEdges(p, parents, t, draws, mid, i), GenerationEdges(p, parents, t, draws, mid, i + 1);
    var added := OffspringEdges(p, parents, t, i, draws[i], child);
    assert child == (mid + 2 * i, mid + 2 * i + 1);
    forall k | 0 <= k < 4 * (i + 1) ensures after[k] == (before + added)[k] {
      if k >= 4 * i {
        assert k / 4 == i && k % 4 == k - 4 * i;
      }
    }
  }

  /** Once a generation is complete, its offspring's pool is generation `t`. */
  lemma GenerationDone(nodes: seq<Node>, first: int, mid: int, parents: seq<NodePair>, children: seq<NodePair>, t: nat)
    requires Layout(nodes, first, mid, parents, children, t)
    ensures Generation(nodes, mid, children, t)
  {
    forall k | first <= k < mid ensures nodes[k].time > t {
      assert NodeAt(nodes, k, t + 1);
    }
  }

  /** Once generation 0 is the pool, the samples are exactly its nodes
      (lines 268 and 350-353). */
  lemma FinalSamples(inds: seq<Individual>, nodes: seq<Node>, p: Parameters,
                     parents: seq<NodePair>, first: int)
    requires NodesWellFormed(inds, nodes, p)
    requires Generation(nodes, first, parents, 0)
    ensures forall x :: x in PoolNodes(parents) ==> 0 <= x < |nodes|
    ensures forall k :: 0 <= k < |nodes| ==> (nodes[k].isSample <==> k in PoolNodes(parents))
  {
    forall k | first <= k < |nodes| ensures nodes[k].isSample {
      assert NodeAt(nodes, k, 0);
    }
    ConsecutiveNodes(parents, first);
  }
}
