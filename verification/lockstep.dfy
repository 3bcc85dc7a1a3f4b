/**
  What the driver `simulate_two_treesequences` keeps true of its two ancestry
  records, the full one and the truncated one, after every step: stated on the
  records' contents and on the driver's per-position vectors, with the lemmas
  that show each step keeps it. Line numbers in the comments below refer
  to `src/test_data.rs`.
*/
module Lockstep {
  import opened Types
  import opened Overlaps
  import opened Samplers
  import opened Records

  /** The arguments of `simulate_two_treesequences`, apart from the seed. */
  datatype Parameters = Parameters(seqlen: Position, popSize: nat, startTime: nat, splitTime: nat, intervals: seq<Interval>)

  /** The driver's own assertions on its arguments (`split_time < start_time`,
      an even population), a genome `TableCollection::new` accepts, and the
      ordering of the keep-intervals that `find_overlaps` asserts once there is
      an offspring to clip. */
  ghost predicate ParametersOk(p: Parameters)
  {
    p.seqlen > 0.0 && p.splitTime < p.startTime && p.popSize % 2 == 0 &&
    (p.popSize > 0 ==> SortedDisjoint(p.intervals))
  }

  /** The five per-position vectors of the driver (`site_last_mutation_order`,
      `site_last_mutation_tables`, `site_last_mutation_tr_tbls`,
      `site_id_map_tables`, `site_id_map_tr_tbls`), one entry per whole tick. */
  datatype PositionVectors = PositionVectors(
    siteLastMutationOrder: seq<nat>,
    siteLastMutationTables: seq<int>, siteLastMutationTrTbls: seq<int>,
    siteIdMapTables: seq<int>, siteIdMapTrTbls: seq<int>)

  ghost predicate Shaped(v: PositionVectors, numSites: nat)
  {
    |v.siteLastMutationOrder| == numSites &&
    |v.siteLastMutationTables| == numSites && |v.siteLastMutationTrTbls| == numSites &&
    |v.siteIdMapTables| == numSites && |v.siteIdMapTrTbls| == numSites
  }

  /** The population of offspring `i` born at time `t`: divided into two halves
      only while `t > split_time`, ancestral otherwise. */
  function ChildPopulation(t: nat, splitTime: nat, i: nat, popSize: nat): (r: int)
    ensures r in {ANCESTRAL, POP1, POP2}
    ensures r == ANCESTRAL <==> t <= splitTime
    ensures r == POP1 <==> splitTime < t && i < popSize / 2
    ensures r == POP2 <==> splitTime < t && popSize / 2 <= i
  {
    if t > splitTime then (if i < popSize / 2 then POP1 else POP2) else ANCESTRAL
  }

  /** The node ids of a pool of parent pairs, flattened in order. */
  function PoolNodes(ps: seq<NodePair>): (r: seq<int>)
    ensures |r| == 2 * |ps|
    ensures forall i :: 0 <= i < |ps| ==> r[2 * i] == ps[i].0 && r[2 * i + 1] == ps[i].1
    ensures forall x :: x in r <==> exists i :: 0 <= i < |ps| && (ps[i].0 == x || ps[i].1 == x)
    decreases |ps|
  {
    if ps == [] then []
    else
      var pre := ps[..|ps| - 1];
      var r := PoolNodes(pre) + [ps[|ps| - 1].0, ps[|ps| - 1].1];
      assert forall i :: 0 <= i < |pre| ==> pre[i] == ps[i];
      r
  }

  /** One of the four segments of an offspring's chromosomes: the span
      `[start, end)` inherited by node `child` from node `parent`. */
  datatype Segment = Segment(start: Position, end: Position, parent: int, child: int)

  /** The four segments of lines 278-283, delimited by the two breakpoints. */
  function Segments(seqlen: Position, breakpoint1: int, breakpoint2: int, parent1: NodePair, parent2: NodePair, child: NodePair): seq<Segment>
  {
    [Segment(0.0, breakpoint1 as real, parent1.0, child.0), Segment(breakpoint1 as real, seqlen, parent1.1, child.0),
     Segment(0.0, breakpoint2 as real, parent2.0, child.1), Segment(breakpoint2 as real, seqlen, parent2.1, child.1)]
  }

  /** The draws for one offspring lie in the ranges of the `gen_range` calls in
      `simulate_two_treesequences` and its helpers. */
  ghost predicate ValidOffspringDraw(d: OffspringDraw, seqlen: Position, popSize: nat, childPop: int)
  {
    1 + d.breakpoint1 < Ticks(seqlen) && 1 + d.breakpoint2 < Ticks(seqlen) &&
    d.parent1.offset < ParentRange(popSize, childPop) && d.parent2.offset < ParentRange(popSize, childPop) &&
    |d.segments| == 4 &&
    var b1, b2 := FindBreakpoint(seqlen, d.breakpoint1), FindBreakpoint(seqlen, d.breakpoint2);
    var spans := [(0.0, b1 as real), (b1 as real, seqlen), (0.0, b2 as real), (b2 as real, seqlen)];
    forall k :: 0 <= k < 4 ==> FirstTick(spans[k].0) + d.segments[k].offset < Ticks(spans[k].1)
  }

  /** `draws[i]` holds the draws for offspring `i` of generation `t`. */
  ghost predicate ValidGeneration(draws: seq<OffspringDraw>, p: Parameters, t: nat)
  {
    |draws| == p.popSize &&
    forall i :: 0 <= i < p.popSize ==>
      ValidOffspringDraw(draws[i], p.seqlen, p.popSize, ChildPopulation(t, p.splitTime, i, p.popSize))
  }

  /** `draws[t][i]` holds the draws for offspring `i` of generation `t`. */
  ghost predicate ValidDraws(draws: seq<seq<OffspringDraw>>, p: Parameters)
  {
    |draws| == p.startTime &&
    forall t :: 0 <= t < p.startTime ==> ValidGeneration(draws[t], p, t)
  }

  /** A product of naturals is a natural. A separate lemma, so that the
      nonlinear fact is stated on plain variables, away from the modular
      arithmetic of `OffspringIndex`. */
  lemma {:induction false} MulNonneg(a: nat, b: nat)
    ensures a * b >= 0
  {}

  /** The number of individuals in `m` batches of `n`: the founders and
      each generation add `pop_size` individuals. */
  function BatchTotal(n: nat, m: nat): nat
  {
    if m == 0 then 0 else BatchTotal(n, m - 1) + n
  }

  /** `m` batches of `n` hold `n * m` individuals. */
  lemma {:induction false} BatchTotalIsProduct(n: nat, m: nat)
    ensures BatchTotal(n, m) == n * m
  {
    if m > 0 {
      BatchTotalIsProduct(n, m - 1);
      assert n * m == n * (m - 1) + n;
    }
  }

  /** The individual added as offspring `i` after `m` full batches of `n` is
      offspring `i` again once its id is reduced modulo `n`. */
  lemma {:induction false} OffspringIndex(n: nat, m: nat, i: nat)
    requires i < n
    ensures (BatchTotal(n, m) + i) % n == i
  {
    BatchTotalIsProduct(n, m);
    var a := n * m + i;
    var q, r := a / n, a % n;
    assert a == n * q + r && 0 <= r < n;
    if q > m {
      MulNonneg(n, q - m - 1);
      assert false;
    } else if q < m {
      MulNonneg(n, m - q - 1);
      assert false;
    }
  }

  /** Node `k`: it belongs to individual `k / 2`, is a sample exactly at time 0,
      and is outside the ancestral population exactly while `split_time < time < start_time`. */
  ghost predicate NodeOk(n: Node, k: int, p: Parameters)
  {
    n.individual == k / 2 && (n.isSample <==> n.time == 0) && 0 <= n.time <= p.startTime &&
    n.population in {ANCESTRAL, POP1, POP2} &&
    (n.population != ANCESTRAL <==> p.splitTime < n.time < p.startTime)
  }

  /** The founders and each generation add `pop_size` individuals, so the
      individuals of generation `t < start_time` form the `(start_time - t)`-th
      batch: an individual of a later generation is offspring `k / 2` less the
      individuals of the older generations, and its nodes have that
      offspring's population. */
  ghost predicate OffspringPopulations(nodes: seq<Node>, p: Parameters)
  {
    forall k :: 0 <= k < |nodes| ==> OffspringPopulation(nodes, p, k)
  }

  /** Node `k`, when an offspring's, belongs to the slice of its generation
      in the individuals and to the population its offspring was drawn for. */
  ghost predicate OffspringPopulation(nodes: seq<Node>, p: Parameters, k: int)
  {
    0 <= k < |nodes| && 0 <= nodes[k].time < p.startTime ==>
      var older := BatchTotal(p.popSize, p.startTime - nodes[k].time);
      older <= k / 2 < older + p.popSize &&
      nodes[k].population == ChildPopulation(nodes[k].time, p.splitTime, k / 2 - older, p.popSize)
  }

  /** Equivalently, node `k` of a later generation has the population of
      offspring `(k / 2) % pop_size`. */
  lemma PopulationByIndex(nodes: seq<Node>, p: Parameters, k: int)
    requires OffspringPopulations(nodes, p)
    requires 0 <= k < |nodes| && 0 <= nodes[k].time < p.startTime
    ensures p.popSize > 0 && nodes[k].population == ChildPopulation(nodes[k].time, p.splitTime, (k / 2) % p.popSize, p.popSize)
  {
    assert OffspringPopulation(nodes, p, k);
    var older := BatchTotal(p.popSize, p.startTime - nodes[k].time);
    OffspringIndex(p.popSize, p.startTime - nodes[k].time, k / 2 - older);
  }

  /** An offspring's two nodes, added as the `i`-th individual of generation
      `t`, have the offspring's population. */
  lemma ChildPopulationKeeps(p: Parameters, nodes: seq<Node>, n: Node, t: nat, i: nat, nodes': seq<Node>)
    requires OffspringPopulations(nodes, p)
    requires t < p.startTime && i < p.popSize && |nodes| == 2 * (BatchTotal(p.popSize, p.startTime - t) + i)
    requires n.time == t && n.population == ChildPopulation(t, p.splitTime, i, p.popSize)
    requires nodes' == nodes + [n, n]
    ensures OffspringPopulations(nodes', p)
  {
    forall k | 0 <= k < |nodes'| ensures OffspringPopulation(nodes', p, k) {
      if k < |nodes| {
        assert OffspringPopulation(nodes, p, k) && nodes'[k] == nodes[k];
      }
    }
  }

  /** Parent individuals were created before their offspring. */
  ghost predicate ParentsBefore(ind: Individual, q: int)
  {
    forall j :: 0 <= j < |ind.parents| ==> 0 <= ind.parents[j] < q
  }

  ghost predicate NodesWellFormed(inds: seq<Individual>, nodes: seq<Node>, p: Parameters)
  {
    |nodes| == 2 * |inds| &&
    (forall k :: 0 <= k < |nodes| ==> NodeOk(nodes[k], k, p)) &&
    (forall q :: 0 <= q < |inds| ==> ParentsBefore(inds[q], q))
  }

  /** A full-record edge: a non-empty span of the genome, from a parent node one generation older than its child. */
  ghost predicate EdgeOk(e: Edge, nodes: seq<Node>, seqlen: Position)
  {
    0.0 <= e.left < e.right <= seqlen &&
    0 <= e.parent < |nodes| && 0 <= e.child < |nodes| &&
    nodes[e.parent].time == nodes[e.child].time + 1
  }

  ghost predicate FullEdgesOk(edges: seq<Edge>, nodes: seq<Node>, seqlen: Position)
  {
    forall k :: 0 <= k < |edges| ==> EdgeOk(edges[k], nodes, seqlen)
  }

  /** A truncated edge is a piece of a full edge with the same nodes, inside one keep-interval. */
  ghost predicate ClippedFrom(te: Edge, fe: Edge, intervals: seq<Interval>)
  {
    te.parent == fe.parent && te.child == fe.child &&
    fe.left <= te.left <= te.right <= fe.right &&
    InsideOne((te.left, te.right), intervals)
  }

  /** `source[k]` is the full edge truncated edge `k` was clipped from. */
  ghost predicate TruncatedEdgesOk(trEdges: seq<Edge>, fullEdges: seq<Edge>, source: seq<nat>, intervals: seq<Interval>)
  {
    |source| == |trEdges| &&
    forall k :: 0 <= k < |trEdges| ==> source[k] < |fullEdges| && ClippedFrom(trEdges[k], fullEdges[source[k]], intervals)
  }

  /** Every mutation sits on an existing node, at that node's time. */
  ghost predicate MutationNodesOk(muts: seq<Mutation>, nodes: seq<Node>)
  {
    forall k :: 0 <= k < |muts| ==> 0 <= muts[k].node < |nodes| && muts[k].time == nodes[muts[k].node].time
  }

  /** Both records share their individuals and nodes; the full edges join
      consecutive generations and every truncated edge is a clipped full edge. */
  ghost predicate AncestryOk(p: Parameters,
    inds: seq<Individual>, nodes: seq<Node>, edges: seq<Edge>,
    trInds: seq<Individual>, trNodes: seq<Node>, trEdges: seq<Edge>, edgeSource: seq<nat>)
  {
    trInds == inds && trNodes == nodes &&
    NodesWellFormed(inds, nodes, p) &&
    FullEdgesOk(edges, nodes, p.seqlen) &&
    TruncatedEdgesOk(trEdges, edges, edgeSource, p.intervals)
  }

  /** The sites and mutations of both records agree with the per-position
      vectors, the full record's states follow the counts, and the truncated
      record repeats some of the full record's mutations, at kept positions. */
  ghost predicate VariantsOk(p: Parameters, v: PositionVectors,
    sites: seq<Site>, muts: seq<Mutation>, trSites: seq<Site>, trMuts: seq<Mutation>, mutationSource: seq<nat>)
  {
    Shaped(v, Ticks(p.seqlen)) &&
    RecordOk(sites, muts, v.siteIdMapTables, v.siteLastMutationTables) &&
    RecordOk(trSites, trMuts, v.siteIdMapTrTbls, v.siteLastMutationTrTbls) &&
    StatesCounted(muts) &&
    OrderCounted(v.siteLastMutationOrder, v.siteIdMapTables, muts) &&
    Mirrors(sites, muts, trSites, trMuts, mutationSource) &&
    TruncatedSitesKept(trSites, v.siteIdMapTables, p.intervals)
  }

  /** Every mutation of both records sits on a node, at that node's time. */
  ghost predicate MutationsOnNodes(nodes: seq<Node>, muts: seq<Mutation>, trMuts: seq<Mutation>)
  {
    MutationNodesOk(muts, nodes) && MutationNodesOk(trMuts, nodes)
  }

  /** Everything the driver keeps true of both records and the per-position
      vectors between two offspring, two segments and two generations: the
      invariants above, the truncated edges are exactly the kept pieces of the
      full edges, and exactly the full mutations at kept positions are copied. */
  ghost predicate RecordsOk(p: Parameters, v: PositionVectors, ms: seq<nat>, es: seq<nat>,
    inds: seq<Individual>, nodes: seq<Node>, edges: seq<Edge>, sites: seq<Site>, muts: seq<Mutation>,
    trInds: seq<Individual>, trNodes: seq<Node>, trEdges: seq<Edge>, trSites: seq<Site>, trMuts: seq<Mutation>)
  {
    AncestryOk(p, inds, nodes, edges, trInds, trNodes, trEdges, es) &&
    VariantsOk(p, v, sites, muts, trSites, trMuts, ms) &&
    MutationsOnNodes(nodes, muts, trMuts) &&
    trEdges == ClippedEdges(edges, p.intervals) &&
    CopiesKept(sites, muts, ms, p.intervals)
  }

  /** Node `x` exists and belongs to generation `time`. */
  ghost predicate NodeAt(nodes: seq<Node>, x: int, time: int)
  {
    0 <= x < |nodes| && nodes[x].time == time
  }

  /** Pair `j` of the pool is nodes `first + 2j` and `first + 2j + 1`: a
      generation's pool lists its members' nodes in the order they were added. */
  ghost predicate Consecutive(pool: seq<NodePair>, first: int)
  {
    forall j :: 0 <= j < |pool| ==> pool[j] == (first + 2 * j, first + 2 * j + 1)
  }

  /** Nodes `lo` to `hi - 1` exist and belong to generation `time`. */
  ghost predicate Band(nodes: seq<Node>, lo: int, hi: int, time: int)
  {
    0 <= lo <= hi <= |nodes| && forall k :: lo <= k < hi ==> NodeAt(nodes, k, time)
  }

  /** The nodes before `hi` belong to generations older than `time`. */
  ghost predicate OlderThan(nodes: seq<Node>, hi: int, time: int)
  {
    0 <= hi <= |nodes| && forall k :: 0 <= k < hi ==> nodes[k].time > time
  }

  /** The pool of generation `time` lists, pair by pair, the newest nodes, from
      `first` on, and every node added before them belongs to an older generation. */
  ghost predicate Generation(nodes: seq<Node>, first: int, pool: seq<NodePair>, time: int)
  {
    Consecutive(pool, first) && |nodes| == first + 2 * |pool| &&
    Band(nodes, first, |nodes|, time) && OlderThan(nodes, first, time)
  }

  /** Both nodes of every pair of the pool belong to generation `time`. */
  ghost predicate PoolAt(pool: seq<NodePair>, nodes: seq<Node>, time: int)
  {
    forall pair :: pair in pool ==> NodeAt(nodes, pair.0, time) && NodeAt(nodes, pair.1, time)
  }

  /** A consecutive pool laid over a band of generation `time` holds nodes of that generation. */
  lemma PoolInBand(pool: seq<NodePair>, first: int, nodes: seq<Node>, time: int)
    requires Consecutive(pool, first) && Band(nodes, first, first + 2 * |pool|, time)
    ensures PoolAt(pool, nodes, time)
  {
    forall pair | pair in pool ensures NodeAt(nodes, pair.0, time) && NodeAt(nodes, pair.1, time) {
      var j :| 0 <= j < |pool| && pool[j] == pair;
      assert NodeAt(nodes, first + 2 * j, time) && NodeAt(nodes, first + 2 * j + 1, time);
    }
  }

  /** The node ids of a consecutive pool are the ids `first` to `first + 2|pool| - 1`. */
  lemma ConsecutiveNodes(pool: seq<NodePair>, first: int)
    requires Consecutive(pool, first)
    ensures forall x :: x in PoolNodes(pool) <==> first <= x < first + 2 * |pool|
  {
    var ns := PoolNodes(pool);
    forall x ensures x in ns <==> first <= x < first + 2 * |pool| {
      if first <= x < first + 2 * |pool| {
        var i := x - first;
        if i % 2 == 0 { assert ns[2 * (i / 2)] == pool[i / 2].0; }
        else { assert ns[2 * (i / 2) + 1] == pool[i / 2].1; }
        assert ns[i] == x;
      }
      if x in ns {
        var i :| 0 <= i < |ns| && ns[i] == x;
        if i % 2 == 0 { assert ns[2 * (i / 2)] == pool[i / 2].0; }
        else { assert ns[2 * (i / 2) + 1] == pool[i / 2].1; }
      }
    }
  }

  /** The edges of the truncated record for the pieces of one segment. */
  function EdgesOf(pieces: seq<Interval>, parent: int, child: int): seq<Edge>
  {
    seq(|pieces|, k requires 0 <= k < |pieces| => Edge(pieces[k].0, pieces[k].1, parent, child))
  }

  /** The truncated record's edges for a list of full edges: the pieces of
      each full edge that the keep-intervals keep, full edge by full edge. */
  function ClippedEdges(edges: seq<Edge>, intervals: seq<Interval>): seq<Edge>
    decreases |edges|
  {
    if edges == [] then []
    else
      var e := edges[|edges| - 1];
      ClippedEdges(edges[..|edges| - 1], intervals) + EdgesOf(Overlaps.Overlaps(e.left, e.right, intervals), e.parent, e.child)
  }

  /** A new full edge adds its kept pieces at the end of the truncated edges. */
  lemma ClippedEdgesAppend(edges: seq<Edge>, e: Edge, intervals: seq<Interval>)
    ensures ClippedEdges(edges + [e], intervals) ==
            ClippedEdges(edges, intervals) + EdgesOf(Overlaps.Overlaps(e.left, e.right, intervals), e.parent, e.child)
  {
    assert (edges + [e])[..|edges|] == edges;
  }

  /** Clipping distributes over concatenation: the truncated edges of a batch
      of full edges follow those of the edges before it. */
  lemma {:induction false} ClippedEdgesConcat(edges: seq<Edge>, more: seq<Edge>, intervals: seq<Interval>)
    ensures ClippedEdges(edges + more, intervals) == ClippedEdges(edges, intervals) + ClippedEdges(more, intervals)
    decreases |more|
  {
    if more == [] {
      assert edges + more == edges;
    } else {
      var pre, e := more[..|more| - 1], more[|more| - 1];
      var kept := EdgesOf(Overlaps.Overlaps(e.left, e.right, intervals), e.parent, e.child);
      var a, b := ClippedEdges(edges, intervals), ClippedEdges(pre, intervals);
      assert more == pre + [e];
      assert edges + more == (edges + pre) + [e];
      ClippedEdgesConcat(edges, pre, intervals);
      ClippedEdgesAppend(edges + pre, e, intervals);
      ClippedEdgesAppend(pre, e, intervals);
      assert ClippedEdges(edges + more, intervals) == (a + b) + kept;
      assert ClippedEdges(more, intervals) == b + kept;
      ConcatAssociates(a, b, kept);
    }
  }

  /** Sequence concatenation associates. A separate lemma, because proving it
      inside `ClippedEdgesConcat`, beside the unfolded clipping, is costly. */
  lemma ConcatAssociates(a: seq<Edge>, b: seq<Edge>, c: seq<Edge>)
    ensures (a + b) + c == a + (b + c)
  {}

  /** Some edge of `es` joins `parent` to `child` over point `x`. */
  ghost predicate CoveredBy(es: seq<Edge>, parent: int, child: int, x: Position)
  {
    exists k :: 0 <= k < |es| && es[k].parent == parent && es[k].child == child && es[k].left <= x < es[k].right
  }

  /** No kept ancestry is lost: every point of a full edge that lies in a
      keep-interval is covered by a truncated edge between the same two nodes. */
  lemma {:induction false} ClippedEdgesComplete(edges: seq<Edge>, intervals: seq<Interval>, q: int, x: Position)
    requires 0 <= q < |edges| && edges[q].left <= x < edges[q].right && InUnion(x, intervals)
    ensures CoveredBy(ClippedEdges(edges, intervals), edges[q].parent, edges[q].child, x)
    decreases |edges|
  {
    var pre, e := edges[..|edges| - 1], edges[|edges| - 1];
    var pieces := Overlaps.Overlaps(e.left, e.right, intervals);
    var before := ClippedEdges(pre, intervals);
    var out := before + EdgesOf(pieces, e.parent, e.child);
    assert ClippedEdges(edges, intervals) == out;
    if q < |pre| {
      assert pre[q] == edges[q];
      ClippedEdgesComplete(pre, intervals, q, x);
      var k :| 0 <= k < |before| && before[k].parent == pre[q].parent && before[k].child == pre[q].child &&
               before[k].left <= x < before[k].right;
      assert out[k] == before[k];
    } else {
      OverlapsCover(e.left, e.right, intervals, x);
      var j :| 0 <= j < |pieces| && pieces[j].0 <= x < pieces[j].1;
      assert out[|before| + j] == Edge(pieces[j].0, pieces[j].1, e.parent, e.child);
    }
  }

  /** A point inside one of a list of pairwise ordered pieces lies in none of the earlier ones. */
  lemma NotInEarlierPiece(x: Position, pieces: seq<Interval>, j: int)
    requires PairwiseOrdered(pieces)
    requires 0 <= j < |pieces| && pieces[j].0 <= x < pieces[j].1
    ensures !InUnion(x, pieces[..j])
  {
    forall a | 0 <= a < j ensures !(pieces[..j][a].0 <= x < pieces[..j][a].1) {
      assert pieces[a].1 <= pieces[j].0;
    }
  }

  /** Adding an offspring's individual and its two nodes to both records keeps
      the records in lock-step and every node well formed. */
  lemma ChildKeeps(p: Parameters, inds: seq<Individual>, nodes: seq<Node>, edges: seq<Edge>,
                   trEdges: seq<Edge>, edgeSource: seq<nat>, muts: seq<Mutation>, trMuts: seq<Mutation>,
                   parent1: NodePair, parent2: NodePair, t: nat, i: nat, inds': seq<Individual>, nodes': seq<Node>)
    requires AncestryOk(p, inds, nodes, edges, inds, nodes, trEdges, edgeSource)
    requires MutationsOnNodes(nodes, muts, trMuts)
    requires 0 <= parent1.0 < |nodes| && 0 <= parent2.0 < |nodes|
    requires t < p.startTime
    requires inds' == inds + [Individual([nodes[parent1.0].individual, nodes[parent2.0].individual])]
    requires var n := Node(t == 0, t, ChildPopulation(t, p.splitTime, i, p.popSize), |inds|);
             nodes' == nodes + [n, n]
    ensures AncestryOk(p, inds', nodes', edges, inds', nodes', trEdges, edgeSource)
    ensures MutationsOnNodes(nodes', muts, trMuts)
  {
    assert NodeOk(nodes[parent1.0], parent1.0, p);
    assert NodeOk(nodes[parent2.0], parent2.0, p);
    forall k | 0 <= k < |nodes'| ensures NodeOk(nodes'[k], k, p) {
      if k < |nodes| { assert nodes'[k] == nodes[k]; }
    }
    forall q | 0 <= q < |inds'| ensures ParentsBefore(inds'[q], q) {
      if q < |inds| { assert inds'[q] == inds[q]; }
    }
    forall k | 0 <= k < |edges| ensures EdgeOk(edges[k], nodes', p.seqlen) {
      assert EdgeOk(edges[k], nodes, p.seqlen);
    }
    forall k | 0 <= k < |muts| ensures 0 <= muts[k].node < |nodes'| && muts[k].time == nodes'[muts[k].node].time {}
    forall k | 0 <= k < |trMuts| ensures 0 <= trMuts[k].node < |nodes'| && trMuts[k].time == nodes'[trMuts[k].node].time {}
  }

  /** A full edge between consecutive generations keeps the ancestry consistent. */
  lemma FullEdgeKeeps(p: Parameters, inds: seq<Individual>, nodes: seq<Node>, edges: seq<Edge>,
                      trEdges: seq<Edge>, edgeSource: seq<nat>, e: Edge)
    requires AncestryOk(p, inds, nodes, edges, inds, nodes, trEdges, edgeSource)
    requires EdgeOk(e, nodes, p.seqlen)
    ensures AncestryOk(p, inds, nodes, edges + [e], inds, nodes, trEdges, edgeSource)
  {
    var edges' := edges + [e];
    forall k | 0 <= k < |trEdges| ensures edges'[edgeSource[k]] == edges[edgeSource[k]] {}
  }

  /** The truncated edges of a segment, one per piece it keeps, are clipped from
      the segment's full edge `edges[q]`. */
  lemma TruncatedEdgesKeep(p: Parameters, inds: seq<Individual>, nodes: seq<Node>, edges: seq<Edge>,
                           trEdges: seq<Edge>, edgeSource: seq<nat>, q: nat)
    requires AncestryOk(p, inds, nodes, edges, inds, nodes, trEdges, edgeSource)
    requires SortedDisjoint(p.intervals)
    requires q < |edges| && edges[q].left <= edges[q].right
    ensures var e := edges[q];
            var pieces := Overlaps.Overlaps(e.left, e.right, p.intervals);
            AncestryOk(p, inds, nodes, edges, inds, nodes,
                       trEdges + EdgesOf(pieces, e.parent, e.child), edgeSource + seq(|pieces|, _ => q))
  {
    var e := edges[q];
    var pieces := Overlaps.Overlaps(e.left, e.right, p.intervals);
    OverlapsInside(e.left, e.right, p.intervals);
    OverlapsNotInverted(e.left, e.right, p.intervals);
    var trEdges', source' := trEdges + EdgesOf(pieces, e.parent, e.child), edgeSource + seq(|pieces|, _ => q);
    forall k | 0 <= k < |trEdges'|
      ensures source'[k] < |edges| && ClippedFrom(trEdges'[k], edges[source'[k]], p.intervals)
    {
      if k < |trEdges| {
        assert trEdges'[k] == trEdges[k] && source'[k] == edgeSource[k];
      } else {
        var j := k - |trEdges|;
        assert trEdges'[k] == Edge(pieces[j].0, pieces[j].1, e.parent, e.child) && source'[k] == q;
      }
    }
  }

  /** The full edge a segment is recorded as. */
  function SegmentEdge(seg: Segment): Edge
  {
    Edge(seg.start, seg.end, seg.parent, seg.child)
  }

  /** The full edges of a list of segments, in order. */
  function SegmentEdges(segs: seq<Segment>): seq<Edge>
  {
    seq(|segs|, k requires 0 <= k < |segs| => SegmentEdge(segs[k]))
  }

  /** Adding a mutation on an existing node, at that node's time, keeps every mutation on a node. */
  lemma MutationOnNodeKeeps(muts: seq<Mutation>, nodes: seq<Node>, m: Mutation)
    requires MutationNodesOk(muts, nodes)
    requires 0 <= m.node < |nodes| && m.time == nodes[m.node].time
    ensures MutationNodesOk(muts + [m], nodes)
  {
    forall k | 0 <= k < |muts| + 1 ensures 0 <= (muts + [m])[k].node < |nodes| && (muts + [m])[k].time == nodes[(muts + [m])[k].node].time {
      if k < |muts| { assert (muts + [m])[k] == muts[k]; }
    }
  }

  /** The founders (lines 226-241) satisfy the lock-step invariant: every
      founder node is ancestral, not a sample, and at `start_time`. */
  lemma FoundersOk(p: Parameters, inds: seq<Individual>, nodes: seq<Node>)
    requires p.splitTime < p.startTime
    requires |nodes| == 2 * |inds|
    requires forall r :: 0 <= r < |inds| ==> inds[r] == Individual([])
    requires forall k :: 0 <= k < |nodes| ==> nodes[k] == Node(false, p.startTime, ANCESTRAL, k / 2)
    ensures AncestryOk(p, inds, nodes, [], inds, nodes, [], [])
    ensures MutationsOnNodes(nodes, [], []) && OffspringPopulations(nodes, p)
  {
    forall k | 0 <= k < |nodes| ensures NodeOk(nodes[k], k, p) {}
    forall q | 0 <= q < |inds| ensures ParentsBefore(inds[q], q) {}
    forall k | 0 <= k < |nodes| ensures OffspringPopulation(nodes, p, k) {}
  }

  /** The initial per-position vectors (lines 216-223): every count 0 and
      every site id and last mutation NULL, over records without sites. */
  lemma StartOk(p: Parameters, v: PositionVectors)
    requires v.siteLastMutationOrder == seq(Ticks(p.seqlen), _ => 0)
    requires v.siteLastMutationTables == seq(Ticks(p.seqlen), _ => NULL) && v.siteLastMutationTrTbls == seq(Ticks(p.seqlen), _ => NULL)
    requires v.siteIdMapTables == seq(Ticks(p.seqlen), _ => NULL) && v.siteIdMapTrTbls == seq(Ticks(p.seqlen), _ => NULL)
    ensures VariantsOk(p, v, [], [], [], [], [])
  {
  }
}
