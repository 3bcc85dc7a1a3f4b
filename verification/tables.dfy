/**
  The ancestry record the simulator writes to (tskit's `TableCollection`),
  seen only through the operations the simulator uses: every table is an
  append-only sequence of rows and every `add_*` returns the new row's id.
*/
module Tables {
  import opened Types

  class TableCollection {
    const sequenceLength: Position
    var populations: seq<string>
    var individuals: seq<Individual>
    var nodes: seq<Node>
    var edges: seq<Edge>
    var sites: seq<Site>
    var mutations: seq<Mutation>

    /** `TableCollection::new(seqlen)`. */
    constructor (sequenceLength: Position)
      requires sequenceLength > 0.0
      ensures this.sequenceLength == sequenceLength
      ensures populations == [] && individuals == [] && nodes == []
      ensures edges == [] && sites == [] && mutations == []
    {
      this.sequenceLength := sequenceLength;
      populations, individuals, nodes := [], [], [];
      edges, sites, mutations := [], [], [];
    }

    /** `add_population_with_metadata`: the metadata is the population's name. */
    method AddPopulation(name: string) returns (id: int)
      modifies this`populations
      ensures populations == old(populations) + [name]
      ensures id == |old(populations)|
    {
      id := |populations|;
      populations := populations + [name];
    }

    /** `add_individual(0, None, parents)`. */
    method AddIndividual(parents: seq<int>) returns (id: int)
      modifies this`individuals
      ensures individuals == old(individuals) + [Individual(parents)]
      ensures id == |old(individuals)|
    {
      id := |individuals|;
      individuals := individuals + [Individual(parents)];
    }

    method AddNode(isSample: bool, time: int, population: int, individual: int) returns (id: int)
      modifies this`nodes
      ensures nodes == old(nodes) + [Node(isSample, time, population, individual)]
      ensures id == |old(nodes)|
    {
      id := |nodes|;
      nodes := nodes + [Node(isSample, time, population, individual)];
    }

    method AddEdge(left: Position, right: Position, parent: int, child: int) returns (id: int)
      modifies this`edges
      ensures edges == old(edges) + [Edge(left, right, parent, child)]
      ensures id == |old(edges)|
    {
      id := |edges|;
      edges := edges + [Edge(left, right, parent, child)];
    }

    method AddSite(position: int, ancestralState: seq<Byte>) returns (id: int)
      modifies this`sites
      ensures sites == old(sites) + [Site(position, ancestralState)]
      ensures id == |old(sites)|
    {
      id := |sites|;
      sites := sites + [Site(position, ancestralState)];
    }

    method AddMutation(site: int, node: int, parent: int, time: int, derivedState: seq<Byte>) returns (id: int)
      modifies this`mutations
      ensures mutations == old(mutations) + [Mutation(site, node, parent, time, derivedState)]
      ensures id == |old(mutations)|
    {
      id := |mutations|;
      mutations := mutations + [Mutation(site, node, parent, time, derivedState)];
    }
  }
}
