/** The code graph: symbols (nodes), typed relationships (edges), and the
    lookups the traversals make on it.

    A query without ORDER BY returns its rows in no promised order, so the
    lookups below promise which rows come back and never in which order:
    everything proved about the callers holds for every order. */
module CodeGraph {
  import opened Wrappers

  type Id = string
  type Path = string

  datatype NodeKind =
    | FileNode | Module | Class | Struct | Interface | Trait | Protocol
    | Function | Method | Property | Field | Variable | Constant
    | Enum | EnumMember | TypeAlias | Namespace | Parameter
    | Import | Export | Route | Component | Artifact | Tool

  datatype EdgeKind =
    | Contains | Calls | Imports | Exports | Extends | Implements
    | References | TypeOf | Returns | Instantiates | Overrides | Decorates
    | CrossLang | Produces | Consumes | Invokes

  datatype Provenance = TreeSitter | Scip | Heuristic

  /** A symbol. `details` stands for the columns no query here looks at. */
  datatype Node = Node(
    id: Id, kind: NodeKind, name: string, filePath: Path, language: string, details: string)

  datatype Edge = Edge(
    source: Id, target: Id, kind: EdgeKind,
    metadata: Option<string>, line: Option<int>, column: Option<int>,
    provenance: Option<Provenance>)

  /** Rows of the `nodes` table by primary key, and the bag of `edges` rows. */
  datatype RawGraph = Graph(nodes: map<Id, Node>, edges: multiset<Edge>)
  {
    ghost predicate Keyed() {
      forall id :: id in nodes ==> nodes[id].id == id
    }

    /** Both foreign keys of every edge hold. */
    ghost predicate NoDangling() {
      forall e :: e in edges ==> e.source in nodes && e.target in nodes
    }
  }

  type Graph = g: RawGraph | g.Keyed() witness Graph(map[], multiset{})

  /** Edge kinds that cross a process or language boundary. */
  const BRIDGE_EDGE_KINDS: set<EdgeKind> := {CrossLang, Produces, Consumes, Invokes}

  /** An empty filter admits every kind. */
  predicate KindAllowed(kinds: set<EdgeKind>, k: EdgeKind) {
    kinds == {} || k in kinds
  }

  /** Selects rows of the edge table; the order is not specified. */
  method SelectEdges(g: Graph, p: Edge -> bool) returns (es: seq<Edge>)
    ensures forall e :: multiset(es)[e] == if p(e) then g.edges[e] else 0
    ensures forall e :: e in es <==> e in g.edges && p(e)
  {
    var rest := g.edges;
    es := [];
    while |rest| > 0
      invariant rest <= g.edges
      invariant forall e :: multiset(es)[e] == if p(e) then g.edges[e] - rest[e] else 0
      decreases |rest|
    {
      var e :| e in rest;
      rest := rest - multiset{e};
      if p(e) {
        es := es + [e];
      }
    }
    assert forall e :: e in es <==> multiset(es)[e] > 0;
  }

  method GetOutgoingEdges(g: Graph, id: Id, kinds: set<EdgeKind>) returns (es: seq<Edge>)
    ensures forall e :: e in es <==> e in g.edges && e.source == id && KindAllowed(kinds, e.kind)
    ensures forall e :: e in es ==> multiset(es)[e] == g.edges[e]
  {
    es := SelectEdges(g, (e: Edge) => e.source == id && KindAllowed(kinds, e.kind));
  }

  method GetIncomingEdges(g: Graph, id: Id, kinds: set<EdgeKind>) returns (es: seq<Edge>)
    ensures forall e :: e in es <==> e in g.edges && e.target == id && KindAllowed(kinds, e.kind)
    ensures forall e :: e in es ==> multiset(es)[e] == g.edges[e]
  {
    es := SelectEdges(g, (e: Edge) => e.target == id && KindAllowed(kinds, e.kind));
  }

  /** What a batch lookup returns: the rows that exist, by id. */
  function NodesByIds(g: Graph, ids: set<Id>): map<Id, Node> {
    map id | id in ids && id in g.nodes :: g.nodes[id]
  }
}
