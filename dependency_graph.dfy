/**
 * The operation dependency graph the sorter walks: operations are nodes numbered by their
 * position in the vertex set, and an edge goes from a consumer to the producer it depends on.
 * Edge sets are iterated in the order of the edge list.
 */
module DependencyGraph {
  datatype HttpMethod = GET | POST | PUT | PATCH | DELETE | HEAD | OPTIONS | TRACE

  datatype Operation = Operation(httpMethod: HttpMethod, endpoint: string)

  /** A dependency of `source` (the consumer) on `target` (the producer). */
  datatype Edge = Edge(source: nat, target: nat, satisfied: bool)

  datatype Graph = Graph(ops: seq<Operation>, edges: seq<Edge>)

  /** Every edge joins two nodes of the graph. */
  predicate WellFormed(g: Graph)
  {
    forall e :: e in g.edges ==> e.source < |g.ops| && e.target < |g.ops|
  }

  /** A graph as the graph library hands it out: no edge without its two end points. */
  type WfGraph = g: Graph | WellFormed(g) witness Graph([], [])

  /** x depends directly on y: some edge leads from consumer x to producer y. */
  predicate DependsOn(g: Graph, x: nat, y: nat)
  {
    Edge(x, y, true) in g.edges || Edge(x, y, false) in g.edges
  }

  /** The node ids below k. */
  function NodesBelow(k: nat): (r: set<nat>)
    ensures forall n: nat :: n in r <==> n < k
    ensures |r| == k
  {
    if k == 0 then {} else NodesBelow(k - 1) + {k - 1}
  }

  function Nodes(g: Graph): set<nat>
  {
    NodesBelow(|g.ops|)
  }

  predicate IsMethod(g: Graph, n: nat, m: HttpMethod)
  {
    n < |g.ops| && g.ops[n].httpMethod == m
  }

  /** The edges leaving n, in order. */
  function OutEdges(edges: seq<Edge>, n: nat): (r: seq<Edge>)
    ensures forall e :: e in r <==> e in edges && e.source == n
    ensures |r| <= |edges|
  {
    if |edges| == 0 then []
    else (if edges[0].source == n then [edges[0]] else []) + OutEdges(edges[1..], n)
  }

  /** The edges entering n, in order. */
  function InEdges(edges: seq<Edge>, n: nat): (r: seq<Edge>)
    ensures forall e :: e in r <==> e in edges && e.target == n
    ensures |r| <= |edges|
  {
    if |edges| == 0 then []
    else (if edges[0].target == n then [edges[0]] else []) + InEdges(edges[1..], n)
  }

  /** The number of edges of es that are not satisfied. */
  function Unsatisfied(es: seq<Edge>): (k: nat)
    ensures k <= |es|
  {
    if |es| == 0 then 0 else (if es[0].satisfied then 0 else 1) + Unsatisfied(es[1..])
  }

  /** The number of edges of es whose source is in `visited`. */
  function VisitedSources(es: seq<Edge>, visited: set<nat>): (k: nat)
    ensures k <= |es|
  {
    if |es| == 0 then 0 else (if es[0].source in visited then 1 else 0) + VisitedSources(es[1..], visited)
  }

  /** The ids of the nodes with method m, in vertex order. */
  function NodesWith(g: Graph, m: HttpMethod, k: nat): (r: seq<nat>)
    requires k <= |g.ops|
    ensures forall n: nat :: n in r <==> n < k && g.ops[n].httpMethod == m
    ensures forall i, j :: 0 <= i < j < |r| ==> r[i] < r[j]
    ensures forall i :: 0 <= i < |r| ==> r[i] < k
  {
    if k == 0 then []
    else
      var init := NodesWith(g, m, k - 1);
      init + (if g.ops[k - 1].httpMethod == m then [k - 1] else [])
  }

  function PostIds(g: Graph): seq<nat>
  {
    NodesWith(g, POST, |g.ops|)
  }

  function DeleteIds(g: Graph): seq<nat>
  {
    NodesWith(g, DELETE, |g.ops|)
  }

  /** The bonus computeNodeScore gives each HTTP method. */
  function MethodBonus(m: HttpMethod): int
  {
    match m
    case GET => 8
    case PUT => 6
    case PATCH => 6
    case POST => 4
    case DELETE => -20
    case _ => 0
  }

  /** computeNodeScore: 10 per outgoing edge, 5 per unsatisfied outgoing edge, the method bonus, 3 per incoming edge from a visited node. */
  function NodeScore(g: Graph, n: nat, visited: set<nat>): int
    requires n < |g.ops|
  {
    var out := OutEdges(g.edges, n);
    10 * |out| + 5 * Unsatisfied(out) + MethodBonus(g.ops[n].httpMethod) + 3 * VisitedSources(InEdges(g.edges, n), visited)
  }

  lemma {:induction false} VisitedSourcesMonotone(es: seq<Edge>, v: set<nat>, w: set<nat>)
    requires v <= w
    ensures VisitedSources(es, v) <= VisitedSources(es, w)
  {
    if |es| > 0 {
      VisitedSourcesMonotone(es[1..], v, w);
    }
  }

  /** Visiting more nodes never lowers a score: the comparator's keys only grow while nodes wait in the queue. */
  lemma ScoreMonotoneInVisited(g: Graph, n: nat, v: set<nat>, w: set<nat>)
    requires n < |g.ops| && v <= w
    ensures NodeScore(g, n, v) <= NodeScore(g, n, w)
  {
    VisitedSourcesMonotone(InEdges(g.edges, n), v, w);
  }

  lemma {:induction false} VisitedSourcesAdd(es: seq<Edge>, v: set<nat>, x: nat)
    requires x !in v
    ensures VisitedSources(es, v + {x}) == VisitedSources(es, v) + |InEdgesFrom(es, x)|
  {
    if |es| > 0 {
      VisitedSourcesAdd(es[1..], v, x);
    }
  }

  function InEdgesFrom(es: seq<Edge>, x: nat): seq<Edge>
  {
    if |es| == 0 then [] else (if es[0].source == x then [es[0]] else []) + InEdgesFrom(es[1..], x)
  }

  /** Marking one more node visited raises a score by 3 for each edge that node has into the scored node. */
  lemma ScoreStep(g: Graph, n: nat, v: set<nat>, x: nat)
    requires n < |g.ops| && x !in v
    ensures NodeScore(g, n, v + {x}) == NodeScore(g, n, v) + 3 * |InEdgesFrom(InEdges(g.edges, n), x)|
  {
    VisitedSourcesAdd(InEdges(g.edges, n), v, x);
  }

  /** Between two nodes with the same edges, the method decides: GET over PUT and PATCH over POST over the rest over DELETE. */
  lemma MethodOrdering(g: Graph, a: nat, b: nat, visited: set<nat>)
    requires a < |g.ops| && b < |g.ops|
    requires OutEdges(g.edges, a) == OutEdges(g.edges, b) && InEdges(g.edges, a) == InEdges(g.edges, b)
    ensures NodeScore(g, a, visited) - NodeScore(g, b, visited) == MethodBonus(g.ops[a].httpMethod) - MethodBonus(g.ops[b].httpMethod)
    ensures g.ops[b].httpMethod == DELETE && g.ops[a].httpMethod != DELETE ==> NodeScore(g, a, visited) > NodeScore(g, b, visited)
  {
  }

  /** A node with no edges scores exactly its method bonus (8 GET, 6 PUT and PATCH, 4 POST, -20 DELETE, 0 otherwise). */
  lemma IsolatedScore(g: Graph, n: nat, visited: set<nat>)
    requires n < |g.ops|
    requires forall i :: 0 <= i < |g.edges| ==> g.edges[i].source != n && g.edges[i].target != n
    ensures NodeScore(g, n, visited) == MethodBonus(g.ops[n].httpMethod)
  {
    NoEdges(g.edges, n);
  }

  lemma {:induction false} NoEdges(es: seq<Edge>, n: nat)
    requires forall i :: 0 <= i < |es| ==> es[i].source != n && es[i].target != n
    ensures OutEdges(es, n) == [] && InEdges(es, n) == []
  {
    if |es| > 0 {
      NoEdges(es[1..], n);
    }
  }
}
