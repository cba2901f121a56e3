/**
 * The diff-based sequence generator: it picks a POST operation, walks back to the POST
 * operations it needs, walks forward to the operations that consume what was created, and
 * ends the sequence with DELETE operations. Random draws are read from a supplied stream
 * `rng`; draw number k with bound b is `rng(k) % b`.
 */
module GraphSorter {
  import opened Wrappers
  import opened DependencyGraph

  const MinSequenceLength := 5
  const MaxSequenceLength := 25
  const MinPrerequisiteChain := 1
  const MaxPrerequisiteChain := 5
  const MinDeleteCount := 1
  const MaxDeleteCount := 5
  const NoPostMessage := "No POST operation found in the Operation Dependency Graph."
  const MaximumAttemptsMessage := "The number of maximum attempts must be greater or equal to 1."

  datatype DeleteStrategy = CorrespondingOnly | RandomOnly | Mixed

  /** The strategies in declaration order, as `DeleteStrategy.values()` lists them. */
  function StrategyAt(i: nat): DeleteStrategy
    requires i < 3
  {
    if i == 0 then CorrespondingOnly else if i == 1 then RandomOnly else Mixed
  }

  /** Draw number k of the stream, below `bound`. */
  function Draw(rng: nat -> nat, k: nat, bound: nat): (r: nat)
    requires bound > 0
    ensures r < bound
  {
    rng(k) % bound
  }

  predicate Distinct(s: seq<nat>)
  {
    forall i, j :: 0 <= i < j < |s| ==> s[i] != s[j]
  }

  // ---------------------------------------------------------------------------------------
  // The POST to DELETE map

  /** `s.contains(t)`: t occurs in s at some position. */
  predicate Contains(s: string, t: string)
  {
    exists i :: 0 <= i <= |s| - |t| && OccursAt(s, t, i)
  }

  predicate OccursAt(s: string, t: string, i: nat)
    requires i + |t| <= |s|
  {
    s[i..i + |t|] == t
  }

  /** Every id of ns names a node of g. */
  predicate InGraph(g: Graph, ns: seq<nat>)
  {
    forall i :: 0 <= i < |ns| ==> ns[i] < |g.ops|
  }

  /** The endpoint test of computePostToDeleteMap: equal, or one contains the other. */
  predicate EndpointsMatch(post: string, delete: string)
  {
    post == delete || Contains(delete, post) || Contains(post, delete)
  }

  predicate NodesMatch(g: Graph, p: nat, d: nat)
    requires p < |g.ops| && d < |g.ops|
  {
    EndpointsMatch(g.ops[p].endpoint, g.ops[d].endpoint)
  }

  /** The last node of ds whose endpoint matches p's, if any. */
  function LastMatch(g: Graph, p: nat, ds: seq<nat>): (r: Option<nat>)
    requires p < |g.ops| && InGraph(g, ds)
    ensures r.None? <==> forall d :: d in ds ==> !NodesMatch(g, p, d)
    ensures r.Some? ==> r.value in ds && NodesMatch(g, p, r.value)
  {
    if |ds| == 0 then None
    else if NodesMatch(g, p, ds[|ds| - 1]) then Some(ds[|ds| - 1])
    else LastMatch(g, p, ds[..|ds| - 1])
  }

  /** The map built from p's entry onwards: an entry for every POST of ps with a match among ds. */
  function MatchMap(g: Graph, base: map<nat, nat>, ps: seq<nat>, ds: seq<nat>): map<nat, nat>
    requires InGraph(g, ps) && InGraph(g, ds)
  {
    if |ps| == 0 then base
    else
      var m := MatchMap(g, base, ps[..|ps| - 1], ds);
      var p := ps[|ps| - 1];
      match LastMatch(g, p, ds)
      case None => m
      case Some(d) => m[p := d]
  }

  /** The map computePostToDeleteMap adds to an empty map. */
  function PostToDelete(g: Graph): map<nat, nat>
  {
    MatchMap(g, map[], PostIds(g), DeleteIds(g))
  }

  /** A POST gets an entry iff some DELETE matches it, and the entry is the last such DELETE. */
  lemma {:induction false} MatchMapEntries(g: Graph, base: map<nat, nat>, ps: seq<nat>, ds: seq<nat>, p: nat)
    requires InGraph(g, ps) && InGraph(g, ds)
    requires p in ps
    ensures p in MatchMap(g, base, ps, ds) <==> p in base || LastMatch(g, p, ds).Some?
    ensures LastMatch(g, p, ds).Some? ==> MatchMap(g, base, ps, ds)[p] == LastMatch(g, p, ds).value
    ensures LastMatch(g, p, ds).None? && p in base ==> MatchMap(g, base, ps, ds)[p] == base[p]
  {
    var init := ps[..|ps| - 1];
    assert ps == init + [ps[|ps| - 1]];
    if p in init {
      MatchMapEntries(g, base, init, ds, p);
    } else {
      MatchMapOutside(g, base, init, ds, p);
    }
  }

  /** Entries for nodes outside ps come from the base map unchanged. */
  lemma {:induction false} MatchMapOutside(g: Graph, base: map<nat, nat>, ps: seq<nat>, ds: seq<nat>, p: nat)
    requires InGraph(g, ps) && InGraph(g, ds)
    requires p !in ps
    ensures p in MatchMap(g, base, ps, ds) <==> p in base
    ensures p in base ==> MatchMap(g, base, ps, ds)[p] == base[p]
  {
    if |ps| > 0 {
      assert ps == ps[..|ps| - 1] + [ps[|ps| - 1]];
      MatchMapOutside(g, base, ps[..|ps| - 1], ds, p);
    }
  }

  /** The keys are the POST nodes the base map had or that some DELETE matches. */
  lemma {:induction false} MatchMapKeys(g: Graph, base: map<nat, nat>, ps: seq<nat>, ds: seq<nat>, p: nat)
    requires InGraph(g, ps) && InGraph(g, ds)
    ensures p in MatchMap(g, base, ps, ds) ==> p in base || (p in ps && LastMatch(g, p, ds).Some?)
  {
    if p in ps {
      MatchMapEntries(g, base, ps, ds, p);
    } else {
      MatchMapOutside(g, base, ps, ds, p);
    }
  }

  /**
   * computePostToDeleteMap on a graph: a POST node has an entry iff the endpoint of some
   * DELETE node equals, contains or is contained in its own, and the entry is the DELETE
   * node that comes last in vertex order among those.
   */
  lemma PostToDeleteMeaning(g: Graph, p: nat)
    ensures p in PostToDelete(g) <==> IsMethod(g, p, POST) && exists d :: IsMethod(g, d, DELETE) && NodesMatch(g, p, d)
    ensures p in PostToDelete(g) ==> var d := PostToDelete(g)[p];
      IsMethod(g, d, DELETE) && NodesMatch(g, p, d) &&
      forall d' :: IsMethod(g, d', DELETE) && d < d' ==> !NodesMatch(g, p, d')
  {
    var ps, ds := PostIds(g), DeleteIds(g);
    MatchMapKeys(g, map[], ps, ds, p);
    if p in ps {
      MatchMapEntries(g, map[], ps, ds, p);
      if LastMatch(g, p, ds).None? {
        assert forall d :: IsMethod(g, d, DELETE) ==> d in ds;
      }
    }
    if p in PostToDelete(g) {
      var d := PostToDelete(g)[p];
      forall d' | IsMethod(g, d', DELETE) && d < d'
        ensures !NodesMatch(g, p, d')
      {
        assert d' in ds;
        LastMatchIsLast(g, p, ds, d');
      }
    }
  }

  /** No node after the last match matches. */
  lemma {:induction false} LastMatchIsLast(g: Graph, p: nat, ds: seq<nat>, d': nat)
    requires p < |g.ops| && InGraph(g, ds)
    requires forall i, j :: 0 <= i < j < |ds| ==> ds[i] < ds[j]
    requires d' in ds
    requires LastMatch(g, p, ds).Some? && LastMatch(g, p, ds).value < d'
    ensures !NodesMatch(g, p, d')
  {
    var last := ds[|ds| - 1];
    if d' != last && !NodesMatch(g, p, last) {
      LastMatchIsLast(g, p, ds[..|ds| - 1], d');
    }
  }

  // ---------------------------------------------------------------------------------------
  // Depth-first order of the POST prerequisites

  /** Each node of p after the first is a POST node that the node before it depends on. */
  predicate PostChain(g: Graph, p: seq<nat>)
  {
    forall i :: 0 < i < |p| ==> IsMethod(g, p[i], POST) && DependsOn(g, p[i - 1], p[i])
  }

  /**
   * The POST dependencies of r[i] outside `global` are emitted before it, or are r[i]
   * itself, or lie on `path`, the chain of nodes the search was inside when it reached r[i].
   */
  predicate DepsBefore(g: Graph, r: seq<nat>, i: nat, global: set<nat>, path: seq<nat>)
    requires i < |r|
  {
    forall e :: e in g.edges && e.source == r[i] && IsMethod(g, e.target, POST) && e.target !in global ==>
      e.target in r[..i] || e.target in path || e.target == r[i]
  }

  /** Every node emitted from index `from` on has its search path recorded in `paths`, and its dependencies are placed before it. */
  predicate DfsOrdered(g: Graph, r: seq<nat>, from: nat, global: set<nat>, paths: map<nat, seq<nat>>)
  {
    forall i :: from <= i < |r| ==>
      r[i] in paths && PostChain(g, paths[r[i]] + [r[i]]) && DepsBefore(g, r, i, global, paths[r[i]])
  }

  lemma DepsBeforeExtend(g: Graph, r: seq<nat>, s: seq<nat>, i: nat, global: set<nat>, path: seq<nat>)
    requires i < |r| && DepsBefore(g, r, i, global, path)
    ensures DepsBefore(g, r + s, i, global, path)
  {
    assert (r + s)[..i] == r[..i];
  }

  lemma PostChainSnoc(g: Graph, p: seq<nat>, x: nat)
    requires PostChain(g, p) && |p| > 0
    requires IsMethod(g, x, POST) && DependsOn(g, p[|p| - 1], x)
    ensures PostChain(g, p + [x])
  {
  }

  /** A ranking that every dependency on a POST node descends: the POST subgraph has no cycle. */
  predicate RanksPostEdges(g: Graph, rank: nat -> nat)
  {
    forall e :: e in g.edges && IsMethod(g, e.target, POST) ==> rank(e.target) < rank(e.source)
  }

  /** Along a chain the rank descends strictly. */
  lemma {:induction false} ChainDescends(g: Graph, rank: nat -> nat, p: seq<nat>, i: nat, j: nat)
    requires RanksPostEdges(g, rank) && PostChain(g, p)
    requires i < j < |p|
    ensures rank(p[j]) < rank(p[i])
    decreases j
  {
    assert Edge(p[j - 1], p[j], true) in g.edges || Edge(p[j - 1], p[j], false) in g.edges;
    if i < j - 1 {
      ChainDescends(g, rank, p, i, j - 1);
    }
  }

  /**
   * On a POST subgraph without cycles, the depth-first order places every POST dependency
   * (outside `global`) of an emitted node before that node.
   */
  lemma AcyclicDependenciesFirst(g: Graph, r: seq<nat>, global: set<nat>, paths: map<nat, seq<nat>>, rank: nat -> nat, i: nat, e: Edge)
    requires DfsOrdered(g, r, 0, global, paths) && RanksPostEdges(g, rank)
    requires i < |r| && e in g.edges && e.source == r[i] && IsMethod(g, e.target, POST) && e.target !in global
    ensures e.target in r[..i]
  {
    var path := paths[r[i]] + [r[i]];
    assert rank(e.target) < rank(r[i]);
    if e.target in paths[r[i]] {
      var k :| 0 <= k < |paths[r[i]]| && paths[r[i]][k] == e.target;
      ChainDescends(g, rank, path, k, |path| - 1);
    }
  }

  // ---------------------------------------------------------------------------------------
  // Shuffling

  /** The number of draws Collections.shuffle takes on a list of length n. */
  function ShuffleDraws(n: nat): nat
  {
    if n <= 1 then 0 else n - 1
  }

  lemma SwapKeepsMultiset(s: seq<nat>, a: nat, b: nat)
    requires a < |s| && b < |s|
    ensures multiset(s[a := s[b]][b := s[a]]) == multiset(s)
  {
    if a != b {
      var t := s[a := s[b]];
      assert multiset(t) == multiset(s) - multiset{s[a]} + multiset{s[b]};
      assert multiset(t[b := s[a]]) == multiset(t) - multiset{t[b]} + multiset{s[a]};
    }
  }

  /** Collections.shuffle: from the last position down to the second, swap with a drawn position at or before it. */
  method Shuffle(xs: seq<nat>, rng: nat -> nat, k: nat) returns (ys: seq<nat>, next: nat)
    ensures multiset(ys) == multiset(xs) && |ys| == |xs|
    ensures next == k + ShuffleDraws(|xs|)
  {
    ys, next := xs, k;
    var i := |xs|;
    while i > 1
      invariant 0 <= i <= |xs| && |ys| == |xs|
      invariant multiset(ys) == multiset(xs)
      invariant next == k + ShuffleDraws(|xs|) - ShuffleDraws(i)
    {
      var j := Draw(rng, next, i);
      SwapKeepsMultiset(ys, i - 1, j);
      ys := ys[i - 1 := ys[j]][j := ys[i - 1]];
      next := next + 1;
      i := i - 1;
    }
  }

  lemma MultisetMembers(xs: seq<nat>, ys: seq<nat>, x: nat)
    requires multiset(ys) == multiset(xs)
    ensures x in ys <==> x in xs
  {
    assert x in ys <==> x in multiset(ys);
    assert x in xs <==> x in multiset(xs);
  }

  // ---------------------------------------------------------------------------------------
  // Filters over node lists

  /** The nodes of s that are not DELETE nodes, in order. */
  function NonDeletes(g: Graph, s: seq<nat>): (r: seq<nat>)
    ensures forall x :: x in r <==> x in s && !IsMethod(g, x, DELETE)
    ensures |r| <= |s|
  {
    if |s| == 0 then []
    else NonDeletes(g, s[..|s| - 1]) + (if IsMethod(g, s[|s| - 1], DELETE) then [] else [s[|s| - 1]])
  }

  /** The DELETE nodes of s, in order. */
  function Deletes(g: Graph, s: seq<nat>): (r: seq<nat>)
    ensures forall x :: x in r <==> x in s && IsMethod(g, x, DELETE)
    ensures |r| <= |s|
  {
    if |s| == 0 then []
    else Deletes(g, s[..|s| - 1]) + (if IsMethod(g, s[|s| - 1], DELETE) then [s[|s| - 1]] else [])
  }

  /** The POST nodes of s, in order: the operations recorded in postOperationsInSequence. */
  function Posts(g: Graph, s: seq<nat>): (r: seq<nat>)
    ensures forall x :: x in r <==> x in s && IsMethod(g, x, POST)
    ensures |r| <= |s|
  {
    if |s| == 0 then []
    else Posts(g, s[..|s| - 1]) + (if IsMethod(g, s[|s| - 1], POST) then [s[|s| - 1]] else [])
  }

  lemma PostsSnoc(g: Graph, s: seq<nat>, x: nat)
    ensures Posts(g, s + [x]) == Posts(g, s) + (if IsMethod(g, x, POST) then [x] else [])
  {
    assert (s + [x])[..|s|] == s;
  }

  /** No DELETE node is followed by a node of another method: the shape the sorter's test checks. */
  predicate DeletesLast(g: Graph, q: seq<nat>)
  {
    forall i, j :: 0 <= i < j < |q| && IsMethod(g, q[i], DELETE) ==> IsMethod(g, q[j], DELETE)
  }

  /** A list of non-DELETE nodes followed by DELETE nodes splits into the two filters. */
  lemma {:induction false} SplitFilters(g: Graph, pre: seq<nat>, dels: seq<nat>)
    requires forall i :: 0 <= i < |pre| ==> !IsMethod(g, pre[i], DELETE)
    requires forall i :: 0 <= i < |dels| ==> IsMethod(g, dels[i], DELETE)
    ensures NonDeletes(g, pre + dels) == pre && Deletes(g, pre + dels) == dels
    decreases |dels|
  {
    if |dels| == 0 {
      assert pre + dels == pre;
      NoDeletes(g, pre);
    } else {
      var init, last := dels[..|dels| - 1], dels[|dels| - 1];
      assert (pre + dels)[..|pre + dels| - 1] == pre + init;
      assert (pre + dels)[|pre + dels| - 1] == last;
      assert dels == init + [last];
      SplitFilters(g, pre, init);
    }
  }

  /** Non-DELETE nodes followed by DELETE nodes have their DELETEs last. */
  lemma ConcatDeletesLast(g: Graph, pre: seq<nat>, dels: seq<nat>)
    requires forall i :: 0 <= i < |pre| ==> !IsMethod(g, pre[i], DELETE)
    requires forall i :: 0 <= i < |dels| ==> IsMethod(g, dels[i], DELETE)
    ensures DeletesLast(g, pre + dels)
  {
    var q := pre + dels;
    forall i | 0 <= i < |pre| ensures !IsMethod(g, q[i], DELETE) {
      assert q[i] == pre[i];
    }
    forall j | |pre| <= j < |q| ensures IsMethod(g, q[j], DELETE) {
      assert q[j] == dels[j - |pre|];
    }
  }

  /** One more node of the prefix s[..i]. */
  lemma NonDeletesNext(g: Graph, s: seq<nat>, i: nat)
    requires i < |s|
    ensures NonDeletes(g, s[..i + 1]) == NonDeletes(g, s[..i]) + (if IsMethod(g, s[i], DELETE) then [] else [s[i]])
  {
    assert s[..i + 1][..i] == s[..i];
  }

  lemma {:induction false} NoDeletes(g: Graph, s: seq<nat>)
    requires forall i :: 0 <= i < |s| ==> !IsMethod(g, s[i], DELETE)
    ensures NonDeletes(g, s) == s && Deletes(g, s) == []
  {
    if |s| > 0 {
      assert s == s[..|s| - 1] + [s[|s| - 1]];
      NoDeletes(g, s[..|s| - 1]);
    }
  }

  // ---------------------------------------------------------------------------------------
  // Candidate targets

  /** The nodes of s with at least one outgoing edge, in order. */
  function Connected(g: Graph, s: seq<nat>): (r: seq<nat>)
    ensures forall x :: x in r <==> x in s && |OutEdges(g.edges, x)| > 0
  {
    if |s| == 0 then []
    else Connected(g, s[..|s| - 1]) + (if |OutEdges(g.edges, s[|s| - 1])| > 0 then [s[|s| - 1]] else [])
  }

  /**
   * The candidate targets: with the 80% draw, the POST nodes with an outgoing edge unless
   * there are none, and otherwise all POST nodes.
   */
  function Candidates(g: Graph, posts: seq<nat>, preferConnected: bool): (r: seq<nat>)
    ensures |r| == 0 <==> |posts| == 0
    ensures forall x :: x in r ==> x in posts
    ensures preferConnected && (exists x :: x in posts && |OutEdges(g.edges, x)| > 0) ==>
      forall x :: x in r ==> |OutEdges(g.edges, x)| > 0
    ensures !preferConnected ==> r == posts
  {
    if preferConnected && |Connected(g, posts)| > 0 then Connected(g, posts) else posts
  }

  /** The 80% draw: Random.nextDouble() < 0.8, taken as a draw below 5 that is not 4. */
  predicate PreferConnected(rng: nat -> nat, k: nat)
  {
    Draw(rng, k, 5) < 4
  }

  // ---------------------------------------------------------------------------------------
  // Consumers

  /** The sources of es that are neither visited nor DELETE nodes, in order. */
  function Consumers(g: Graph, es: seq<Edge>, visited: set<nat>): seq<nat>
  {
    if |es| == 0 then []
    else
      var e := es[|es| - 1];
      Consumers(g, es[..|es| - 1], visited) + (if e.source !in visited && !IsMethod(g, e.source, DELETE) then [e.source] else [])
  }

  lemma ConsumersSnoc(g: Graph, es: seq<Edge>, e: Edge, visited: set<nat>)
    ensures Consumers(g, es + [e], visited) ==
      Consumers(g, es, visited) + (if e.source !in visited && !IsMethod(g, e.source, DELETE) then [e.source] else [])
  {
    assert (es + [e])[..|es|] == es;
  }

  lemma ConsumersPrefix(g: Graph, es: seq<Edge>, j: nat, visited: set<nat>)
    requires j < |es|
    ensures Consumers(g, es[..j + 1], visited) ==
      Consumers(g, es[..j], visited) + (if es[j].source !in visited && !IsMethod(g, es[j].source, DELETE) then [es[j].source] else [])
  {
    assert es[..j + 1][..j] == es[..j];
  }

  /** The loop over the incoming edges of n: appends the sources that are not visited and not DELETE nodes. */
  method AddConsumers(g: Graph, n: nat, visited: set<nat>, pq: seq<nat>) returns (r: seq<nat>)
    ensures r == pq + Consumers(g, InEdges(g.edges, n), visited)
  {
    var incoming := InEdges(g.edges, n);
    r := pq;
    var j := 0;
    while j < |incoming|
      invariant j <= |incoming|
      invariant r == pq + Consumers(g, incoming[..j], visited)
    {
      var consumer := incoming[j].source;
      ConsumersPrefix(g, incoming, j, visited);
      if consumer !in visited && !IsMethod(g, consumer, DELETE) {
        r := r + [consumer];
      }
      j := j + 1;
    }
    assert incoming[..j] == incoming;
  }

  /** Each consumer is an unvisited non-DELETE source of one of the edges. */
  lemma {:induction false} ConsumersFrom(g: Graph, es: seq<Edge>, visited: set<nat>, x: nat)
    requires x in Consumers(g, es, visited)
    ensures x !in visited && !IsMethod(g, x, DELETE)
    ensures exists e :: e in es && e.source == x
  {
    var last := es[|es| - 1];
    if x in Consumers(g, es[..|es| - 1], visited) {
      ConsumersFrom(g, es[..|es| - 1], visited, x);
      var e :| e in es[..|es| - 1] && e.source == x;
      assert e in es;
    } else {
      assert last in es;
    }
  }

  /** Every consumer of n is a node that depends on n. */
  lemma ConsumersDependOn(g: WfGraph, n: nat, visited: set<nat>, x: nat)
    requires x in Consumers(g, InEdges(g.edges, n), visited)
    ensures x < |g.ops| && DependsOn(g, x, n) && x !in visited && !IsMethod(g, x, DELETE)
  {
    ConsumersFrom(g, InEdges(g.edges, n), visited, x);
    var e :| e in InEdges(g.edges, n) && e.source == x;
    assert e == Edge(x, n, e.satisfied);
  }

  /** Every unvisited non-DELETE source of the edges is among the consumers. */
  lemma {:induction false} ConsumersComplete(g: Graph, es: seq<Edge>, visited: set<nat>)
    ensures forall e :: e in es && e.source !in visited && !IsMethod(g, e.source, DELETE) ==> e.source in Consumers(g, es, visited)
  {
    if |es| > 0 {
      var init := es[..|es| - 1];
      ConsumersComplete(g, init, visited);
      forall e | e in es && e.source !in visited && !IsMethod(g, e.source, DELETE)
        ensures e.source in Consumers(g, es, visited)
      {
        if e != es[|es| - 1] {
          var i :| 0 <= i < |es| && es[i] == e;
          assert init[i] == e;
        }
      }
    }
  }

  /** Every non-DELETE source of an edge into n is visited or pending. */
  ghost predicate CoveredNode(g: Graph, n: nat, visited: set<nat>, pq: seq<nat>)
  {
    forall e :: e in InEdges(g.edges, n) && !IsMethod(g, e.source, DELETE) ==> e.source in visited || e.source in pq
  }

  /** Every node of ns is covered. */
  ghost predicate Covered(g: Graph, ns: seq<nat>, visited: set<nat>, pq: seq<nat>)
  {
    forall i :: 0 <= i < |ns| ==> CoveredNode(g, ns[i], visited, pq)
  }

  /** Every non-DELETE source of an edge into a node of q is itself in q. */
  ghost predicate ConsumersClosed(g: Graph, q: seq<nat>)
  {
    forall i, e :: 0 <= i < |q| && e in InEdges(g.edges, q[i]) && !IsMethod(g, e.source, DELETE) ==> e.source in q
  }

  /** Covering the nodes of one list covers the nodes of any list drawn from them. */
  lemma CoverSubset(g: Graph, ns: seq<nat>, ms: seq<nat>, visited: set<nat>, pq: seq<nat>)
    requires Covered(g, ns, visited, pq) && forall x :: x in ms ==> x in ns
    ensures Covered(g, ms, visited, pq)
  {
    forall i | 0 <= i < |ms|
      ensures CoveredNode(g, ms[i], visited, pq)
    {
      assert ms[i] in ms;
      var j :| 0 <= j < |ns| && ns[j] == ms[i];
    }
  }

  /** Appending the consumers of n to the pending list covers the edges into n as well. */
  lemma CoverAdd(g: Graph, ns: seq<nat>, n: nat, visited: set<nat>, pq: seq<nat>, r: seq<nat>)
    requires Covered(g, ns, visited, pq)
    requires r == pq + Consumers(g, InEdges(g.edges, n), visited)
    ensures Covered(g, ns + [n], visited, r)
  {
    ConsumersComplete(g, InEdges(g.edges, n), visited);
    forall i | 0 <= i < |ns + [n]|
      ensures CoveredNode(g, (ns + [n])[i], visited, r)
    {
      if i < |ns| {
        assert (ns + [n])[i] == ns[i] && CoveredNode(g, ns[i], visited, pq);
      }
    }
  }

  /** The consumers of ns[c] cover the prefix of ns one node longer. */
  lemma CoverAddPrefix(g: Graph, ns: seq<nat>, c: nat, visited: set<nat>, pq: seq<nat>, r: seq<nat>)
    requires c < |ns| && Covered(g, ns[..c], visited, pq)
    requires r == pq + Consumers(g, InEdges(g.edges, ns[c]), visited)
    ensures Covered(g, ns[..c + 1], visited, r)
  {
    CoverAdd(g, ns[..c], ns[c], visited, pq, r);
    assert ns[..c + 1] == ns[..c] + [ns[c]];
  }

  /** Removing a pending node that is now visited keeps one node covered. */
  lemma CoverNodePoll(g: Graph, n: nat, visited: set<nat>, pq: seq<nat>, idx: nat, visited': set<nat>)
    requires CoveredNode(g, n, visited, pq) && idx < |pq|
    requires visited <= visited' && pq[idx] in visited'
    ensures CoveredNode(g, n, visited', pq[..idx] + pq[idx + 1..])
  {
    var rest := pq[..idx] + pq[idx + 1..];
    forall x | x in pq && x !in visited'
      ensures x in rest
    {
      var j :| 0 <= j < |pq| && pq[j] == x;
      if j < idx {
        assert rest[j] == x;
      } else {
        assert rest[j - 1] == x;
      }
    }
  }

  /** Removing a pending node that is now visited keeps the edges covered. */
  lemma CoverPoll(g: Graph, ns: seq<nat>, visited: set<nat>, pq: seq<nat>, idx: nat, visited': set<nat>)
    requires Covered(g, ns, visited, pq) && idx < |pq|
    requires visited <= visited' && pq[idx] in visited'
    ensures Covered(g, ns, visited', pq[..idx] + pq[idx + 1..])
  {
    forall i | 0 <= i < |ns|
      ensures CoveredNode(g, ns[i], visited', pq[..idx] + pq[idx + 1..])
    {
      CoverNodePoll(g, ns[i], visited, pq, idx, visited');
    }
  }

  // ---------------------------------------------------------------------------------------
  // DELETE operations

  /** Appends d unless it is already listed. */
  function AddIfNew(dels: seq<nat>, d: nat): seq<nat>
  {
    if d in dels then dels else dels + [d]
  }

  /** Adding d when absent keeps the list distinct and its prefix, and adds d at most once. */
  lemma AddIfNewFacts(dels: seq<nat>, d: nat)
    requires Distinct(dels)
    ensures var r := AddIfNew(dels, d);
      Distinct(r) && |dels| <= |r| <= |dels| + 1 && r[..|dels|] == dels && d in r &&
      forall i :: |dels| <= i < |r| ==> r[i] == d
  {
    if d !in dels {
      assert (dels + [d])[..|dels|] == dels;
    }
  }

  /** addCorrespondingDeletes: the mapped DELETEs of posts, from the last POST back, until the list holds maxCount. */
  function CorrespondingDeletes(m: map<nat, nat>, posts: seq<nat>, dels: seq<nat>, maxCount: int): seq<nat>
  {
    if |posts| == 0 || |dels| >= maxCount then dels
    else
      var p := posts[|posts| - 1];
      CorrespondingDeletes(m, posts[..|posts| - 1], if p in m then AddIfNew(dels, m[p]) else dels, maxCount)
  }

  /** The DELETEs the walked POSTs map to. */
  function Mapped(m: map<nat, nat>, posts: seq<nat>): (r: set<nat>)
    ensures forall p :: p in posts && p in m ==> m[p] in r
  {
    if |posts| == 0 then {}
    else
      var p := posts[|posts| - 1];
      Mapped(m, posts[..|posts| - 1]) + (if p in m then {m[p]} else {})
  }

  /** Every member of Mapped is the entry of some walked POST. */
  lemma {:induction false} MappedFrom(m: map<nat, nat>, posts: seq<nat>, d: nat)
    requires d in Mapped(m, posts)
    ensures exists p :: p in posts && p in m && m[p] == d
  {
    var p := posts[|posts| - 1];
    if !(p in m && m[p] == d) {
      MappedFrom(m, posts[..|posts| - 1], d);
      var q :| q in posts[..|posts| - 1] && q in m && m[q] == d;
      assert q in posts;
    }
  }

  /** The list grows by distinct mapped DELETEs of the walked POSTs, and never beyond maxCount. */
  lemma {:induction false} CorrespondingDeletesFacts(m: map<nat, nat>, posts: seq<nat>, dels: seq<nat>, maxCount: int)
    requires Distinct(dels)
    ensures var r := CorrespondingDeletes(m, posts, dels, maxCount);
      |dels| <= |r| && r[..|dels|] == dels && Distinct(r) &&
      (|dels| <= maxCount ==> |r| <= maxCount) &&
      forall i :: |dels| <= i < |r| ==> r[i] in Mapped(m, posts)
  {
    if |posts| > 0 && |dels| < maxCount {
      var p := posts[|posts| - 1];
      var init := posts[..|posts| - 1];
      var next := if p in m then AddIfNew(dels, m[p]) else dels;
      CorrespondingDeletesFacts(m, init, next, maxCount);
      var r := CorrespondingDeletes(m, posts, dels, maxCount);
      assert r == CorrespondingDeletes(m, init, next, maxCount);
      assert r[..|next|][..|dels|] == r[..|dels|];
      forall i | |dels| <= i < |r|
        ensures r[i] in Mapped(m, posts)
      {
        if i < |next| {
          assert p in m;
          assert r[i] == next[i] == m[p];
        }
      }
    }
  }

  /** Every walked POST that has a mapped DELETE has it listed. */
  predicate MapsAll(m: map<nat, nat>, posts: seq<nat>, dels: seq<nat>)
  {
    forall p :: p in posts && p in m ==> m[p] in dels
  }

  /** A list that stops short of maxCount holds the mapped DELETE of every walked POST that has one. */
  lemma {:induction false} CorrespondingDeletesComplete(m: map<nat, nat>, posts: seq<nat>, dels: seq<nat>, maxCount: int)
    requires Distinct(dels)
    ensures var r := CorrespondingDeletes(m, posts, dels, maxCount);
      |r| < maxCount ==> MapsAll(m, posts, r)
  {
    if |posts| > 0 && |dels| < maxCount {
      var p := posts[|posts| - 1];
      var init := posts[..|posts| - 1];
      var next := if p in m then AddIfNew(dels, m[p]) else dels;
      if p in m {
        AddIfNewFacts(dels, m[p]);
      }
      CorrespondingDeletesComplete(m, init, next, maxCount);
      CorrespondingDeletesFacts(m, init, next, maxCount);
      var r := CorrespondingDeletes(m, posts, dels, maxCount);
      assert r == CorrespondingDeletes(m, init, next, maxCount);
      if |r| < maxCount {
        forall x | x in posts && x in m
          ensures m[x] in r
        {
          if x == p {
            var j :| 0 <= j < |next| && next[j] == m[p];
            assert r[j] == r[..|next|][j];
          } else {
            var i :| 0 <= i < |posts| && posts[i] == x;
            assert init[i] == x;
          }
        }
      }
    }
  }

  /** The mapped DELETEs of POSTs walked from the last (an empty start list and room for all of them). */
  lemma CorrespondingDeletesExample(m: map<nat, nat>)
    requires m == map[1 := 7, 2 := 8, 3 := 7]
    ensures CorrespondingDeletes(m, [1, 2, 3, 4], [], 5) == [7, 8]
    ensures CorrespondingDeletes(m, [1, 2, 3, 4], [], 1) == [7]
  {
    assert [1, 2, 3, 4][..3] == [1, 2, 3];
    assert [1, 2, 3][..2] == [1, 2];
    assert [1, 2][..1] == [1];
    assert [1][..0] == [];
    assert AddIfNew([], 7) == [7];
    assert AddIfNew([7], 8) == [7, 8];
    assert CorrespondingDeletes(m, [1], [7, 8], 5) == [7, 8];
    assert CorrespondingDeletes(m, [1, 2], [7], 5) == [7, 8];
    assert CorrespondingDeletes(m, [1, 2, 3], [], 5) == [7, 8];
    assert CorrespondingDeletes(m, [1, 2], [7], 1) == [7];
    assert CorrespondingDeletes(m, [1, 2, 3], [], 1) == [7];
  }

  /** addRandomDeletes: the list after the remaining attempts, and the next draw index. */
  function RandomDeletes(pool: seq<nat>, rng: nat -> nat, k: nat, dels: seq<nat>, targetSize: int, attempts: nat): (r: (seq<nat>, nat))
    requires |pool| > 0
    decreases attempts
  {
    if |dels| >= targetSize || attempts == 0 then (dels, k)
    else RandomDeletes(pool, rng, k + 1, AddIfNew(dels, pool[Draw(rng, k, |pool|)]), targetSize, attempts - 1)
  }

  /** The list grows by distinct nodes of the pool, at most to targetSize, taking at most `attempts` draws. */
  lemma {:induction false} RandomDeletesFacts(pool: seq<nat>, rng: nat -> nat, k: nat, dels: seq<nat>, targetSize: int, attempts: nat)
    requires |pool| > 0 && Distinct(dels)
    ensures var (r, next) := RandomDeletes(pool, rng, k, dels, targetSize, attempts);
      |dels| <= |r| && r[..|dels|] == dels && Distinct(r) &&
      (|dels| <= targetSize ==> |r| <= targetSize) && |r| <= |dels| + attempts &&
      k <= next <= k + attempts &&
      forall i :: |dels| <= i < |r| ==> r[i] in pool
    decreases attempts
  {
    if |dels| < targetSize && attempts > 0 {
      var d := pool[Draw(rng, k, |pool|)];
      var next := AddIfNew(dels, d);
      AddIfNewFacts(dels, d);
      RandomDeletesFacts(pool, rng, k + 1, next, targetSize, attempts - 1);
      var r := RandomDeletes(pool, rng, k + 1, next, targetSize, attempts - 1).0;
      assert r[..|next|][..|dels|] == r[..|dels|];
      forall i | |dels| <= i < |r|
        ensures r[i] in pool
      {
        if i < |next| {
          assert r[i] == next[i] == d;
        }
      }
    }
  }

  /** x depends on some node of q. */
  predicate ConsumesSome(g: Graph, x: nat, q: seq<nat>)
  {
    exists y :: y in q && DependsOn(g, x, y)
  }

  lemma ConsumesSomeGrows(g: Graph, x: nat, q: seq<nat>, more: seq<nat>)
    requires ConsumesSome(g, x, q)
    ensures ConsumesSome(g, x, q + more)
  {
    var y :| y in q && DependsOn(g, x, y);
    assert y in q + more;
  }

  lemma DistinctConcat(a: seq<nat>, b: seq<nat>)
    requires Distinct(a) && Distinct(b)
    requires forall x :: x in a ==> x !in b
    ensures Distinct(a + b)
  {
    forall i, j | 0 <= i < j < |a + b|
      ensures (a + b)[i] != (a + b)[j]
    {
      if i < |a| && |a| <= j {
        assert (a + b)[i] in a && (a + b)[j] in b;
      }
    }
  }

  lemma SuffixDistinct(s: seq<nat>, n: nat)
    requires Distinct(s) && n <= |s|
    ensures Distinct(s[n..])
  {
    forall i, j | 0 <= i < j < |s[n..]|
      ensures s[n..][i] != s[n..][j]
    {
      assert s[n..][i] == s[n + i] && s[n..][j] == s[n + j];
    }
  }

  /** addRandomDeletes as a whole: nothing from an empty pool, else up to count new nodes in 3 * count draws. */
  function RandomFrom(pool: seq<nat>, rng: nat -> nat, k: nat, dels: seq<nat>, count: nat): (seq<nat>, nat)
  {
    if |pool| == 0 then (dels, k) else RandomDeletes(pool, rng, k, dels, |dels| + count, 3 * count)
  }

  /** One draw of addRandomDeletes, with `after` the list once the drawn node is added unless listed. */
  lemma RandomStep(pool: seq<nat>, rng: nat -> nat, k: nat, dels: seq<nat>, targetSize: int, attempts: nat,
                    k': nat, after: seq<nat>, attempts': nat, goal: (seq<nat>, nat))
    requires |pool| > 0 && |dels| < targetSize && attempts > 0 && k' == k + 1 && attempts' + 1 == attempts
    requires var d := pool[Draw(rng, k, |pool|)]; after == if d !in dels then dels + [d] else dels
    requires RandomDeletes(pool, rng, k, dels, targetSize, attempts) == goal
    ensures RandomDeletes(pool, rng, k', after, targetSize, attempts') == goal
  {
  }

  /** With the list full or no attempt left, nothing more is drawn. */
  lemma RandomDone(pool: seq<nat>, rng: nat -> nat, k: nat, dels: seq<nat>, targetSize: int, attempts: nat)
    requires |pool| > 0 && (|dels| >= targetSize || attempts == 0)
    ensures RandomDeletes(pool, rng, k, dels, targetSize, attempts) == (dels, k)
  {
  }

  /** The drawing loop of addRandomDeletes, over a non-empty pool. */
  method DrawDeletes(pool: seq<nat>, rng: nat -> nat, dels: seq<nat>, count: nat, k: nat) returns (r: seq<nat>, next: nat)
    requires |pool| > 0
    ensures (r, next) == RandomDeletes(pool, rng, k, dels, |dels| + count, 3 * count)
  {
    var targetSize := |dels| + count;
    var attempts := 0;
    var maxAttempts := 3 * count;
    ghost var left: nat := maxAttempts;
    ghost var goal := RandomDeletes(pool, rng, k, dels, targetSize, maxAttempts);
    r, next := dels, k;
    while |r| < targetSize && attempts < maxAttempts
      invariant left == maxAttempts - attempts
      invariant RandomDeletes(pool, rng, next, r, targetSize, left) == goal
      decreases left
    {
      var deleteNode := pool[Draw(rng, next, |pool|)];
      ghost var before, drawn, leftBefore := r, next, left;
      if deleteNode !in r {
        r := r + [deleteNode];
      }
      next := next + 1;
      attempts := attempts + 1;
      left := left - 1;
      RandomStep(pool, rng, drawn, before, targetSize, leftBefore, next, r, left, goal);
    }
    RandomDone(pool, rng, next, r, targetSize, left);
  }

  /** The DELETE nodes each strategy picks, and the next draw index. */
  function StrategyDeletes(m: map<nat, nat>, pool: seq<nat>, rng: nat -> nat, strategy: DeleteStrategy, posts: seq<nat>, count: nat, k: nat): (seq<nat>, nat)
  {
    match strategy
    case CorrespondingOnly => (CorrespondingDeletes(m, posts, [], count), k)
    case RandomOnly => RandomFrom(pool, rng, k, [], count)
    case Mixed => RandomFrom(pool, rng, k, CorrespondingDeletes(m, posts, [], count / 2), count - count / 2)
  }

  /** What addRandomDeletes adds: distinct pool nodes, at most count of them, after the kept list. */
  lemma RandomFromFacts(pool: seq<nat>, rng: nat -> nat, k: nat, dels: seq<nat>, count: nat)
    requires Distinct(dels)
    ensures var (r, next) := RandomFrom(pool, rng, k, dels, count);
      |dels| <= |r| <= |dels| + count && r[..|dels|] == dels && Distinct(r) && k <= next &&
      forall i :: |dels| <= i < |r| ==> r[i] in pool
  {
    if |pool| > 0 {
      RandomDeletesFacts(pool, rng, k, dels, |dels| + count, 3 * count);
    } else {
      assert dels[..|dels|] == dels;
    }
  }

  /**
   * Distinct DELETE nodes, at most count of them, each the mapped DELETE of a walked POST or
   * a member of the pool; for CORRESPONDING_ONLY only the former and for RANDOM_ONLY only the latter.
   * CORRESPONDING_ONLY lists every mapped DELETE unless it reaches count; MIXED starts with
   * count / 2 mapped DELETEs unless it lists every one.
   */
  predicate Picked(g: Graph, m: map<nat, nat>, pool: seq<nat>, strategy: DeleteStrategy, posts: seq<nat>, count: int, dels: seq<nat>)
  {
    Distinct(dels) && |dels| <= count &&
    (forall i :: 0 <= i < |dels| ==> IsMethod(g, dels[i], DELETE)) &&
    (forall i :: 0 <= i < |dels| ==> dels[i] in Mapped(m, posts) || dels[i] in pool) &&
    (strategy == CorrespondingOnly ==> forall i :: 0 <= i < |dels| ==> dels[i] in Mapped(m, posts)) &&
    (strategy == CorrespondingOnly && |dels| < count ==> MapsAll(m, posts, dels)) &&
    (strategy == Mixed ==> MapsAll(m, posts, dels) || (count / 2 <= |dels| && forall i :: 0 <= i < count / 2 ==> dels[i] in Mapped(m, posts))) &&
    (strategy == RandomOnly ==> forall i :: 0 <= i < |dels| ==> dels[i] in pool)
  }

  /**
   * Every strategy picks distinct DELETE nodes, at most count of them, each the mapped
   * DELETE of a walked POST or a member of the pool; CORRESPONDING_ONLY only the former
   * and RANDOM_ONLY only the latter.
   */
  lemma StrategyDeletesFacts(g: Graph, m: map<nat, nat>, pool: seq<nat>, rng: nat -> nat, strategy: DeleteStrategy, posts: seq<nat>, count: nat, k: nat,
                              dels: seq<nat>, next: nat)
    requires forall p :: p in m ==> IsMethod(g, m[p], DELETE)
    requires forall i :: 0 <= i < |pool| ==> IsMethod(g, pool[i], DELETE)
    requires (dels, next) == StrategyDeletes(m, pool, rng, strategy, posts, count, k)
    ensures Picked(g, m, pool, strategy, posts, count, dels) && k <= next
  {
    var c := CorrespondingDeletes(m, posts, [], if strategy == Mixed then count / 2 else count);
    CorrespondingDeletesFacts(m, posts, [], if strategy == Mixed then count / 2 else count);
    CorrespondingDeletesComplete(m, posts, [], if strategy == Mixed then count / 2 else count);
    if strategy == CorrespondingOnly {
      assert dels == c;
    } else {
      var start := if strategy == Mixed then c else [];
      RandomFromFacts(pool, rng, k, start, if strategy == Mixed then count - count / 2 else count);
      forall i | 0 <= i < |start|
        ensures dels[i] in Mapped(m, posts)
      {
        assert dels[i] == dels[..|start|][i];
      }
      if strategy == Mixed && |c| < count / 2 {
        PrefixMapsAll(m, posts, c, dels);
      }
    }
    forall i | 0 <= i < |dels|
      ensures IsMethod(g, dels[i], DELETE)
    {
      if dels[i] in Mapped(m, posts) {
        MappedFrom(m, posts, dels[i]);
      } else {
        var j :| 0 <= j < |pool| && pool[j] == dels[i];
      }
    }
  }

  /** A list that starts with one listing every mapped DELETE lists them too. */
  lemma PrefixMapsAll(m: map<nat, nat>, posts: seq<nat>, c: seq<nat>, dels: seq<nat>)
    requires MapsAll(m, posts, c) && |c| <= |dels| && dels[..|c|] == c
    ensures MapsAll(m, posts, dels)
  {
    forall p | p in posts && p in m
      ensures m[p] in dels
    {
      var j :| 0 <= j < |c| && c[j] == m[p];
      assert dels[j] == dels[..|c|][j];
    }
  }

  /** DELETE nodes appended after a list add no POST node. */
  lemma {:induction false} PostsIgnoreDeletes(g: Graph, pre: seq<nat>, dels: seq<nat>)
    requires forall i :: 0 <= i < |dels| ==> IsMethod(g, dels[i], DELETE)
    ensures Posts(g, pre + dels) == Posts(g, pre)
    decreases |dels|
  {
    if |dels| == 0 {
      assert pre + dels == pre;
    } else {
      var init, last := dels[..|dels| - 1], dels[|dels| - 1];
      assert (pre + dels)[..|pre + dels| - 1] == pre + init;
      assert (pre + dels)[|pre + dels| - 1] == last;
      PostsIgnoreDeletes(g, pre, init);
    }
  }

  /** One step of the backward walk of addCorrespondingDeletes over posts[..i]. */
  lemma CorrespondingStep(m: map<nat, nat>, posts: seq<nat>, dels: seq<nat>, maxCount: int, i: nat)
    requires 0 < i <= |posts| && |dels| < maxCount
    ensures CorrespondingDeletes(m, posts[..i], dels, maxCount) ==
      CorrespondingDeletes(m, posts[..i - 1], if posts[i - 1] in m then AddIfNew(dels, m[posts[i - 1]]) else dels, maxCount)
  {
    assert posts[..i][..i - 1] == posts[..i - 1];
  }

  /** A suffix of a distinct list of POST nodes is a distinct list of POST nodes of the graph. */
  lemma PostSuffix(g: Graph, ordered: seq<nat>, chain: seq<nat>)
    requires Distinct(ordered) && |chain| <= |ordered| && chain == ordered[|ordered| - |chain|..]
    requires forall i :: 0 <= i < |ordered| ==> IsMethod(g, ordered[i], POST)
    ensures Distinct(chain) && InGraph(g, chain)
    ensures forall i :: 0 <= i < |chain| ==> IsMethod(g, chain[i], POST) && !IsMethod(g, chain[i], DELETE)
  {
    SuffixDistinct(ordered, |ordered| - |chain|);
    forall i | 0 <= i < |chain|
      ensures IsMethod(g, chain[i], POST)
    {
      assert chain[i] == ordered[|ordered| - |chain| + i];
    }
  }

  class DiffBasedGraphSorter {
    const graph: WfGraph
    /** The random stream and the number of draws taken from it so far. */
    const rng: nat -> nat
    var draws: nat
    /** The generated sequence of operations (node ids). */
    var queue: seq<nat>
    var postToDeleteMap: map<nat, nat>
    var postNodes: seq<nat>
    var deleteNodes: seq<nat>
    var currentMaxDepth: int
    /** None until a sequence has been generated (the field starts out null). */
    var currentDeleteStrategy: Option<DeleteStrategy>
    var maximumAttempts: int

    /** The map sends POST nodes to DELETE nodes, the lists hold nodes of their method, and at least one attempt is allowed. */
    ghost predicate Valid()
      reads this`postToDeleteMap, this`postNodes, this`deleteNodes, this`maximumAttempts
    {
      (forall p :: p in postToDeleteMap ==> IsMethod(graph, p, POST) && IsMethod(graph, postToDeleteMap[p], DELETE)) &&
      (forall i :: 0 <= i < |postNodes| ==> IsMethod(graph, postNodes[i], POST)) &&
      (forall i :: 0 <= i < |deleteNodes| ==> IsMethod(graph, deleteNodes[i], DELETE)) &&
      maximumAttempts >= 1
    }

    /**
     * The constructor's set-up: the POST to DELETE map, then the shuffled POST and
     * DELETE lists. (Generating the first sequence, which may fail, is NewSorter.)
     */
    constructor (g: WfGraph, stream: nat -> nat)
      ensures Valid()
      ensures graph == g && rng == stream && queue == []
      ensures postToDeleteMap == PostToDelete(g)
      ensures multiset(postNodes) == multiset(PostIds(g)) && multiset(deleteNodes) == multiset(DeleteIds(g))
      ensures draws == ShuffleDraws(|PostIds(g)|) + ShuffleDraws(|DeleteIds(g)|)
      ensures currentMaxDepth == 0 && currentDeleteStrategy == None && maximumAttempts == 10
    {
      graph, rng := g, stream;
      draws, queue := 0, [];
      postToDeleteMap, postNodes, deleteNodes := map[], [], [];
      currentMaxDepth, currentDeleteStrategy, maximumAttempts := 0, None, 10;
      new;
      ComputePostToDeleteMap();
      ComputeAllPost();
      ComputeAllDelete();
    }

    /** computePostToDeleteMap: puts, for every POST then every DELETE in vertex order, the pairs whose endpoints match. */
    method ComputePostToDeleteMap()
      modifies this
      requires Valid()
      ensures Valid()
      ensures postToDeleteMap == MatchMap(graph, old(postToDeleteMap), PostIds(graph), DeleteIds(graph))
      ensures draws == old(draws) && queue == old(queue) && postNodes == old(postNodes) && deleteNodes == old(deleteNodes)
      ensures currentMaxDepth == old(currentMaxDepth) && currentDeleteStrategy == old(currentDeleteStrategy)
      ensures maximumAttempts == old(maximumAttempts)
    {
      var posts, dels := PostIds(graph), DeleteIds(graph);
      var m := MatchAll(posts, dels, postToDeleteMap);
      MatchMapValid(postToDeleteMap, posts, dels);
      postToDeleteMap := m;
    }

    /** The outer loop of computePostToDeleteMap. */
    method MatchAll(posts: seq<nat>, dels: seq<nat>, base: map<nat, nat>) returns (m: map<nat, nat>)
      requires InGraph(graph, posts) && InGraph(graph, dels)
      ensures m == MatchMap(graph, base, posts, dels)
    {
      m := base;
      var i := 0;
      while i < |posts|
        invariant i <= |posts|
        invariant m == MatchMap(graph, base, posts[..i], dels)
      {
        assert posts[..i + 1][..i] == posts[..i];
        m := PutMatches(posts[i], dels, m);
        i := i + 1;
      }
      assert posts[..i] == posts;
    }

    /** The inner loop of computePostToDeleteMap for one POST node p. */
    method PutMatches(p: nat, dels: seq<nat>, m: map<nat, nat>) returns (r: map<nat, nat>)
      requires p < |graph.ops| && InGraph(graph, dels)
      ensures r == match LastMatch(graph, p, dels) case None => m case Some(d) => m[p := d]
    {
      var postEndpoint := graph.ops[p].endpoint;
      r := m;
      var j := 0;
      while j < |dels|
        invariant j <= |dels|
        invariant r == match LastMatch(graph, p, dels[..j]) case None => m case Some(d) => m[p := d]
      {
        var deleteEndpoint := graph.ops[dels[j]].endpoint;
        assert dels[..j + 1][..j] == dels[..j];
        if postEndpoint == deleteEndpoint || Contains(deleteEndpoint, postEndpoint) || Contains(postEndpoint, deleteEndpoint) {
          r := r[p := dels[j]];
        }
        j := j + 1;
      }
      assert dels[..j] == dels;
    }

    /** Matching POST nodes against DELETE nodes keeps the map from POST nodes to DELETE nodes. */
    lemma MatchMapValid(base: map<nat, nat>, ps: seq<nat>, ds: seq<nat>)
      requires forall p :: p in base ==> IsMethod(graph, p, POST) && IsMethod(graph, base[p], DELETE)
      requires ps == PostIds(graph) && ds == DeleteIds(graph)
      ensures var m := MatchMap(graph, base, ps, ds);
        forall p :: p in m ==> IsMethod(graph, p, POST) && IsMethod(graph, m[p], DELETE)
    {
      var m := MatchMap(graph, base, ps, ds);
      forall p | p in m
        ensures IsMethod(graph, p, POST) && IsMethod(graph, m[p], DELETE)
      {
        MatchMapKeys(graph, base, ps, ds, p);
        if p in ps {
          MatchMapEntries(graph, base, ps, ds, p);
        } else {
          MatchMapOutside(graph, base, ps, ds, p);
        }
      }
    }

    /** computeAllPost: appends the POST nodes and shuffles the whole list. */
    method ComputeAllPost()
      modifies this
      requires Valid()
      ensures Valid()
      ensures multiset(postNodes) == multiset(old(postNodes)) + multiset(PostIds(graph))
      ensures draws == old(draws) + ShuffleDraws(|old(postNodes)| + |PostIds(graph)|)
      ensures queue == old(queue) && postToDeleteMap == old(postToDeleteMap) && deleteNodes == old(deleteNodes)
      ensures currentMaxDepth == old(currentMaxDepth) && currentDeleteStrategy == old(currentDeleteStrategy)
      ensures maximumAttempts == old(maximumAttempts)
    {
      var all := postNodes + PostIds(graph);
      var shuffled, next := Shuffle(all, rng, draws);
      forall i | 0 <= i < |shuffled|
        ensures IsMethod(graph, shuffled[i], POST)
      {
        MultisetMembers(all, shuffled, shuffled[i]);
      }
      postNodes, draws := shuffled, next;
    }

    /** computeAllDelete: appends the DELETE nodes and shuffles the whole list. */
    method ComputeAllDelete()
      modifies this
      requires Valid()
      ensures Valid()
      ensures multiset(deleteNodes) == multiset(old(deleteNodes)) + multiset(DeleteIds(graph))
      ensures draws == old(draws) + ShuffleDraws(|old(deleteNodes)| + |DeleteIds(graph)|)
      ensures queue == old(queue) && postToDeleteMap == old(postToDeleteMap) && postNodes == old(postNodes)
      ensures currentMaxDepth == old(currentMaxDepth) && currentDeleteStrategy == old(currentDeleteStrategy)
      ensures maximumAttempts == old(maximumAttempts)
    {
      var all := deleteNodes + DeleteIds(graph);
      var shuffled, next := Shuffle(all, rng, draws);
      forall i | 0 <= i < |shuffled|
        ensures IsMethod(graph, shuffled[i], DELETE)
      {
        MultisetMembers(all, shuffled, shuffled[i]);
      }
      deleteNodes, draws := shuffled, next;
    }

    /**
     * findPrerequisiteChain: the depth-first order of the POST prerequisites of `target`,
     * cut to its last 1 + draw(5) nodes. `ordered` and `paths` are the uncut order and its
     * search paths.
     */
    method FindPrerequisiteChain(target: nat, globalVisited: set<nat>, k: nat)
      returns (chain: seq<nat>, next: nat, ghost ordered: seq<nat>, ghost paths: map<nat, seq<nat>>)
      requires target < |graph.ops|
      ensures next == k + 1
      ensures Distinct(ordered) && DfsOrdered(graph, ordered, 0, globalVisited, paths)
      ensures forall i :: 0 <= i < |ordered| ==> ordered[i] !in globalVisited && IsMethod(graph, ordered[i], POST)
      ensures target !in globalVisited && IsMethod(graph, target, POST) ==> |ordered| > 0 && ordered[|ordered| - 1] == target
      ensures |chain| == (if |ordered| > MinPrerequisiteChain + Draw(rng, k, 5) then MinPrerequisiteChain + Draw(rng, k, 5) else |ordered|)
      ensures chain == ordered[|ordered| - |chain|..]
      ensures MinPrerequisiteChain <= MinPrerequisiteChain + Draw(rng, k, 5) <= MaxPrerequisiteChain
    {
      var visitedOut, result;
      visitedOut, result, paths := TopologicalSortPostOnly(target, {}, globalVisited, [], []);
      ordered := result;
      var maxPrerequisites := MinPrerequisiteChain + Draw(rng, k, MaxPrerequisiteChain - MinPrerequisiteChain + 1);
      next := k + 1;
      if |result| > maxPrerequisites {
        chain := result[|result| - maxPrerequisites..];
      } else {
        chain := result;
        assert result[0..] == result;
      }
    }

    /**
     * topologicalSortPostOnly: a post-order depth-first search along the dependencies on
     * POST nodes. `localVisited` and `result` are threaded through and returned; `path` is
     * the chain of nodes the search is inside (empty for the first call), and `paths`
     * records, for each emitted node, the path it was reached by.
     */
    method TopologicalSortPostOnly(node: nat, localVisited: set<nat>, globalVisited: set<nat>, result: seq<nat>, ghost path: seq<nat>)
      returns (visitedOut: set<nat>, resultOut: seq<nat>, ghost paths: map<nat, seq<nat>>)
      requires node < |graph.ops| && localVisited <= Nodes(graph)
      requires Distinct(result) && forall x :: x in result ==> x in localVisited
      requires forall y :: y in localVisited && IsMethod(graph, y, POST) ==> y in result || y in path
      requires PostChain(graph, path + [node])
      ensures Searched(localVisited, globalVisited, result, path, visitedOut, resultOut, paths)
      ensures node in localVisited || node in globalVisited ==> visitedOut == localVisited && resultOut == result
      ensures node !in localVisited && node !in globalVisited ==> node in visitedOut
      ensures node !in localVisited && node !in globalVisited && IsMethod(graph, node, POST) ==>
        |resultOut| > |result| && resultOut[|resultOut| - 1] == node
      decreases Nodes(graph) - localVisited, 1
    {
      if node in localVisited || node in globalVisited {
        return localVisited, result, map[];
      }
      visitedOut, resultOut, paths := SearchNode(node, localVisited, globalVisited, result, path);
    }

    /** The search from a node seen neither in this search nor before it. */
    method SearchNode(node: nat, localVisited: set<nat>, globalVisited: set<nat>, result: seq<nat>, ghost path: seq<nat>)
      returns (visitedOut: set<nat>, resultOut: seq<nat>, ghost paths: map<nat, seq<nat>>)
      requires node < |graph.ops| && localVisited <= Nodes(graph)
      requires Distinct(result) && forall x :: x in result ==> x in localVisited
      requires forall y :: y in localVisited && IsMethod(graph, y, POST) ==> y in result || y in path
      requires PostChain(graph, path + [node]) && node !in localVisited && node !in globalVisited
      ensures Searched(localVisited, globalVisited, result, path, visitedOut, resultOut, paths)
      ensures node in visitedOut
      ensures IsMethod(graph, node, POST) ==> |resultOut| > |result| && resultOut[|resultOut| - 1] == node
      decreases Nodes(graph) - localVisited, 0
    {
      visitedOut := localVisited + {node};
      resultOut := result;
      paths := map[];
      StartSearch(node, localVisited, globalVisited, result, path);
      // a DELETE node is recorded as visited and its edges are not followed
      var outgoing: seq<Edge> := [];
      if graph.ops[node].httpMethod != DELETE {
        outgoing := OutEdges(graph.edges, node);
        var j := 0;
        while j < |outgoing|
          invariant j <= |outgoing|
          invariant SearchInv(node, localVisited, globalVisited, result, path, visitedOut, resultOut, paths)
          invariant forall i :: 0 <= i < j && IsMethod(graph, outgoing[i].target, POST) && outgoing[i].target !in globalVisited ==>
            outgoing[i].target in visitedOut
        {
          visitedOut, resultOut, paths := SearchEdge(node, localVisited, globalVisited, result, path, visitedOut, resultOut, paths, outgoing[j]);
          j := j + 1;
        }
        EdgesSearched(outgoing, globalVisited, visitedOut);
      }
      var finalResult, finalPaths := resultOut, paths;
      if graph.ops[node].httpMethod == POST {
        finalResult, finalPaths := resultOut + [node], paths[node := path];
      }
      FinishSearch(node, localVisited, globalVisited, result, path, visitedOut, resultOut, paths, outgoing, finalResult, finalPaths);
      resultOut, paths := finalResult, finalPaths;
    }

    /** One edge of the loop in TopologicalSortPostOnly: a POST target is searched recursively. */
    method SearchEdge(node: nat, localVisited: set<nat>, globalVisited: set<nat>, result: seq<nat>, ghost path: seq<nat>,
                      visitedOut: set<nat>, resultOut: seq<nat>, ghost paths: map<nat, seq<nat>>, edge: Edge)
      returns (v2: set<nat>, r2: seq<nat>, ghost p2: map<nat, seq<nat>>)
      requires SearchInv(node, localVisited, globalVisited, result, path, visitedOut, resultOut, paths)
      requires node < |graph.ops| && node !in localVisited && PostChain(graph, path + [node])
      requires edge in graph.edges && edge.source == node
      ensures SearchInv(node, localVisited, globalVisited, result, path, v2, r2, p2)
      ensures visitedOut <= v2
      ensures IsMethod(graph, edge.target, POST) && edge.target !in globalVisited ==> edge.target in v2
      decreases Nodes(graph) - visitedOut, 2
    {
      var dep := edge.target;
      if graph.ops[dep].httpMethod != POST {
        return visitedOut, resultOut, paths;
      }
      ChildPre(node, localVisited, globalVisited, result, path, visitedOut, resultOut, paths, edge);
      var v, r, p := TopologicalSortPostOnly(dep, visitedOut, globalVisited, resultOut, path + [node]);
      ChildStep(node, localVisited, globalVisited, result, path, visitedOut, resultOut, paths, dep, v, r, p);
      return v, r, paths + p;
    }

    /** Every POST target of the searched edges outside globalVisited is visited. */
    lemma EdgesSearched(outgoing: seq<Edge>, globalVisited: set<nat>, visitedOut: set<nat>)
      requires forall i :: 0 <= i < |outgoing| && IsMethod(graph, outgoing[i].target, POST) && outgoing[i].target !in globalVisited ==>
        outgoing[i].target in visitedOut
      ensures forall e :: e in outgoing && IsMethod(graph, e.target, POST) && e.target !in globalVisited ==> e.target in visitedOut
    {
      forall e | e in outgoing && IsMethod(graph, e.target, POST) && e.target !in globalVisited
        ensures e.target in visitedOut
      {
        var i :| 0 <= i < |outgoing| && outgoing[i] == e;
      }
    }

    /** The search state on entering a node not seen before. */
    lemma StartSearch(node: nat, localVisited: set<nat>, globalVisited: set<nat>, result: seq<nat>, path: seq<nat>)
      requires node < |graph.ops| && localVisited <= Nodes(graph)
      requires Distinct(result) && forall x :: x in result ==> x in localVisited
      requires forall y :: y in localVisited && IsMethod(graph, y, POST) ==> y in result || y in path
      requires node !in localVisited
      ensures SearchInv(node, localVisited, globalVisited, result, path, localVisited + {node}, result, map[])
    {
      assert result[..|result|] == result;
    }

    /** The recursive call on dependency `edge.target` may be made, and on a smaller measure. */
    lemma ChildPre(node: nat, localVisited: set<nat>, globalVisited: set<nat>, result: seq<nat>, path: seq<nat>,
                   visitedOut: set<nat>, resultOut: seq<nat>, paths: map<nat, seq<nat>>, edge: Edge)
      requires SearchInv(node, localVisited, globalVisited, result, path, visitedOut, resultOut, paths)
      requires node < |graph.ops| && node !in localVisited && PostChain(graph, path + [node])
      requires edge in graph.edges && edge.source == node && IsMethod(graph, edge.target, POST)
      ensures edge.target < |graph.ops| && visitedOut <= Nodes(graph)
      ensures Distinct(resultOut) && forall x :: x in resultOut ==> x in visitedOut
      ensures forall y :: y in visitedOut && IsMethod(graph, y, POST) ==> y in resultOut || y in path + [node]
      ensures PostChain(graph, path + [node] + [edge.target])
      ensures Nodes(graph) - visitedOut < Nodes(graph) - localVisited
    {
      assert edge == Edge(node, edge.target, edge.satisfied);
      PostChainSnoc(graph, path + [node], edge.target);
      assert node in Nodes(graph) - localVisited;
    }

    /** Leaving `node`: emitted (if POST) after everything its loop emitted. */
    lemma FinishSearch(node: nat, localVisited: set<nat>, globalVisited: set<nat>, result: seq<nat>, path: seq<nat>,
                       visitedOut: set<nat>, resultOut: seq<nat>, paths: map<nat, seq<nat>>, outgoing: seq<Edge>,
                       finalResult: seq<nat>, finalPaths: map<nat, seq<nat>>)
      requires SearchInv(node, localVisited, globalVisited, result, path, visitedOut, resultOut, paths)
      requires node < |graph.ops| && node !in localVisited && node !in globalVisited && PostChain(graph, path + [node])
      requires forall x :: x in result ==> x in localVisited
      requires IsMethod(graph, node, POST) ==> outgoing == OutEdges(graph.edges, node)
      requires forall e :: e in outgoing && IsMethod(graph, e.target, POST) && e.target !in globalVisited ==> e.target in visitedOut
      requires IsMethod(graph, node, POST) ==> finalResult == resultOut + [node] && finalPaths == paths[node := path]
      requires !IsMethod(graph, node, POST) ==> finalResult == resultOut && finalPaths == paths
      ensures Searched(localVisited, globalVisited, result, path, visitedOut, finalResult, finalPaths)
      ensures node in visitedOut
      ensures IsMethod(graph, node, POST) ==> |finalResult| > |result| && finalResult[|finalResult| - 1] == node
    {
      if IsMethod(graph, node, POST) {
        EmitOrdered(node, localVisited, globalVisited, result, path, visitedOut, resultOut, paths, outgoing);
        forall i | 0 <= i < |resultOut|
          ensures resultOut[i] != node
        {
          if i < |result| {
            assert resultOut[i] == resultOut[..|result|][i] == result[i];
          }
        }
        assert finalResult[|result|..] == resultOut[|result|..] + [node];
        assert finalResult[..|result|] == resultOut[..|result|];
      }
    }

    /** Appending a POST node whose dependencies were all searched keeps the order records. */
    lemma EmitOrdered(node: nat, localVisited: set<nat>, globalVisited: set<nat>, result: seq<nat>, path: seq<nat>,
                      visitedOut: set<nat>, resultOut: seq<nat>, paths: map<nat, seq<nat>>, outgoing: seq<Edge>)
      requires SearchInv(node, localVisited, globalVisited, result, path, visitedOut, resultOut, paths)
      requires node < |graph.ops| && PostChain(graph, path + [node]) && IsMethod(graph, node, POST)
      requires outgoing == OutEdges(graph.edges, node)
      requires forall e :: e in outgoing && IsMethod(graph, e.target, POST) && e.target !in globalVisited ==> e.target in visitedOut
      ensures DfsOrdered(graph, resultOut + [node], |result|, globalVisited, paths[node := path])
    {
      var r := resultOut + [node];
      var ps := paths[node := path];
      assert node !in paths;
      forall i | |result| <= i < |r|
        ensures r[i] in ps && PostChain(graph, ps[r[i]] + [r[i]]) && DepsBefore(graph, r, i, globalVisited, ps[r[i]])
      {
        if i < |resultOut| {
          assert r[i] == resultOut[i] && resultOut[i] != node;
          DepsBeforeExtend(graph, resultOut, [node], i, globalVisited, paths[resultOut[i]]);
        } else {
          assert r[..i] == resultOut;
          forall e | e in graph.edges && e.source == node && IsMethod(graph, e.target, POST) && e.target !in globalVisited
            ensures e.target in resultOut || e.target in path || e.target == node
          {
            assert e in outgoing;
          }
        }
      }
    }

    /** What a search from a node returns: the visited set grows, the result keeps its prefix and gains
      * distinct POST nodes new to the search, each recorded with the chain that reached it. */
    predicate Searched(localVisited: set<nat>, globalVisited: set<nat>, result: seq<nat>, path: seq<nat>,
                       visitedOut: set<nat>, resultOut: seq<nat>, paths: map<nat, seq<nat>>)
    {
      localVisited <= visitedOut <= Nodes(graph) &&
      |result| <= |resultOut| && resultOut[..|result|] == result &&
      Distinct(resultOut) && (forall x :: x in resultOut ==> x in visitedOut) &&
      (forall i :: |result| <= i < |resultOut| ==>
        resultOut[i] !in localVisited && resultOut[i] !in globalVisited && IsMethod(graph, resultOut[i], POST)) &&
      (forall y :: y in visitedOut && IsMethod(graph, y, POST) ==> y in resultOut || y in path) &&
      DfsOrdered(graph, resultOut, |result|, globalVisited, paths) &&
      (forall x :: x in paths ==> x in resultOut[|result|..])
    }

    /** What holds while the search is inside `node`, having entered it with `localVisited` and `result`. */
    predicate SearchInv(node: nat, localVisited: set<nat>, globalVisited: set<nat>, result: seq<nat>, path: seq<nat>,
                        visitedOut: set<nat>, resultOut: seq<nat>, paths: map<nat, seq<nat>>)
    {
      localVisited + {node} <= visitedOut <= Nodes(graph) &&
      |result| <= |resultOut| && resultOut[..|result|] == result &&
      Distinct(resultOut) && (forall x :: x in resultOut ==> x in visitedOut) &&
      (forall i :: |result| <= i < |resultOut| ==>
        resultOut[i] !in localVisited && resultOut[i] != node && resultOut[i] !in globalVisited && IsMethod(graph, resultOut[i], POST)) &&
      (forall y :: y in visitedOut && IsMethod(graph, y, POST) ==> y in resultOut || y in path || y == node) &&
      DfsOrdered(graph, resultOut, |result|, globalVisited, paths) &&
      (forall x :: x in paths ==> x in resultOut[|result|..])
    }

    /** The search state after a recursive call on dependency `dep` returned (v2, r2, p2). */
    lemma ChildStep(node: nat, localVisited: set<nat>, globalVisited: set<nat>, result: seq<nat>, path: seq<nat>,
                    visitedOut: set<nat>, resultOut: seq<nat>, paths: map<nat, seq<nat>>,
                    dep: nat, v2: set<nat>, r2: seq<nat>, p2: map<nat, seq<nat>>)
      requires SearchInv(node, localVisited, globalVisited, result, path, visitedOut, resultOut, paths)
      requires visitedOut <= v2 <= Nodes(graph)
      requires |resultOut| <= |r2| && r2[..|resultOut|] == resultOut
      requires Distinct(r2) && forall x :: x in r2 ==> x in v2
      requires forall i :: |resultOut| <= i < |r2| ==>
        r2[i] !in visitedOut && r2[i] !in globalVisited && IsMethod(graph, r2[i], POST)
      requires forall y :: y in v2 && IsMethod(graph, y, POST) ==> y in r2 || y in path + [node]
      requires DfsOrdered(graph, r2, |resultOut|, globalVisited, p2)
      requires forall x :: x in p2 ==> x in r2[|resultOut|..]
      requires dep in visitedOut || dep in globalVisited || dep in v2
      ensures SearchInv(node, localVisited, globalVisited, result, path, v2, r2, paths + p2)
      ensures dep !in globalVisited ==> dep in v2
    {
      ExtendOrdered(resultOut, r2, |result|, globalVisited, paths, p2);
      assert r2[..|result|] == resultOut[..|result|];
      forall i | |result| <= i < |r2|
        ensures r2[i] !in localVisited && r2[i] != node && r2[i] !in globalVisited && IsMethod(graph, r2[i], POST)
      {
        if i < |resultOut| {
          assert r2[i] == resultOut[i];
        }
      }
    }

    /** A search step that emits r2 after r keeps the earlier nodes' records. */
    lemma ExtendOrdered(r: seq<nat>, r2: seq<nat>, from: nat, global: set<nat>, paths: map<nat, seq<nat>>, p2: map<nat, seq<nat>>)
      requires |r| <= |r2| && r2[..|r|] == r && from <= |r|
      requires DfsOrdered(graph, r, from, global, paths)
      requires DfsOrdered(graph, r2, |r|, global, p2)
      requires forall x :: x in paths ==> x in r[from..]
      requires forall x :: x in p2 ==> x in r2[|r|..]
      requires Distinct(r2)
      ensures DfsOrdered(graph, r2, from, global, paths + p2)
      ensures forall x :: x in paths + p2 ==> x in r2[from..]
    {
      forall i | from <= i < |r2|
        ensures r2[i] in paths + p2 && PostChain(graph, (paths + p2)[r2[i]] + [r2[i]])
        ensures DepsBefore(graph, r2, i, global, (paths + p2)[r2[i]])
      {
        if i < |r| {
          assert r2[i] == r[i];
          assert r2 == r + r2[|r|..];
          DepsBeforeExtend(graph, r, r2[|r|..], i, global, paths[r[i]]);
        }
      }
      forall x | x in paths + p2
        ensures x in r2[from..]
      {
        if x in paths {
          var k :| from <= k < |r| && r[k] == x;
          assert r2[k] == x;
        } else {
          var k :| |r| <= k < |r2| && r2[k] == x;
        }
      }
    }

    /** The first phase's queue loop: the chain's non-DELETE nodes, marked visited, with its POST nodes recorded. */
    method EnqueuePrerequisites(chain: seq<nat>) returns (q: seq<nat>, visited: set<nat>, postOps: seq<nat>)
      ensures q == NonDeletes(graph, chain)
      ensures forall x :: x in visited <==> x in q
      ensures postOps == Posts(graph, q)
    {
      q, visited, postOps := [], {}, [];
      var i := 0;
      while i < |chain|
        invariant i <= |chain|
        invariant q == NonDeletes(graph, chain[..i])
        invariant forall x :: x in visited <==> x in q
        invariant postOps == Posts(graph, q)
      {
        var n := chain[i];
        NonDeletesNext(graph, chain, i);
        if !IsMethod(graph, n, DELETE) {
          PostsSnoc(graph, q, n);
          q := q + [n];
          visited := visited + {n};
          if IsMethod(graph, n, POST) {
            postOps := postOps + [n];
          }
        }
        i := i + 1;
      }
      assert chain[..i] == chain;
    }

    /** Appending a pending consumer keeps every explored node after a node it depends on. */
    lemma EnqueueStep(q: seq<nat>, current: nat, queue0: seq<nat>)
      requires |queue0| <= |q| && q[..|queue0|] == queue0
      requires forall i :: |queue0| <= i < |q| ==> ConsumesSome(graph, q[i], q[..i])
      requires ConsumesSome(graph, current, q)
      ensures (q + [current])[..|queue0|] == queue0
      ensures forall i :: |queue0| <= i < |q + [current]| ==> ConsumesSome(graph, (q + [current])[i], (q + [current])[..i])
    {
      var r := q + [current];
      assert r[..|q|] == q;
      forall i | |queue0| <= i < |r|
        ensures ConsumesSome(graph, r[i], r[..i])
      {
        if i < |q| {
          assert r[..i] == q[..i] && r[i] == q[i];
        }
      }
      assert r[..|queue0|] == q[..|queue0|];
    }

    /** Everything AddConsumers appends is an unvisited non-DELETE node depending on n. */
    lemma AddedConsumers(n: nat, visited: set<nat>, pq: seq<nat>, r: seq<nat>, i: nat)
      requires r == pq + Consumers(graph, InEdges(graph.edges, n), visited)
      requires |pq| <= i < |r|
      ensures r[i] < |graph.ops| && DependsOn(graph, r[i], n) && r[i] !in visited && !IsMethod(graph, r[i], DELETE)
    {
      assert r[i] in Consumers(graph, InEdges(graph.edges, n), visited);
      ConsumersDependOn(graph, n, visited, r[i]);
    }

    /** What the consumer exploration keeps true of the queue it builds from queue0. */
    ghost predicate Explored(queue0: seq<nat>, visited0: set<nat>, maxDepth: int, q: seq<nat>, visited: set<nat>, postOps: seq<nat>)
      reads this
    {
      && |queue0| <= |q| && q[..|queue0|] == queue0
      && Distinct(q) && InGraph(graph, q)
      && (forall x :: x in q ==> x in visited)
      && visited0 <= visited <= Nodes(graph)
      && (forall i :: 0 <= i < |q| ==> !IsMethod(graph, q[i], DELETE))
      && (forall i :: |queue0| <= i < |q| ==> ConsumesSome(graph, q[i], q[..i]))
      && (|queue0| <= maxDepth ==> |q| <= maxDepth)
      && postOps == Posts(graph, q)
    }

    /** Every pending node is a non-DELETE operation depending on a node already in q. */
    ghost predicate PendingOk(pq: seq<nat>, q: seq<nat>)
      reads this
    {
      forall x :: x in pq ==> x < |graph.ops| && !IsMethod(graph, x, DELETE) && ConsumesSome(graph, x, q)
    }

    /** Appending a polled, unvisited, non-DELETE node keeps the exploration invariant. */
    lemma AppendExplored(queue0: seq<nat>, visited0: set<nat>, maxDepth: int, q: seq<nat>, visited: set<nat>, postOps: seq<nat>, current: nat)
      requires Explored(queue0, visited0, maxDepth, q, visited, postOps)
      requires current < |graph.ops| && current !in visited && !IsMethod(graph, current, DELETE)
      requires ConsumesSome(graph, current, q) && |q| < maxDepth
      ensures Explored(queue0, visited0, maxDepth, q + [current], visited + {current},
                       if IsMethod(graph, current, POST) then postOps + [current] else postOps)
    {
      PostsSnoc(graph, q, current);
      EnqueueStep(q, current, queue0);
      ExtendQueue(q, current);
    }

    /** Appending a new in-graph non-DELETE node to the queue. */
    lemma ExtendQueue(q: seq<nat>, current: nat)
      requires Distinct(q) && InGraph(graph, q) && forall i :: 0 <= i < |q| ==> !IsMethod(graph, q[i], DELETE)
      requires current < |graph.ops| && current !in q && !IsMethod(graph, current, DELETE)
      ensures Distinct(q + [current]) && InGraph(graph, q + [current])
      ensures forall i :: 0 <= i < |q + [current]| ==> !IsMethod(graph, (q + [current])[i], DELETE)
    {
      var r := q + [current];
      forall i | 0 <= i < |q| ensures r[i] == q[i] && r[i] != current {
        assert q[i] in q;
      }
      assert InGraph(graph, r);
    }

    /** After a poll and the consumers it adds, the pending nodes still depend on the queue. */
    lemma PendingStep(q: seq<nat>, current: nat, visited: set<nat>, before: seq<nat>, pq: seq<nat>)
      requires PendingOk(before, q)
      requires pq == before + Consumers(graph, InEdges(graph.edges, current), visited)
      ensures PendingOk(pq, q + [current])
    {
      forall x | x in pq
        ensures x < |graph.ops| && !IsMethod(graph, x, DELETE) && ConsumesSome(graph, x, q + [current])
      {
        var i :| 0 <= i < |pq| && pq[i] == x;
        if i < |before| {
          assert x in before;
          ConsumesSomeGrows(graph, x, q, [current]);
        } else {
          AddedConsumers(current, visited, before, pq, i);
          assert current in q + [current];
        }
      }
    }

    /** Removing the polled element keeps PendingOk. */
    lemma PendingRemove(pq: seq<nat>, idx: nat, q: seq<nat>)
      requires PendingOk(pq, q) && idx < |pq|
      ensures PendingOk(pq[..idx] + pq[idx + 1..], q)
    {
      var r := pq[..idx] + pq[idx + 1..];
      forall x | x in r ensures x in pq {
        var i :| 0 <= i < |r| && r[i] == x;
        if i < idx {
          assert r[i] == pq[i];
        } else {
          assert r[i] == pq[i + 1];
        }
      }
    }

    /** The loop over the chain: the consumers of each chain node, pending in that order. */
    method ChainConsumers(chain: seq<nat>, q: seq<nat>, visited: set<nat>) returns (pq: seq<nat>)
      requires forall x :: x in chain ==> x in q
      ensures PendingOk(pq, q) && Covered(graph, chain, visited, pq)
    {
      pq := [];
      var c := 0;
      while c < |chain|
        invariant c <= |chain|
        invariant PendingOk(pq, q)
        invariant Covered(graph, chain[..c], visited, pq)
      {
        var before := pq;
        pq := AddConsumers(graph, chain[c], visited, pq);
        ChainStep(chain, c, q, visited, before, pq);
        c := c + 1;
      }
      assert chain[..|chain|] == chain;
    }

    /** The consumers of one more chain node keep the pending list valid and cover that node too. */
    lemma ChainStep(chain: seq<nat>, c: nat, q: seq<nat>, visited: set<nat>, before: seq<nat>, pq: seq<nat>)
      requires c < |chain| && chain[c] in q
      requires PendingOk(before, q) && Covered(graph, chain[..c], visited, before)
      requires pq == before + Consumers(graph, InEdges(graph.edges, chain[c]), visited)
      ensures PendingOk(pq, q) && Covered(graph, chain[..c + 1], visited, pq)
    {
      CoverAddPrefix(graph, chain, c, visited, before, pq);
      forall i | 0 <= i < |pq|
        ensures pq[i] < |graph.ops| && !IsMethod(graph, pq[i], DELETE) && ConsumesSome(graph, pq[i], q)
      {
        if i < |before| {
          assert pq[i] == before[i] && before[i] in before;
        } else {
          AddedConsumers(chain[c], visited, before, pq, i);
        }
      }
    }

    /** The queued nodes are exactly the visited ones, and every consumer of a queued node is visited or pending. */
    ghost predicate Frontier(q: seq<nat>, visited: set<nat>, pq: seq<nat>)
    {
      Covered(graph, q, visited, pq) && forall x :: x in visited ==> x in q
    }

    /** Polling a node already visited keeps the frontier. */
    lemma FrontierSkip(q: seq<nat>, visited: set<nat>, pq: seq<nat>, idx: nat)
      requires Frontier(q, visited, pq) && idx < |pq| && pq[idx] in visited
      ensures Frontier(q, visited, pq[..idx] + pq[idx + 1..])
    {
      CoverPoll(graph, q, visited, pq, idx, visited);
    }

    /** Queueing a polled node and making its consumers pending keeps the frontier. */
    lemma FrontierStep(q: seq<nat>, visited: set<nat>, pq: seq<nat>, idx: nat, r: seq<nat>)
      requires Frontier(q, visited, pq) && idx < |pq|
      requires r == (pq[..idx] + pq[idx + 1..]) + Consumers(graph, InEdges(graph.edges, pq[idx]), visited + {pq[idx]})
      ensures Frontier(q + [pq[idx]], visited + {pq[idx]}, r)
    {
      CoverPoll(graph, q, visited, pq, idx, visited + {pq[idx]});
      CoverAdd(graph, q, pq[idx], visited + {pq[idx]}, pq[..idx] + pq[idx + 1..], r);
    }

    /** The invariant of the polling loop: the exploration invariant, valid pending nodes and the frontier. */
    ghost predicate Polling(queue0: seq<nat>, visited0: set<nat>, maxDepth: int, q: seq<nat>, visited: set<nat>, postOps: seq<nat>, pq: seq<nat>)
      reads this
    {
      Explored(queue0, visited0, maxDepth, q, visited, postOps) && PendingOk(pq, q) && Frontier(q, visited, pq)
    }

    /** Polling a node already visited keeps the loop invariant. */
    lemma PollSkip(queue0: seq<nat>, visited0: set<nat>, maxDepth: int, q: seq<nat>, visited: set<nat>, postOps: seq<nat>, pq: seq<nat>, idx: nat)
      requires Polling(queue0, visited0, maxDepth, q, visited, postOps, pq) && idx < |pq| && pq[idx] in visited
      ensures Polling(queue0, visited0, maxDepth, q, visited, postOps, pq[..idx] + pq[idx + 1..])
    {
      PendingRemove(pq, idx, q);
      FrontierSkip(q, visited, pq, idx);
    }

    /** Queueing a polled unvisited node and making its consumers pending keeps every loop invariant. */
    lemma PollAppend(queue0: seq<nat>, visited0: set<nat>, maxDepth: int, q: seq<nat>, visited: set<nat>, postOps: seq<nat>,
                     pq: seq<nat>, idx: nat, r: seq<nat>)
      requires Polling(queue0, visited0, maxDepth, q, visited, postOps, pq)
      requires idx < |pq| && pq[idx] !in visited && |q| < maxDepth
      requires r == (pq[..idx] + pq[idx + 1..]) + Consumers(graph, InEdges(graph.edges, pq[idx]), visited + {pq[idx]})
      ensures var c := pq[idx];
        Polling(queue0, visited0, maxDepth, q + [c], visited + {c}, if IsMethod(graph, c, POST) then postOps + [c] else postOps, r)
    {
      var c := pq[idx];
      assert c in pq;
      PendingRemove(pq, idx, q);
      AppendExplored(queue0, visited0, maxDepth, q, visited, postOps, c);
      PendingStep(q, c, visited + {c}, pq[..idx] + pq[idx + 1..], r);
      FrontierStep(q, visited, pq, idx, r);
    }

    /** When the loop stops short of maxDepth nothing is pending, so every consumer of a queued node is queued. */
    lemma FrontierDone(q: seq<nat>, visited: set<nat>, pq: seq<nat>, maxDepth: int)
      requires Frontier(q, visited, pq) && (|pq| == 0 || |q| >= maxDepth)
      ensures |q| < maxDepth ==> ConsumersClosed(graph, q)
    {
      if |q| < maxDepth {
        forall i, e | 0 <= i < |q| && e in InEdges(graph.edges, q[i]) && !IsMethod(graph, e.source, DELETE)
          ensures e.source in q
        {
          assert CoveredNode(graph, q[i], visited, pq);
        }
      }
    }

    /**
     * The second phase: the pending consumers of the chain are taken one at a time (the
     * polled one chosen by a draw) until none is left or the queue holds maxDepth
     * operations; each unvisited non-DELETE one is appended and its own consumers become
     * pending. When the queue stops short of maxDepth, every non-DELETE consumer of a queued
     * node is queued.
     */
    method ExploreConsumers(chain: seq<nat>, queue0: seq<nat>, visited0: set<nat>, postOps0: seq<nat>, maxDepth: int, k: nat)
      returns (q: seq<nat>, postOps: seq<nat>, next: nat)
      requires forall x :: x in chain <==> x in queue0
      requires Distinct(queue0) && InGraph(graph, queue0)
      requires forall x :: x in visited0 <==> x in queue0
      requires forall i :: 0 <= i < |queue0| ==> !IsMethod(graph, queue0[i], DELETE)
      requires postOps0 == Posts(graph, queue0)
      ensures |queue0| <= |q| && q[..|queue0|] == queue0
      ensures Distinct(q) && InGraph(graph, q)
      ensures forall i :: 0 <= i < |q| ==> !IsMethod(graph, q[i], DELETE)
      ensures forall i :: |queue0| <= i < |q| ==> ConsumesSome(graph, q[i], q[..i])
      ensures |queue0| <= maxDepth ==> |q| <= maxDepth
      ensures postOps == Posts(graph, q)
      ensures |q| < maxDepth ==> ConsumersClosed(graph, q)
      ensures k <= next
    {
      var visited: set<nat> := visited0;
      q, postOps, next := queue0, postOps0, k;
      var pq := ChainConsumers(chain, queue0, visited);
      CoverSubset(graph, chain, queue0, visited, pq);
      assert visited0 <= Nodes(graph) by {
        forall x | x in visited0 ensures x in Nodes(graph) {
          var i :| 0 <= i < |queue0| && queue0[i] == x;
        }
      }
      assert q[..|queue0|] == queue0;
      assert Explored(queue0, visited0, maxDepth, q, visited, postOps);
      q, postOps, next, visited := PollConsumers(queue0, visited0, maxDepth, q, visited, postOps, pq, k);
    }

    /**
     * The loop of the second phase: polls pending nodes until none is left or the queue
     * holds maxDepth operations, keeping the exploration invariant and the frontier.
     */
    method PollConsumers(queue0: seq<nat>, visited0: set<nat>, maxDepth: int, q0: seq<nat>, visited1: set<nat>, postOps0: seq<nat>,
                         pq0: seq<nat>, k: nat)
      returns (q: seq<nat>, postOps: seq<nat>, next: nat, visited: set<nat>)
      requires Polling(queue0, visited0, maxDepth, q0, visited1, postOps0, pq0)
      ensures Explored(queue0, visited0, maxDepth, q, visited, postOps)
      ensures |q| < maxDepth ==> ConsumersClosed(graph, q)
      ensures k <= next
    {
      q, visited, postOps, next := q0, visited1, postOps0, k;
      var pq := pq0;
      while |pq| > 0 && |q| < maxDepth
        invariant Polling(queue0, visited0, maxDepth, q, visited, postOps, pq)
        invariant k <= next
        decreases Nodes(graph) - visited, |pq|
      {
        q, visited, postOps, pq := PollOnce(queue0, visited0, maxDepth, q, visited, postOps, pq, next);
        next := next + 1;
      }
      FrontierDone(q, visited, pq, maxDepth);
    }

    /**
     * One round of the loop: polls the drawn pending node; an already visited one is
     * dropped, and otherwise it is queued (recorded when a POST) and its unvisited
     * non-DELETE consumers become pending. The source also skips a polled DELETE node,
     * which cannot be pending.
     */
    method PollOnce(queue0: seq<nat>, visited0: set<nat>, maxDepth: int, q0: seq<nat>, visited1: set<nat>, postOps0: seq<nat>,
                    pq0: seq<nat>, k: nat)
      returns (q: seq<nat>, visited: set<nat>, postOps: seq<nat>, pq: seq<nat>)
      requires Polling(queue0, visited0, maxDepth, q0, visited1, postOps0, pq0) && |pq0| > 0 && |q0| < maxDepth
      ensures Polling(queue0, visited0, maxDepth, q, visited, postOps, pq)
      ensures Nodes(graph) - visited < Nodes(graph) - visited1 || (visited == visited1 && |pq| < |pq0|)
    {
      q, visited, postOps := q0, visited1, postOps0;
      var idx := Draw(rng, k, |pq0|);
      var current := pq0[idx];
      assert current in pq0;
      pq := pq0[..idx] + pq0[idx + 1..];
      if current in visited {
        PollSkip(queue0, visited0, maxDepth, q, visited, postOps, pq0, idx);
        return;
      }
      if graph.ops[current].httpMethod == DELETE {
        // consumers become pending only when they are not DELETE nodes
        assert false;
      }
      visited := visited + {current};
      pq := AddConsumers(graph, current, visited, pq);
      PollAppend(queue0, visited0, maxDepth, q, visited1, postOps, pq0, idx, pq);
      q := q + [current];
      if graph.ops[current].httpMethod == POST {
        postOps := postOps + [current];
      }
    }

    /** addCorrespondingDeletes: from the last POST back, each one's mapped DELETE once, until maxCount are listed. */
    method AddCorrespondingDeletes(posts: seq<nat>, dels: seq<nat>, maxCount: int) returns (r: seq<nat>)
      ensures r == CorrespondingDeletes(postToDeleteMap, posts, dels, maxCount)
    {
      r := dels;
      var i := |posts|;
      assert posts[..i] == posts;
      while i > 0 && |r| < maxCount
        invariant i <= |posts|
        invariant CorrespondingDeletes(postToDeleteMap, posts[..i], r, maxCount) == CorrespondingDeletes(postToDeleteMap, posts, dels, maxCount)
      {
        var postOp := posts[i - 1];
        CorrespondingStep(postToDeleteMap, posts, r, maxCount, i);
        if postOp in postToDeleteMap {
          var deleteOp := postToDeleteMap[postOp];
          if deleteOp !in r {
            r := r + [deleteOp];
          }
        }
        i := i - 1;
      }
    }

    /**
     * addRandomDeletes: nothing without DELETE nodes; otherwise up to count new DELETE
     * nodes drawn from deleteNodes in at most 3 * count draws.
     */
    method AddRandomDeletes(dels: seq<nat>, count: nat, k: nat) returns (r: seq<nat>, next: nat)
      ensures (r, next) == RandomFrom(deleteNodes, rng, k, dels, count)
    {
      if |deleteNodes| == 0 {
        return dels, k;
      }
      r, next := DrawDeletes(deleteNodes, rng, dels, count, k);
    }

    /**
     * The third phase of getTestSequence: the DELETE nodes the strategy picks for the
     * recorded POST nodes, `count` of them at most.
     */
    method AddDeletes(strategy: DeleteStrategy, postOps: seq<nat>, count: nat, k: nat) returns (dels: seq<nat>, next: nat)
      ensures (dels, next) == StrategyDeletes(postToDeleteMap, deleteNodes, rng, strategy, postOps, count, k)
    {
      match strategy
      case CorrespondingOnly =>
        dels := AddCorrespondingDeletes(postOps, [], count);
        next := k;
      case RandomOnly =>
        dels, next := AddRandomDeletes([], count, k);
      case Mixed =>
        var correspondingCount := count / 2;
        var randomCount := count - correspondingCount;
        var c := AddCorrespondingDeletes(postOps, [], correspondingCount);
        dels, next := AddRandomDeletes(c, randomCount, k);
    }

    /**
     * The shape of a generated sequence: its non-DELETE part is a Prefix at most `depth`
     * long, starting with a chain of `chainLen` POST nodes; then at most five DELETE nodes
     * picked by the strategy for the POST nodes of the sequence.
     */
    ghost predicate Generated(m: map<nat, nat>, pool: seq<nat>, q: seq<nat>, depth: int, strategy: DeleteStrategy, chainLen: nat,
                              deleteCount: nat)
    {
      var pre, dels := NonDeletes(graph, q), Deletes(graph, q);
      q == pre + dels && DeletesLast(graph, q) && Distinct(q) && InGraph(graph, q) &&
      Prefix(pre, chainLen, Posts(graph, q), depth) &&
      MinDeleteCount <= deleteCount <= MaxDeleteCount &&
      Picked(graph, m, pool, strategy, Posts(graph, q), deleteCount, dels)
    }

    /**
     * The body of getTestSequence after the queue is emptied: draws the depth and the
     * strategy, fails when there is no POST node, and otherwise builds the sequence from a
     * drawn target. `chainLen` is the length of the prerequisite chain the sequence starts with.
     */
    method BuildSequence(k: nat) returns (o: Outcome<string>, q: seq<nat>, depth: int, strategy: DeleteStrategy,
                                          chainLen: nat, deleteCount: nat, next: nat)
      requires Valid()
      ensures depth == MinSequenceLength + Draw(rng, k, MaxSequenceLength - MinSequenceLength + 1)
      ensures strategy == StrategyAt(Draw(rng, k + 1, 3))
      ensures o.Fail? <==> |postNodes| == 0
      ensures o.Fail? ==> o.error == NoPostMessage && q == [] && next == k + 3
      ensures o.Pass? ==> Generated(postToDeleteMap, deleteNodes, q, depth, strategy, chainLen, deleteCount) && k + 3 < next
    {
      depth := MinSequenceLength + Draw(rng, k, MaxSequenceLength - MinSequenceLength + 1);
      strategy := StrategyAt(Draw(rng, k + 1, 3));
      var found, target := ChooseTarget(k + 2);
      if !found {
        return Fail(NoPostMessage), [], depth, strategy, 0, 0, k + 3;
      }
      q, chainLen, deleteCount, next := BuildFrom(target, depth, strategy, k + 4);
      o := Pass;
    }

    /**
     * The target draw: with the 80% draw number k, a POST node with an outgoing edge when
     * there is one, and otherwise any POST node; none when there are no POST nodes.
     */
    method ChooseTarget(k: nat) returns (found: bool, target: nat)
      requires Valid()
      ensures found <==> |postNodes| > 0
      ensures found ==> target in Candidates(graph, postNodes, PreferConnected(rng, k)) && IsMethod(graph, target, POST)
    {
      var candidates := Candidates(graph, postNodes, PreferConnected(rng, k));
      if |candidates| == 0 {
        return false, 0;
      }
      target := candidates[Draw(rng, k + 1, |candidates|)];
      found := true;
      assert target in postNodes;
    }

    /** The three phases of getTestSequence for a drawn POST target. */
    method BuildFrom(target: nat, depth: int, strategy: DeleteStrategy, k: nat) returns (q: seq<nat>, chainLen: nat, deleteCount: nat, next: nat)
      requires Valid() && IsMethod(graph, target, POST) && depth >= MinSequenceLength
      ensures Generated(postToDeleteMap, deleteNodes, q, depth, strategy, chainLen, deleteCount) && q[chainLen - 1] == target && k < next
    {
      var pre, postOps, n;
      pre, chainLen, postOps, n := BuildPrefix(target, depth, k);
      var targetDeleteCount := MinDeleteCount + Draw(rng, n, MaxDeleteCount - MinDeleteCount + 1);
      var dels;
      dels, next := PickDeletes(strategy, postOps, targetDeleteCount, n + 1);
      q := pre + dels;
      Assemble(pre, dels, chainLen, depth, strategy, postOps, targetDeleteCount);
      deleteCount := targetDeleteCount;
      assert q[chainLen - 1] == pre[chainLen - 1];
    }

    /** The third phase with what its picks satisfy. */
    method PickDeletes(strategy: DeleteStrategy, postOps: seq<nat>, count: nat, k: nat) returns (dels: seq<nat>, next: nat)
      requires Valid()
      ensures Picked(graph, postToDeleteMap, deleteNodes, strategy, postOps, count, dels) && k <= next
    {
      dels, next := AddDeletes(strategy, postOps, count, k);
      StrategyDeletesFacts(graph, postToDeleteMap, deleteNodes, rng, strategy, postOps, count, k, dels, next);
    }

    /**
     * What the first two phases produce: distinct non-DELETE nodes, at most `depth` of them,
     * starting with a chain of 1 to 5 POST nodes, each later node consuming an earlier one,
     * and `postOps` the POST nodes among them.
     */
    ghost predicate Prefix(q: seq<nat>, chainLen: nat, postOps: seq<nat>, depth: int)
    {
      Distinct(q) && InGraph(graph, q) && postOps == Posts(graph, q) &&
      (forall i :: 0 <= i < |q| ==> !IsMethod(graph, q[i], DELETE)) &&
      MinPrerequisiteChain <= chainLen <= MaxPrerequisiteChain && chainLen <= |q| <= depth &&
      (forall i :: 0 <= i < chainLen ==> IsMethod(graph, q[i], POST)) &&
      (forall i :: chainLen <= i < |q| ==> ConsumesSome(graph, q[i], q[..i])) &&
      (|q| < depth ==> ConsumersClosed(graph, q))
    }

    /**
     * The first two phases of getTestSequence: the prerequisite chain of `target`, then the
     * consumers explored from it, with the POST nodes among them.
     */
    method BuildPrefix(target: nat, depth: int, k: nat) returns (q: seq<nat>, chainLen: nat, postOps: seq<nat>, next: nat)
      requires IsMethod(graph, target, POST) && depth >= MinSequenceLength
      ensures Prefix(q, chainLen, postOps, depth) && q[chainLen - 1] == target && k < next
    {
      var chain, n1 := PrerequisitesOf(target, k);
      q, postOps, next := ExploreFrom(chain, depth, n1);
      chainLen := |chain|;
    }

    /** The prerequisite chain of a POST target, searched with nothing visited yet: 1 to 5 distinct POST nodes ending with the target. */
    method PrerequisitesOf(target: nat, k: nat) returns (chain: seq<nat>, next: nat)
      requires IsMethod(graph, target, POST)
      ensures Distinct(chain) && InGraph(graph, chain)
      ensures forall i :: 0 <= i < |chain| ==> IsMethod(graph, chain[i], POST) && !IsMethod(graph, chain[i], DELETE)
      ensures MinPrerequisiteChain <= |chain| <= MaxPrerequisiteChain && chain[|chain| - 1] == target
      ensures next == k + 1
    {
      ghost var ordered, paths;
      chain, next, ordered, paths := FindPrerequisiteChain(target, {}, k);
      assert |ordered| > 0 && ordered[|ordered| - 1] == target;
      assert MinPrerequisiteChain <= |chain| <= MaxPrerequisiteChain;
      PostSuffix(graph, ordered, chain);
    }

    /** The prerequisite chain queued, then the consumers explored from it. */
    method ExploreFrom(chain: seq<nat>, depth: int, k: nat) returns (q: seq<nat>, postOps: seq<nat>, next: nat)
      requires Distinct(chain) && InGraph(graph, chain)
      requires forall i :: 0 <= i < |chain| ==> IsMethod(graph, chain[i], POST) && !IsMethod(graph, chain[i], DELETE)
      requires MinPrerequisiteChain <= |chain| <= MaxPrerequisiteChain && |chain| <= depth
      ensures Prefix(q, |chain|, postOps, depth) && q[|chain| - 1] == chain[|chain| - 1] && k <= next
    {
      NoDeletes(graph, chain);
      var q0, visited, postOps0 := EnqueuePrerequisites(chain);
      assert q0 == chain;
      q, postOps, next := ExploreConsumers(chain, q0, visited, postOps0, depth, k);
      ChainPrefix(q, chain);
    }

    /** The explored nodes start with the chain, whose nodes are POST nodes. */
    lemma ChainPrefix(pre: seq<nat>, chain: seq<nat>)
      requires |chain| <= |pre| && pre[..|chain|] == chain
      requires forall i :: 0 <= i < |chain| ==> IsMethod(graph, chain[i], POST)
      ensures forall i :: 0 <= i < |chain| ==> IsMethod(graph, pre[i], POST) && pre[i] == chain[i]
    {
      forall i | 0 <= i < |chain|
        ensures pre[i] == chain[i]
      {
        assert pre[i] == pre[..|chain|][i];
      }
    }

    /** Joining the explored nodes and the picked DELETE nodes gives a generated sequence. */
    lemma Assemble(pre: seq<nat>, dels: seq<nat>, chainLen: nat, depth: int, strategy: DeleteStrategy, postOps: seq<nat>, count: nat)
      requires Prefix(pre, chainLen, postOps, depth)
      requires MinDeleteCount <= count <= MaxDeleteCount && Picked(graph, postToDeleteMap, deleteNodes, strategy, postOps, count, dels)
      ensures Generated(postToDeleteMap, deleteNodes, pre + dels, depth, strategy, chainLen, count)
    {
      SplitFilters(graph, pre, dels);
      PostsIgnoreDeletes(graph, pre, dels);
      ConcatDeletesLast(graph, pre, dels);
      DistinctConcat(pre, dels);
      forall i | 0 <= i < |pre + dels|
        ensures (pre + dels)[i] < |graph.ops|
      {
        if i >= |pre| {
          assert (pre + dels)[i] == dels[i - |pre|];
        }
      }
    }

    /** emptyCurrentQueue: removes the first element until none is left. */
    method EmptyCurrentQueue()
      modifies this`queue
      ensures queue == []
    {
      while |queue| > 0
        decreases |queue|
      {
        queue := queue[1..];
      }
    }

    /**
     * getTestSequence: empties the queue, records the drawn depth and strategy, and fills the
     * queue with a generated sequence; without POST nodes it fails (the source throws) with
     * the queue left empty.
     */
    method GetTestSequence() returns (o: Outcome<string>, ghost chainLen: nat, ghost deleteCount: nat)
      modifies this`queue, this`currentMaxDepth, this`currentDeleteStrategy, this`draws
      requires Valid()
      ensures Valid()
      ensures currentMaxDepth == MinSequenceLength + Draw(rng, old(draws), MaxSequenceLength - MinSequenceLength + 1)
      ensures currentDeleteStrategy == Some(StrategyAt(Draw(rng, old(draws) + 1, 3)))
      ensures o.Fail? <==> |postNodes| == 0
      ensures o.Fail? ==> o.error == NoPostMessage && queue == []
      ensures o.Pass? ==> Generated(postToDeleteMap, deleteNodes, queue, currentMaxDepth, currentDeleteStrategy.value, chainLen, deleteCount)
      ensures old(draws) < draws
    {
      var k := draws;
      EmptyCurrentQueue();
      var q, depth, strategy, next;
      o, q, depth, strategy, chainLen, deleteCount, next := BuildSequence(k);
      // the emptied queue receives the generated sequence
      currentMaxDepth, currentDeleteStrategy, queue, draws := depth, Some(strategy), q, next;
      assert currentDeleteStrategy.value == strategy;
    }

    function GetMaximumAttempts(): (r: int)
      reads this
      requires Valid()
      ensures r >= 1 && r == maximumAttempts
    {
      maximumAttempts
    }

    /** setMaximumAttempts: refuses a value below 1 (the source throws) and leaves the field as it was. */
    method SetMaximumAttempts(n: int) returns (o: Outcome<string>)
      modifies this`maximumAttempts
      requires Valid()
      ensures Valid()
      ensures n < 1 ==> o == Fail(MaximumAttemptsMessage) && maximumAttempts == old(maximumAttempts)
      ensures n >= 1 ==> o == Pass && maximumAttempts == n
    {
      if n < 1 {
        return Fail(MaximumAttemptsMessage);
      }
      maximumAttempts := n;
      o := Pass;
    }
  }

  /**
   * The sorter's constructor: the set-up, then the first sequence, whose failure (no POST
   * operation in the graph) the source reports by throwing.
   */
  method NewSorter(g: WfGraph, stream: nat -> nat) returns (s: DiffBasedGraphSorter, o: Outcome<string>, ghost chainLen: nat,
                                                            ghost deleteCount: nat)
    ensures fresh(s) && s.Valid() && s.graph == g && s.rng == stream
    ensures s.postToDeleteMap == PostToDelete(g)
    ensures o.Fail? <==> |PostIds(g)| == 0
    ensures o.Fail? ==> o.error == NoPostMessage && s.queue == []
    ensures s.currentDeleteStrategy.Some?
    ensures o.Pass? ==> s.Generated(s.postToDeleteMap, s.deleteNodes, s.queue, s.currentMaxDepth, s.currentDeleteStrategy.value, chainLen,
                                    deleteCount)
  {
    s := new DiffBasedGraphSorter(g, stream);
    o, chainLen, deleteCount := s.GetTestSequence();
    assert |s.postNodes| == |multiset(s.postNodes)| == |multiset(PostIds(g))| == |PostIds(g)|;
  }
}
