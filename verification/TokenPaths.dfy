/**
 What the depth-first search of `graph.service.ts` enumerates: the list of paths as a
 function of the adjacency list, and how often each path occurs in it.
 */
module TokenPaths {
  import opened Arithmetic
  import opened Pairs
  import opened Sequences

  type Path = seq<Token>

  type AdjList = map<Token, seq<Token>>

  /** A simple token path from source to destination along the given pairs. */
  ghost predicate IsRoute(pairs: seq<PairModel>, source: Token, destination: Token, p: Path) {
    && |p| > 0
    && p[0] == source
    && p[|p| - 1] == destination
    && NoRepeats(p)
    && forall i :: 0 <= i < |p| - 1 ==> Joined(pairs, p[i], p[i + 1])
  }

  // ----- the adjacency list ------------------------------------------------------------

  function Neighbours(adj: AdjList, u: Token): seq<Token> {
    if u in adj then adj[u] else []
  }

  function WithEdge(adj: AdjList, u: Token, v: Token): AdjList {
    adj[u := Neighbours(adj, u) + [v]]
  }

  function GraphOf(pairs: seq<PairModel>): AdjList {
    if pairs == [] then map[]
    else
      var pair := pairs[|pairs| - 1];
      var (a, b) := (pair.firstToken.identifier, pair.secondToken.identifier);
      WithEdge(WithEdge(GraphOf(pairs[..|pairs| - 1]), a, b), b, a)
  }

  /** Every neighbour is itself a node. */
  ghost predicate Closed(adj: AdjList) {
    forall u, v :: u in adj && v in adj[u] ==> v in adj
  }

  lemma GraphClosed(pairs: seq<PairModel>)
    ensures Closed(GraphOf(pairs))
  {
    if pairs != [] {
      GraphClosed(pairs[..|pairs| - 1]);
    }
  }

  /** The multiplicity of an edge between two tokens is the number of pairs that trade them. */
  lemma {:induction false} EdgeCount(pairs: seq<PairModel>, u: Token, v: Token)
    requires u != v
    ensures multiset(Neighbours(GraphOf(pairs), u))[v] == JoinCount(pairs, u, v)
    ensures JoinCount(pairs, u, v) == |Positions(pairs, u, v)|
  {
    if pairs != [] {
      var init, pair := pairs[..|pairs| - 1], pairs[|pairs| - 1];
      var (a, b) := (pair.firstToken.identifier, pair.secondToken.identifier);
      EdgeCount(init, u, v);
      EdgeAdded(GraphOf(init), a, b, u, v);
      EdgeAdded(WithEdge(GraphOf(init), a, b), b, a, u, v);
    }
    JoinCountIsCardinality(pairs, u, v);
  }

  lemma EdgeAdded(adj: AdjList, a: Token, b: Token, u: Token, v: Token)
    ensures multiset(Neighbours(WithEdge(adj, a, b), u))[v]
         == multiset(Neighbours(adj, u))[v] + if a == u && b == v then 1 else 0
  {
  }

  // ----- the search --------------------------------------------------------------------

  function Elements(p: Path): set<Token> {
    set t | t in p
  }

  /** The paths found below the current path, in the order in which the search reports them. */
  function PathsFrom(adj: AdjList, prefix: Path, destination: Token): seq<Path>
    requires |prefix| > 0
    decreases adj.Keys - Elements(prefix), 1, 0
  {
    var node := prefix[|prefix| - 1];
    if node == destination then [prefix]
    else PathsThrough(adj, prefix, Neighbours(adj, node), destination)
  }

  /** The same through the given neighbours of the last node only. */
  function PathsThrough(adj: AdjList, prefix: Path, next: seq<Token>, destination: Token): seq<Path>
    requires |prefix| > 0
    decreases adj.Keys - Elements(prefix), 0, |next|
  {
    if next == [] then []
    else
      PathsThrough(adj, prefix, next[..|next| - 1], destination)
      + PathsVia(adj, prefix, next[|next| - 1], destination)
  }

  /** The same through one neighbour: nothing when it is no node or already on the path. */
  function PathsVia(adj: AdjList, prefix: Path, n: Token, destination: Token): seq<Path>
    requires |prefix| > 0
    decreases adj.Keys - Elements(prefix), 0, 0
  {
    if n in adj && n !in prefix then
      FewerUnvisited(adj, prefix, n);
      PathsFrom(adj, prefix + [n], destination)
    else []
  }

  lemma FewerUnvisited(adj: AdjList, prefix: Path, n: Token)
    requires n in adj && n !in prefix
    ensures adj.Keys - Elements(prefix + [n]) < adj.Keys - Elements(prefix)
  {
    assert n in adj.Keys - Elements(prefix) && n in Elements(prefix + [n]);
    assert adj.Keys - Elements(prefix + [n]) <= adj.Keys - Elements(prefix);
  }

  /** The product of the edge multiplicities along p from position i on. */
  function Ways(adj: AdjList, p: Path, i: nat): nat
    decreases |p| - i
  {
    if i + 1 >= |p| then 1
    else multiset(Neighbours(adj, p[i]))[p[i + 1]] * Ways(adj, p, i + 1)
  }

  /** p is a simple continuation of the prefix that ends at the destination. */
  ghost predicate Continues(prefix: Path, destination: Token, p: Path) {
    |p| > 0 && prefix <= p && NoRepeats(p) && p[|p| - 1] == destination
  }

  /** c continuations for every way of going on from position i, if p continues the prefix at all. */
  ghost function Expected(adj: AdjList, prefix: Path, destination: Token, p: Path, c: nat, i: nat): nat {
    if Continues(prefix, destination, p) then c * Ways(adj, p, i) else 0
  }

  lemma ExpectedAdds(adj: AdjList, prefix: Path, destination: Token, p: Path, c: nat, d: nat, i: nat)
    ensures Expected(adj, prefix, destination, p, c + d, i)
         == Expected(adj, prefix, destination, p, c, i) + Expected(adj, prefix, destination, p, d, i)
  {
    Distribute(Ways(adj, p, i), c, d);
  }

  /** The token that follows the prefix on p. */
  ghost function Following(prefix: Path, p: Path): Token {
    if |p| > |prefix| then p[|prefix|] else ""
  }

  lemma ContinuationIsLonger(prefix: Path, destination: Token, p: Path)
    requires |prefix| > 0 && prefix[|prefix| - 1] != destination
    ensures Continues(prefix, destination, p) ==> |p| > |prefix|
  {
    assert prefix <= p && |p| <= |prefix| ==> p == prefix;
  }

  /** How often a path is reported: once for each way of choosing an edge for every hop. */
  lemma {:induction false} PathCount(adj: AdjList, prefix: Path, destination: Token, p: Path)
    requires |prefix| > 0 && NoRepeats(prefix) && Closed(adj)
    ensures multiset(PathsFrom(adj, prefix, destination))[p] == Expected(adj, prefix, destination, p, 1, |prefix| - 1)
    decreases adj.Keys - Elements(prefix), 1, 0
  {
    var node := prefix[|prefix| - 1];
    if node == destination {
      if Continues(prefix, destination, p) {
        assert p[|prefix| - 1] == p[|p| - 1];
        assert p == prefix;
      }
    } else {
      PathCountThrough(adj, prefix, Neighbours(adj, node), destination, p);
      ContinuationIsLonger(prefix, destination, p);
    }
  }

  lemma {:induction false} PathCountThrough(adj: AdjList, prefix: Path, next: seq<Token>, destination: Token, p: Path)
    requires |prefix| > 0 && NoRepeats(prefix) && Closed(adj)
    requires prefix[|prefix| - 1] != destination
    requires forall n :: n in next ==> n in adj
    ensures multiset(PathsThrough(adj, prefix, next, destination))[p]
         == Expected(adj, prefix, destination, p, multiset(next)[Following(prefix, p)], |prefix|)
    decreases adj.Keys - Elements(prefix), 0, |next|
  {
    if next != [] {
      var init, n := next[..|next| - 1], next[|next| - 1];
      PathCountThrough(adj, prefix, init, destination, p);
      PathCountVia(adj, prefix, n, destination, p);
      CountConcat(PathsThrough(adj, prefix, init, destination), PathsVia(adj, prefix, n, destination), p);
      assert next == init + [n];
      ExpectedOneMore(adj, prefix, init, n, destination, p);
    }
  }

  lemma ExpectedOneMore(adj: AdjList, prefix: Path, init: seq<Token>, n: Token, destination: Token, p: Path)
    ensures var (f, i) := (Following(prefix, p), |prefix|);
            Expected(adj, prefix, destination, p, multiset(init + [n])[f], i)
            == Expected(adj, prefix, destination, p, multiset(init)[f], i)
               + Expected(adj, prefix, destination, p, multiset([n])[f], i)
  {
    var f := Following(prefix, p);
    CountConcat(init, [n], f);
    ExpectedAdds(adj, prefix, destination, p, multiset(init)[f], multiset([n])[f], |prefix|);
  }

  lemma {:induction false} PathCountVia(adj: AdjList, prefix: Path, n: Token, destination: Token, p: Path)
    requires |prefix| > 0 && NoRepeats(prefix) && Closed(adj)
    requires prefix[|prefix| - 1] != destination && n in adj
    ensures multiset(PathsVia(adj, prefix, n, destination))[p]
         == Expected(adj, prefix, destination, p, multiset([n])[Following(prefix, p)], |prefix|)
    decreases adj.Keys - Elements(prefix), 0, 0
  {
    ContinuationIsLonger(prefix, destination, p);
    if n in prefix {
      var k :| 0 <= k < |prefix| && prefix[k] == n;
      assert Continues(prefix, destination, p) ==> p[k] != p[|prefix|];
    } else {
      FewerUnvisited(adj, prefix, n);
      PathCount(adj, prefix + [n], destination, p);
      assert Continues(prefix + [n], destination, p) <==> Continues(prefix, destination, p) && p[|prefix|] == n;
    }
  }

  // ----- the paths of a graph of pairs -------------------------------------------------

  /** What `getAllPaths` returns on a graph built from these pairs. */
  function AllPaths(pairs: seq<PairModel>, source: Token, destination: Token): seq<Path> {
    PathsFrom(GraphOf(pairs), [source], destination)
  }

  /** The number of ways to choose one pair for every hop of a path. */
  function PairChoices(pairs: seq<PairModel>, p: Path, i: nat): nat
    decreases |p| - i
  {
    if i + 1 >= |p| then 1
    else JoinCount(pairs, p[i], p[i + 1]) * PairChoices(pairs, p, i + 1)
  }

  lemma {:induction false} WaysArePairChoices(pairs: seq<PairModel>, p: Path, i: nat)
    requires NoRepeats(p)
    ensures Ways(GraphOf(pairs), p, i) == PairChoices(pairs, p, i)
    decreases |p| - i
  {
    if i + 1 < |p| {
      EdgeCount(pairs, p[i], p[i + 1]);
      WaysArePairChoices(pairs, p, i + 1);
    }
  }

  lemma {:induction false} PairChoicesPositive(pairs: seq<PairModel>, p: Path, i: nat)
    ensures PairChoices(pairs, p, i) > 0
       <==> forall k :: i <= k < |p| - 1 ==> Joined(pairs, p[k], p[k + 1])
    decreases |p| - i
  {
    if i + 1 < |p| {
      JoinCountPositive(pairs, p[i], p[i + 1]);
      PairChoicesPositive(pairs, p, i + 1);
      var c, rest := JoinCount(pairs, p[i], p[i + 1]), PairChoices(pairs, p, i + 1);
      assert c * rest > 0 <==> c > 0 && rest > 0;
    }
  }

  /**
   The search is exact with multiplicities: a token sequence is returned once for every way
   of choosing a pair for each hop if it is a route, and not at all otherwise.
   */
  lemma AllPathsCount(pairs: seq<PairModel>, source: Token, destination: Token, p: Path)
    ensures multiset(AllPaths(pairs, source, destination))[p]
         == if IsRoute(pairs, source, destination, p) then PairChoices(pairs, p, 0) else 0
    ensures IsRoute(pairs, source, destination, p) ==> PairChoices(pairs, p, 0) > 0
  {
    GraphClosed(pairs);
    PathCount(GraphOf(pairs), [source], destination, p);
    PairChoicesPositive(pairs, p, 0);
    if Continues([source], destination, p) {
      WaysArePairChoices(pairs, p, 0);
    }
  }

  /** Soundness and completeness: the paths returned are exactly the routes. */
  lemma AllPathsExact(pairs: seq<PairModel>, source: Token, destination: Token, p: Path)
    ensures p in AllPaths(pairs, source, destination) <==> IsRoute(pairs, source, destination, p)
  {
    AllPathsCount(pairs, source, destination, p);
    assert p in AllPaths(pairs, source, destination) <==> p in multiset(AllPaths(pairs, source, destination));
  }

  lemma {:induction false} OneChoice(pairs: seq<PairModel>, p: Path, i: nat)
    requires OnePairPerMarket(pairs)
    ensures PairChoices(pairs, p, i) <= 1
    decreases |p| - i
  {
    if i + 1 < |p| {
      JoinCountAtMostOne(pairs, p[i], p[i + 1]);
      OneChoice(pairs, p, i + 1);
      var c := JoinCount(pairs, p[i], p[i + 1]);
      assert c == 0 || c == 1;
    }
  }

  /** With one pair per market, every route is returned exactly once. */
  lemma AllPathsOnce(pairs: seq<PairModel>, source: Token, destination: Token, p: Path)
    requires OnePairPerMarket(pairs)
    ensures multiset(AllPaths(pairs, source, destination))[p]
         == if IsRoute(pairs, source, destination, p) then 1 else 0
  {
    AllPathsCount(pairs, source, destination, p);
    OneChoice(pairs, p, 0);
  }
}
