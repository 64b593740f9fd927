/**
 The search of `graph.service.ts` itself: an adjacency list filled in place and a
 backtracking search over three shared buffers.
 */
module Graph {
  import opened Pairs
  import opened Sequences
  import opened TokenPaths

  /** `indexOf`: the first position of x, or -1. */
  function IndexOf<T(==)>(s: seq<T>, x: T): (i: int)
    ensures -1 <= i < |s|
    ensures i >= 0 ==> s[i] == x && x !in s[..i]
    ensures i == -1 ==> x !in s
  {
    if s == [] then -1
    else if s[0] == x then 0
    else
      var rest := IndexOf(s[1..], x);
      if rest == -1 then -1 else rest + 1
  }

  /** `splice(start, 1)`: a negative start counts from the end of the array. */
  function SpliceOne<T>(s: seq<T>, start: int): seq<T> {
    var from := if start >= 0 then start else if |s| + start >= 0 then |s| + start else 0;
    if from < |s| then s[..from] + s[from + 1..] else s
  }

  /** Splicing out the first occurrence of a token just pushed undoes the push if the token was new. */
  lemma {:induction false} SpliceUndoesPush(p: Path, n: Token)
    requires n !in p
    ensures SpliceOne(p + [n], IndexOf(p + [n], n)) == p
  {
    NewTokenIsLast(p, n);
  }

  lemma {:induction false} NewTokenIsLast(p: Path, n: Token)
    requires n !in p
    ensures IndexOf(p + [n], n) == |p|
  {
    if p != [] {
      assert (p + [n])[1..] == p[1..] + [n];
      NewTokenIsLast(p[1..], n);
    }
  }

  /** The objects `getAllPathsUtil` receives by reference and updates in place. */
  class SearchBuffers {
    var isVisited: map<Token, bool>
    var localPathList: Path
    var paths: seq<Path>

    constructor ()
      ensures isVisited == map[] && localPathList == [] && paths == []
    {
      isVisited, localPathList, paths := map[], [], [];
    }
  }

  /** The current path is simple, and its tokens before the last are exactly the visited nodes. */
  ghost predicate Consistent(adj: AdjList, isVisited: map<Token, bool>, list: Path) {
    && |list| > 0
    && NoRepeats(list)
    && isVisited.Keys == adj.Keys
    && forall t :: t in adj ==> isVisited[t] == (t in list[..|list| - 1])
  }

  /** Marking the last token and pushing an unvisited node keeps the buffers consistent. */
  lemma Descend(adj: AdjList, isVisited: map<Token, bool>, list: Path, n: Token)
    requires Consistent(adj, isVisited, list)
    requires list[|list| - 1] in adj
    requires n in adj && !isVisited[list[|list| - 1] := true][n]
    ensures n !in list
    ensures Consistent(adj, isVisited[list[|list| - 1] := true], list + [n])
    ensures adj.Keys - Elements(list + [n]) < adj.Keys - Elements(list)
  {
    var init := list[..|list| - 1];
    assert list == init + [list[|list| - 1]];
    assert (list + [n])[..|list + [n]| - 1] == list;
    FewerUnvisited(adj, list, n);
  }

  lemma ThroughOneMore(adj: AdjList, found: seq<Path>, prefix: Path, next: seq<Token>, i: nat, destination: Token)
    requires |prefix| > 0 && i < |next|
    ensures found + PathsThrough(adj, prefix, next[..i + 1], destination)
         == (found + PathsThrough(adj, prefix, next[..i], destination)) + PathsVia(adj, prefix, next[i], destination)
  {
    assert next[..i + 1][..i] == next[..i];
  }

  lemma MarkUndone(isVisited: map<Token, bool>, node: Token)
    requires node in isVisited && !isVisited[node]
    ensures isVisited[node := true][node := false] == isVisited
  {
  }

  class GraphService {
    var adjList: AdjList

    constructor (pairs: seq<PairModel>)
      ensures adjList == GraphOf(pairs)
    {
      adjList := map[];
      new;
      for i := 0 to |pairs|
        invariant adjList == GraphOf(pairs[..i])
      {
        var pair := pairs[i];
        AddEdge(pair.firstToken.identifier, pair.secondToken.identifier);
        AddEdge(pair.secondToken.identifier, pair.firstToken.identifier);
        assert pairs[..i + 1][..i] == pairs[..i];
      }
      assert pairs[..|pairs|] == pairs;
    }

    method AddEdge(u: Token, v: Token)
      modifies this
      ensures adjList == WithEdge(old(adjList), u, v)
    {
      if u !in adjList {
        assert [] + [v] == [v];
        adjList := adjList[u := [v]];
      } else {
        adjList := adjList[u := adjList[u] + [v]];
      }
    }

    /** One call reports the paths below the current one and hands the shared buffers back as they were. */
    method GetAllPathsUtil(node: Token, destination: Token, buffers: SearchBuffers)
      requires Consistent(adjList, buffers.isVisited, buffers.localPathList)
      requires node == buffers.localPathList[|buffers.localPathList| - 1]
      modifies buffers
      ensures buffers.paths == old(buffers.paths) + PathsFrom(adjList, old(buffers.localPathList), destination)
      ensures buffers.localPathList == old(buffers.localPathList)
      ensures node in adjList ==> buffers.isVisited == old(buffers.isVisited)
      decreases adjList.Keys - Elements(buffers.localPathList)
    {
      if node == destination {
        buffers.paths := buffers.paths + [buffers.localPathList];
        return;
      }

      ghost var visitedBefore, pathsBefore, current := buffers.isVisited, buffers.paths, buffers.localPathList;
      buffers.isVisited := buffers.isVisited[node := true];
      if node !in adjList {
        return;
      }

      var adjNodes := adjList[node];
      for i := 0 to |adjNodes|
        invariant buffers.localPathList == current
        invariant buffers.isVisited == visitedBefore[node := true]
        invariant buffers.paths == pathsBefore + PathsThrough(adjList, current, adjNodes[..i], destination)
      {
        var adjNode := adjNodes[i];
        ThroughOneMore(adjList, pathsBefore, current, adjNodes, i, destination);
        if adjNode in buffers.isVisited && buffers.isVisited[adjNode] == false {
          Descend(adjList, visitedBefore, current, adjNode);
          buffers.localPathList := buffers.localPathList + [adjNode];
          GetAllPathsUtil(adjNode, destination, buffers);
          SpliceUndoesPush(current, adjNode);
          buffers.localPathList := SpliceOne(buffers.localPathList, IndexOf(buffers.localPathList, adjNode));
        }
      }
      assert adjNodes[..|adjNodes|] == adjNodes;
      MarkUndone(visitedBefore, node);
      buffers.isVisited := buffers.isVisited[node := false];
    }

    method GetAllPaths(source: Token, destination: Token) returns (paths: seq<Path>)
      ensures paths == PathsFrom(adjList, [source], destination)
    {
      var buffers := new SearchBuffers();
      var nodes := adjList.Keys;
      while nodes != {}
        invariant buffers.localPathList == [] && buffers.paths == []
        invariant buffers.isVisited.Keys == adjList.Keys - nodes && nodes <= adjList.Keys
        invariant forall t :: t in buffers.isVisited ==> !buffers.isVisited[t]
        decreases nodes
      {
        var v :| v in nodes;
        buffers.isVisited := buffers.isVisited[v := false];
        nodes := nodes - {v};
      }
      buffers.localPathList := buffers.localPathList + [source];
      assert buffers.localPathList == [source];
      GetAllPathsUtil(source, destination, buffers);
      paths := buffers.paths;
    }
  }
}
