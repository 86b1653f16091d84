/** The worklist that collects every file an entry file reaches through relative imports. */
module ImportWorklist {
  import opened Basics
  import opened Graphs

  /** Everything reached so far is done or still queued. */
  ghost predicate Frontier(g: Graph, entry: string, discovered: seq<string>, queue: seq<string>) {
    && (entry in discovered || entry in queue)
    && (forall f :: f in discovered || f in queue ==> Reach(g, entry, f))
    && (forall a, b :: a in discovered && Edge(g, a, b) ==> b in discovered || b in queue)
  }

  lemma StepFrontier(g: Graph, entry: string, discovered: seq<string>, queue: seq<string>)
    requires Frontier(g, entry, discovered, queue) && queue != []
    ensures var n := |queue| - 1; var f := queue[n];
      && Reach(g, entry, f)
      && (f in discovered ==> Frontier(g, entry, discovered, queue[..n]))
      && Frontier(g, entry, discovered + [f], queue[..n] + Succ(g, f))
  {
    hide Reach;
    var n := |queue| - 1;
    var f := queue[n];
    assert queue == queue[..n] + [f];
    forall h | h in Succ(g, f) ensures Reach(g, entry, h) {
      ReachStep(g, entry, f, h);
    }
  }

  lemma Finished(g: Graph, entry: string, discovered: seq<string>, f: string)
    requires Frontier(g, entry, discovered, [])
    ensures f in discovered <==> Reach(g, entry, f)
  {
    if Reach(g, entry, f) {
      var all := set n | n in discovered;
      ClosedReach(g, all, entry, f);
    }
  }

  /** `graph` maps every readable file to the relative imports it resolves, in order of
      appearance; a resolved path is never empty. The files are returned in the order they
      were read. Reading fails exactly when some file reached is not readable. */
  method CollectRelativeImportGraph(entry: string, graph: Graph) returns (ok: bool, discovered: seq<string>)
    requires entry != "" && forall f :: f in graph ==> "" !in graph[f]
    ensures ok <==> forall f :: Reach(graph, entry, f) ==> f in graph
    ensures ok ==> forall f :: f in discovered <==> Reach(graph, entry, f)
    ensures Distinct(discovered)
  {
    hide Reach;
    discovered := [];
    var queue := [entry];
    ReachSelf(graph, entry);
    while |queue| > 0
      invariant Frontier(graph, entry, discovered, queue)
      invariant Distinct(discovered)
      invariant "" !in queue
      invariant forall f :: f in discovered ==> f in graph
      decreases graph.Keys - (set f | f in discovered), |queue|
    {
      var currentPath := queue[|queue| - 1];
      StepFrontier(graph, entry, discovered, queue);
      queue := queue[..|queue| - 1];
      if currentPath == "" || currentPath in discovered {
        continue;
      }
      if currentPath !in graph {
        discovered := discovered + [currentPath];
        return false, discovered;
      }
      ghost var before := set f | f in discovered;
      discovered := discovered + [currentPath];
      assert currentPath in graph.Keys - before;
      var imports := graph[currentPath];
      ghost var rest := queue;
      for i := 0 to |imports|
        invariant queue == rest + imports[..i]
      {
        queue := queue + [imports[i]];
      }
      assert rest + imports[..|imports|] == rest + Succ(graph, currentPath);
    }
    forall f ensures f in discovered <==> Reach(graph, entry, f) {
      Finished(graph, entry, discovered, f);
    }
    return true, discovered;
  }
}
