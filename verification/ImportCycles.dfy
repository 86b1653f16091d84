/** The runtime import-cycle check: component search, cycle witness and verdict. */
module ImportCycles {
  import opened Basics
  import opened Graphs
  import opened StronglyConnected

  /** What the component search promises: the cyclic strongly connected components, each once. */
  ghost predicate IsReport(g: Graph, components: seq<seq<string>>) {
    && (forall i :: 0 <= i < |components| ==>
          Distinct(components[i]) && IsCyclicScc(g, Elements(components[i])))
    && (forall i, j :: 0 <= i < j < |components| ==> Elements(components[i]) !! Elements(components[j]))
    && (forall c :: IsCyclicScc(g, c) ==> exists i :: 0 <= i < |components| && Elements(components[i]) == c)
  }

  /** A closed walk: consecutive entries are imports and the two ends are the same file. */
  ghost predicate IsCycle(g: Graph, w: seq<string>) {
    IsWalk(g, w) && |w| >= 2 && w[0] == w[|w| - 1]
  }

  ghost predicate Acyclic(g: Graph) {
    forall w :: !IsCycle(g, w)
  }

  lemma OnCycleIsCycle(g: Graph, n: string)
    ensures OnCycle(g, n) <==> exists w :: IsCycle(g, w) && w[0] == n
  {
    if OnCycle(g, n) {
      var m :| Edge(g, n, m) && Reach(g, m, n);
      var p :| IsWalk(g, p) && p[0] == m && p[|p| - 1] == n;
      var w := [n] + p;
      forall i, j | 0 <= i < j < |w| && j == i + 1 ensures Edge(g, w[i], w[j]) {
        assert i > 0 ==> w[i] == p[i - 1] && w[j] == p[j - 1];
      }
      assert IsCycle(g, w);
    }
    if w :| IsCycle(g, w) && w[0] == n {
      assert Edge(g, w[0], w[1]);
      var q := w[1..];
      assert forall i, j :: 0 <= i < j < |q| && j == i + 1 ==> q[i] == w[i + 1] && q[j] == w[j + 1];
      assert IsWalk(g, q);
    }
  }

  lemma SameScc(g: Graph, c: set<string>, d: set<string>, n: string)
    requires IsScc(g, c) && IsScc(g, d) && n in c && n in d
    ensures c == d
  {
    hide Mutual;
    assert forall b :: b in c <==> Mutual(g, n, b);
  }

  lemma ReportFromInv(g: Graph, s: Snapshot)
    requires Reported(g, s) && Done(s) == Nodes(g)
    ensures IsReport(g, s.components)
  {
    hide OnCycle, Mutual, Distinct;
    forall c | IsCyclicScc(g, c) ensures exists i :: 0 <= i < |s.components| && Elements(s.components[i]) == c {
      var n :| n in c;
      CyclicIsNode(g, n);
      var i :| 0 <= i < |s.components| && n in s.components[i];
      SameScc(g, c, Elements(s.components[i]), n);
    }
    forall i, j | 0 <= i < j < |s.components| ensures Elements(s.components[i]) !! Elements(s.components[j]) {
      forall n | n in Elements(s.components[i]) ensures n !in Elements(s.components[j]) {
        assert n in s.components[i];
      }
    }
  }

  lemma CyclicIsNode(g: Graph, n: string)
    requires OnCycle(g, n)
    ensures n in Nodes(g)
  {
    var m :| Edge(g, n, m) && Reach(g, m, n);
  }

  /** The report is empty exactly when the graph has no cycle. */
  lemma EmptyReportIffAcyclic(g: Graph, components: seq<seq<string>>)
    requires IsReport(g, components)
    ensures components == [] <==> Acyclic(g)
  {
    if components != [] {
      assert IsCyclicScc(g, Elements(components[0]));
      var n :| n in Elements(components[0]);
      OnCycleIsCycle(g, n);
    } else {
      forall w ensures !IsCycle(g, w) {
        if IsCycle(g, w) {
          OnCycleIsCycle(g, w[0]);
          var c := SccOf(g, w[0]);
        }
      }
    }
  }

  /** The component of a node on a cycle. */
  lemma SccOf(g: Graph, n: string) returns (c: set<string>)
    requires OnCycle(g, n)
    ensures n in c && IsCyclicScc(g, c)
  {
    c := set m | m in Nodes(g) && Mutual(g, n, m);
    CyclicIsNode(g, n);
    ReachSelf(g, n);
    forall a, b | a in c ensures b in c <==> Mutual(g, a, b) {
      if b in c {
        ReachTrans(g, a, n, b);
        ReachTrans(g, b, n, a);
      }
      if Mutual(g, a, b) {
        ReachTrans(g, n, a, b);
        ReachTrans(g, b, a, n);
        NodesClosed(g);
        ClosedReach(g, Nodes(g), n, b);
      }
    }
    assert n in c;
    CyclicScc(g, c, n);
  }

  /** The variables of the component search. */
  class ComponentSearch {
    const graph: Graph
    var nextIndex: nat
    var stack: seq<string>
    var onStack: set<string>
    var indexByNode: map<string, nat>
    var lowLinkByNode: map<string, nat>
    var components: seq<seq<string>>

    function Snap(): Snapshot
      reads this
    {
      Snapshot(nextIndex, stack, onStack, indexByNode, lowLinkByNode, components)
    }

    constructor (graph: Graph)
      ensures this.graph == graph && Snap() == Snapshot(0, [], {}, map[], map[], [])
    {
      this.graph := graph;
      nextIndex, stack, onStack, indexByNode, lowLinkByNode, components := 0, [], {}, map[], map[], [];
    }

    /** Pops the stack down to and including `node`. A popped empty name is taken for an
        empty stack, and the search fails. */
    method PopComponent(node: string, ghost base: nat) returns (ok: bool, component: seq<string>)
      requires base < |stack| && stack[base] == node && Distinct(stack)
      modifies this`stack, this`onStack
      ensures ok <==> "" !in old(stack)[base..]
      ensures ok ==> stack == old(stack)[..base] && onStack == old(onStack) - Elements(old(stack)[base..])
      ensures ok ==> Elements(component) == Elements(old(stack)[base..]) && Distinct(component)
    {
      ghost var before := stack;
      ok, component := true, [];
      var popping := true;
      while popping
        invariant popping ==> base < |stack|
        invariant !popping ==> base == |stack|
        invariant base <= |stack| <= |before| && stack == before[..|stack|]
        invariant |component| == |before| - |stack|
        invariant forall k :: 0 <= k < |component| ==> component[k] == before[|before| - 1 - k]
        invariant onStack == old(onStack) - Elements(before[|stack|..])
        invariant ok && "" !in before[|stack|..]
        decreases |stack|, popping
      {
        var current := stack[|stack| - 1];
        assert before[|stack| - 1..] == [current] + before[|stack|..];
        stack := stack[..|stack| - 1];
        if current == "" {
          assert before[base..][|stack| - base] == "";
          ok := false;
          return;
        }
        onStack := onStack - {current};
        component := component + [current];
        popping := current != node;
      }
      assert Elements(component) == Elements(before[base..]) by {
        forall n | n in before[base..] ensures n in component {
          var k :| 0 <= k < |before| - base && before[base..][k] == n;
          assert component[|before| - 1 - (base + k)] == n;
        }
        forall n | n in component ensures n in before[base..] {
          var k :| 0 <= k < |component| && component[k] == n;
          assert before[base..][|before| - 1 - k - base] == n;
        }
      }
    }

    method Visit(node: string, ghost gray: set<string>) returns (ok: bool)
      requires Inv(graph, Snap(), gray) && node in Nodes(graph) && node !in indexByNode
      requires forall a :: a in gray ==> Reach(graph, a, node)
      modifies this
      ensures ok ==> Visited(graph, old(Snap()), Snap(), gray, node)
      ensures !ok ==> "" in Nodes(graph)
      decreases Nodes(graph) - indexByNode.Keys
    {
      hide Inv, Visiting, Visited, Nodes, Reach, Distinct;
      ghost var s := Snap();
      indexByNode := indexByNode[node := nextIndex];
      lowLinkByNode := lowLinkByNode[node := nextIndex];
      nextIndex := nextIndex + 1;
      stack := stack + [node];
      onStack := onStack + {node};
      OpenVisit(graph, s, gray, node);

      var imports := Succ(graph, node);
      for i := 0 to |imports|
        invariant Visiting(graph, s, Snap(), gray, node, i)
      {
        var next := imports[i];
        ghost var t := Snap();
        VisitingFacts(graph, s, t, gray, node, i);
        if next !in indexByNode {
          EnterChild(graph, s, t, gray, node, i);
          ok := Visit(next, gray + {node});
          if !ok {
            return;
          }
          ghost var u := Snap();
          VisitedFacts(graph, t, u, gray + {node}, next);
          AfterChild(graph, s, t, u, gray, node, i);
          lowLinkByNode := lowLinkByNode[node :=
            if lowLinkByNode[next] < lowLinkByNode[node] then lowLinkByNode[next] else lowLinkByNode[node]];
          assert Snap() == Lowered(u, node, u.low[next]);
        } else if next in onStack {
          AfterStacked(graph, s, t, gray, node, i);
          lowLinkByNode := lowLinkByNode[node :=
            if indexByNode[next] < lowLinkByNode[node] then indexByNode[next] else lowLinkByNode[node]];
          assert Snap() == Lowered(t, node, t.index[next]);
        } else {
          AfterFinished(graph, s, t, gray, node, i);
        }
      }

      ghost var t := Snap();
      VisitingFacts(graph, s, t, gray, node, |imports|);
      if lowLinkByNode[node] != indexByNode[node] {
        KeepOpen(graph, s, t, gray, node);
        return true;
      }
      StackDistinct(graph, s, t, gray, node);
      ok := CloseComponent(node, s, gray);
    }

    /** The end of the visit of a root: its component leaves the stack and, if it carries
        a cycle, is recorded. */
    method CloseComponent(node: string, ghost s: Snapshot, ghost gray: set<string>) returns (ok: bool)
      requires AtRoot(graph, s, Snap(), gray, node)
      requires Distinct(stack) && Elements(stack) <= Nodes(graph)
      requires |s.stack| < |stack| && stack[|s.stack|] == node
      modifies this`stack, this`onStack, this`components
      ensures ok ==> Visited(graph, s, Snap(), gray, node)
      ensures !ok ==> "" in Nodes(graph)
    {
      hide AtRoot, Visited, Nodes, Reach, Distinct;
      ghost var t := Snap();
      var component;
      ok, component := PopComponent(node, |s.stack|);
      if !ok {
        assert forall n :: n in t.stack[|s.stack|..] ==> n in Elements(t.stack);
        return;
      }
      if |component| > 1 || node in Succ(graph, node) {
        components := components + [component];
      }
      PopVisited(graph, s, t, gray, node, component);
      assert Snap() == Popped(graph, s, t, node, component);
    }
  }

  lemma VisitingFacts(g: Graph, s: Snapshot, t: Snapshot, gray: set<string>, x: string, i: nat)
    requires Visiting(g, s, t, gray, x, i)
    ensures x in t.index && t.low.Keys == t.index.Keys && t.onStack <= t.index.Keys
    ensures |s.stack| < |t.stack| && t.stack[|s.stack|] == x
  {
    hide Explored, Reported, LowReached, LowBounds, Reach, Nodes;
  }

  lemma VisitedFacts(g: Graph, s: Snapshot, t: Snapshot, gray: set<string>, x: string)
    requires Visited(g, s, t, gray, x)
    ensures x in t.index && t.low.Keys == t.index.Keys && s.index.Keys <= t.index.Keys
  {
    hide Explored, Reported, LowReached, LowBounds, Reach, Nodes;
  }

  lemma EnterChild(g: Graph, s: Snapshot, t: Snapshot, gray: set<string>, x: string, i: nat)
    requires Visiting(g, s, t, gray, x, i) && i < |Succ(g, x)| && Succ(g, x)[i] !in t.index
    requires forall a :: a in gray ==> Reach(g, a, x)
    ensures Inv(g, t, gray + {x}) && Succ(g, x)[i] in Nodes(g)
    ensures forall a :: a in gray + {x} ==> Reach(g, a, Succ(g, x)[i])
    ensures Nodes(g) - t.index.Keys < Nodes(g) - s.index.Keys
  {
    hide Explored, Reported, LowReached, LowBounds, Reach;
    var c := Succ(g, x)[i];
    assert Edge(g, x, c);
    forall a | a in gray + {x} ensures Reach(g, a, c) {
      ReachSelf(g, x);
      ReachStep(g, a, x, c);
    }
    assert x in Nodes(g) - s.index.Keys;
  }

  lemma StackDistinct(g: Graph, s: Snapshot, t: Snapshot, gray: set<string>, x: string)
    requires Visiting(g, s, t, gray, x, |Succ(g, x)|)
    ensures Distinct(t.stack) && t.stack[..|s.stack|] == s.stack
    ensures Elements(t.stack) <= Nodes(g)
  {
    hide Explored, Reported, LowReached, LowBounds, Nodes;
  }

  /** Once nothing is open and every file has been visited, everything is finished. */
  lemma AllDone(g: Graph, s: Snapshot)
    requires Inv(g, s, {}) && g.Keys <= s.index.Keys
    ensures Done(s) == Nodes(g)
  {
    hide Reach, Reported;
    assert forall b :: b in s.onStack ==> ReachesGray(g, s, {}, b);
    forall n | n in Nodes(g) ensures n in s.index {
      if n !in g {
        var k :| k in g.Keys && n in g[k];
        assert Edge(g, k, n);
      }
    }
  }

  /** `files` lists the keys of the graph in the map's order. The search fails only on an
      empty file name; otherwise it reports every cyclic component exactly once. */
  method CollectStronglyConnectedComponents(files: seq<string>, graph: Graph)
    returns (ok: bool, components: seq<seq<string>>)
    requires Elements(files) == graph.Keys
    ensures ok <==> "" !in Nodes(graph)
    ensures ok ==> IsReport(graph, components)
  {
    hide Nodes, Reach, Explored, Reported;
    components := [];
    var search := new ComponentSearch(graph);
    assert Inv(graph, search.Snap(), {}) by { EmptyInv(graph); }
    assert search.graph == graph;
    for i := 0 to |files|
      invariant search.graph == graph && Inv(graph, search.Snap(), {})
      invariant forall j :: 0 <= j < i ==> files[j] in search.indexByNode
    {
      var node := files[i];
      if node !in search.indexByNode {
        assert node in Elements(files);
        assert node in Nodes(graph) by { KeyIsNode(graph, node); }
        ok := search.Visit(node, {});
        if !ok {
          return;
        }
      }
    }
    ghost var s := search.Snap();
    AllDone(graph, s);
    ReportFromInv(graph, s);
    assert "" !in Done(s) by { NoEmptyName(graph, s); }
    return true, search.components;
  }

  lemma EmptyInv(g: Graph)
    ensures Inv(g, Snapshot(0, [], {}, map[], map[], []), {})
  {
  }

  lemma KeyIsNode(g: Graph, n: string)
    requires n in g
    ensures n in Nodes(g)
  {
  }

  lemma NoEmptyName(g: Graph, s: Snapshot)
    requires Reported(g, s)
    ensures "" !in Done(s)
  {
  }

  /** The first position of x, or -1. */
  function IndexOf(s: seq<string>, x: string): (i: int)
    ensures -1 <= i < |s|
    ensures i < 0 <==> x !in s
    ensures i >= 0 ==> s[i] == x && x !in s[..i]
  {
    if s == [] then -1
    else if s[0] == x then 0
    else
      var r := IndexOf(s[1..], x);
      assert r >= 0 ==> s[..r + 1] == [s[0]] + s[1..][..r];
      if r < 0 then -1 else r + 1
  }

  /** A cycle inside the component that repeats no file except that it ends where it starts. */
  ghost predicate IsWitness(g: Graph, c: set<string>, w: seq<string>) {
    IsCycle(g, w) && Elements(w) <= c && Distinct(w[..|w| - 1])
  }

  /** Every file of the component imports a file of the component. */
  ghost predicate Productive(g: Graph, c: set<string>) {
    forall n :: n in c ==> exists m :: m in c && Edge(g, n, m)
  }

  lemma CyclicSccIsProductive(g: Graph, c: set<string>)
    requires IsCyclicScc(g, c)
    ensures Productive(g, c)
  {
    hide Reach;
    forall n | n in c ensures exists m :: m in c && Edge(g, n, m) {
      assert OnCycle(g, n);
      var m :| Edge(g, n, m) && Reach(g, m, n);
      ReachEdge(g, n, m);
      assert Mutual(g, n, m);
    }
  }

  lemma CloseWalk(g: Graph, c: set<string>, path: seq<string>, k: nat, next: string)
    requires IsWalk(g, path) && Distinct(path) && Elements(path) <= c
    requires k < |path| && path[k] == next && Edge(g, path[|path| - 1], next)
    ensures IsWitness(g, c, path[k..] + [next])
  {
    var w := path[k..] + [next];
    forall i, j | 0 <= i < j < |w| && j == i + 1 ensures Edge(g, w[i], w[j]) {
      assert w[i] == path[k + i];
      assert j < |path| - k ==> w[j] == path[k + j];
    }
    assert w[..|w| - 1] == path[k..];
    forall n | n in w ensures n in c {
      assert n in path ==> n in Elements(path);
    }
  }

  lemma ExtendWalk(g: Graph, path: seq<string>, next: string)
    requires IsWalk(g, path) && Edge(g, path[|path| - 1], next)
    ensures IsWalk(g, path + [next])
  {
  }

  lemma PathElements(path: seq<string>, node: string)
    ensures Elements(path + [node]) == Elements(path) + {node}
    ensures Distinct(path) && node !in Elements(path) ==> Distinct(path + [node])
  {
    assert forall n :: n in path ==> n in Elements(path);
  }

  lemma NotInElements(path: seq<string>, node: string)
    ensures node in path <==> node in Elements(path)
  {
  }

  lemma EdgeAt(g: Graph, node: string, i: nat)
    requires i < |Succ(g, node)|
    ensures Edge(g, node, Succ(g, node)[i])
  {
  }

  lemma StillProductive(g: Graph, c: set<string>, node: string)
    requires Productive(g, c) && node in c
    ensures exists j :: 0 <= j < |Succ(g, node)| && Succ(g, node)[j] in c
  {
    hide Succ;
    assert exists m :: m in c && Edge(g, node, m);
    var m :| m in c && Edge(g, node, m);
    EdgeIndex(g, node, m);
  }

  lemma EdgeIndex(g: Graph, node: string, m: string)
    requires Edge(g, node, m)
    ensures exists j :: 0 <= j < |Succ(g, node)| && Succ(g, node)[j] == m
  {
  }

  /** The variables of the witness search within one component. */
  class WitnessSearch {
    const graph: Graph
    const componentSet: set<string>
    var activePath: seq<string>
    var visited: set<string>

    constructor (graph: Graph, componentSet: set<string>)
      ensures this.graph == graph && this.componentSet == componentSet
      ensures activePath == [] && visited == {}
    {
      this.graph, this.componentSet, activePath, visited := graph, componentSet, [], {};
    }

    /** When every file of the component has an import inside it, the search returns before
        it ever has to step back: the path only grows and everything visited is on it. */
    method Visit(node: string) returns (result: Option<seq<string>>)
      requires node in componentSet && node !in visited
      requires Elements(activePath) <= visited <= componentSet
      requires IsWalk(graph, activePath + [node]) && Distinct(activePath)
      modifies this
      ensures result.Some? ==> IsWitness(graph, componentSet, result.value)
      ensures result.None? ==> activePath == old(activePath) && Elements(activePath) <= visited
      ensures old(visited) + {node} <= visited <= componentSet
      ensures Productive(graph, componentSet) && old(visited) == Elements(old(activePath))
        ==> result.Some? && old(activePath) + [node] <= activePath
      decreases componentSet - visited
    {
      hide IsWalk, IsWitness, Productive, Elements, Distinct, Edge;
      ghost var steady := Productive(graph, componentSet) && visited == Elements(activePath);
      ghost var path := activePath + [node];
      PathElements(activePath, node);
      activePath := activePath + [node];
      visited := visited + {node};
      var imports := Succ(graph, node);
      for i := 0 to |imports|
        invariant activePath == path && Elements(path) <= visited <= componentSet
        invariant old(visited) + {node} <= visited
        invariant steady ==> visited == Elements(path) && forall j :: 0 <= j < i ==> imports[j] !in componentSet
      {
        var next := imports[i];
        assert Edge(graph, node, next) by { EdgeAt(graph, node, i); }
        if next in componentSet {
          var existingIndex := IndexOf(activePath, next);
          if existingIndex >= 0 {
            CloseWalk(graph, componentSet, path, existingIndex, next);
            return Some(activePath[existingIndex..] + [next]);
          }
          NotInElements(path, next);
          if next !in visited {
            ExtendWalk(graph, path, next);
            result := Visit(next);
            if result.Some? {
              return;
            }
          }
        }
      }
      if steady {
        StillProductive(graph, componentSet, node);
      }
      activePath := activePath[..|activePath| - 1];
      return None;
    }
  }

  /** The witness printed for a component. For every reported component it is a real cycle,
      and the fallback to the bare component is never used. */
  method FindCycleWitness(component: seq<string>, graph: Graph) returns (w: seq<string>)
    ensures component == [] || component[0] == "" ==> w == []
    ensures component != [] && component[0] != "" ==> w == component || IsWitness(graph, Elements(component), w)
    ensures component != [] && component[0] != "" && IsCyclicScc(graph, Elements(component))
      ==> IsWitness(graph, Elements(component), w)
  {
    if component == [] || component[0] == "" {
      return [];
    }
    var search := new WitnessSearch(graph, Elements(component));
    assert IsWalk(graph, [] + [component[0]]);
    var found := search.Visit(component[0]);
    if IsCyclicScc(graph, Elements(component)) {
      CyclicSccIsProductive(graph, Elements(component));
    }
    match found {
      case Some(cycle) => w := cycle;
      case None => w := component;
    }
  }

  /** The whole check: exit code 0 exactly for an acyclic graph, and otherwise one printed
      cycle for each cyclic component. */
  method CheckImportCycles(files: seq<string>, graph: Graph)
    returns (ok: bool, exitCode: nat, cycles: seq<seq<string>>)
    requires Elements(files) == graph.Keys
    ensures ok <==> "" !in Nodes(graph)
    ensures ok ==> (exitCode == 0 <==> Acyclic(graph)) && exitCode <= 1
    ensures ok ==> forall i :: 0 <= i < |cycles| ==> IsCycle(graph, cycles[i])
    ensures ok ==> forall c :: IsCyclicScc(graph, c) ==> exists i :: 0 <= i < |cycles| && IsWitness(graph, c, cycles[i])
  {
    hide Nodes, IsCyclicScc, Acyclic, IsCycle;
    exitCode, cycles := 1, [];
    var components;
    ok, components := CollectStronglyConnectedComponents(files, graph);
    if !ok {
      return;
    }
    EmptyReportIffAcyclic(graph, components);
    if |components| == 0 {
      return true, 0, [];
    }
    for i := 0 to |components|
      invariant |cycles| == i
      invariant forall j :: 0 <= j < i ==> IsWitness(graph, Elements(components[j]), cycles[j])
    {
      assert components[i] != [] && components[i][0] != "" by {
        ReportedName(graph, components[i]);
      }
      var w := FindCycleWitness(components[i], graph);
      cycles := cycles + [w];
    }
  }

  lemma ReportedName(g: Graph, component: seq<string>)
    requires IsCyclicScc(g, Elements(component)) && "" !in Nodes(g)
    ensures component != [] && component[0] != ""
  {
    var n :| n in Elements(component);
    assert component[0] in Elements(component);
    CyclicIsNode(g, component[0]);
  }
}
