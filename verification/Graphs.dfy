/** Import graphs: a finite map from a file to the ordered list of files it imports,
    and reachability along its edges. */
module Graphs {

  type Graph = map<string, seq<string>>

  /** The imports of a file; a file without an entry imports nothing. */
  function Succ(g: Graph, n: string): seq<string> {
    if n in g then g[n] else []
  }

  predicate Edge(g: Graph, a: string, b: string) {
    b in Succ(g, a)
  }

  /** Every file that is a key or that some key imports. */
  function Nodes(g: Graph): set<string> {
    g.Keys + (set k, m | k in g.Keys && m in g[k] :: m)
  }

  ghost predicate IsWalk(g: Graph, p: seq<string>) {
    && |p| > 0
    && forall i, j :: 0 <= i < j < |p| && j == i + 1 ==> Edge(g, p[i], p[j])
  }

  /** There is a (possibly empty) chain of imports from a to b. */
  ghost predicate Reach(g: Graph, a: string, b: string) {
    exists p :: IsWalk(g, p) && p[0] == a && p[|p| - 1] == b
  }

  ghost predicate Mutual(g: Graph, a: string, b: string) {
    Reach(g, a, b) && Reach(g, b, a)
  }

  /** n lies on a cycle: some import of n leads back to n. */
  ghost predicate OnCycle(g: Graph, n: string) {
    exists m :: Edge(g, n, m) && Reach(g, m, n)
  }

  lemma ReachSelf(g: Graph, a: string)
    ensures Reach(g, a, a)
  {
    assert IsWalk(g, [a]);
  }

  lemma ReachTrans(g: Graph, a: string, b: string, c: string)
    requires Reach(g, a, b) && Reach(g, b, c)
    ensures Reach(g, a, c)
  {
    var p :| IsWalk(g, p) && p[0] == a && p[|p| - 1] == b;
    var q :| IsWalk(g, q) && q[0] == b && q[|q| - 1] == c;
    var r := p + q[1..];
    assert forall i, j :: 0 <= i < j < |r| && j == i + 1 ==> Edge(g, r[i], r[j]) by {
      forall i, j | 0 <= i < j < |r| && j == i + 1
        ensures Edge(g, r[i], r[j])
      {
        if j >= |p| {
          assert r[i] == q[i - |p| + 1] && r[j] == q[j - |p| + 1];
        }
      }
    }
    assert IsWalk(g, r);
  }

  lemma ReachEdge(g: Graph, a: string, b: string)
    requires Edge(g, a, b)
    ensures Reach(g, a, b)
  {
    assert IsWalk(g, [a, b]);
  }

  lemma ReachStep(g: Graph, a: string, b: string, c: string)
    requires Reach(g, a, b) && Edge(g, b, c)
    ensures Reach(g, a, c)
  {
    ReachEdge(g, b, c);
    ReachTrans(g, a, b, c);
  }

  ghost predicate Closed(g: Graph, s: set<string>) {
    forall a, b :: a in s && Edge(g, a, b) ==> b in s
  }

  /** A set closed under imports contains everything reachable from its members. */
  lemma ClosedReach(g: Graph, s: set<string>, a: string, b: string)
    requires Closed(g, s) && a in s && Reach(g, a, b)
    ensures b in s
  {
    var p :| IsWalk(g, p) && p[0] == a && p[|p| - 1] == b;
    var i := 0;
    while i < |p| - 1
      invariant 0 <= i < |p| && p[i] in s
    {
      assert Edge(g, p[i], p[i + 1]);
      i := i + 1;
    }
  }

  lemma NodesClosed(g: Graph)
    ensures Closed(g, Nodes(g))
  {
  }

  /** The first edge of a non-trivial walk. */
  lemma FirstEdge(g: Graph, a: string, b: string) returns (m: string)
    requires Reach(g, a, b) && a != b
    ensures Edge(g, a, m) && Reach(g, m, b)
  {
    var p :| IsWalk(g, p) && p[0] == a && p[|p| - 1] == b;
    m := p[1];
    assert Edge(g, p[0], p[1]);
    var q := p[1..];
    assert forall i, j :: 0 <= i < j < |q| && j == i + 1 ==> q[i] == p[i + 1] && q[j] == p[j + 1];
    assert IsWalk(g, q);
  }
}
