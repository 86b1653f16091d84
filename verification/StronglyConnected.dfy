/** The invariant of the component search, stated on snapshots of its variables.
    `gray` is the set of nodes whose visit has started and not returned. */
module StronglyConnected {
  import opened Basics
  import opened Graphs

  datatype Snapshot = Snapshot(
    next: nat,
    stack: seq<string>,
    onStack: set<string>,
    index: map<string, nat>,
    low: map<string, nat>,
    components: seq<seq<string>>)

  function Elements(c: seq<string>): set<string> {
    set n | n in c
  }

  /** c is a maximal set of mutually reachable nodes. */
  ghost predicate IsScc(g: Graph, c: set<string>) {
    && c != {}
    && forall a, b :: a in c ==> (b in c <==> Mutual(g, a, b))
  }

  /** A component worth reporting: it carries at least one cycle. */
  ghost predicate IsCyclicScc(g: Graph, c: set<string>) {
    IsScc(g, c) && forall n :: n in c ==> OnCycle(g, n)
  }

  function Done(s: Snapshot): set<string> {
    s.index.Keys - s.onStack
  }

  ghost predicate Shape(g: Graph, s: Snapshot) {
    && s.index.Keys <= Nodes(g)
    && s.low.Keys == s.index.Keys
    && s.onStack == Elements(s.stack)
    && s.onStack <= s.index.Keys
    && (forall n :: n in s.index ==> s.index[n] < s.next)
    && (forall i, j :: 0 <= i < j < |s.stack| ==> s.index[s.stack[i]] < s.index[s.stack[j]])
  }

  /** Every import of a node whose visit has returned has been visited. */
  ghost predicate BlackExplored(g: Graph, s: Snapshot, gray: set<string>) {
    forall a, b :: a in s.index && a !in gray && Edge(g, a, b) ==> b in s.index
  }

  /** An open node reaches every node stacked at or above it. */
  ghost predicate GrayReaches(g: Graph, s: Snapshot, gray: set<string>)
    requires s.onStack <= s.index.Keys && gray <= s.onStack
  {
    forall a, b :: a in gray && b in s.onStack && s.index[a] <= s.index[b] ==> Reach(g, a, b)
  }

  /** Every stacked node reaches an open node stacked at or below it. */
  ghost predicate AllReachGray(g: Graph, s: Snapshot, gray: set<string>)
    requires s.onStack <= s.index.Keys && gray <= s.onStack
  {
    forall b :: b in s.onStack ==> ReachesGray(g, s, gray, b)
  }

  ghost predicate Explored(g: Graph, s: Snapshot, gray: set<string>)
    requires s.onStack <= s.index.Keys
  {
    && gray <= s.onStack
    && BlackExplored(g, s, gray)
    && Closed(g, Done(s))
    && GrayReaches(g, s, gray)
    && AllReachGray(g, s, gray)
  }

  ghost predicate ReachesGray(g: Graph, s: Snapshot, gray: set<string>, b: string)
    requires s.onStack <= s.index.Keys && gray <= s.onStack && b in s.onStack
  {
    exists a :: a in gray && s.index[a] <= s.index[b] && Reach(g, b, a)
  }

  /** Every finished node on a cycle is in one reported component, and every reported
      component is a whole strongly connected component. */
  ghost predicate Reported(g: Graph, s: Snapshot) {
    && "" !in Done(s)
    && (forall i :: 0 <= i < |s.components| ==>
          && Distinct(s.components[i])
          && IsCyclicScc(g, Elements(s.components[i]))
          && Elements(s.components[i]) <= Done(s))
    && (forall i, j, n :: 0 <= i < j < |s.components| && n in s.components[i] ==> n !in s.components[j])
    && (forall n :: n in Done(s) && OnCycle(g, n) ==> exists i :: 0 <= i < |s.components| && n in s.components[i])
  }

  ghost predicate Inv(g: Graph, s: Snapshot, gray: set<string>) {
    Shape(g, s) && Explored(g, s, gray) && Reported(g, s)
  }

  ghost predicate Extends(s: Snapshot, t: Snapshot) {
    && s.stack <= t.stack
    && s.index.Keys <= t.index.Keys
    && s.index.Keys <= s.low.Keys && t.index.Keys <= t.low.Keys
    && (forall n :: n in s.index ==> t.index[n] == s.index[n])
    && (forall n :: n in t.onStack && n in s.index ==> n in s.onStack)
    && s.next <= t.next
  }

  ghost predicate SameLow(s: Snapshot, t: Snapshot) {
    s.low.Keys <= t.low.Keys && forall n :: n in s.low ==> t.low[n] == s.low[n]
  }

  /** low[x] is the index of a stacked node that x reaches. */
  ghost predicate LowReached(g: Graph, s: Snapshot, x: string)
    requires s.onStack <= s.index.Keys && x in s.low
  {
    exists y :: y in s.onStack && s.index[y] == s.low[x] && Reach(g, x, y)
  }

  /** low[x] is no larger than the target of any edge from nodes added since s back to s's stack. */
  ghost predicate LowBounds(g: Graph, s: Snapshot, t: Snapshot, x: string, skip: set<string>)
    requires Shape(g, s) && x in t.low
  {
    forall y, z :: y in t.onStack && y !in s.index && y !in skip && Edge(g, y, z) && z in s.onStack
      ==> t.low[x] <= s.index[z]
  }

  /** What a completed visit of x guarantees. */
  ghost predicate Visited(g: Graph, s: Snapshot, t: Snapshot, gray: set<string>, x: string) {
    && Inv(g, s, gray) && Inv(g, t, gray)
    && Extends(s, t) && SameLow(s, t)
    && x in t.index && t.index[x] == s.next && s.next < t.next
    && (x in t.onStack ==> LowReached(g, t, x))
    && (x !in t.onStack ==> t.low[x] == s.next)
    && LowBounds(g, s, t, x, {})
  }

  /** The state of the visit of x, started in s, after its first i imports. */
  ghost predicate Visiting(g: Graph, s: Snapshot, t: Snapshot, gray: set<string>, x: string, i: nat) {
    && Inv(g, s, gray) && Inv(g, t, gray + {x})
    && x !in s.index
    && Extends(s, t) && (forall n :: n in s.low ==> n in t.low && t.low[n] == s.low[n])
    && x in t.index && t.index[x] == s.next && s.next < t.next
    && |s.stack| < |t.stack| && t.stack[|s.stack|] == x
    && t.low[x] <= s.next
    && LowReached(g, t, x)
    && LowBounds(g, s, t, x, {x})
    && i <= |Succ(g, x)|
    && Scanned(g, s, t, x, i)
  }

  /** The first i imports of x are visited, and low[x] is no larger than the index of any that
      was stacked before x. */
  ghost predicate Scanned(g: Graph, s: Snapshot, t: Snapshot, x: string, i: nat)
    requires s.onStack <= s.index.Keys && x in t.low && i <= |Succ(g, x)|
  {
    && (forall j :: 0 <= j < i ==> Succ(g, x)[j] in t.index)
    && (forall j :: 0 <= j < i && Succ(g, x)[j] in s.onStack ==> t.low[x] <= s.index[Succ(g, x)[j]])
  }

  lemma ScannedNext(g: Graph, s: Snapshot, t: Snapshot, u: Snapshot, x: string, i: nat)
    requires s.onStack <= s.index.Keys && x in t.low && x in u.low && i < |Succ(g, x)|
    requires Scanned(g, s, t, x, i) && t.index.Keys <= u.index.Keys && u.low[x] <= t.low[x]
    requires var c := Succ(g, x)[i]; c in u.index && (c in s.onStack ==> u.low[x] <= s.index[c])
    ensures Scanned(g, s, u, x, i + 1)
  {
  }

  lemma OnStackAt(g: Graph, s: Snapshot, n: string) returns (i: nat)
    requires Shape(g, s) && n in s.onStack
    ensures i < |s.stack| && s.stack[i] == n
  {
    i :| i < |s.stack| && s.stack[i] == n;
  }

  lemma PrefixOnStack(g: Graph, s: Snapshot, t: Snapshot)
    requires Shape(g, s) && Shape(g, t) && s.stack <= t.stack
    ensures s.onStack <= t.onStack
  {
    forall n | n in s.onStack ensures n in t.onStack {
      var i := OnStackAt(g, s, n);
      assert t.stack[i] == n;
    }
  }

  function Opened(s: Snapshot, x: string): Snapshot {
    s.(next := s.next + 1, stack := s.stack + [x], onStack := s.onStack + {x},
       index := s.index[x := s.next], low := s.low[x := s.next])
  }

  lemma OpenShape(g: Graph, s: Snapshot, x: string)
    requires Shape(g, s) && x in Nodes(g) && x !in s.index
    ensures Shape(g, Opened(s, x)) && Done(Opened(s, x)) == Done(s)
  {
    hide Nodes;
    var t := Opened(s, x);
    assert t.stack[|s.stack|] == x;
    assert Elements(t.stack) == Elements(s.stack) + {x};
    forall i, j | 0 <= i < j < |t.stack| ensures t.index[t.stack[i]] < t.index[t.stack[j]] {
      assert s.stack[i] in s.onStack;
      assert j < |s.stack| ==> s.stack[j] in s.onStack;
    }
  }

  lemma OpenGrayReaches(g: Graph, s: Snapshot, gray: set<string>, x: string)
    requires Shape(g, s) && x !in s.index && gray <= s.onStack && GrayReaches(g, s, gray)
    requires forall a :: a in gray ==> Reach(g, a, x)
    ensures GrayReaches(g, Opened(s, x), gray + {x})
  {
    hide Nodes, Reach;
    ReachSelf(g, x);
  }

  lemma OpenAllReachGray(g: Graph, s: Snapshot, gray: set<string>, x: string)
    requires Shape(g, s) && x !in s.index && gray <= s.onStack && AllReachGray(g, s, gray)
    ensures AllReachGray(g, Opened(s, x), gray + {x})
  {
    hide Nodes, Reach;
    var t := Opened(s, x);
    ReachSelf(g, x);
    forall b | b in t.onStack ensures ReachesGray(g, t, gray + {x}, b) {
      if b != x {
        assert ReachesGray(g, s, gray, b);
        var a :| a in gray && s.index[a] <= s.index[b] && Reach(g, b, a);
        assert a in gray + {x} && t.index[a] <= t.index[b];
      }
    }
  }

  lemma OpenInv(g: Graph, s: Snapshot, gray: set<string>, x: string)
    requires Inv(g, s, gray) && x in Nodes(g) && x !in s.index
    requires forall a :: a in gray ==> Reach(g, a, x)
    ensures Inv(g, Opened(s, x), gray + {x})
  {
    hide Nodes, Reach, Reported, GrayReaches, AllReachGray, Closed;
    OpenShape(g, s, x);
    OpenGrayReaches(g, s, gray, x);
    OpenAllReachGray(g, s, gray, x);
    SameReported(g, s, Opened(s, x));
  }

  lemma SameReported(g: Graph, s: Snapshot, t: Snapshot)
    requires Reported(g, s) && Done(s) == Done(t) && s.components == t.components
    ensures Reported(g, t)
  {
    hide IsCyclicScc, OnCycle, Distinct;
  }

  lemma OpenVisit(g: Graph, s: Snapshot, gray: set<string>, x: string)
    requires Inv(g, s, gray) && x in Nodes(g) && x !in s.index
    requires forall a :: a in gray ==> Reach(g, a, x)
    ensures Visiting(g, s, Opened(s, x), gray, x, 0)
  {
    hide Nodes, Reach, Reported, Explored;
    var t := Opened(s, x);
    OpenInv(g, s, gray, x);
    ReachSelf(g, x);
    assert x in t.onStack && t.index[x] == t.low[x];
  }

  function Lowered(t: Snapshot, x: string, v: nat): Snapshot
    requires x in t.low
  {
    t.(low := t.low[x := if v < t.low[x] then v else t.low[x]])
  }

  lemma InvIgnoresLow(g: Graph, t: Snapshot, gray: set<string>, x: string, v: nat)
    requires Inv(g, t, gray) && x in t.low
    ensures Inv(g, Lowered(t, x, v), gray)
  {
    hide Nodes, Reach, Reported, Explored;
    var u := Lowered(t, x, v);
    SameReported(g, t, u);
    ExploredIgnoresLow(g, t, u, gray);
  }

  lemma ExploredIgnoresLow(g: Graph, t: Snapshot, u: Snapshot, gray: set<string>)
    requires t.onStack <= t.index.Keys && u.onStack == t.onStack && u.index == t.index && Explored(g, t, gray)
    ensures Explored(g, u, gray)
  {
    hide Nodes, Reach, Closed, ReachesGray;
    assert Done(u) == Done(t);
    forall b | b in u.onStack ensures ReachesGray(g, u, gray, b) {
      ReachesGrayIgnoresLow(g, t, u, gray, b);
    }
  }

  lemma ReachesGrayIgnoresLow(g: Graph, t: Snapshot, u: Snapshot, gray: set<string>, b: string)
    requires t.onStack <= t.index.Keys && gray <= t.onStack && b in t.onStack
    requires u.onStack == t.onStack && u.index == t.index && ReachesGray(g, t, gray, b)
    ensures ReachesGray(g, u, gray, b)
  {
    hide Reach;
    var a :| a in gray && t.index[a] <= t.index[b] && Reach(g, b, a);
    assert a in gray && u.index[a] <= u.index[b] && Reach(g, b, a);
  }

  /** x may take the low link of a visited import. */
  lemma ChildLowReached(g: Graph, t: Snapshot, u: Snapshot, x: string, c: string)
    requires Shape(g, t) && Shape(g, u) && Extends(t, u) && x in t.low && c in u.low
    requires u.low[x] == t.low[x] <= u.low[c] || c in u.onStack
    requires LowReached(g, t, x) && (c in u.onStack ==> LowReached(g, u, c)) && Edge(g, x, c)
    requires u.low[x] == t.low[x]
    ensures LowReached(g, Lowered(u, x, u.low[c]), x)
  {
    hide Nodes, Reach;
    PrefixOnStack(g, t, u);
    var w := Lowered(u, x, u.low[c]);
    if u.low[c] < u.low[x] {
      var y :| y in u.onStack && u.index[y] == u.low[c] && Reach(g, c, y);
      ReachEdge(g, x, c);
      ReachTrans(g, x, c, y);
      assert w.index[y] == w.low[x];
    } else {
      var y :| y in t.onStack && t.index[y] == t.low[x] && Reach(g, x, y);
      assert w.index[y] == w.low[x];
    }
  }

  lemma ChildLowBounds(g: Graph, s: Snapshot, t: Snapshot, u: Snapshot, x: string, c: string)
    requires Shape(g, s) && Shape(g, t) && Shape(g, u) && Extends(s, t) && Extends(t, u)
    requires x in t.low && c in u.low && u.low[x] == t.low[x]
    requires LowBounds(g, s, t, x, {x}) && LowBounds(g, t, u, c, {})
    ensures LowBounds(g, s, Lowered(u, x, u.low[c]), x, {x})
  {
    hide Nodes;
    PrefixOnStack(g, t, u);
    PrefixOnStack(g, s, t);
  }

  lemma ExtendsTrans(s: Snapshot, t: Snapshot, u: Snapshot)
    requires Extends(s, t) && Extends(t, u)
    ensures Extends(s, u)
  {
  }

  /** The import was new: it has been visited, and x takes over its low link. */
  lemma AfterChild(g: Graph, s: Snapshot, t: Snapshot, u: Snapshot, gray: set<string>, x: string, i: nat)
    requires Visiting(g, s, t, gray, x, i) && i < |Succ(g, x)|
    requires Succ(g, x)[i] !in t.index
    requires Visited(g, t, u, gray + {x}, Succ(g, x)[i])
    ensures Visiting(g, s, Lowered(u, x, u.low[Succ(g, x)[i]]), gray, x, i + 1)
  {
    hide Nodes, Reach, Reported, Explored, LowBounds, LowReached;
    var c := Succ(g, x)[i];
    InvIgnoresLow(g, u, gray + {x}, x, u.low[c]);
    PrefixOnStack(g, s, t);
    ExtendsTrans(s, t, u);
    ChildLowReached(g, t, u, x, c);
    ChildLowBounds(g, s, t, u, x, c);
    ScannedNext(g, s, t, Lowered(u, x, u.low[c]), x, i);
    hide Shape, Scanned;
  }

  /** The import is stacked: x may take its index. */
  lemma AfterStacked(g: Graph, s: Snapshot, t: Snapshot, gray: set<string>, x: string, i: nat)
    requires Visiting(g, s, t, gray, x, i) && i < |Succ(g, x)|
    requires Succ(g, x)[i] in t.onStack
    ensures Visiting(g, s, Lowered(t, x, t.index[Succ(g, x)[i]]), gray, x, i + 1)
  {
    hide Nodes, Reach, Reported, Explored, LowReached, LowBounds;
    var c := Succ(g, x)[i];
    InvIgnoresLow(g, t, gray + {x}, x, t.index[c]);
    PrefixOnStack(g, s, t);
    StackedLowReached(g, t, x, c);
    LowBoundsLowered(g, s, t, x, t.index[c]);
    ScannedNext(g, s, t, Lowered(t, x, t.index[c]), x, i);
    hide Shape, Scanned;
  }

  lemma LowBoundsLowered(g: Graph, s: Snapshot, t: Snapshot, x: string, v: nat)
    requires Shape(g, s) && x in t.low && LowBounds(g, s, t, x, {x})
    ensures LowBounds(g, s, Lowered(t, x, v), x, {x})
  {
    hide Nodes;
  }

  lemma StackedLowReached(g: Graph, t: Snapshot, x: string, c: string)
    requires Shape(g, t) && x in t.low && c in t.onStack && Edge(g, x, c) && LowReached(g, t, x)
    ensures LowReached(g, Lowered(t, x, t.index[c]), x)
  {
    hide Nodes, Reach;
    var w := Lowered(t, x, t.index[c]);
    ReachEdge(g, x, c);
    if t.index[c] < t.low[x] {
      assert w.index[c] == w.low[x];
    } else {
      var y :| y in t.onStack && t.index[y] == t.low[x] && Reach(g, x, y);
      assert w.index[y] == w.low[x];
    }
  }

  /** The import is finished: it leads into no open node, and nothing changes. */
  lemma AfterFinished(g: Graph, s: Snapshot, t: Snapshot, gray: set<string>, x: string, i: nat)
    requires Visiting(g, s, t, gray, x, i) && i < |Succ(g, x)|
    requires Succ(g, x)[i] in t.index && Succ(g, x)[i] !in t.onStack
    ensures Visiting(g, s, t, gray, x, i + 1)
  {
    hide Nodes, Reach, Reported, Explored;
    PrefixOnStack(g, s, t);
  }

  /** x reaches a node below it: it stays on the stack, no longer open. */
  lemma KeepReachesGray(g: Graph, t: Snapshot, gray: set<string>, x: string, b: string)
    requires Shape(g, t) && x in t.onStack && x !in gray && gray <= t.onStack && b in t.onStack
    requires ReachesGray(g, t, gray + {x}, b)
    requires forall y :: y in t.onStack && t.index[y] < t.index[x] ==> ReachesGray(g, t, gray + {x}, y)
    requires LowReached(g, t, x) && t.low[x] < t.index[x]
    ensures ReachesGray(g, t, gray, b)
  {
    hide Nodes, Reach;
    var a :| a in gray + {x} && t.index[a] <= t.index[b] && Reach(g, b, a);
    if a == x {
      var y :| y in t.onStack && t.index[y] == t.low[x] && Reach(g, x, y);
      assert ReachesGray(g, t, gray + {x}, y);
      var z :| z in gray + {x} && t.index[z] <= t.index[y] && Reach(g, y, z);
      ReachTrans(g, b, x, y);
      ReachTrans(g, b, y, z);
      assert z in gray;
    }
  }

  lemma KeepOpen(g: Graph, s: Snapshot, t: Snapshot, gray: set<string>, x: string)
    requires Visiting(g, s, t, gray, x, |Succ(g, x)|) && t.low[x] != t.index[x]
    ensures Visited(g, s, t, gray, x)
  {
    hide Nodes, Reach, Reported, ReachesGray, LowReached, Closed;
    PrefixOnStack(g, s, t);
    assert x in t.onStack && x !in gray;
    assert gray <= t.onStack;
    forall b | b in t.onStack ensures ReachesGray(g, t, gray, b) {
      KeepReachesGray(g, t, gray, x, b);
    }
    assert BlackExplored(g, t, gray);
    assert LowBounds(g, s, t, x, {}) by {
      forall y, z | y in t.onStack && y !in s.index && Edge(g, y, z) && z in s.onStack
        ensures t.low[x] <= s.index[z]
      {
        if y == x {
          var j :| 0 <= j < |Succ(g, x)| && Succ(g, x)[j] == z;
        }
      }
    }
  }

  /** The part of the stack from x upwards. */
  function Top(s: Snapshot, t: Snapshot): set<string>
    requires |s.stack| <= |t.stack|
  {
    Elements(t.stack[|s.stack|..])
  }

  /** The state after x's component has been popped into c. */
  function Popped(g: Graph, s: Snapshot, t: Snapshot, x: string, c: seq<string>): Snapshot
    requires |s.stack| <= |t.stack|
  {
    t.(stack := t.stack[..|s.stack|],
       onStack := t.onStack - Top(s, t),
       components := if |c| > 1 || x in Succ(g, x) then t.components + [c] else t.components)
  }

  /** x's visit is over and its low link is its own index. */
  ghost predicate AtRoot(g: Graph, s: Snapshot, t: Snapshot, gray: set<string>, x: string) {
    Visiting(g, s, t, gray, x, |Succ(g, x)|) && t.low[x] == t.index[x]
  }

  lemma TopAbove(g: Graph, s: Snapshot, t: Snapshot)
    requires Shape(g, s) && Shape(g, t) && Extends(s, t)
    ensures t.stack[..|s.stack|] == s.stack
    ensures t.onStack == s.onStack + Top(s, t) && s.onStack !! Top(s, t)
    ensures forall y :: y in Top(s, t) ==> y !in s.index
  {
    hide Nodes;
    var k := |s.stack|;
    assert t.stack[..k] == s.stack;
    ElementsSplit(t.stack, k);
    forall y | y in Top(s, t) ensures y !in s.onStack {
      var i :| 0 <= i < |t.stack[k..]| && t.stack[k..][i] == y;
      assert t.stack[k + i] == y;
      forall j | 0 <= j < k ensures s.stack[j] != y {
        assert t.index[t.stack[j]] < t.index[t.stack[k + i]];
      }
    }
  }

  lemma ElementsSplit(c: seq<string>, k: nat)
    requires k <= |c|
    ensures Elements(c) == Elements(c[..k]) + Elements(c[k..])
  {
    assert c == c[..k] + c[k..];
  }

  lemma TopIndex(g: Graph, s: Snapshot, t: Snapshot, x: string, y: string)
    requires Shape(g, s) && Shape(g, t) && Extends(s, t)
    requires |s.stack| < |t.stack| && t.stack[|s.stack|] == x && y in Top(s, t)
    ensures y in t.index && x in t.index && t.index[x] <= t.index[y]
  {
    hide Nodes;
    var i :| 0 <= i < |t.stack[|s.stack|..]| && t.stack[|s.stack|..][i] == y;
    assert t.stack[|s.stack| + i] == y;
  }

  /** No edge leaves the popped set except into finished nodes. */
  lemma TopClosed(g: Graph, s: Snapshot, t: Snapshot, gray: set<string>, x: string, y: string, z: string)
    requires AtRoot(g, s, t, gray, x) && y in Top(s, t) && Edge(g, y, z)
    ensures z in Top(s, t) || z in Done(t)
  {
    hide Nodes, Reach, Reported, Closed, GrayReaches, AllReachGray, LowReached;
    TopAbove(g, s, t);
    if y == x {
      var j :| 0 <= j < |Succ(g, x)| && Succ(g, x)[j] == z;
    } else {
      assert y !in gray;
    }
    assert z in t.index;
  }

  /** Every open node reaches the root x. */
  lemma GrayReachesRoot(g: Graph, s: Snapshot, t: Snapshot, gray: set<string>, x: string, a: string)
    requires Shape(g, s) && Shape(g, t) && Extends(s, t) && gray <= s.onStack
    requires gray + {x} <= t.onStack && GrayReaches(g, t, gray + {x})
    requires x in t.index && t.index[x] == s.next && a in gray + {x}
    ensures Reach(g, a, x)
  {
    hide Nodes, Reach;
    assert a in s.onStack || a == x;
    assert t.index[a] <= t.index[x];
  }

  lemma TopMutual(g: Graph, s: Snapshot, t: Snapshot, gray: set<string>, x: string, y: string)
    requires AtRoot(g, s, t, gray, x) && y in Top(s, t)
    ensures Mutual(g, x, y)
  {
    hide Nodes, Reach, Reported, Closed, LowReached, LowBounds, BlackExplored;
    TopAbove(g, s, t);
    TopIndex(g, s, t, x, y);
    assert ReachesGray(g, t, gray + {x}, y);
    assert Reach(g, x, y);
    hide GrayReaches, AllReachGray;
    var a :| a in gray + {x} && t.index[a] <= t.index[y] && Reach(g, y, a);
    GrayReachesRoot(g, s, t, gray, x, a);
    ReachTrans(g, y, a, x);
  }

  lemma DoneAfterPop(g: Graph, s: Snapshot, t: Snapshot, gray: set<string>, x: string, c: seq<string>)
    requires AtRoot(g, s, t, gray, x)
    ensures Done(Popped(g, s, t, x, c)) == Done(t) + Top(s, t)
    ensures Done(t) !! Top(s, t)
    ensures Closed(g, Done(t) + Top(s, t))
  {
    hide Nodes, Reach, Reported, GrayReaches, AllReachGray, LowReached, LowBounds, BlackExplored;
    TopAbove(g, s, t);
    forall y, z | y in Done(t) + Top(s, t) && Edge(g, y, z) ensures z in Done(t) + Top(s, t) {
      if y in Top(s, t) {
        TopClosed(g, s, t, gray, x, y, z);
      }
    }
  }

  lemma TopMaximal(g: Graph, s: Snapshot, t: Snapshot, gray: set<string>, x: string, a: string, b: string)
    requires AtRoot(g, s, t, gray, x) && a in Top(s, t) && Mutual(g, a, b)
    ensures b in Top(s, t)
  {
    hide Nodes, Reach, Reported, LowReached, LowBounds, Extends, GrayReaches, AllReachGray, BlackExplored, Shape;
    DoneAfterPop(g, s, t, gray, x, []);
    ClosedReach(g, Done(t) + Top(s, t), a, b);
    if b in Done(t) {
      ClosedReach(g, Done(t), b, a);
    }
  }

  lemma TopIsScc(g: Graph, s: Snapshot, t: Snapshot, gray: set<string>, x: string)
    requires AtRoot(g, s, t, gray, x)
    ensures IsScc(g, Top(s, t)) && x in Top(s, t)
  {
    hide Nodes, Reach, Inv, LowReached, LowBounds, Extends;
    assert t.stack[|s.stack|..][0] == x;
    assert x in Top(s, t);
    forall a, b | a in Top(s, t) ensures b in Top(s, t) <==> Mutual(g, a, b) {
      TopMutual(g, s, t, gray, x, a);
      if b in Top(s, t) {
        TopMutual(g, s, t, gray, x, b);
        ReachTrans(g, a, x, b);
        ReachTrans(g, b, x, a);
      } else if Mutual(g, a, b) {
        TopMaximal(g, s, t, gray, x, a, b);
      }
    }
    hide Mutual;
    assert forall a, b :: a in Top(s, t) ==> (b in Top(s, t) <==> Mutual(g, a, b));
  }

  /** A strongly connected component carries a cycle through each of its nodes exactly when it
      has a second node or its only node imports itself. */
  lemma CyclicScc(g: Graph, c: set<string>, x: string)
    requires IsScc(g, c) && x in c
    ensures (c != {x} || Edge(g, x, x)) ==> IsCyclicScc(g, c)
    ensures OnCycle(g, x) ==> c != {x} || Edge(g, x, x)
  {
    hide Reach;
    if c != {x} {
      forall n | n in c ensures OnCycle(g, n) {
        var b := if n == x then var b :| b in c && b != x; b else x;
        assert Mutual(g, n, b);
        var m := FirstEdge(g, n, b);
        ReachTrans(g, m, b, n);
      }
    } else if Edge(g, x, x) {
      ReachSelf(g, x);
    } else {
      forall m | Edge(g, x, m) ensures !Reach(g, m, x) {
        ReachEdge(g, x, m);
        assert m in c <==> Mutual(g, x, m);
      }
    }
  }

  /** What popping a whole component does to the reports. */
  lemma PopReported(g: Graph, t: Snapshot, u: Snapshot, top: set<string>, x: string, c: seq<string>)
    requires Reported(g, t) && IsScc(g, top) && x in top && Elements(c) == top && Distinct(c)
    requires Done(u) == Done(t) + top && Done(t) !! top && "" !in top
    requires u.components == if |c| > 1 || Edge(g, x, x) then t.components + [c] else t.components
    ensures Reported(g, u)
  {
    hide Reach, Edge, OnCycle, IsCyclicScc, IsScc;
    CyclicScc(g, top, x);
    SingleOrMore(c, x);
    assert "" !in Done(u);
    assert forall i :: 0 <= i < |u.components| ==> Distinct(u.components[i]);
    assert forall i :: 0 <= i < |u.components| ==> IsCyclicScc(g, Elements(u.components[i]));
    assert forall i :: 0 <= i < |u.components| ==> Elements(u.components[i]) <= Done(u);
    forall i, j, n | 0 <= i < j < |u.components| && n in u.components[i] ensures n !in u.components[j] {
      assert n in Elements(t.components[i]);
      assert forall m :: m in u.components[j] ==> m in Elements(u.components[j]);
    }
    forall n | n in Done(u) && OnCycle(g, n)
      ensures exists i :: 0 <= i < |u.components| && n in u.components[i]
    {
      if n in Done(t) {
        var i :| 0 <= i < |t.components| && n in t.components[i];
        assert u.components[i] == t.components[i];
      } else {
        assert n in top;
        PopCyclic(g, top, x, n);
        assert u.components[|t.components|] == c && n in c;
      }
    }
  }

  lemma PopCyclic(g: Graph, top: set<string>, x: string, n: string)
    requires IsScc(g, top) && x in top && n in top && OnCycle(g, n)
    ensures top != {x} || Edge(g, x, x)
  {
    CyclicScc(g, top, n);
  }

  lemma SingleOrMore(c: seq<string>, x: string)
    requires Distinct(c) && x in Elements(c)
    ensures Elements(c) != {x} <==> |c| > 1
  {
    var i :| 0 <= i < |c| && c[i] == x;
    if |c| > 1 {
      var j := if i == 0 then 1 else 0;
      assert c[j] in Elements(c) && c[j] != x;
    }
  }

  lemma PopShape(g: Graph, s: Snapshot, t: Snapshot, x: string, c: seq<string>)
    requires Shape(g, s) && Shape(g, t) && Extends(s, t)
    ensures Shape(g, Popped(g, s, t, x, c))
    ensures Popped(g, s, t, x, c).stack == s.stack && Popped(g, s, t, x, c).onStack == s.onStack
  {
    hide Nodes;
    TopAbove(g, s, t);
  }

  lemma PopReachesGray(g: Graph, s: Snapshot, t: Snapshot, u: Snapshot, gray: set<string>, x: string, b: string)
    requires Shape(g, s) && gray <= s.onStack <= t.onStack <= t.index.Keys && b in s.onStack
    requires s.index.Keys <= t.index.Keys && forall n :: n in s.index ==> t.index[n] == s.index[n]
    requires x in t.onStack && t.index[x] == s.next && ReachesGray(g, t, gray + {x}, b)
    requires u.onStack == s.onStack && u.index == t.index
    ensures ReachesGray(g, u, gray, b)
  {
    hide Nodes, Reach;
    var a :| a in gray + {x} && t.index[a] <= t.index[b] && Reach(g, b, a);
    assert t.index[b] < s.next;
    assert a in gray;
  }

  lemma PopExplored(g: Graph, s: Snapshot, t: Snapshot, gray: set<string>, x: string, c: seq<string>)
    requires AtRoot(g, s, t, gray, x)
    requires Shape(g, Popped(g, s, t, x, c))
    requires Popped(g, s, t, x, c).onStack == s.onStack
    requires Closed(g, Done(Popped(g, s, t, x, c)))
    ensures Explored(g, Popped(g, s, t, x, c), gray)
  {
    hide Nodes, Reach, Reported, LowReached, LowBounds, Top, Closed, ReachesGray;
    var u := Popped(g, s, t, x, c);
    PrefixOnStack(g, s, t);
    forall b | b in u.onStack ensures ReachesGray(g, u, gray, b) {
      PopReachesGray(g, s, t, u, gray, x, b);
    }
  }

  lemma PopInv(g: Graph, s: Snapshot, t: Snapshot, gray: set<string>, x: string, c: seq<string>)
    requires AtRoot(g, s, t, gray, x)
    requires Elements(c) == Top(s, t) && Distinct(c) && "" !in Top(s, t)
    ensures Inv(g, Popped(g, s, t, x, c), gray)
  {
    hide Nodes, Reach, Reported, LowReached, LowBounds, Top, Explored, Closed, IsScc;
    TopIsScc(g, s, t, gray, x);
    DoneAfterPop(g, s, t, gray, x, c);
    PopShape(g, s, t, x, c);
    PopReported(g, t, Popped(g, s, t, x, c), Top(s, t), x, c);
    PopExplored(g, s, t, gray, x, c);
  }

  lemma PopVisited(g: Graph, s: Snapshot, t: Snapshot, gray: set<string>, x: string, c: seq<string>)
    requires AtRoot(g, s, t, gray, x)
    requires Elements(c) == Top(s, t) && Distinct(c) && "" !in Top(s, t)
    ensures Visited(g, s, Popped(g, s, t, x, c), gray, x)
  {
    hide Nodes, Reach, LowReached, Reported, Explored;
    PopInv(g, s, t, gray, x, c);
    PopShape(g, s, t, x, c);
    TopAbove(g, s, t);
  }
}
