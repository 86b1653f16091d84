/** Translation maps: nested objects with ordered keys, flattened to dotted keys and rebuilt. */
module TranslationTree {
  import opened Basics

  datatype Tree = Text(value: string) | Branch(entries: Forest)

  /** The entries of one object, in order. */
  datatype Forest = Nil | Cons(key: string, tree: Tree, rest: Forest)

  /** A JavaScript map from dotted keys to texts, in insertion order. */
  type Flat = seq<(string, string)>

  type Path = seq<string>

  function Keys(f: Forest): set<string> {
    match f
    case Nil => {}
    case Cons(k, _, rest) => {k} + Keys(rest)
  }

  function Find(f: Forest, key: string): Option<Tree> {
    match f
    case Nil => None
    case Cons(k, t, rest) => if k == key then Some(t) else Find(rest, key)
  }

  function Append(a: Forest, b: Forest): Forest {
    match a
    case Nil => b
    case Cons(k, t, rest) => Cons(k, t, Append(rest, b))
  }

  /** Assignment to a property: in place when it exists, else at the end. */
  function Put(f: Forest, key: string, t: Tree): Forest {
    match f
    case Nil => Cons(key, t, Nil)
    case Cons(k, u, rest) => if k == key then Cons(k, t, rest) else Cons(k, u, Put(rest, key, t))
  }

  /** `Map.set`. */
  function MapSet(m: Flat, key: string, value: string): Flat {
    if m == [] then [(key, value)]
    else if m[0].0 == key then [(key, value)] + m[1..]
    else [m[0]] + MapSet(m[1..], key, value)
  }

  function FullKey(prefix: string, key: string): string {
    if prefix == "" then key else prefix + "." + key
  }

  function FlattenInto(f: Forest, prefix: string, out: Flat): Flat {
    match f
    case Nil => out
    case Cons(k, Text(v), rest) => FlattenInto(rest, prefix, MapSet(out, FullKey(prefix, k), v))
    case Cons(k, Branch(g), rest) => FlattenInto(rest, prefix, FlattenInto(g, FullKey(prefix, k), out))
  }

  function Flatten(f: Forest): Flat {
    FlattenInto(f, "", [])
  }

  /** `split(".")`. */
  function SplitDots(s: string): (r: Path)
    ensures r != []
  {
    if s == [] then [""]
    else if s[0] == '.' then [""] + SplitDots(s[1..])
    else PushChar(s[0], SplitDots(s[1..]))
  }

  /** The parts with one more character at the front of the first. */
  function PushChar(c: char, parts: Path): Path
    requires parts != []
  {
    [[c] + parts[0]] + parts[1..]
  }

  function Dotted(p: Path): string {
    if p == [] then "" else if |p| == 1 then p[0] else p[0] + "." + Dotted(p[1..])
  }

  /** The object a step of the walk goes on in: the existing one, or a new empty one. */
  function Below(f: Forest, key: string): Forest {
    match Find(f, key)
    case Some(Branch(g)) => g
    case _ => Nil
  }

  /** `setNestedValue` on the parts of the dotted key. */
  function SetPath(f: Forest, p: Path, value: string): Forest
    requires p != []
    decreases |p|
  {
    if |p| == 1 then Put(f, p[0], Text(value))
    else Put(f, p[0], Branch(SetPath(Below(f, p[0]), p[1..], value)))
  }

  /** Setting every entry of a flat map in turn. */
  function Rebuild(f: Forest, entries: Flat): Forest
    decreases |entries|
  {
    if entries == [] then f
    else Rebuild(SetPath(f, SplitDots(entries[0].0), entries[0].1), entries[1..])
  }

  /** Something already stored would be replaced: a text by an object on the way, or the last
      key's value. */
  predicate Clobbers(f: Forest, p: Path)
    requires p != []
    decreases |p|
  {
    if |p| == 1 then p[0] in Keys(f)
    else
      match Find(f, p[0])
      case Some(Text(_)) => true
      case Some(Branch(g)) => Clobbers(g, p[1..])
      case None => false
  }

  predicate NeverClobbers(f: Forest, entries: Flat)
    decreases |entries|
  {
    entries == [] ||
    (var p := SplitDots(entries[0].0);
     !Clobbers(f, p) && NeverClobbers(SetPath(f, p, entries[0].1), entries[1..]))
  }

  /** A key without a dot. */
  predicate Plain(key: string) {
    '.' !in key
  }

  /** No key holds a dot, and no object lists a key twice. */
  predicate WellKeyed(f: Forest) {
    match f
    case Nil => true
    case Cons(k, t, rest) =>
      Plain(k) && k !in Keys(rest) && (t.Branch? ==> WellKeyed(t.entries)) && WellKeyed(rest)
  }

  /** An empty key at the top level holds a text, if it is there at all. */
  predicate TopNamed(f: Forest) {
    match f
    case Nil => true
    case Cons(k, t, rest) => (k == "" ==> t.Text?) && TopNamed(rest)
  }

  predicate WellFormed(f: Forest) {
    WellKeyed(f) && TopNamed(f)
  }

  ghost predicate PlainPath(p: Path) {
    forall i :: 0 <= i < |p| ==> Plain(p[i])
  }

  // ---- dotted keys ----

  lemma PushCharAcross(c: char, p: Path, q: Path)
    requires p != []
    ensures PushChar(c, p) + q == PushChar(c, p + q)
    ensures ([""] + p) + q == [""] + (p + q)
  {
    assert (p + q)[1..] == p[1..] + q;
  }

  lemma {:induction false} SplitAcross(a: string, b: string)
    ensures SplitDots(a + "." + b) == SplitDots(a) + SplitDots(b)
  {
    var s := a + "." + b;
    if a == [] {
      assert s[0] == '.' && s[1..] == b;
    } else {
      assert s[0] == a[0] && s[1..] == a[1..] + "." + b;
      SplitAcross(a[1..], b);
      PushCharAcross(a[0], SplitDots(a[1..]), SplitDots(b));
      hide PushChar;
    }
  }

  lemma {:induction false} SplitPlain(s: string)
    requires '.' !in s
    ensures SplitDots(s) == [s]
  {
    if s != [] {
      SplitPlain(s[1..]);
      assert [s[0]] + s[1..] == s;
    }
  }

  /** Splitting a dotted key gives its parts back. */
  lemma {:induction false} SplitDotted(p: Path)
    requires p != [] && PlainPath(p)
    ensures SplitDots(Dotted(p)) == p
  {
    assert Plain(p[0]);
    SplitPlain(p[0]);
    if |p| > 1 {
      SplitDotted(p[1..]);
      SplitAcross(p[0], Dotted(p[1..]));
      assert [p[0]] + p[1..] == p;
    } else {
      assert p == [p[0]];
    }
  }

  lemma {:induction false} DottedSnoc(p: Path, k: string)
    requires p != []
    ensures Dotted(p + [k]) == Dotted(p) + "." + k
  {
    assert (p + [k])[1..] == p[1..] + [k];
    if |p| > 1 {
      DottedSnoc(p[1..], k);
    }
  }

  /** A path whose dotted form tells it from the top of the tree: not the single empty key. */
  predicate Named(p: Path) {
    p != [] ==> Dotted(p) != ""
  }

  lemma DottedExtend(p: Path, k: string)
    requires Named(p)
    ensures Dotted(p + [k]) == FullKey(Dotted(p), k)
    ensures p != [] || k != "" ==> Named(p + [k])
  {
    if p == [] {
      assert p + [k] == [k];
    } else {
      DottedSnoc(p, k);
    }
  }

  // ---- the leaves of a tree, by path ----

  datatype Leaf = Leaf(path: Path, value: string)

  function Leaves(f: Forest, prefix: Path): seq<Leaf> {
    match f
    case Nil => []
    case Cons(k, Text(v), rest) => [Leaf(prefix + [k], v)] + Leaves(rest, prefix)
    case Cons(k, Branch(g), rest) => Leaves(g, prefix + [k]) + Leaves(rest, prefix)
  }

  /** The leaves of the first entry. */
  function FirstLeaves(f: Forest, prefix: Path): seq<Leaf>
    requires f.Cons?
  {
    if f.tree.Text? then [Leaf(prefix + [f.key], f.tree.value)] else Leaves(f.tree.entries, prefix + [f.key])
  }

  lemma LeavesCons(f: Forest, prefix: Path)
    requires f.Cons?
    ensures Leaves(f, prefix) == FirstLeaves(f, prefix) + Leaves(f.rest, prefix)
  {
  }

  function Flattened(leaves: seq<Leaf>): Flat {
    seq(|leaves|, i requires 0 <= i < |leaves| => (Dotted(leaves[i].path), leaves[i].value))
  }

  lemma {:induction false} LeafPaths(f: Forest, prefix: Path)
    requires WellKeyed(f) && PlainPath(prefix)
    ensures forall i :: 0 <= i < |Leaves(f, prefix)| ==>
      var p := Leaves(f, prefix)[i].path;
      && PlainPath(p) && |p| > |prefix| && p[..|prefix|] == prefix && p[|prefix|] in Keys(f)
  {
    if f.Cons? {
      var below := prefix + [f.key];
      LeafPaths(f.rest, prefix);
      if f.tree.Branch? {
        LeafPaths(f.tree.entries, below);
        forall i | 0 <= i < |Leaves(f.tree.entries, below)|
          ensures var p := Leaves(f.tree.entries, below)[i].path;
            p[..|prefix|] == prefix && p[|prefix|] == f.key
        {
          var p := Leaves(f.tree.entries, below)[i].path;
          assert p[..|prefix|] == p[..|below|][..|prefix|] == prefix;
          assert p[|prefix|] == p[..|below|][|prefix|];
        }
      }
    }
  }

  /** No leaf's path is a prefix of another's. */
  ghost predicate PrefixFree(leaves: seq<Leaf>) {
    forall i, j :: 0 <= i < |leaves| && 0 <= j < |leaves| && i != j ==> !(leaves[i].path <= leaves[j].path)
  }

  lemma DifferAt(p: Path, q: Path, n: nat)
    requires n < |p| && n < |q| && p[n] != q[n]
    ensures !(p <= q) && !(q <= p)
  {
  }

  lemma {:induction false} LeavesPrefixFree(f: Forest, prefix: Path)
    requires WellKeyed(f) && PlainPath(prefix)
    ensures PrefixFree(Leaves(f, prefix))
  {
    if f.Cons? {
      var first, more := FirstLeaves(f, prefix), Leaves(f.rest, prefix);
      LeavesPrefixFree(f.rest, prefix);
      LeavesCons(f, prefix);
      if f.tree.Branch? {
        LeavesPrefixFree(f.tree.entries, prefix + [f.key]);
      } else {
        assert |first| == 1;
      }
      FirstLeavesKey(f, prefix);
      LeafPaths(f.rest, prefix);
      hide Leaves, FirstLeaves, PlainPath, PrefixFree;
      forall i, j | 0 <= i < |first| && 0 <= j < |more|
        ensures !(first[i].path <= more[j].path) && !(more[j].path <= first[i].path)
      {
        DifferAt(first[i].path, more[j].path, |prefix|);
      }
      PrefixFreeConcat(first, more);
    }
  }

  lemma FirstLeavesKey(f: Forest, prefix: Path)
    requires f.Cons? && WellKeyed(f) && PlainPath(prefix)
    ensures forall i :: 0 <= i < |FirstLeaves(f, prefix)| ==>
      var p := FirstLeaves(f, prefix)[i].path; |p| > |prefix| && p[|prefix|] == f.key
  {
    var below := prefix + [f.key];
    if f.tree.Branch? {
      LeafPaths(f.tree.entries, below);
      forall i | 0 <= i < |FirstLeaves(f, prefix)|
        ensures var p := FirstLeaves(f, prefix)[i].path; |p| > |prefix| && p[|prefix|] == f.key
      {
        var p := FirstLeaves(f, prefix)[i].path;
        assert p[|prefix|] == p[..|below|][|prefix|];
      }
    }
  }

  lemma PrefixFreeConcat(a: seq<Leaf>, b: seq<Leaf>)
    requires PrefixFree(a) && PrefixFree(b)
    requires forall i, j :: 0 <= i < |a| && 0 <= j < |b| ==> !(a[i].path <= b[j].path) && !(b[j].path <= a[i].path)
    ensures PrefixFree(a + b)
  {
    forall i, j | 0 <= i < |a + b| && 0 <= j < |a + b| && i != j ensures !((a + b)[i].path <= (a + b)[j].path) {
    }
  }

  /** `Map.set` keeps a key's place, and puts a new key last. */
  lemma {:induction false} MapSetAt(m: Flat, i: nat, key: string, value: string)
    requires i <= |m| && (forall j :: 0 <= j < i ==> m[j].0 != key) && (i < |m| ==> m[i].0 == key)
    ensures MapSet(m, key, value) == if i < |m| then m[i := (key, value)] else m + [(key, value)]
  {
    if i > 0 {
      var rest := m[1..];
      assert forall j :: 0 <= j < i - 1 ==> rest[j] == m[j + 1];
      MapSetAt(rest, i - 1, key, value);
      assert MapSet(m, key, value) == [m[0]] + MapSet(rest, key, value);
      hide MapSet;
      if i < |m| {
        assert [m[0]] + rest[i - 1 := (key, value)] == m[i := (key, value)];
      } else {
        assert [m[0]] + (rest + [(key, value)]) == m + [(key, value)];
      }
    }
  }

  lemma DottedInjective(p: Path, q: Path)
    requires p != [] && q != [] && PlainPath(p) && PlainPath(q) && Dotted(p) == Dotted(q)
    ensures p == q
  {
    SplitDotted(p);
    SplitDotted(q);
  }

  /** Flattening one more leaf appends it. */
  lemma AppendLeaf(done: seq<Leaf>, leaf: Leaf)
    requires PrefixFree(done + [leaf]) && leaf.path != [] && PlainPath(leaf.path)
    requires forall i :: 0 <= i < |done| ==> done[i].path != [] && PlainPath(done[i].path)
    ensures MapSet(Flattened(done), Dotted(leaf.path), leaf.value) == Flattened(done + [leaf])
  {
    var m := Flattened(done);
    forall i | 0 <= i < |m| ensures m[i].0 != Dotted(leaf.path) {
      var all := done + [leaf];
      assert all[i] == done[i] && all[|done|] == leaf;
      assert !(all[i].path <= all[|done|].path);
      if m[i].0 == Dotted(leaf.path) {
        DottedInjective(done[i].path, leaf.path);
      }
    }
    MapSetAt(m, |m|, Dotted(leaf.path), leaf.value);
    assert Flattened(done + [leaf]) == m + [(Dotted(leaf.path), leaf.value)];
  }

  ghost predicate LeavesOk(leaves: seq<Leaf>) {
    PrefixFree(leaves) && forall i :: 0 <= i < |leaves| ==> leaves[i].path != [] && PlainPath(leaves[i].path)
  }

  lemma LeavesOkPrefix(a: seq<Leaf>, b: seq<Leaf>)
    requires LeavesOk(a + b)
    ensures LeavesOk(a)
  {
    assert forall i :: 0 <= i < |a| ==> (a + b)[i] == a[i];
  }

  lemma {:induction false} FlattenIntoLeaves(f: Forest, prefix: Path, done: seq<Leaf>)
    requires WellKeyed(f) && PlainPath(prefix) && Named(prefix) && (prefix == [] ==> TopNamed(f))
    requires LeavesOk(done + Leaves(f, prefix))
    ensures FlattenInto(f, Dotted(prefix), Flattened(done)) == Flattened(done + Leaves(f, prefix))
    decreases f
  {
    match f {
      case Nil => assert done + [] == done;
      case Cons(k, Text(v), rest) =>
        var leaf := Leaf(prefix + [k], v);
        DottedExtend(prefix, k);
        assert done + Leaves(f, prefix) == (done + [leaf]) + Leaves(rest, prefix);
        LeavesOkPrefix(done + [leaf], Leaves(rest, prefix));
        assert (done + [leaf])[|done|] == leaf;
        LeavesOkPrefix(done, [leaf]);
        AppendLeaf(done, leaf);
        FlattenIntoLeaves(rest, prefix, done + [leaf]);
      case Cons(k, Branch(g), rest) =>
        DottedExtend(prefix, k);
        var more := Leaves(g, prefix + [k]);
        assert done + Leaves(f, prefix) == (done + more) + Leaves(rest, prefix);
        LeavesOkPrefix(done + more, Leaves(rest, prefix));
        FlattenIntoLeaves(g, prefix + [k], done);
        FlattenIntoLeaves(rest, prefix, done + more);
    }
  }

  /** The flat map of a well-formed tree lists its leaves, in order, under distinct keys. */
  lemma FlattenIsLeaves(f: Forest)
    requires WellFormed(f)
    ensures Flatten(f) == Flattened(Leaves(f, [])) && LeavesOk(Leaves(f, []))
  {
    LeavesPrefixFree(f, []);
    LeafPaths(f, []);
    assert [] + Leaves(f, []) == Leaves(f, []);
    FlattenIntoLeaves(f, [], []);
    assert Flattened([]) == [];
  }

  /** The flat keys are prefix-free: none equals another, and none continues another after
      a dot. */
  lemma FlatKeysPrefixFree(f: Forest, i: nat, j: nat)
    requires WellFormed(f) && i < |Flatten(f)| && j < |Flatten(f)| && i != j
    ensures Flatten(f)[i].0 != Flatten(f)[j].0
    ensures !(Flatten(f)[i].0 + "." <= Flatten(f)[j].0)
  {
    FlattenIsLeaves(f);
    var p, q := Leaves(f, [])[i].path, Leaves(f, [])[j].path;
    assert !(p <= q);
    DottedKeepsPrefix(p, q);
  }

  /** A dotted key continues another after a dot only if its path continues the other's. */
  lemma DottedKeepsPrefix(p: Path, q: Path)
    requires p != [] && q != [] && PlainPath(p) && PlainPath(q) && !(p <= q)
    ensures Dotted(p) != Dotted(q) && !(Dotted(p) + "." <= Dotted(q))
  {
    SplitDotted(p);
    SplitDotted(q);
    hide Dotted, SplitDots;
    var a, b := Dotted(p), Dotted(q);
    if a + "." <= b {
      var rest := b[|a| + 1..];
      assert b == a + "." + rest;
      SplitAcross(a, rest);
    }
  }

  // ---- rebuilding ----

  /** The tree without objects that hold no text. */
  function Prune(f: Forest): Forest {
    match f
    case Nil => Nil
    case Cons(k, Text(v), rest) => Cons(k, Text(v), Prune(rest))
    case Cons(k, Branch(g), rest) =>
      if Prune(g).Nil? then Prune(rest) else Cons(k, Branch(Prune(g)), Prune(rest))
  }

  /** No object inside the tree is empty. */
  predicate NoEmptyObjects(f: Forest) {
    match f
    case Nil => true
    case Cons(_, t, rest) => (t.Branch? ==> t.entries.Cons? && NoEmptyObjects(t.entries)) && NoEmptyObjects(rest)
  }

  lemma {:induction false} PruneIdentityIff(f: Forest)
    ensures Prune(f) == f <==> NoEmptyObjects(f)
  {
    if f.Cons? {
      PruneIdentityIff(f.rest);
      PruneSize(f.rest);
      if f.tree.Branch? {
        PruneIdentityIff(f.tree.entries);
      }
    }
  }

  function Size(f: Forest): nat {
    match f
    case Nil => 0
    case Cons(_, t, rest) => 1 + Size(rest)
  }

  lemma {:induction false} PruneSize(f: Forest)
    ensures Size(Prune(f)) <= Size(f)
  {
    if f.Cons? {
      PruneSize(f.rest);
    }
  }

  /** Setting leaves by path. */
  function RebuildLeaves(f: Forest, leaves: seq<Leaf>): Forest
    requires forall i :: 0 <= i < |leaves| ==> leaves[i].path != []
    decreases |leaves|
  {
    if leaves == [] then f
    else RebuildLeaves(SetPath(f, leaves[0].path, leaves[0].value), leaves[1..])
  }

  predicate Fresh(f: Forest, leaves: seq<Leaf>)
    requires forall i :: 0 <= i < |leaves| ==> leaves[i].path != []
    decreases |leaves|
  {
    leaves == [] ||
    (!Clobbers(f, leaves[0].path) && Fresh(SetPath(f, leaves[0].path, leaves[0].value), leaves[1..]))
  }

  lemma {:induction false} RebuildConcat(f: Forest, a: seq<Leaf>, b: seq<Leaf>)
    requires forall i :: 0 <= i < |a + b| ==> (a + b)[i].path != []
    requires forall i :: 0 <= i < |a| ==> a[i].path != []
    requires forall i :: 0 <= i < |b| ==> b[i].path != []
    ensures RebuildLeaves(f, a + b) == RebuildLeaves(RebuildLeaves(f, a), b)
    ensures Fresh(f, a + b) <==> Fresh(f, a) && Fresh(RebuildLeaves(f, a), b)
    decreases |a|
  {
    if a == [] {
      assert a + b == b;
    } else {
      assert (a + b)[1..] == a[1..] + b;
      RebuildConcat(SetPath(f, a[0].path, a[0].value), a[1..], b);
    }
  }

  lemma {:induction false} PutLast(f: Forest, key: string, t: Tree, u: Tree)
    requires key !in Keys(f)
    ensures Put(f, key, t) == Append(f, Cons(key, t, Nil))
    ensures Put(Append(f, Cons(key, u, Nil)), key, t) == Append(f, Cons(key, t, Nil))
    ensures Find(Append(f, Cons(key, u, Nil)), key) == Some(u) && Find(f, key) == None
  {
    if f.Cons? {
      PutLast(f.rest, key, t, u);
    }
  }

  lemma {:induction false} AppendProperties(a: Forest, b: Forest, c: Forest)
    ensures Append(Append(a, b), c) == Append(a, Append(b, c))
    ensures Keys(Append(a, b)) == Keys(a) + Keys(b)
    ensures Append(a, Nil) == a
  {
    if a.Cons? {
      AppendProperties(a.rest, b, c);
    }
  }

  function Under(key: string, leaves: seq<Leaf>): seq<Leaf> {
    seq(|leaves|, i requires 0 <= i < |leaves| => Leaf([key] + leaves[i].path, leaves[i].value))
  }

  /** Leaves below a key that is last in f are set inside its object. */
  lemma {:induction false} RebuildUnder(f: Forest, key: string, g: Forest, leaves: seq<Leaf>)
    requires key !in Keys(f)
    requires forall i :: 0 <= i < |leaves| ==> leaves[i].path != []
    ensures RebuildLeaves(Append(f, Cons(key, Branch(g), Nil)), Under(key, leaves))
      == Append(f, Cons(key, Branch(RebuildLeaves(g, leaves)), Nil))
    ensures Fresh(Append(f, Cons(key, Branch(g), Nil)), Under(key, leaves)) <==> Fresh(g, leaves)
    decreases |leaves|
  {
    if leaves != [] {
      var p := leaves[0].path;
      var g' := SetPath(g, p, leaves[0].value);
      assert ([key] + p)[1..] == p;
      PutLast(f, key, Branch(g'), Branch(g));
      assert Under(key, leaves)[1..] == Under(key, leaves[1..]);
      RebuildUnder(f, key, g', leaves[1..]);
    }
  }

  /** Leaves below a new key create its object. */
  lemma RebuildNewObject(f: Forest, key: string, leaves: seq<Leaf>)
    requires key !in Keys(f) && leaves != []
    requires forall i :: 0 <= i < |leaves| ==> leaves[i].path != []
    ensures RebuildLeaves(f, Under(key, leaves)) == Append(f, Cons(key, Branch(RebuildLeaves(Nil, leaves)), Nil))
    ensures Fresh(f, Under(key, leaves)) <==> Fresh(Nil, leaves)
  {
    var p := leaves[0].path;
    var g := SetPath(Nil, p, leaves[0].value);
    assert ([key] + p)[1..] == p;
    PutLast(f, key, Branch(g), Branch(Nil));
    assert Under(key, leaves)[1..] == Under(key, leaves[1..]);
    RebuildUnder(f, key, g, leaves[1..]);
    NothingInNil(p);
  }

  lemma NothingInNil(p: Path)
    requires p != []
    ensures !Clobbers(Nil, p)
  {
  }

  lemma {:induction false} LeavesUnder(f: Forest, prefix: Path, key: string)
    ensures Leaves(f, [key] + prefix) == Under(key, Leaves(f, prefix))
  {
    if f.Cons? {
      LeavesUnder(f.rest, prefix, key);
      assert ([key] + prefix) + [f.key] == [key] + (prefix + [f.key]);
      if f.tree.Branch? {
        LeavesUnder(f.tree.entries, prefix + [f.key], key);
      }
    }
  }

  lemma {:induction false} LeavesEmptyIff(f: Forest, prefix: Path)
    ensures Leaves(f, prefix) == [] <==> Prune(f).Nil?
    ensures forall i :: 0 <= i < |Leaves(f, prefix)| ==> Leaves(f, prefix)[i].path != []
  {
    if f.Cons? {
      LeavesEmptyIff(f.rest, prefix);
      if f.tree.Branch? {
        LeavesEmptyIff(f.tree.entries, prefix + [f.key]);
      }
    }
  }

  /** Setting the leaves of f after what is already there appends f without its empty
      objects, and replaces nothing. */
  lemma {:induction false} RebuildAppends(done: Forest, f: Forest)
    requires WellKeyed(f) && Keys(done) !! Keys(f)
    requires forall i :: 0 <= i < |Leaves(f, [])| ==> Leaves(f, [])[i].path != []
    ensures RebuildLeaves(done, Leaves(f, [])) == Append(done, Prune(f))
    ensures Fresh(done, Leaves(f, []))
    decreases f
  {
    AppendProperties(done, Nil, Nil);
    if f.Cons? {
      LeavesEmptyIff(f.rest, []);
      if f.tree.Text? {
        AppendText(done, f);
      } else {
        AppendObject(done, f);
      }
    }
  }

  lemma {:induction false} AppendText(done: Forest, f: Forest)
    requires f.Cons? && f.tree.Text? && WellKeyed(f) && Keys(done) !! Keys(f)
    requires forall i :: 0 <= i < |Leaves(f, [])| ==> Leaves(f, [])[i].path != []
    requires forall i :: 0 <= i < |Leaves(f.rest, [])| ==> Leaves(f.rest, [])[i].path != []
    ensures RebuildLeaves(done, Leaves(f, [])) == Append(done, Prune(f))
    ensures Fresh(done, Leaves(f, []))
    decreases f, 0
  {
    var one := Cons(f.key, f.tree, Nil);
    var first := [Leaf([f.key], f.tree.value)];
    assert Leaves(f, []) == first + Leaves(f.rest, []) by { assert [] + [f.key] == [f.key]; }
    RebuildConcat(done, first, Leaves(f.rest, []));
    PutLast(done, f.key, f.tree, f.tree);
    AppendProperties(done, one, Prune(f.rest));
    assert first[1..] == [];
    assert RebuildLeaves(done, first) == Append(done, one);
    RebuildAppends(Append(done, one), f.rest);
  }

  lemma {:induction false} AppendObject(done: Forest, f: Forest)
    requires f.Cons? && f.tree.Branch? && WellKeyed(f) && Keys(done) !! Keys(f)
    requires forall i :: 0 <= i < |Leaves(f, [])| ==> Leaves(f, [])[i].path != []
    requires forall i :: 0 <= i < |Leaves(f.rest, [])| ==> Leaves(f.rest, [])[i].path != []
    ensures RebuildLeaves(done, Leaves(f, [])) == Append(done, Prune(f))
    ensures Fresh(done, Leaves(f, []))
    decreases f, 0
  {
    var g := f.tree.entries;
    LeavesEmptyIff(g, []);
    LeavesUnder(g, [], f.key);
    assert [f.key] + [] == [] + [f.key];
    var first := Under(f.key, Leaves(g, []));
    assert Leaves(f, []) == first + Leaves(f.rest, []);
    if Prune(g).Nil? {
      assert Leaves(f, []) == Leaves(f.rest, []);
      RebuildAppends(done, f.rest);
    } else {
      RebuildAppends(Nil, g);
      var one := Cons(f.key, Branch(Prune(g)), Nil);
      RebuildConcat(done, first, Leaves(f.rest, []));
      RebuildNewObject(done, f.key, Leaves(g, []));
      AppendProperties(done, one, Prune(f.rest));
      RebuildAppends(Append(done, one), f.rest);
    }
  }

  lemma {:induction false} RebuildFlattened(f: Forest, leaves: seq<Leaf>)
    requires forall i :: 0 <= i < |leaves| ==> leaves[i].path != [] && PlainPath(leaves[i].path)
    ensures Rebuild(f, Flattened(leaves)) == RebuildLeaves(f, leaves)
    ensures NeverClobbers(f, Flattened(leaves)) <==> Fresh(f, leaves)
    decreases |leaves|
  {
    if leaves != [] {
      SplitDotted(leaves[0].path);
      assert Flattened(leaves)[1..] == Flattened(leaves[1..]);
      RebuildFlattened(SetPath(f, leaves[0].path, leaves[0].value), leaves[1..]);
    }
  }

  /** Rebuilding the flat map of a well-formed tree gives the tree without its empty objects,
      keys in the same order, and never replaces a value. */
  lemma RebuildOfFlatten(f: Forest)
    requires WellFormed(f)
    ensures Rebuild(Nil, Flatten(f)) == Prune(f)
    ensures NeverClobbers(Nil, Flatten(f))
  {
    FlattenIsLeaves(f);
    RebuildFlattened(Nil, Leaves(f, []));
    RebuildAppends(Nil, f);
  }

  /** What rebuilding makes: no dotted key, no key twice, no empty object. */
  predicate Sound(f: Forest) {
    WellKeyed(f) && NoEmptyObjects(f)
  }

  lemma {:induction false} PutSound(f: Forest, key: string, t: Tree)
    requires Sound(f) && Plain(key) && (t.Branch? ==> t.entries.Cons? && Sound(t.entries))
    ensures Sound(Put(f, key, t)) && Keys(Put(f, key, t)) == Keys(f) + {key}
    ensures TopNamed(f) && (key == "" ==> t.Text?) ==> TopNamed(Put(f, key, t))
  {
    if f.Cons? && f.key != key {
      PutSound(f.rest, key, t);
    }
  }

  lemma {:induction false} BelowSound(f: Forest, key: string)
    requires Sound(f)
    ensures Sound(Below(f, key))
  {
    if f.Cons? && f.key != key {
      BelowSound(f.rest, key);
    }
  }

  lemma {:induction false} SetPathSound(f: Forest, p: Path, value: string)
    requires Sound(f) && p != [] && PlainPath(p)
    ensures Sound(SetPath(f, p, value)) && SetPath(f, p, value).Cons?
    ensures TopNamed(f) && (p[0] == "" ==> |p| == 1) ==> TopNamed(SetPath(f, p, value))
    decreases |p|
  {
    assert Plain(p[0]);
    if |p| == 1 {
      PutSound(f, p[0], Text(value));
    } else {
      BelowSound(f, p[0]);
      SetPathSound(Below(f, p[0]), p[1..], value);
      PutSound(f, p[0], Branch(SetPath(Below(f, p[0]), p[1..], value)));
    }
  }

  /** Splitting leaves no dot, and an empty part before others only when a dot comes first. */
  lemma {:induction false} SplitIsPlain(s: string)
    ensures PlainPath(SplitDots(s))
    ensures SplitDots(s)[0] == "" ==> s == "" || s[0] == '.'
    ensures s == "" ==> SplitDots(s) == [""]
  {
    if s != [] {
      SplitIsPlain(s[1..]);
    }
  }

  /** No key of the map starts with a dot. */
  ghost predicate NoLeadingDot(m: Flat) {
    forall i :: 0 <= i < |m| ==> m[i].0 == "" || m[i].0[0] != '.'
  }

  lemma {:induction false} RebuildSound(f: Forest, entries: Flat)
    requires Sound(f)
    ensures Sound(Rebuild(f, entries))
    ensures TopNamed(f) && NoLeadingDot(entries) ==> TopNamed(Rebuild(f, entries))
    decreases |entries|
  {
    if entries != [] {
      var p := SplitDots(entries[0].0);
      SplitIsPlain(entries[0].0);
      SetPathSound(f, p, entries[0].1);
      RebuildSound(SetPath(f, p, entries[0].1), entries[1..]);
    }
  }

  lemma {:induction false} MapSetNoLeadingDot(m: Flat, key: string, value: string)
    requires NoLeadingDot(m) && (key == "" || key[0] != '.')
    ensures NoLeadingDot(MapSet(m, key, value))
  {
    if m != [] {
      MapSetNoLeadingDot(m[1..], key, value);
    }
  }

  lemma {:induction false} FlattenNoLeadingDot(f: Forest, prefix: string, out: Flat)
    requires WellKeyed(f) && NoLeadingDot(out) && (prefix == "" || prefix[0] != '.')
    ensures NoLeadingDot(FlattenInto(f, prefix, out))
    decreases f
  {
    match f {
      case Nil =>
      case Cons(k, Text(v), rest) =>
        MapSetNoLeadingDot(out, FullKey(prefix, k), v);
        FlattenNoLeadingDot(rest, prefix, MapSet(out, FullKey(prefix, k), v));
      case Cons(k, Branch(g), rest) =>
        FlattenNoLeadingDot(g, FullKey(prefix, k), out);
        FlattenNoLeadingDot(rest, prefix, FlattenInto(g, FullKey(prefix, k), out));
    }
  }

  /** For every tree: the round trip returns the tree itself exactly when no object is empty,
      no key holds a dot or is listed twice, and no object stands under an empty key at the
      top level. */
  lemma RoundTripIff(f: Forest)
    ensures Rebuild(Nil, Flatten(f)) == f <==> NoEmptyObjects(f) && WellFormed(f)
  {
    if WellFormed(f) {
      RebuildOfFlatten(f);
      PruneIdentityIff(f);
    }
    RebuildSound(Nil, Flatten(f));
    if Rebuild(Nil, Flatten(f)) == f {
      FlattenNoLeadingDot(f, "", []);
    }
  }

  lemma {:induction false} FlattenPrune(f: Forest, prefix: string, out: Flat)
    ensures FlattenInto(Prune(f), prefix, out) == FlattenInto(f, prefix, out)
    decreases f
  {
    match f {
      case Nil =>
      case Cons(k, Text(v), rest) =>
        FlattenPrune(rest, prefix, MapSet(out, FullKey(prefix, k), v));
      case Cons(k, Branch(g), rest) =>
        FlattenPrune(g, FullKey(prefix, k), out);
        FlattenPrune(rest, prefix, FlattenInto(g, FullKey(prefix, k), out));
    }
  }

  lemma {:induction false} PruneHasNoEmpty(f: Forest)
    ensures NoEmptyObjects(Prune(f))
  {
    if f.Cons? {
      PruneHasNoEmpty(f.rest);
      if f.tree.Branch? {
        PruneHasNoEmpty(f.tree.entries);
      }
    }
  }

  /** For every tree: rebuilding keeps every text in its place exactly when the tree without
      its empty objects is well formed. */
  lemma TextsKeptIff(f: Forest)
    ensures Rebuild(Nil, Flatten(f)) == Prune(f) <==> WellFormed(Prune(f))
  {
    FlattenPrune(f, "", []);
    PruneHasNoEmpty(f);
    RoundTripIff(Prune(f));
  }

  /** An empty key is dropped at the top level, where it makes two leaves share one flat key. */
  lemma EmptyKeyCollides()
    ensures var f := Cons("", Branch(Cons("a", Text("1"), Nil)), Cons("a", Text("2"), Nil));
      Flatten(f) == [("a", "2")] && Rebuild(Nil, Flatten(f)) == Cons("a", Text("2"), Nil)
  {
    var inner := Cons("a", Text("1"), Nil);
    var f := Cons("", Branch(inner), Cons("a", Text("2"), Nil));
    assert FlattenInto(inner, "", []) == [("a", "1")];
    assert MapSet([("a", "1")], "a", "2") == [("a", "2")];
    assert Flatten(f) == [("a", "2")];
    SplitPlain("a");
    assert Rebuild(SetPath(Nil, ["a"], "2"), [("a", "2")][1..]) == SetPath(Nil, ["a"], "2");
  }

  // ---- what one assignment does ----

  /** The text stored under a path. */
  function TextAt(f: Forest, p: Path): Option<string>
    requires p != []
    decreases |p|
  {
    match Find(f, p[0])
    case Some(Text(v)) => if |p| == 1 then Some(v) else None
    case Some(Branch(g)) => if |p| == 1 then None else TextAt(g, p[1..])
    case None => None
  }

  lemma {:induction false} FindPut(f: Forest, key: string, t: Tree, k: string)
    ensures Find(Put(f, key, t), k) == if k == key then Some(t) else Find(f, k)
  {
    if f.Cons? && f.key != key {
      FindPut(f.rest, key, t, k);
    }
  }

  /** For every tree: an assignment stores its text, takes the texts above and below the path
      it goes through away, and leaves every other text as it was. */
  lemma {:induction false} SetPathGet(f: Forest, p: Path, value: string, q: Path)
    requires p != [] && q != []
    ensures TextAt(SetPath(f, p, value), q)
      == (if q == p then Some(value) else if p <= q || q <= p then None else TextAt(f, q))
    decreases |p|
  {
    if |p| == 1 {
      FindPut(f, p[0], Text(value), q[0]);
      assert q[0] == p[0] && |q| == 1 ==> q == p;
    } else {
      var g := Below(f, p[0]);
      FindPut(f, p[0], Branch(SetPath(g, p[1..], value)), q[0]);
      if q[0] == p[0] && |q| > 1 {
        SetPathGet(g, p[1..], value, q[1..]);
        assert p == [p[0]] + p[1..] && q == [q[0]] + q[1..];
        assert p <= q <==> p[1..] <= q[1..];
        assert q <= p <==> q[1..] <= p[1..];
      } else if q[0] == p[0] {
        assert q <= p;
      }
    }
  }

  function KeyList(f: Forest): seq<string> {
    match f
    case Nil => []
    case Cons(k, _, rest) => [k] + KeyList(rest)
  }

  /** An assignment keeps the order of an object's keys, and puts a new key last. */
  lemma {:induction false} SetPathOrder(f: Forest, p: Path, value: string)
    requires p != []
    ensures KeyList(SetPath(f, p, value)) == if p[0] in KeyList(f) then KeyList(f) else KeyList(f) + [p[0]]
  {
    if |p| == 1 {
      PutOrder(f, p[0], Text(value));
    } else {
      PutOrder(f, p[0], Branch(SetPath(Below(f, p[0]), p[1..], value)));
    }
  }

  lemma {:induction false} PutOrder(f: Forest, key: string, t: Tree)
    ensures KeyList(Put(f, key, t)) == if key in KeyList(f) then KeyList(f) else KeyList(f) + [key]
  {
    if f.Cons? && f.key != key {
      PutOrder(f.rest, key, t);
    }
  }

  // ---- replacing texts ----

  /** The same tree with each text taken from a map of flat keys. */
  function Relabel(f: Forest, prefix: string, texts: map<string, string>): Forest {
    match f
    case Nil => Nil
    case Cons(k, Text(v), rest) =>
      var key := FullKey(prefix, k);
      Cons(k, Text(if key in texts then texts[key] else v), Relabel(rest, prefix, texts))
    case Cons(k, Branch(g), rest) =>
      Cons(k, Branch(Relabel(g, FullKey(prefix, k), texts)), Relabel(rest, prefix, texts))
  }

  function RelabelFlat(m: Flat, texts: map<string, string>): Flat {
    seq(|m|, i requires 0 <= i < |m| => (m[i].0, if m[i].0 in texts then texts[m[i].0] else m[i].1))
  }

  lemma {:induction false} RelabelWellFormed(f: Forest, prefix: string, texts: map<string, string>)
    requires WellKeyed(f)
    ensures WellKeyed(Relabel(f, prefix, texts)) && Keys(Relabel(f, prefix, texts)) == Keys(f)
    ensures TopNamed(f) ==> TopNamed(Relabel(f, prefix, texts))
  {
    if f.Cons? {
      RelabelWellFormed(f.rest, prefix, texts);
      if f.tree.Branch? {
        RelabelWellFormed(f.tree.entries, FullKey(prefix, f.key), texts);
      }
    }
  }

  lemma FlattenedConcat(a: seq<Leaf>, b: seq<Leaf>)
    ensures Flattened(a + b) == Flattened(a) + Flattened(b)
  {
  }

  lemma RelabelConcat(a: seq<Leaf>, b: seq<Leaf>, texts: map<string, string>)
    ensures RelabelFlat(Flattened(a + b), texts) == RelabelFlat(Flattened(a), texts) + RelabelFlat(Flattened(b), texts)
  {
  }

  lemma {:induction false} LeavesRelabel(f: Forest, prefix: Path, texts: map<string, string>)
    requires WellKeyed(f) && PlainPath(prefix) && Named(prefix) && (prefix == [] ==> TopNamed(f))
    ensures Flattened(Leaves(Relabel(f, Dotted(prefix), texts), prefix))
      == RelabelFlat(Flattened(Leaves(f, prefix)), texts)
  {
    if f.Cons? {
      LeavesRelabel(f.rest, prefix, texts);
      DottedExtend(prefix, f.key);
      hide Dotted;
      var g := Relabel(f, Dotted(prefix), texts);
      var more, more' := Leaves(f.rest, prefix), Leaves(g.rest, prefix);
      var first, first' := FirstLeaves(f, prefix), FirstLeaves(g, prefix);
      LeavesCons(f, prefix);
      LeavesCons(g, prefix);
      if f.tree.Branch? {
        LeavesRelabel(f.tree.entries, prefix + [f.key], texts);
      } else {
        assert |first| == 1 && |first'| == 1;
      }
      RelabelConcat(first, more, texts);
      FlattenedConcat(first', more');
      hide Leaves, Relabel, WellKeyed;
    }
  }

  lemma {:induction false} LeavesPrune(f: Forest, prefix: Path)
    ensures Leaves(Prune(f), prefix) == Leaves(f, prefix)
  {
    if f.Cons? {
      LeavesPrune(f.rest, prefix);
      if f.tree.Branch? {
        LeavesPrune(f.tree.entries, prefix + [f.key]);
        LeavesEmptyIff(f.tree.entries, prefix + [f.key]);
      }
    }
  }

  lemma {:induction false} PruneWellFormed(f: Forest)
    requires WellKeyed(f)
    ensures WellKeyed(Prune(f)) && Keys(Prune(f)) <= Keys(f)
    ensures TopNamed(f) ==> TopNamed(Prune(f))
  {
    if f.Cons? {
      PruneWellFormed(f.rest);
      if f.tree.Branch? {
        PruneWellFormed(f.tree.entries);
      }
    }
  }

  /** The locale file written for a source tree: rebuilding the source's flat keys with new
      texts and flattening the result gives back exactly those keys and texts, in order. */
  lemma RelabelRoundTrip(f: Forest, texts: map<string, string>)
    requires WellFormed(f)
    ensures var next := Rebuild(Nil, RelabelFlat(Flatten(f), texts));
      && WellFormed(next)
      && next == Prune(Relabel(f, "", texts))
      && Flatten(next) == RelabelFlat(Flatten(f), texts)
  {
    var g := Relabel(f, "", texts);
    RelabelWellFormed(f, "", texts);
    assert Dotted([]) == "" && Named([]);
    FlattenIsLeaves(f);
    FlattenIsLeaves(g);
    LeavesRelabel(f, [], texts);
    RebuildOfFlatten(g);
    PruneWellFormed(g);
    FlattenIsLeaves(Prune(g));
    LeavesPrune(g, []);
  }
}
