/** The in-place forms: a growing flat map, and nested objects that a setter walks and mutates. */
module TranslationObjects {
  import opened Basics
  import opened TranslationTree

  /** The map that flattening fills. */
  class FlatMap {
    var entries: Flat

    constructor ()
      ensures entries == []
    {
      entries := [];
    }

    method Set(key: string, value: string)
      modifies this
      ensures entries == MapSet(old(entries), key, value)
    {
      var i := 0;
      while i < |entries| && entries[i].0 != key
        invariant i <= |entries| && entries == old(entries)
        invariant forall j :: 0 <= j < i ==> entries[j].0 != key
      {
        i := i + 1;
      }
      MapSetAt(entries, i, key, value);
      if i < |entries| {
        entries := entries[i := (key, value)];
      } else {
        entries := entries + [(key, value)];
      }
    }
  }

  method FlattenTranslations(value: Forest, prefix: string, out: FlatMap)
    modifies out
    ensures out.entries == FlattenInto(value, prefix, old(out.entries))
    decreases value
  {
    var rest := value;
    while rest.Cons?
      invariant rest == value || rest < value
      invariant FlattenInto(rest, prefix, out.entries) == FlattenInto(value, prefix, old(out.entries))
      decreases rest
    {
      var fullKey := FullKey(prefix, rest.key);
      match rest.tree {
        case Text(text) => out.Set(fullKey, text);
        case Branch(nested) => FlattenTranslations(nested, fullKey, out);
      }
      rest := rest.rest;
    }
  }

  function ToForest(keys: seq<string>, trees: seq<Tree>): Forest
    requires |keys| == |trees|
  {
    if keys == [] then Nil else Cons(keys[0], trees[0], ToForest(keys[1..], trees[1..]))
  }

  lemma {:induction false} PutExisting(keys: seq<string>, trees: seq<Tree>, i: nat, t: Tree)
    requires |keys| == |trees| && i < |keys| && forall j :: 0 <= j < i ==> keys[j] != keys[i]
    ensures ToForest(keys, trees[i := t]) == Put(ToForest(keys, trees), keys[i], t)
    ensures Find(ToForest(keys, trees), keys[i]) == Some(trees[i])
  {
    if i == 0 {
      assert trees[i := t][1..] == trees[1..];
    } else {
      assert trees[i := t][1..] == trees[1..][i - 1 := t];
      PutExisting(keys[1..], trees[1..], i - 1, t);
    }
  }

  lemma {:induction false} PutNew(keys: seq<string>, trees: seq<Tree>, key: string, t: Tree)
    requires |keys| == |trees| && key !in keys
    ensures ToForest(keys + [key], trees + [t]) == Put(ToForest(keys, trees), key, t)
    ensures Find(ToForest(keys, trees), key) == None
  {
    if keys == [] {
      assert ToForest(([key])[1..], ([t])[1..]) == Nil;
      assert keys + [key] == [key] && trees + [t] == [t];
    } else {
      assert (keys + [key])[1..] == keys[1..] + [key] && (trees + [t])[1..] == trees[1..] + [t];
      PutNew(keys[1..], trees[1..], key, t);
    }
  }

  datatype Slot = Str(text: string) | Sub(node: TranslationObject)

  /** A nested translation object. `trees` is what its slots stand for, and `repr` every
      object below it. */
  class TranslationObject {
    var keys: seq<string>
    var slots: seq<Slot>
    ghost var trees: seq<Tree>
    ghost var repr: set<object>

    ghost predicate Valid()
      reads this, repr
      decreases repr
    {
      && this in repr
      && |keys| == |slots| == |trees|
      && (forall i, j :: 0 <= i < j < |keys| ==> keys[i] != keys[j])
      && (forall i :: 0 <= i < |slots| && slots[i].Str? ==> trees[i] == Text(slots[i].text))
      && (forall i :: 0 <= i < |slots| && slots[i].Sub? ==>
            && slots[i].node in repr && slots[i].node.repr <= repr && this !in slots[i].node.repr
            && slots[i].node.Valid()
            && trees[i] == Branch(ToForest(slots[i].node.keys, slots[i].node.trees)))
      && (forall i, j :: 0 <= i < j < |slots| && slots[i].Sub? && slots[j].Sub? ==>
            slots[i].node.repr !! slots[j].node.repr)
    }

    ghost function View(): Forest
      requires Valid()
      reads this, repr
    {
      ToForest(keys, trees)
    }

    constructor ()
      ensures Valid() && fresh(repr) && View() == Nil
    {
      keys, slots, trees := [], [], [];
      repr := {this};
    }

    method IndexOfKey(key: string) returns (i: nat)
      ensures i <= |keys| && (i < |keys| ==> keys[i] == key)
      ensures forall j :: 0 <= j < i ==> keys[j] != key
    {
      i := 0;
      while i < |keys| && keys[i] != key
        invariant i <= |keys| && forall j :: 0 <= j < i ==> keys[j] != key
      {
        i := i + 1;
      }
    }

    /** Replaces the slot of an existing key. */
    method ReplaceSlot(i: nat, slot: Slot, ghost tree: Tree)
      requires Valid() && i < |keys| && SlotStands(slot, tree) && Apart(slot)
      modifies this
      ensures Valid() && View() == Put(old(View()), old(keys[i]), tree)
      ensures keys == old(keys) && slots == old(slots)[i := slot]
      ensures repr == old(repr) + SlotRepr(slot)
    {
      hide ToForest, Put, Find;
      PutExisting(keys, trees, i, tree);
      slots := slots[i := slot];
      trees := trees[i := tree];
      repr := repr + SlotRepr(slot);
    }

    /** Adds a slot under a new key, at the end. */
    method AddSlot(key: string, slot: Slot, ghost tree: Tree)
      requires Valid() && key !in keys && SlotStands(slot, tree) && Apart(slot)
      modifies this
      ensures Valid() && View() == Put(old(View()), key, tree)
      ensures keys == old(keys) + [key] && slots == old(slots) + [slot]
      ensures repr == old(repr) + SlotRepr(slot)
    {
      hide ToForest, Put, Find;
      PutNew(keys, trees, key, tree);
      keys := keys + [key];
      slots := slots + [slot];
      trees := trees + [tree];
      repr := repr + SlotRepr(slot);
    }

    ghost function SlotRepr(slot: Slot): set<object>
      reads if slot.Sub? then {slot.node} else {}
    {
      if slot.Sub? then slot.node.repr else {}
    }

    /** A slot's object shares nothing with this one. */
    ghost predicate Apart(slot: Slot)
      reads this, if slot.Sub? then {slot.node} else {}
    {
      SlotRepr(slot) !! repr
    }

    ghost predicate SlotStands(slot: Slot, tree: Tree)
      reads if slot.Sub? then {slot.node} + slot.node.repr else {}
    {
      match slot
      case Str(text) => tree == Text(text)
      case Sub(node) => node.Valid() && tree == Branch(node.View())
    }

    /** Stores a slot under a key: in place when the key exists, else at the end. */
    method PutSlot(key: string, slot: Slot, ghost tree: Tree) returns (i: nat)
      requires Valid() && SlotStands(slot, tree) && Apart(slot)
      modifies this
      ensures Valid() && View() == Put(old(View()), key, tree)
      ensures repr == old(repr) + SlotRepr(slot)
      ensures i < |keys| && keys[i] == key && slots[i] == slot
    {
      i := IndexOfKey(key);
      if i < |keys| {
        ReplaceSlot(i, slot, tree);
      } else {
        AddSlot(key, slot, tree);
      }
    }

    /** `setNestedValue`: walks down the parts, making objects where none is found, and sets
        the last part. Objects off the walk are untouched. */
    method SetNestedValue(parts: Path, value: string)
      requires Valid() && parts != []
      modifies repr
      ensures Valid() && fresh(repr - old(repr))
      ensures View() == SetPath(old(View()), parts, value)
      decreases |parts|
    {
      if |parts| == 1 {
        var _ := PutSlot(parts[0], Str(value), Text(value));
        return;
      }
      var i := IndexOfKey(parts[0]);
      if i < |keys| {
        PutExisting(keys, trees, i, trees[i]);
      } else {
        PutNew(keys, trees, parts[0], Text(value));
      }
      if i < |keys| && slots[i].Sub? {
        SetBelow(i, parts, value);
      } else {
        MakeBelow(parts, value);
      }
    }

    /** Puts a new object under the first part and goes on in it. */
    method MakeBelow(parts: Path, value: string)
      requires Valid() && |parts| > 1
      modifies repr
      ensures Valid() && fresh(repr - old(repr))
      ensures View() == Put(old(View()), parts[0], Branch(SetPath(Nil, parts[1..], value)))
      decreases |parts|, 1
    {
      hide ToForest, Put, Find, SetPath;
      var replacement := new TranslationObject();
      ghost var before := View();
      var k := PutSlot(parts[0], Sub(replacement), Branch(Nil));
      SetBelow(k, parts, value);
      PutTwice(before, parts[0], Branch(Nil), Branch(SetPath(Nil, parts[1..], value)));
    }

    /** Goes on in the object under key i. */
    method SetBelow(i: nat, parts: Path, value: string)
      requires Valid() && i < |slots| && slots[i].Sub? && |parts| > 1 && keys[i] == parts[0]
      modifies repr
      ensures Valid() && fresh(repr - old(repr))
      ensures View() == Put(old(View()), parts[0], Branch(SetPath(old(slots[i].node.View()), parts[1..], value)))
      decreases |parts|, 0
    {
      hide ToForest, Put, Find, SetPath;
      var node := slots[i].node;
      PutExisting(keys, trees, i, Branch(SetPath(node.View(), parts[1..], value)));
      node.SetNestedValue(parts[1..], value);
      trees := trees[i := Branch(node.View())];
      repr := repr + node.repr;
    }
  }

  lemma {:induction false} PutTwice(f: Forest, key: string, t: Tree, u: Tree)
    ensures Put(Put(f, key, t), key, u) == Put(f, key, u)
  {
    if f.Cons? {
      PutTwice(f.rest, key, t, u);
    }
  }

  /** Writing the next locale: every source key in turn is set to its next text, or to the
      source text when it has none. */
  method BuildNextMap(sourceFlat: Flat, nextFlat: map<string, string>) returns (root: TranslationObject)
    ensures root.Valid() && fresh(root.repr)
    ensures root.View() == Rebuild(Nil, RelabelFlat(sourceFlat, nextFlat))
  {
    root := new TranslationObject();
    ghost var all := RelabelFlat(sourceFlat, nextFlat);
    for i := 0 to |sourceFlat|
      invariant root.Valid() && fresh(root.repr)
      invariant Rebuild(root.View(), all[i..]) == Rebuild(Nil, all)
    {
      var key := sourceFlat[i].0;
      var value := if key in nextFlat then nextFlat[key] else sourceFlat[i].1;
      assert all[i..][0] == (key, value) && all[i..][1..] == all[i + 1..];
      root.SetNestedValue(SplitDots(key), value);
    }
    assert all[|sourceFlat|..] == [];
  }
}
