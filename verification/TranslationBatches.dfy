/** Packing the pending items into prompts: greedy, in order, by count and estimated size. */
module TranslationBatches {

  const MAX_BATCH_ITEMS: nat := 20

  datatype Item = Item(cacheKey: string, key: string, text: string, textHash: string)

  type Batch = seq<Item>

  function EstimateBatchChars(items: Batch): nat {
    if items == [] then 2
    else EstimateBatchChars(items[..|items| - 1]) + |items[|items| - 1].key| + |items[|items| - 1].text| + 8
  }

  function ItemChars(item: Item): nat {
    EstimateBatchChars([item])
  }

  /** The size the packer tracks: the estimate and two more characters per item. */
  function Cost(items: Batch): nat {
    EstimateBatchChars(items) + 2 * |items|
  }

  function Concat(batches: seq<Batch>): Batch {
    if batches == [] then [] else batches[0] + Concat(batches[1..])
  }

  ghost predicate Fits(b: Batch, budget: int) {
    && 1 <= |b| <= 20
    && (|b| > 1 ==> Cost(b) <= budget)
  }

  /** The batch cannot take the item: it is at the count limit, or would pass the budget. */
  ghost predicate Full(b: Batch, next: Item, budget: int) {
    |b| >= 20 || Cost(b) + ItemChars(next) > budget
  }

  /** A packing of the items in order into batches that fit. */
  ghost predicate IsPacking(items: Batch, batches: seq<Batch>, budget: int) {
    && Concat(batches) == items
    && forall i :: 0 <= i < |batches| ==> Fits(batches[i], budget)
  }

  /** A packing that closes a batch only when the next item does not go in. */
  ghost predicate IsGreedy(items: Batch, batches: seq<Batch>, budget: int) {
    && IsPacking(items, batches, budget)
    && forall i, j :: 0 <= i < j < |batches| && j == i + 1 ==> Full(batches[i], batches[j][0], budget)
  }

  lemma CostSnoc(b: Batch, item: Item)
    ensures Cost(b + [item]) == Cost(b) + ItemChars(item)
    ensures ItemChars(item) == |item.key| + |item.text| + 10 && Cost([]) == 2
  {
    assert (b + [item])[..|b|] == b;
    assert [item][..0] == [];
    assert EstimateBatchChars([item]) == 2 + |item.key| + |item.text| + 8;
  }

  lemma {:induction false} ConcatSnoc(batches: seq<Batch>, b: Batch)
    ensures Concat(batches + [b]) == Concat(batches) + b
  {
    if batches == [] {
      assert [b][1..] == [];
      assert batches + [b] == [b];
    } else {
      assert (batches + [b])[1..] == batches[1..] + [b];
      ConcatSnoc(batches[1..], b);
    }
  }

  /** The batches finished so far and the one being filled. */
  ghost function WithCurrent(batches: seq<Batch>, current: Batch): seq<Batch> {
    if current == [] then batches else batches + [current]
  }

  /** A fractional budget acts as its integer part. */
  method BuildTranslationBatches(items: Batch, budget: int) returns (batches: seq<Batch>)
    ensures IsGreedy(items, batches, budget)
  {
    batches := [];
    var current: Batch := [];
    var currentChars := 2;
    for i := 0 to |items|
      invariant currentChars == Cost(current)
      invariant current == [] <==> i == 0
      invariant current == [] ==> batches == []
      invariant IsGreedy(items[..i], WithCurrent(batches, current), budget)
    {
      var item := items[i];
      var itemChars := EstimateBatchChars([item]);
      var wouldOverflow := |current| > 0 && currentChars + itemChars > budget;
      var reachedMaxItems := |current| >= MAX_BATCH_ITEMS;
      assert items[..i + 1] == items[..i] + [item];
      if wouldOverflow || reachedMaxItems {
        GreedyNewBatch(items[..i], batches, current, item, budget);
        batches := batches + [current];
        current := [];
        currentChars := 2;
        CostSnoc([], item);
        assert [] + [item] == [item];
      } else {
        GreedyGrows(items[..i], batches, current, item, budget);
        CostSnoc(current, item);
      }
      current := current + [item];
      currentChars := currentChars + itemChars;
    }
    assert items[..|items|] == items;
    if |current| > 0 {
      batches := batches + [current];
    }
  }

  lemma GreedyNewBatch(items: Batch, batches: seq<Batch>, current: Batch, item: Item, budget: int)
    requires current != [] && IsGreedy(items, batches + [current], budget) && Full(current, item, budget)
    ensures IsGreedy(items + [item], batches + [current] + [[item]], budget)
  {
    ConcatSnoc(batches + [current], [item]);
    var all := batches + [current] + [[item]];
    forall i, j | 0 <= i < j < |all| && j == i + 1 ensures Full(all[i], all[j][0], budget) {
      if j < |all| - 1 {
        assert (batches + [current])[i] == all[i] && (batches + [current])[j] == all[j];
      }
    }
  }

  lemma GreedyGrows(items: Batch, batches: seq<Batch>, current: Batch, item: Item, budget: int)
    requires current == [] ==> batches == []
    requires IsGreedy(items, WithCurrent(batches, current), budget)
    requires |current| < 20 && (current != [] ==> Cost(current) + ItemChars(item) <= budget)
    ensures IsGreedy(items + [item], batches + [current + [item]], budget)
  {
    CostSnoc(current, item);
    ConcatSnoc(batches, current + [item]);
    ConcatSnoc(batches, current);
    var old_, all := WithCurrent(batches, current), batches + [current + [item]];
    forall i | 0 <= i < |all| ensures Fits(all[i], budget) {
      assert i < |batches| ==> all[i] == old_[i];
    }
    forall i, j | 0 <= i < j < |all| && j == i + 1 ensures Full(all[i], all[j][0], budget) {
      assert all[i] == old_[i] && all[j][0] == old_[j][0];
    }
  }

  // ---- what greedy packing means ----

  lemma {:induction false} CostSlice(b: Batch, i: nat, j: nat)
    requires i <= j <= |b|
    ensures Cost(b[i..j]) <= Cost(b)
    decreases |b| - (j - i)
  {
    if j < |b| {
      assert b[i..j + 1] == b[i..j] + [b[j]];
      CostSnoc(b[i..j], b[j]);
      CostSlice(b, i, j + 1);
    } else if i > 0 {
      CostCons(b[i - 1], b[i..j]);
      assert b[i - 1..j] == [b[i - 1]] + b[i..j];
      CostSlice(b, i - 1, j);
    } else {
      assert b[i..j] == b;
    }
  }

  lemma {:induction false} CostCons(item: Item, b: Batch)
    ensures Cost(b) <= Cost([item] + b)
  {
    if b == [] {
      CostSnoc([], item);
      assert [] + [item] == [item] + b;
    } else {
      var n := |b| - 1;
      CostCons(item, b[..n]);
      assert b == b[..n] + [b[n]];
      assert [item] + b == ([item] + b[..n]) + [b[n]];
      CostSnoc(b[..n], b[n]);
      CostSnoc([item] + b[..n], b[n]);
    }
  }

  /** A batch that fits holds no full run of its items followed by one more. */
  lemma NoFullRunInside(b: Batch, i: nat, j: nat, budget: int)
    requires Fits(b, budget) && i < j < |b|
    ensures !Full(b[i..j], b[j], budget)
  {
    assert b[i..j + 1] == b[i..j] + [b[j]];
    CostSnoc(b[i..j], b[j]);
    CostSlice(b, i, j + 1);
  }

  lemma GreedyTail(items: Batch, batches: seq<Batch>, budget: int)
    requires IsGreedy(items, batches, budget) && batches != []
    ensures |batches[0]| <= |items| && items[..|batches[0]|] == batches[0]
    ensures IsGreedy(items[|batches[0]|..], batches[1..], budget)
    ensures |items| > |batches[0]| ==> Full(batches[0], items[|batches[0]|], budget)
  {
    var tail := batches[1..];
    assert items[|batches[0]|..] == Concat(tail);
    forall i, j | 0 <= i < j < |tail| && j == i + 1 ensures Full(tail[i], tail[j][0], budget) {
      assert Full(batches[i + 1], batches[j + 1][0], budget);
    }
    if |items| > |batches[0]| {
      assert tail != [] && Fits(tail[0], budget);
      assert Full(batches[0], batches[1][0], budget);
    }
  }

  lemma PackingTail(items: Batch, batches: seq<Batch>, budget: int)
    requires IsPacking(items, batches, budget) && batches != []
    ensures |batches[0]| <= |items| && items[..|batches[0]|] == batches[0]
    ensures IsPacking(items[|batches[0]|..], batches[1..], budget)
  {
  }

  /** No packing gets further with its first batch than greedy packing does. */
  lemma GreedyIsAhead(items: Batch, from: nat, greedy: seq<Batch>, other: seq<Batch>, budget: int)
    requires from <= |items| && greedy != [] && other != []
    requires IsPacking(items, other, budget) && IsGreedy(items[from..], greedy, budget)
    ensures |other[0]| <= from + |greedy[0]|
  {
    GreedyTail(items[from..], greedy, budget);
    PackingTail(items, other, budget);
    if |other[0]| > from + |greedy[0]| {
      var end := from + |greedy[0]|;
      assert other[0][from..end] == items[from..][..|greedy[0]|] == greedy[0];
      assert other[0][end] == items[from..][|greedy[0]|];
      NoFullRunInside(other[0], from, end, budget);
    }
  }

  /** Greedy packing uses the fewest batches: it needs no more than any packing that started
      at or before the same item. */
  lemma {:induction false} GreedyIsFewest(items: Batch, from: nat, greedy: seq<Batch>, other: seq<Batch>, budget: int)
    requires from <= |items|
    requires IsPacking(items, other, budget) && IsGreedy(items[from..], greedy, budget)
    ensures |greedy| <= |other|
    decreases |greedy|
  {
    if greedy != [] {
      GreedyTail(items[from..], greedy, budget);
      assert Fits(greedy[0], budget) && Concat(other) == items;
      assert other != [];
      GreedyIsAhead(items, from, greedy, other, budget);
      PackingTail(items, other, budget);
      var k := |other[0]|;
      assert items[k..][from + |greedy[0]| - k..] == items[from..][|greedy[0]|..];
      GreedyIsFewest(items[k..], from + |greedy[0]| - k, greedy[1..], other[1..], budget);
    }
  }

  lemma PackingEmptyIff(items: Batch, batches: seq<Batch>, budget: int)
    requires IsPacking(items, batches, budget)
    ensures items == [] <==> batches == []
  {
    assert batches != [] ==> Fits(batches[0], budget);
  }

  /** The closing rule leaves no choice: there is one greedy packing. */
  lemma {:induction false} GreedyIsUnique(items: Batch, a: seq<Batch>, b: seq<Batch>, budget: int)
    requires IsGreedy(items, a, budget) && IsGreedy(items, b, budget)
    ensures a == b
    decreases |a|
  {
    if a == [] || b == [] {
      PackingEmptyIff(items, a, budget);
      PackingEmptyIff(items, b, budget);
    } else {
      assert items[0..] == items;
      GreedyIsAhead(items, 0, a, b, budget);
      GreedyIsAhead(items, 0, b, a, budget);
      GreedyTail(items, a, budget);
      GreedyTail(items, b, budget);
      assert a[0] == b[0];
      GreedyIsUnique(items[|a[0]|..], a[1..], b[1..], budget);
      assert a == [a[0]] + a[1..] && b == [b[0]] + b[1..];
    }
  }

  /** The packer's batches are the fewest possible: no in-order packing within the same
      limits uses less. */
  lemma PackerUsesFewest(items: Batch, batches: seq<Batch>, other: seq<Batch>, budget: int)
    requires IsGreedy(items, batches, budget) && IsPacking(items, other, budget)
    ensures |batches| <= |other|
  {
    assert items[0..] == items;
    GreedyIsFewest(items, 0, batches, other, budget);
  }
}
