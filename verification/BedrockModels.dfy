/** The model list of one Bedrock discovery: the foundation models, then the inference
    profiles that add a new id, each with the capabilities of its foundation model. */
module BedrockModels {
  import opened Basics
  import opened BedrockEntries
  import opened Whitespace

  predicate Names(models: seq<Model>, id: string) {
    exists i :: 0 <= i < |models| && Norm(models[i].id) == id
  }

  predicate IsLast(models: seq<Model>, id: string, i: nat)
    requires i < |models|
  {
    Norm(models[i].id) == id && forall j :: i < j < |models| ==> Norm(models[j].id) != id
  }

  /** The last model listed under an id. */
  function LastNamed(models: seq<Model>, id: string): Option<Model> {
    if models == [] then None
    else if Norm(models[|models| - 1].id) == id then Some(models[|models| - 1])
    else LastNamed(models[..|models| - 1], id)
  }

  lemma {:induction false} LastNamedIsLast(models: seq<Model>, id: string, i: nat)
    requires i < |models| && IsLast(models, id, i)
    ensures LastNamed(models, id) == Some(models[i])
  {
    hide Norm;
    var n := |models| - 1;
    if i < n {
      assert IsLast(models[..n], id, i);
      LastNamedIsLast(models[..n], id, i);
    }
  }

  lemma {:induction false} LastNamedNone(models: seq<Model>, id: string)
    ensures LastNamed(models, id).None? <==> !Names(models, id)
  {
    hide Norm;
    if models != [] {
      var n := |models| - 1;
      LastNamedNone(models[..n], id);
      NamesSnoc(models[..n], models[n]);
      assert models[..n] + [models[n]] == models;
      hide Names;
    }
  }

  /** The included summaries as models, in order. */
  function Foundation(summaries: seq<Summary>, filter: seq<string>, d: Defaults): seq<Model> {
    if summaries == [] then []
    else
      var s := summaries[|summaries| - 1];
      Foundation(summaries[..|summaries| - 1], filter, d) + if Included(s, filter) then [ToModel(s, d)] else []
  }

  function DefaultCapabilities(d: Defaults): Capabilities {
    Capabilities(false, [TextInput], d.contextWindow, d.maxTokens)
  }

  /** The profile as a model: its own id and name, its foundation model's capabilities. */
  function Resolve(foundation: seq<Model>, d: Defaults, p: Profile): Model {
    var named := BaseId(p);
    var base := if named.Some? then LastNamed(foundation, Norm(named.value)) else None;
    Model(OrEmpty(p.id), NameOr(p.name, OrEmpty(p.id)), if base.Some? then base.value.can else DefaultCapabilities(d))
  }

  function ResolveAll(foundation: seq<Model>, d: Defaults, filter: seq<string>, profiles: seq<Profile>): seq<Model> {
    if profiles == [] then []
    else
      var p := profiles[|profiles| - 1];
      ResolveAll(foundation, d, filter, profiles[..|profiles| - 1])
      + if Usable(p, filter) then [Resolve(foundation, d, p)] else []
  }

  /** The foundation list is exactly the included summaries, in order. */
  lemma {:induction false} FoundationIsFiltered(summaries: seq<Summary>, filter: seq<string>, d: Defaults)
    returns (picks: seq<nat>)
    ensures |Foundation(summaries, filter, d)| == |picks|
    ensures forall a :: 0 <= a < |picks| ==>
      picks[a] < |summaries| && Foundation(summaries, filter, d)[a] == ToModel(summaries[picks[a]], d)
    ensures forall a, b :: 0 <= a < b < |picks| ==> picks[a] < picks[b]
    ensures forall k: nat :: k < |summaries| ==> (k in picks <==> Included(summaries[k], filter))
  {
    hide Included, ToModel;
    picks := [];
    if summaries != [] {
      var n := |summaries| - 1;
      picks := FoundationIsFiltered(summaries[..n], filter, d);
      assert forall k :: 0 <= k < n ==> summaries[..n][k] == summaries[k];
      assert n !in picks;
      if Included(summaries[n], filter) {
        picks := picks + [n];
      }
    }
  }

  lemma {:induction false} ResolvedIsFiltered(foundation: seq<Model>, d: Defaults, filter: seq<string>,
      profiles: seq<Profile>)
    returns (picks: seq<nat>)
    ensures |ResolveAll(foundation, d, filter, profiles)| == |picks|
    ensures forall a :: 0 <= a < |picks| ==>
      picks[a] < |profiles| &&
      ResolveAll(foundation, d, filter, profiles)[a] == Resolve(foundation, d, profiles[picks[a]])
    ensures forall a, b :: 0 <= a < b < |picks| ==> picks[a] < picks[b]
    ensures forall k: nat :: k < |profiles| ==> (k in picks <==> Usable(profiles[k], filter))
  {
    hide Usable, Resolve;
    picks := [];
    if profiles != [] {
      var n := |profiles| - 1;
      picks := ResolvedIsFiltered(foundation, d, filter, profiles[..n]);
      assert forall k :: 0 <= k < n ==> profiles[..n][k] == profiles[k];
      assert n !in picks;
      if Usable(profiles[n], filter) {
        picks := picks + [n];
      }
    }
  }

  /** A used profile keeps its id and has its trimmed name or the id; it inherits from the last
      foundation model with its base id, and otherwise reads text only, without reasoning
      and with the default limits. */
  lemma ResolvedFields(foundation: seq<Model>, d: Defaults, p: Profile)
    requires p.id.Some?
    ensures var m := Resolve(foundation, d, p);
      && m.id == p.id.value
      && m.name == (if p.name.Some? && Trim(p.name.value) != "" then Trim(p.name.value) else p.id.value)
      && (forall i :: 0 <= i < |foundation| && BaseId(p).Some? && IsLast(foundation, Norm(BaseId(p).value), i) ==>
            m.can == foundation[i].can)
      && (BaseId(p).None? || !Names(foundation, Norm(BaseId(p).value)) ==>
            m.can == Capabilities(false, [TextInput], d.contextWindow, d.maxTokens))
  {
    assert Trim("") == "";
    hide Trim, BaseId, Norm;
    if BaseId(p).Some? {
      var id := Norm(BaseId(p).value);
      LastNamedNone(foundation, id);
      forall i | 0 <= i < |foundation| && IsLast(foundation, id, i)
        ensures LastNamed(foundation, id) == Some(foundation[i]) {
        LastNamedIsLast(foundation, id, i);
      }
    }
  }

  /** A profile under a region prefix has the capabilities of the foundation model it is named
      after, whatever its own name. */
  lemma RegionalProfileInherits(foundation: seq<Model>, d: Defaults, p: Profile, region: string, i: nat)
    requires i < |foundation| && IsLast(foundation, Norm(foundation[i].id), i) && IsTail(foundation[i].id)
    requires p.kind == "SYSTEM_DEFINED" && (p.arns == [] || AfterMark(OrEmpty(p.arns[0])).None?)
    requires Lower(region) in ["us", "eu", "ap", "jp", "global"] && p.id == Some(region + "." + foundation[i].id)
    ensures Resolve(foundation, d, p).can == foundation[i].can && Resolve(foundation, d, p).id == p.id.value
  {
    RegionPrefixNamesBase(p, region, foundation[i].id);
    LastNamedIsLast(foundation, Norm(foundation[i].id), i);
    hide Norm, BaseId, LastNamed;
  }

  /** k is the first of `more` with its id, and `models` does not have that id. */
  ghost predicate IsNew(models: seq<Model>, more: seq<Model>, k: nat)
    requires k < |more|
  {
    !Names(models, Norm(more[k].id)) && !Names(more[..k], Norm(more[k].id))
  }

  /** `merged` is `models`, followed by exactly the new entries of `more`, in order. */
  ghost predicate IsMerge(models: seq<Model>, more: seq<Model>, merged: seq<Model>, picks: seq<nat>) {
    && |merged| == |models| + |picks| && models <= merged
    && (forall a :: 0 <= a < |picks| ==> picks[a] < |more| && merged[|models| + a] == more[picks[a]])
    && (forall a, b :: 0 <= a < b < |picks| ==> picks[a] < picks[b])
    && (forall k: nat :: k < |more| ==> (k in picks <==> IsNew(models, more, k)))
  }

  method ResolveInferenceProfiles(profiles: seq<Profile>, d: Defaults, filter: seq<string>,
      foundation: seq<Model>, foundationModels: map<string, Model>)
    returns (discovered: seq<Model>)
    requires Indexed(foundation, foundationModels)
    ensures discovered == ResolveAll(foundation, d, filter, profiles)
  {
    hide Usable, BaseId, Norm, NameOr;
    discovered := [];
    for i := 0 to |profiles|
      invariant discovered == ResolveAll(foundation, d, filter, profiles[..i])
    {
      assert profiles[..i + 1][..i] == profiles[..i];
      var p := profiles[i];
      if !Usable(p, filter) {
        continue;
      }
      var base := BaseId(p);
      var can := DefaultCapabilities(d);
      if base.Some? && Norm(base.value) in foundationModels {
        can := foundationModels[Norm(base.value)].can;
      }
      discovered := discovered + [Model(OrEmpty(p.id), NameOr(p.name, OrEmpty(p.id)), can)];
    }
    assert profiles[..|profiles|] == profiles;
  }

  /** The table maps every listed id to the last model under it. */
  ghost predicate Indexed(models: seq<Model>, table: map<string, Model>) {
    forall id :: LastNamed(models, id) == if id in table then Some(table[id]) else None
  }

  lemma IndexedSnoc(models: seq<Model>, table: map<string, Model>, m: Model)
    requires Indexed(models, table)
    ensures Indexed(models + [m], table[Norm(m.id) := m])
  {
    assert (models + [m])[..|models|] == models;
  }

  /** The first loop: every included summary is listed and indexed by its id. */
  method ListFoundation(summaries: seq<Summary>, filter: seq<string>, d: Defaults)
    returns (discovered: seq<Model>, seenIds: set<string>, foundationModels: map<string, Model>)
    ensures discovered == Foundation(summaries, filter, d) && seenIds == foundationModels.Keys
    ensures forall id :: id in foundationModels <==> Names(discovered, id)
    ensures Indexed(discovered, foundationModels)
  {
    discovered, seenIds, foundationModels := [], {}, map[];
    for i := 0 to |summaries|
      invariant discovered == Foundation(summaries[..i], filter, d) && seenIds == foundationModels.Keys
      invariant forall id :: id in foundationModels <==> Names(discovered, id)
      invariant Indexed(discovered, foundationModels)
    {
      assert summaries[..i + 1][..i] == summaries[..i];
      hide Included, ToModel, Norm;
      if !Included(summaries[i], filter) {
        continue;
      }
      var def := ToModel(summaries[i], d);
      NamesSnoc(discovered, def);
      IndexedSnoc(discovered, foundationModels, def);
      hide Names, Indexed;
      discovered := discovered + [def];
      seenIds := seenIds + {Norm(def.id)};
      foundationModels := foundationModels[Norm(def.id) := def];
    }
    assert summaries[..|summaries|] == summaries;
  }

  /** The last loop: a profile is listed unless its id has been seen. */
  method MergeProfiles(foundation: seq<Model>, more: seq<Model>, foundationIds: set<string>)
    returns (discovered: seq<Model>)
    requires forall id :: id in foundationIds <==> Names(foundation, id)
    ensures exists picks :: IsMerge(foundation, more, discovered, picks)
  {
    discovered := foundation;
    ghost var picks: seq<nat> := [];
    var seenIds := foundationIds;
    for k := 0 to |more|
      invariant IsMerge(foundation, more[..k], discovered, picks)
      invariant forall id :: id in seenIds <==> Names(discovered, id)
    {
      MergeSnoc(foundation, more, discovered, picks, k);
      NamesSnoc(discovered, more[k]);
      hide Names, IsMerge;
      if Norm(more[k].id) !in seenIds {
        discovered := discovered + [more[k]];
        seenIds := seenIds + {Norm(more[k].id)};
        picks := picks + [k];
      }
    }
    assert more[..|more|] == more;
  }

  /** The list before sorting. */
  method CollectModels(summaries: seq<Summary>, profiles: seq<Profile>, filter: seq<string>, d: Defaults)
    returns (discovered: seq<Model>)
    ensures var foundation := Foundation(summaries, filter, d);
      exists picks ::
        IsMerge(foundation, ResolveAll(foundation, d, filter, profiles), discovered, picks)
  {
    var listed, seenIds, foundationModels := ListFoundation(summaries, filter, d);
    var inferenceProfiles := ResolveInferenceProfiles(profiles, d, filter, listed, foundationModels);
    discovered := MergeProfiles(listed, inferenceProfiles, seenIds);
  }

  lemma NamesSnoc(models: seq<Model>, m: Model)
    ensures forall id :: Names(models + [m], id) <==> Names(models, id) || id == Norm(m.id)
  {
    forall id | Names(models, id) ensures Names(models + [m], id) {
      var i :| 0 <= i < |models| && Norm(models[i].id) == id;
      assert (models + [m])[i] == models[i];
    }
    assert (models + [m])[|models|] == m;
  }

  /** Taking the next entry when its id is new, and skipping it otherwise, keeps the merge. */
  lemma MergeSnoc(models: seq<Model>, more: seq<Model>, merged: seq<Model>, picks: seq<nat>, k: nat)
    requires k < |more| && IsMerge(models, more[..k], merged, picks)
    ensures if Names(merged, Norm(more[k].id)) then IsMerge(models, more[..k + 1], merged, picks)
      else IsMerge(models, more[..k + 1], merged + [more[k]], picks + [k])
  {
    hide Norm;
    MergeHasEachIdOnce(models, more[..k], merged, picks);
    var next := more[..k + 1];
    forall i: nat | i <= k
      ensures next[..i] == more[..i] && next[i] == more[i] && (i < k ==> more[..k][..i] == more[..i])
    {
    }
    forall i: nat | i < k ensures IsNew(models, next, i) <==> IsNew(models, more[..k], i) {
      assert more[..k][i] == next[i] && more[..k][..i] == next[..i];
    }
    assert IsNew(models, next, k) <==> !Names(merged, Norm(more[k].id));
    assert forall a :: 0 <= a < |picks| ==> picks[a] < k && more[..k][picks[a]] == next[picks[a]];
    assert forall i :: i in picks ==> exists a :: 0 <= a < |picks| && picks[a] == i;
    assert k !in picks;
    forall i: nat | i < |next| ensures i in picks + [k] <==> i in picks || i == k {
    }
  }

  /** No profile repeats an id of the list, and every profile's id is in the list. */
  lemma MergeHasEachIdOnce(models: seq<Model>, more: seq<Model>, merged: seq<Model>, picks: seq<nat>)
    requires IsMerge(models, more, merged, picks)
    ensures forall i, j :: 0 <= i < j < |merged| && |models| <= j ==> Norm(merged[i].id) != Norm(merged[j].id)
    ensures forall id :: Names(merged, id) <==> Names(models, id) || Names(more, id)
  {
    forall i, j | 0 <= i < j < |merged| && |models| <= j ensures Norm(merged[i].id) != Norm(merged[j].id) {
      var b := picks[j - |models|];
      assert b in picks && merged[j] == more[b];
      if i < |models| {
        assert merged[i] == models[i];
      } else {
        var a := picks[i - |models|];
        assert merged[i] == more[a] && more[..b][a] == more[a];
      }
    }
    forall id ensures Names(merged, id) <==> Names(models, id) || Names(more, id) {
      EachIdMerged(models, more, merged, picks, id);
    }
  }

  lemma EachIdMerged(models: seq<Model>, more: seq<Model>, merged: seq<Model>, picks: seq<nat>,
      id: string)
    requires IsMerge(models, more, merged, picks)
    ensures Names(merged, id) <==> Names(models, id) || Names(more, id)
  {
    if Names(models, id) {
      var i :| 0 <= i < |models| && Norm(models[i].id) == id;
      assert merged[i] == models[i];
    } else if Names(more, id) {
      var k := FirstNamed(more, id);
      assert IsNew(models, more, k) && k in picks;
      var a :| 0 <= a < |picks| && picks[a] == k;
      assert merged[|models| + a] == more[k];
    }
    if Names(merged, id) {
      var i :| 0 <= i < |merged| && Norm(merged[i].id) == id;
      if i < |models| {
        assert merged[i] == models[i];
      } else {
        assert merged[i] == more[picks[i - |models|]];
      }
    }
  }

  lemma {:induction false} FirstNamed(more: seq<Model>, id: string) returns (k: nat)
    requires Names(more, id)
    ensures k < |more| && Norm(more[k].id) == id && !Names(more[..k], id)
  {
    var n := |more| - 1;
    if Names(more[..n], id) {
      k := FirstNamed(more[..n], id);
      assert more[..n][..k] == more[..k];
    } else {
      k := n;
    }
  }
}
