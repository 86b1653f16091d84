/** One locale's sync: reuse what is known, translate the rest, fall back to English, and
    write the locale, its metadata, glossary and translation memory. */
module SyncLocale {
  import opened Basics
  import opened Whitespace
  import opened TranslationBatches
  import Tree = TranslationTree
  import Service = TranslateBatch

  const WORKFLOW: nat := 1

  type Texts = map<string, string>

  datatype TmEntry = TmEntry(segmentId: string, text: string, textHash: string, translated: string,
    provider: string, model: string, updatedAt: int)

  /** Translation memory entries by cache key. */
  type Tm = map<string, TmEntry>

  type Glossary = seq<(string, string)>

  datatype Meta = Meta(fallbackKeys: seq<string>, generatedAt: int, locale: string, model: string,
    provider: string, sourceHash: string, totalKeys: nat, translatedKeys: int, workflow: nat)

  /** A file and whether its bytes are those the renderer prints for its value. */
  datatype File<T> = Missing | OnDisk(value: T, canonical: bool)

  datatype Files = Files(locale: File<Tree.Forest>, meta: File<Meta>, glossary: File<Glossary>, tm: File<Tm>)

  datatype Source = Source(tree: Tree.Forest, hash: string)

  datatype Options = Options(checkOnly: bool, force: bool, write: bool)

  /** The hashes and the locale-aware sort are parameters. */
  datatype Settings = Settings(
    locale: string,
    allowTranslate: bool,
    provider: string,
    model: string,
    budget: int,
    hashText: string -> string,
    cacheKey: (string, string) -> string,
    sort: seq<string> -> seq<string>,
    defaultGlossary: Glossary)

  /** Hashes do not collide and are not empty, and sorting by a total order depends only on
      the keys present. */
  ghost predicate SettingsOk(st: Settings) {
    && (forall k, h, k', h' :: st.cacheKey(k, h) == st.cacheKey(k', h') ==> k == k' && h == h')
    && (forall k, h :: st.cacheKey(k, h) != "")
    && (forall a: seq<string>, b: seq<string> :: multiset(a) == multiset(b) ==> st.sort(a) == st.sort(b))
    && (forall a: seq<string> :: multiset(st.sort(a)) == multiset(a))
    && st.defaultGlossary != []
  }

  function ToMap(flat: Tree.Flat): Texts {
    if flat == [] then map[] else ToMap(flat[..|flat| - 1])[flat[|flat| - 1].0 := flat[|flat| - 1].1]
  }

  /** Loading drops entries without a key or with a blank translation. */
  function LoadTm(f: File<Tm>): Tm {
    if f.Missing? then map[]
    else map k | k in f.value && k != "" && !AllBlank(f.value[k].translated) :: f.value[k]
  }

  /** What a run knows before it decides anything. */
  datatype Env = Env(st: Settings, force: bool, tm: Tm, existing: Texts, previousFallback: set<string>)

  function LoadEnv(st: Settings, o: Options, files: Files): Env {
    Env(st, o.force, LoadTm(files.tm),
        ToMap(Tree.Flatten(if files.locale.OnDisk? then files.locale.value else Tree.Nil)),
        if files.meta.OnDisk? then (set k | k in files.meta.value.fallbackKeys) else {})
  }

  function CacheKeyOf(env: Env, key: string, text: string): string {
    env.st.cacheKey(key, env.st.hashText(text))
  }

  /** The text kept without translating: the memory first, then the locale file, unless the
      key is an old fallback that can now be translated. */
  function Reused(env: Env, key: string, text: string): Option<string> {
    var retry := env.st.allowTranslate && key in env.previousFallback;
    var ck := CacheKeyOf(env, key, text);
    if ck in env.tm && !retry then Some(env.tm[ck].translated)
    else if key in env.existing && !retry then Some(env.existing[key])
    else None
  }

  function ItemOf(env: Env, key: string, text: string): Item {
    Item(CacheKeyOf(env, key, text), key, text, env.st.hashText(text))
  }

  /** The keys that need work, in source order. */
  function Pending(env: Env, flat: Tree.Flat): Batch {
    if flat == [] then []
    else
      var (key, text) := flat[|flat| - 1];
      Pending(env, flat[..|flat| - 1]) + if Reused(env, key, text).None? then [ItemOf(env, key, text)] else []
  }

  function ReusedTexts(env: Env, flat: Tree.Flat): Texts {
    if flat == [] then map[]
    else
      var (key, text) := flat[|flat| - 1];
      var before := ReusedTexts(env, flat[..|flat| - 1]);
      if Reused(env, key, text).Some? then before[key := Reused(env, key, text).value] else before
  }

  /** Old fallback keys that stay fallbacks because they were reused. */
  function ReusedFallbacks(env: Env, flat: Tree.Flat): seq<string> {
    if flat == [] then []
    else
      var (key, text) := flat[|flat| - 1];
      ReusedFallbacks(env, flat[..|flat| - 1])
      + if Reused(env, key, text).Some? && key in env.previousFallback then [key] else []
  }

  /** Translating the batches one after another. */
  function TranslateAll(batches: seq<Batch>, service: Service.Service, n: nat): (Service.Result, nat) {
    if batches == [] then (Service.Done(map[]), n)
    else
      var (first, next) := Service.Translate(batches[0], service, n, 0);
      if first.Failed? then (first, next)
      else
        var (rest, end) := TranslateAll(batches[1..], service, next);
        if rest.Failed? then (rest, end) else (Service.Done(first.translated + rest.translated), end)
  }

  predicate Got(translated: Texts, key: string) {
    key in translated && translated[key] != ""
  }

  function TmWith(env: Env, tm: Tm, items: Batch, translated: Texts, now: int): Tm {
    if items == [] then tm
    else
      var item := items[|items| - 1];
      var before := TmWith(env, tm, items[..|items| - 1], translated, now);
      if Got(translated, item.key) then
        before[item.cacheKey := TmEntry(item.key, item.text, item.textHash, translated[item.key],
                                        env.st.provider, env.st.model, now)]
      else before
  }

  /** The text of a pending key that was not translated, and whether it becomes a fallback. */
  function FallbackText(env: Env, item: Item): (string, bool) {
    if item.key in env.existing && !env.force
    then (env.existing[item.key], item.key in env.previousFallback)
    else (item.text, true)
  }

  function PendingTexts(env: Env, items: Batch, translated: Texts): Texts {
    if items == [] then map[]
    else
      var item := items[|items| - 1];
      PendingTexts(env, items[..|items| - 1], translated)[item.key :=
        if Got(translated, item.key) then translated[item.key] else FallbackText(env, item).0]
  }

  function PendingFallbacks(env: Env, items: Batch, translated: Texts): seq<string> {
    if items == [] then []
    else
      var item := items[|items| - 1];
      PendingFallbacks(env, items[..|items| - 1], translated)
      + if !Got(translated, item.key) && FallbackText(env, item).1 then [item.key] else []
  }

  /** What a completed run decided. */
  datatype Plan = Plan(nextFlat: Texts, fallbacks: seq<string>, tm: Tm)

  function PlanOf(env: Env, flat: Tree.Flat, translated: Texts, now: int): Plan {
    var pending := Pending(env, flat);
    Plan(ReusedTexts(env, flat) + PendingTexts(env, pending, translated),
         ReusedFallbacks(env, flat) + PendingFallbacks(env, pending, translated),
         TmWith(env, env.tm, pending, translated, now))
  }

  function NextMeta(st: Settings, files: Files, source: Source, fallbackKeys: seq<string>, total: nat, now: int): Meta {
    var previous := files.meta;
    var provider := if st.allowTranslate then st.provider else if previous.OnDisk? then previous.value.provider else "";
    var model := if st.allowTranslate then st.model else if previous.OnDisk? then previous.value.model else "";
    var translated := total - |fallbackKeys|;
    var next := Meta(fallbackKeys, now, st.locale, model, provider, source.hash, total, translated, WORKFLOW);
    if previous.OnDisk? && previous.value == next.(generatedAt := previous.value.generatedAt)
    then previous.value else next
  }

  function ExpectedGlossary(st: Settings, files: Files): Glossary {
    if files.glossary.OnDisk? && files.glossary.value != [] then files.glossary.value else st.defaultGlossary
  }

  predicate Same<T(==)>(f: File<T>, value: T) {
    f == OnDisk(value, true)
  }

  /** The empty memory renders to no text at all, as a missing file reads. */
  predicate SameTm(f: File<Tm>, tm: Tm) {
    Same(f, tm) || (f.Missing? && tm == map[])
  }

  function WrittenTm(f: File<Tm>, tm: Tm): File<Tm> {
    if tm == map[] && f.Missing? then Missing else OnDisk(tm, true)
  }

  datatype Run =
    | Aborted(attempts: nat)
    | Completed(pending: Batch, nextFlat: Texts, fallbackKeys: seq<string>, attempts: nat, changed: bool,
                wrote: bool, files: Files)

  function Finish(st: Settings, o: Options, files: Files, source: Source, pending: Batch, plan: Plan, attempts: nat,
      now: int): Run
  {
    var flat := Tree.Flatten(source.tree);
    var nextMap := Tree.Rebuild(Tree.Nil, Tree.RelabelFlat(flat, plan.nextFlat));
    var fallbackKeys := st.sort(plan.fallbacks);
    var meta := NextMeta(st, files, source, fallbackKeys, |flat|, now);
    var glossary := ExpectedGlossary(st, files);
    var changed := !(Same(files.locale, nextMap) && Same(files.meta, meta) && Same(files.glossary, glossary)
      && SameTm(files.tm, plan.tm));
    var wrote := !o.checkOnly && o.write && changed;
    Completed(pending, plan.nextFlat, fallbackKeys, attempts, changed, wrote,
      if wrote
      then Files(OnDisk(nextMap, true), OnDisk(meta, true), OnDisk(glossary, true), WrittenTm(files.tm, plan.tm))
      else files)
  }

  /** The whole run, given the greedy batches of its pending items. */
  function Sync(st: Settings, o: Options, files: Files, source: Source, batches: seq<Batch>,
      service: Service.Service, now: int): Run {
    var env := LoadEnv(st, o, files);
    var flat := Tree.Flatten(source.tree);
    var pending := Pending(env, flat);
    if st.allowTranslate && |pending| > 0 then
      var (r, attempts) := TranslateAll(batches, service, 0);
      if r.Failed? then Aborted(attempts)
      else Finish(st, o, files, source, pending, PlanOf(env, flat, r.translated, now), attempts, now)
    else
      Finish(st, o, files, source, pending, PlanOf(env, flat, map[], now), 0, now)
  }

  /** The batches of a run's pending items are the packer's. */
  ghost predicate PackedFor(st: Settings, o: Options, files: Files, source: Source, batches: seq<Batch>) {
    IsGreedy(Pending(LoadEnv(st, o, files), Tree.Flatten(source.tree)), batches, st.budget)
  }

  // ---- the loops ----

  method ReusePass(env: Env, flat: Tree.Flat) returns (nextFlat: Texts, pending: Batch, fallbackKeys: seq<string>)
    ensures nextFlat == ReusedTexts(env, flat)
    ensures pending == Pending(env, flat) && fallbackKeys == ReusedFallbacks(env, flat)
  {
    nextFlat, pending, fallbackKeys := map[], [], [];
    for i := 0 to |flat|
      invariant nextFlat == ReusedTexts(env, flat[..i])
      invariant pending == Pending(env, flat[..i]) && fallbackKeys == ReusedFallbacks(env, flat[..i])
    {
      assert flat[..i + 1][..i] == flat[..i];
      var (key, text) := flat[i];
      var segmentCacheKey := CacheKeyOf(env, key, text);
      var shouldRefreshFallback := key in env.previousFallback;
      var retry := env.st.allowTranslate && shouldRefreshFallback;
      if segmentCacheKey in env.tm && !retry {
        nextFlat := nextFlat[key := env.tm[segmentCacheKey].translated];
        fallbackKeys := fallbackKeys + if shouldRefreshFallback then [key] else [];
      } else if key in env.existing && !retry {
        nextFlat := nextFlat[key := env.existing[key]];
        fallbackKeys := fallbackKeys + if shouldRefreshFallback then [key] else [];
      } else {
        pending := pending + [Item(segmentCacheKey, key, text, env.st.hashText(text))];
      }
    }
    assert flat[..|flat|] == flat;
  }

  method TranslatePending(batches: seq<Batch>, service: Service.Service) returns (r: Service.Result, attempts: nat)
    ensures (r, attempts) == TranslateAll(batches, service, 0)
  {
    var translated: Texts := map[];
    attempts := 0;
    assert batches[0..] == batches;
    ghost var (all, _) := TranslateAll(batches, service, 0);
    assert all.Done? ==> map[] + all.translated == all.translated;
    for i := 0 to |batches|
      invariant var (rest, end) := TranslateAll(batches[i..], service, attempts);
        TranslateAll(batches, service, 0)
          == (if rest.Failed? then rest else Service.Done(translated + rest.translated), end)
    {
      assert batches[i..][0] == batches[i] && batches[i..][1..] == batches[i + 1..];
      var batch;
      ghost var before := attempts;
      batch, attempts := Service.TranslateBatch(batches[i], service, attempts);
      if batch.Failed? {
        return batch, attempts;
      }
      ghost var (rest, _) := TranslateAll(batches[i + 1..], service, attempts);
      assert rest.Done? ==>
        translated + (batch.translated + rest.translated) == (translated + batch.translated) + rest.translated;
      translated := translated + batch.translated;
    }
    assert batches[|batches|..] == [];
    assert translated + map[] == translated;
    return Service.Done(translated), attempts;
  }

  method RecordTranslations(env: Env, items: Batch, translated: Texts, now: int) returns (tm: Tm)
    ensures tm == TmWith(env, env.tm, items, translated, now)
  {
    tm := env.tm;
    for i := 0 to |items|
      invariant tm == TmWith(env, env.tm, items[..i], translated, now)
    {
      assert items[..i + 1][..i] == items[..i];
      var item := items[i];
      if Got(translated, item.key) {
        tm := tm[item.cacheKey := TmEntry(item.key, item.text, item.textHash, translated[item.key],
                                          env.st.provider, env.st.model, now)];
      }
    }
    assert items[..|items|] == items;
  }

  method FallbackPass(env: Env, items: Batch, translated: Texts) returns (texts: Texts, fallbackKeys: seq<string>)
    ensures texts == PendingTexts(env, items, translated)
    ensures fallbackKeys == PendingFallbacks(env, items, translated)
  {
    texts, fallbackKeys := map[], [];
    for i := 0 to |items|
      invariant texts == PendingTexts(env, items[..i], translated)
      invariant fallbackKeys == PendingFallbacks(env, items[..i], translated)
    {
      assert items[..i + 1][..i] == items[..i];
      var item := items[i];
      if Got(translated, item.key) {
        texts := texts[item.key := translated[item.key]];
      } else if item.key in env.existing && !env.force {
        texts := texts[item.key := env.existing[item.key]];
        fallbackKeys := fallbackKeys + if item.key in env.previousFallback then [item.key] else [];
      } else {
        texts := texts[item.key := item.text];
        fallbackKeys := fallbackKeys + [item.key];
      }
    }
    assert items[..|items|] == items;
  }

  method SyncLocale(st: Settings, o: Options, files: Files, source: Source, service: Service.Service, now: int)
    returns (run: Run)
    ensures exists batches ::
      PackedFor(st, o, files, source, batches) && run == Sync(st, o, files, source, batches, service, now)
  {
    var env := LoadEnv(st, o, files);
    var flat := Tree.Flatten(source.tree);
    var nextFlat, pending, fallbackKeys := ReusePass(env, flat);
    var packed := BuildTranslationBatches(pending, st.budget);
    assert PackedFor(st, o, files, source, packed);
    var translated: Texts := map[];
    var attempts := 0;
    if st.allowTranslate && |pending| > 0 {
      var r;
      r, attempts := TranslatePending(packed, service);
      if r.Failed? {
        return Aborted(attempts);
      }
      translated := r.translated;
    }
    var tm := RecordTranslations(env, pending, translated, now);
    var texts, more := FallbackPass(env, pending, translated);
    run := Finish(st, o, files, source, pending, Plan(nextFlat + texts, fallbackKeys + more, tm), attempts, now);
  }

  // ---- what one run does ----

  /** The source's flat keys, listed once each. */
  ghost predicate DistinctFlat(flat: Tree.Flat) {
    forall i, j :: 0 <= i < j < |flat| ==> flat[i].0 != flat[j].0
  }

  function FlatKeys(flat: Tree.Flat): set<string> {
    set i | 0 <= i < |flat| :: flat[i].0
  }

  lemma FlatKeysSnoc(flat: Tree.Flat)
    requires flat != []
    ensures FlatKeys(flat) == FlatKeys(flat[..|flat| - 1]) + {flat[|flat| - 1].0}
  {
    var n := |flat| - 1;
    assert forall i :: 0 <= i < n ==> flat[..n][i] == flat[i];
  }

  lemma SourceIsDistinct(f: Tree.Forest)
    requires Tree.WellFormed(f)
    ensures DistinctFlat(Tree.Flatten(f))
  {
    forall i, j | 0 <= i < j < |Tree.Flatten(f)| ensures Tree.Flatten(f)[i].0 != Tree.Flatten(f)[j].0 {
      Tree.FlatKeysPrefixFree(f, i, j);
    }
  }

  lemma ItemKeysSnoc(items: Batch, item: Item)
    ensures Service.KeysOf(items + [item]) == Service.KeysOf(items) + {item.key}
  {
    Service.KeysSnoc(items + [item], |items|);
    assert (items + [item])[..|items| + 1] == items + [item] && (items + [item])[..|items|] == items;
  }

  /** Every source key is either reused or pending, never both. */
  lemma {:induction false} KeysPartition(env: Env, flat: Tree.Flat)
    requires DistinctFlat(flat)
    ensures ReusedTexts(env, flat).Keys + Service.KeysOf(Pending(env, flat)) == FlatKeys(flat)
    ensures ReusedTexts(env, flat).Keys !! Service.KeysOf(Pending(env, flat))
  {
    if flat != [] {
      var n := |flat| - 1;
      FlatKeysSnoc(flat);
      KeysPartition(env, flat[..n]);
      assert flat[n].0 !in FlatKeys(flat[..n]);
      var before := Pending(env, flat[..n]);
      ItemKeysSnoc(before, ItemOf(env, flat[n].0, flat[n].1));
      assert before + [] == before;
    }
  }

  lemma {:induction false} PendingTextKeys(env: Env, items: Batch, translated: Texts)
    ensures PendingTexts(env, items, translated).Keys == Service.KeysOf(items)
  {
    if items != [] {
      var n := |items| - 1;
      PendingTextKeys(env, items[..n], translated);
      ItemKeysSnoc(items[..n], items[n]);
      assert items == items[..n] + [items[n]];
    }
  }

  /** A successful run over greedy batches translated exactly the pending keys. */
  lemma {:induction false} TranslateAllCovers(batches: seq<Batch>, service: Service.Service, n: nat)
    requires TranslateAll(batches, service, n).0.Done?
    ensures var translated := TranslateAll(batches, service, n).0.translated;
      translated.Keys == Service.KeysOf(Concat(batches)) && Service.NonBlankValues(translated)
  {
    if batches != [] {
      var (first, next) := Service.Translate(batches[0], service, n, 0);
      Service.DoneCoversItems(batches[0], service, n, 0);
      TranslateAllCovers(batches[1..], service, next);
      var all := Concat(batches);
      Service.KeysSplit(all, |batches[0]|);
      assert all[..|batches[0]|] == batches[0] && all[|batches[0]|..] == Concat(batches[1..]);
    }
  }

  /** A run never makes more than 4 attempts per pending item. */
  lemma {:induction false} TranslateAllBounded(batches: seq<Batch>, service: Service.Service, n: nat)
    requires forall i :: 0 <= i < |batches| ==> batches[i] != []
    ensures n <= TranslateAll(batches, service, n).1 <= n + 4 * |Concat(batches)|
  {
    if batches != [] {
      Service.AttemptsBounded(batches[0], service, n, 0);
      TranslateAllBounded(batches[1..], service, Service.Translate(batches[0], service, n, 0).1);
    }
  }

  /** The translations a completed run works with. */
  ghost function Translated(st: Settings, o: Options, files: Files, source: Source, batches: seq<Batch>,
      service: Service.Service): Texts
  {
    var pending := Pending(LoadEnv(st, o, files), Tree.Flatten(source.tree));
    var r := TranslateAll(batches, service, 0).0;
    if st.allowTranslate && |pending| > 0 && r.Done? then r.translated else map[]
  }

  ghost predicate IsCompleted(st: Settings, o: Options, files: Files, source: Source, batches: seq<Batch>,
      service: Service.Service, now: int, run: Run)
  {
    && run == Sync(st, o, files, source, batches, service, now)
    && run.Completed?
    && PackedFor(st, o, files, source, batches)
    && Tree.WellFormed(source.tree)
  }

  /** With a provider, everything pending was translated; without one, nothing was. */
  ghost predicate TranslatesAll(env: Env, flat: Tree.Flat, translated: Texts) {
    && Service.NonBlankValues(translated)
    && translated.Keys == if env.st.allowTranslate then Service.KeysOf(Pending(env, flat)) else {}
  }

  lemma CompletedPlan(st: Settings, o: Options, files: Files, source: Source, batches: seq<Batch>,
      service: Service.Service, now: int, run: Run)
    requires IsCompleted(st, o, files, source, batches, service, now, run)
    ensures var env, flat := LoadEnv(st, o, files), Tree.Flatten(source.tree);
      var translated := Translated(st, o, files, source, batches, service);
      && DistinctFlat(flat)
      && TranslatesAll(env, flat, translated)
      && run == Finish(st, o, files, source, Pending(env, flat), PlanOf(env, flat, translated, now), run.attempts, now)
  {
    SourceIsDistinct(source.tree);
    var env, flat := LoadEnv(st, o, files), Tree.Flatten(source.tree);
    if st.allowTranslate && |Pending(env, flat)| > 0 {
      TranslateAllCovers(batches, service, 0);
    } else {
      assert st.allowTranslate ==> Service.KeysOf([]) == {};
    }
  }

  /** Every completed run gives a text to exactly the source's keys. */
  lemma AssignsExactlySourceKeys(st: Settings, o: Options, files: Files, source: Source, batches: seq<Batch>,
      service: Service.Service, now: int, run: Run)
    requires IsCompleted(st, o, files, source, batches, service, now, run)
    ensures run.nextFlat.Keys == FlatKeys(Tree.Flatten(source.tree))
  {
    CompletedPlan(st, o, files, source, batches, service, now, run);
    var env, flat := LoadEnv(st, o, files), Tree.Flatten(source.tree);
    KeysPartition(env, flat);
    PendingTextKeys(env, Pending(env, flat), Translated(st, o, files, source, batches, service));
  }

  lemma GotWhenTranslated(translated: Texts, key: string)
    requires Service.NonBlankValues(translated)
    ensures Got(translated, key) <==> key in translated
  {
    assert AllBlank("");
  }

  lemma {:induction false} NoPendingFallbacks(env: Env, items: Batch, translated: Texts)
    requires Service.NonBlankValues(translated) && Service.KeysOf(items) <= translated.Keys
    ensures PendingFallbacks(env, items, translated) == []
  {
    if items != [] {
      var n := |items| - 1;
      assert items == items[..n] + [items[n]];
      ItemKeysSnoc(items[..n], items[n]);
      NoPendingFallbacks(env, items[..n], translated);
      GotWhenTranslated(translated, items[n].key);
    }
  }

  lemma {:induction false} NoReusedFallbacks(env: Env, flat: Tree.Flat)
    requires env.st.allowTranslate
    ensures ReusedFallbacks(env, flat) == []
  {
    if flat != [] {
      NoReusedFallbacks(env, flat[..|flat| - 1]);
    }
  }

  lemma NoFallbacks(env: Env, flat: Tree.Flat, translated: Texts, now: int)
    requires env.st.allowTranslate && TranslatesAll(env, flat, translated)
    ensures PlanOf(env, flat, translated, now).fallbacks == []
  {
    NoReusedFallbacks(env, flat);
    NoPendingFallbacks(env, Pending(env, flat), translated);
  }

  /** A completed run with a provider leaves no fallback keys. */
  lemma ProviderLeavesNoFallbacks(st: Settings, o: Options, files: Files, source: Source, batches: seq<Batch>,
      service: Service.Service, now: int, run: Run)
    requires IsCompleted(st, o, files, source, batches, service, now, run) && st.allowTranslate && SettingsOk(st)
    ensures run.fallbackKeys == []
  {
    CompletedPlan(st, o, files, source, batches, service, now, run);
    var translated := Translated(st, o, files, source, batches, service);
    NoFallbacks(LoadEnv(st, o, files), Tree.Flatten(source.tree), translated, now);
    var none: seq<string> := [];
    assert multiset(st.sort(none)) == multiset(none);
  }

  /** A run makes at most four attempts per pending item, and none without a provider. */
  lemma AttemptsPerItem(st: Settings, o: Options, files: Files, source: Source, batches: seq<Batch>,
      service: Service.Service, now: int)
    requires PackedFor(st, o, files, source, batches)
    ensures var run := Sync(st, o, files, source, batches, service, now);
      run.attempts <= if st.allowTranslate then 4 * |Pending(LoadEnv(st, o, files), Tree.Flatten(source.tree))| else 0
  {
    assert forall i :: 0 <= i < |batches| ==> Fits(batches[i], st.budget);
    TranslateAllBounded(batches, service, 0);
  }

  // ---- the second run ----

  lemma {:induction false} PendingAt(env: Env, flat: Tree.Flat, i: nat)
    requires DistinctFlat(flat) && i < |flat|
    ensures Reused(env, flat[i].0, flat[i].1).None? <==> flat[i].0 in Service.KeysOf(Pending(env, flat))
    ensures Reused(env, flat[i].0, flat[i].1).Some? ==>
      flat[i].0 in ReusedTexts(env, flat)
      && ReusedTexts(env, flat)[flat[i].0] == Reused(env, flat[i].0, flat[i].1).value
  {
    var n := |flat| - 1;
    PendingKeysSnoc(env, flat);
    if i < n {
      assert flat[..n][i] == flat[i];
      PendingAt(env, flat[..n], i);
    } else {
      KeysPartition(env, flat[..n]);
      FlatKeysSnoc(flat);
      assert flat[n].0 !in FlatKeys(flat[..n]);
    }
    hide Pending, Reused, FlatKeys;
  }

  lemma PendingKeysSnoc(env: Env, flat: Tree.Flat)
    requires flat != []
    ensures var n := |flat| - 1;
      Service.KeysOf(Pending(env, flat))
        == Service.KeysOf(Pending(env, flat[..n])) + if Reused(env, flat[n].0, flat[n].1).None? then {flat[n].0} else {}
  {
    var n := |flat| - 1;
    var before := Pending(env, flat[..n]);
    ItemKeysSnoc(before, ItemOf(env, flat[n].0, flat[n].1));
    assert before + [] == before;
  }

  /** What a pending item's text and memory entry are after the run. */
  lemma {:induction false} PendingOutcome(env: Env, items: Batch, translated: Texts, now: int, item: Item, tm: Tm)
    requires forall i, j :: 0 <= i < j < |items| ==>
      items[i].key != items[j].key && items[i].cacheKey != items[j].cacheKey
    requires item in items
    ensures item.key in PendingTexts(env, items, translated)
    ensures PendingTexts(env, items, translated)[item.key]
      == if Got(translated, item.key) then translated[item.key] else FallbackText(env, item).0
    ensures Got(translated, item.key) ==>
      item.cacheKey in TmWith(env, tm, items, translated, now)
      && TmWith(env, tm, items, translated, now)[item.cacheKey].translated == translated[item.key]
  {
    var n := |items| - 1;
    if item != items[n] {
      assert item in items[..n];
      PendingOutcome(env, items[..n], translated, now, item, tm);
    }
  }

  lemma {:induction false} TmElsewhere(env: Env, items: Batch, translated: Texts, now: int, tm: Tm, ck: string)
    requires forall i :: 0 <= i < |items| && Got(translated, items[i].key) ==> items[i].cacheKey != ck
    ensures var t := TmWith(env, tm, items, translated, now); (ck in t <==> ck in tm) && (ck in tm ==> t[ck] == tm[ck])
  {
    if items != [] {
      TmElsewhere(env, items[..|items| - 1], translated, now, tm, ck);
    }
  }

  lemma {:induction false} PendingItems(env: Env, flat: Tree.Flat)
    requires DistinctFlat(flat) && SettingsOk(env.st)
    ensures forall item :: item in Pending(env, flat) ==>
      item.key in FlatKeys(flat) && item == ItemOf(env, item.key, item.text) && (item.key, item.text) in flat
    ensures forall i, j :: 0 <= i < j < |Pending(env, flat)| ==>
      && Pending(env, flat)[i].key != Pending(env, flat)[j].key
      && Pending(env, flat)[i].cacheKey != Pending(env, flat)[j].cacheKey
  {
    if flat != [] {
      var n := |flat| - 1;
      PendingItems(env, flat[..n]);
      FlatKeysSnoc(flat);
      assert flat[n].0 !in FlatKeys(flat[..n]);
      var before := Pending(env, flat[..n]);
      forall i | 0 <= i < |before|
        ensures before[i].key != flat[n].0 && before[i].cacheKey != CacheKeyOf(env, flat[n].0, flat[n].1)
      {
        assert before[i] in before;
      }
    }
  }

  /** The environment a second run finds after a first one with this plan. */
  ghost predicate Follows(env: Env, flat: Tree.Flat, plan: Plan, env': Env) {
    && env'.st == env.st
    && env'.tm == plan.tm
    && FlatKeys(flat) <= env'.existing.Keys && FlatKeys(flat) <= plan.nextFlat.Keys
    && (forall k :: k in FlatKeys(flat) ==> env'.existing[k] == plan.nextFlat[k])
    && env'.previousFallback == (set k | k in plan.fallbacks)
  }

  /** The second run reuses, for every source key, the text the first run decided on. */
  lemma SecondRunReuses(env: Env, flat: Tree.Flat, translated: Texts, now: int, env': Env, i: nat)
    requires SettingsOk(env.st) && DistinctFlat(flat) && i < |flat| && TranslatesAll(env, flat, translated)
    requires Follows(env, flat, PlanOf(env, flat, translated, now), env')
    ensures Reused(env', flat[i].0, flat[i].1) == Some(PlanOf(env, flat, translated, now).nextFlat[flat[i].0])
  {
    if env.st.allowTranslate {
      NoFallbacks(env, flat, translated, now);
    }
    KeyInFlat(flat, i);
    if Reused(env, flat[i].0, flat[i].1).Some? {
      ReusedKeepsText(env, flat, translated, now, i);
    } else {
      TranslatedText(env, flat, translated, now, i);
    }
    hide PlanOf, DistinctFlat, TranslatesAll, SettingsOk;
  }

  /** A reused text is the plan's, and the memory says what it said before. */
  lemma ReusedKeepsText(env: Env, flat: Tree.Flat, translated: Texts, now: int, i: nat)
    requires SettingsOk(env.st) && DistinctFlat(flat) && i < |flat| && TranslatesAll(env, flat, translated)
    requires Reused(env, flat[i].0, flat[i].1).Some?
    ensures var ck := CacheKeyOf(env, flat[i].0, flat[i].1);
      var plan := PlanOf(env, flat, translated, now);
      && flat[i].0 in plan.nextFlat && plan.nextFlat[flat[i].0] == Reused(env, flat[i].0, flat[i].1).value
      && (ck in plan.tm <==> ck in env.tm) && (ck in env.tm ==> plan.tm[ck] == env.tm[ck])
  {
    PendingAt(env, flat, i);
    PendingTextKeys(env, Pending(env, flat), translated);
    NotRecorded(env, flat, translated, now, i);
    hide SettingsOk, DistinctFlat, Pending, ReusedTexts, PendingTexts, TmWith, Reused;
  }

  /** With a provider, a text that is not reused is the one put into the memory; without one,
      the memory has none for it. */
  lemma TranslatedText(env: Env, flat: Tree.Flat, translated: Texts, now: int, i: nat)
    requires SettingsOk(env.st) && DistinctFlat(flat) && i < |flat| && TranslatesAll(env, flat, translated)
    requires Reused(env, flat[i].0, flat[i].1).None?
    ensures var ck := CacheKeyOf(env, flat[i].0, flat[i].1);
      var plan := PlanOf(env, flat, translated, now);
      && (env.st.allowTranslate ==>
            flat[i].0 in plan.nextFlat && ck in plan.tm && plan.tm[ck].translated == plan.nextFlat[flat[i].0])
      && (!env.st.allowTranslate ==> ck !in plan.tm)
  {
    var pending := Pending(env, flat);
    var item := PendingItemOf(env, flat, i);
    PendingAt(env, flat, i);
    PendingItems(env, flat);
    PendingOutcome(env, pending, translated, now, item, env.tm);
    GotWhenTranslated(translated, item.key);
    if !env.st.allowTranslate {
      NotRecorded(env, flat, translated, now, i);
    }
    hide SettingsOk, DistinctFlat, Pending, ReusedTexts, PendingTexts, TmWith;
  }

  lemma KeyInFlat(flat: Tree.Flat, i: nat)
    requires i < |flat|
    ensures flat[i].0 in FlatKeys(flat)
  {
  }

  /** The pending item of a key that was not reused. */
  lemma PendingItemOf(env: Env, flat: Tree.Flat, i: nat) returns (item: Item)
    requires DistinctFlat(flat) && SettingsOk(env.st) && i < |flat| && Reused(env, flat[i].0, flat[i].1).None?
    ensures item in Pending(env, flat) && item == ItemOf(env, flat[i].0, flat[i].1)
  {
    PendingAt(env, flat, i);
    PendingItems(env, flat);
    var pending := Pending(env, flat);
    var j :| 0 <= j < |pending| && pending[j].key == flat[i].0;
    item := pending[j];
    assert item in pending;
    var k :| 0 <= k < |flat| && flat[k] == (item.key, item.text);
    assert k == i;
  }

  /** The memory entry of a key that was reused, or of any key without a provider, is the
      old one. */
  lemma NotRecorded(env: Env, flat: Tree.Flat, translated: Texts, now: int, i: nat)
    requires SettingsOk(env.st) && DistinctFlat(flat) && i < |flat| && TranslatesAll(env, flat, translated)
    requires Reused(env, flat[i].0, flat[i].1).Some? || !env.st.allowTranslate
    ensures var ck := CacheKeyOf(env, flat[i].0, flat[i].1);
      var tm := TmWith(env, env.tm, Pending(env, flat), translated, now);
      (ck in tm <==> ck in env.tm) && (ck in env.tm ==> tm[ck] == env.tm[ck])
  {
    var pending := Pending(env, flat);
    var ck := CacheKeyOf(env, flat[i].0, flat[i].1);
    PendingAt(env, flat, i);
    PendingItems(env, flat);
    forall j | 0 <= j < |pending| && Got(translated, pending[j].key) ensures pending[j].cacheKey != ck {
      assert pending[j] in pending;
      assert pending[j].key in Service.KeysOf(pending);
    }
    TmElsewhere(env, pending, translated, now, env.tm, ck);
  }

  /** A run that reuses every key with a given text has nothing pending and decides those. */
  lemma {:induction false} AllReused(env: Env, flat: Tree.Flat, texts: Texts)
    requires DistinctFlat(flat)
    requires forall i :: 0 <= i < |flat| ==>
      flat[i].0 in texts && Reused(env, flat[i].0, flat[i].1) == Some(texts[flat[i].0])
    ensures Pending(env, flat) == []
    ensures ReusedTexts(env, flat).Keys == FlatKeys(flat)
    ensures forall k :: k in FlatKeys(flat) ==> ReusedTexts(env, flat)[k] == texts[k]
  {
    if flat != [] {
      var n := |flat| - 1;
      assert forall i :: 0 <= i < n ==> flat[..n][i] == flat[i];
      AllReused(env, flat[..n], texts);
      FlatKeysSnoc(flat);
      assert Reused(env, flat[n].0, flat[n].1) == Some(texts[flat[n].0]);
      hide Reused, FlatKeys, DistinctFlat;
    }
  }

  /** Then its fallback keys are the old fallback keys the source still has, once each. */
  lemma {:induction false} AllReusedFallbacks(env: Env, flat: Tree.Flat)
    requires DistinctFlat(flat)
    requires forall i :: 0 <= i < |flat| ==> Reused(env, flat[i].0, flat[i].1).Some?
    ensures forall k :: k in ReusedFallbacks(env, flat) <==> k in FlatKeys(flat) && k in env.previousFallback
    ensures Distinct(ReusedFallbacks(env, flat))
  {
    if flat != [] {
      var n := |flat| - 1;
      assert forall i :: 0 <= i < n ==> flat[..n][i] == flat[i];
      AllReusedFallbacks(env, flat[..n]);
      FlatKeysSnoc(flat);
      assert flat[n].0 !in FlatKeys(flat[..n]);
      assert flat[n].0 !in ReusedFallbacks(env, flat[..n]);
      assert Reused(env, flat[n].0, flat[n].1).Some?;
      hide Reused, FlatKeys, DistinctFlat;
    }
  }

  lemma {:induction false} SameElements(a: seq<string>, b: seq<string>)
    requires Distinct(a) && Distinct(b) && forall k :: k in a <==> k in b
    ensures multiset(a) == multiset(b)
  {
    forall k ensures multiset(a)[k] == multiset(b)[k] {
      CountOne(a, k);
      CountOne(b, k);
    }
  }

  lemma {:induction false} CountOne(a: seq<string>, k: string)
    requires Distinct(a)
    ensures multiset(a)[k] == if k in a then 1 else 0
  {
    if a != [] {
      var n := |a| - 1;
      CountOne(a[..n], k);
      assert a == a[..n] + [a[n]];
      assert multiset(a) == multiset(a[..n]) + multiset{a[n]};
      if k == a[n] {
        assert forall i :: 0 <= i < n ==> a[..n][i] == a[i];
      }
    }
  }

  /** The fallback list of a run names source keys, each once. */
  lemma {:induction false} ReusedFallbackKeys(env: Env, flat: Tree.Flat)
    requires DistinctFlat(flat)
    ensures Distinct(ReusedFallbacks(env, flat))
    ensures forall k :: k in ReusedFallbacks(env, flat) ==> k in ReusedTexts(env, flat)
  {
    if flat != [] {
      var n := |flat| - 1;
      ReusedFallbackKeys(env, flat[..n]);
      KeysPartition(env, flat[..n]);
      FlatKeysSnoc(flat);
      assert flat[n].0 !in FlatKeys(flat[..n]);
    }
  }

  lemma {:induction false} PendingFallbackKeys(env: Env, items: Batch, translated: Texts)
    requires forall i, j :: 0 <= i < j < |items| ==> items[i].key != items[j].key
    ensures Distinct(PendingFallbacks(env, items, translated))
    ensures forall k :: k in PendingFallbacks(env, items, translated) ==> k in Service.KeysOf(items)
  {
    if items != [] {
      var n := |items| - 1;
      PendingFallbackKeys(env, items[..n], translated);
      assert items == items[..n] + [items[n]];
      ItemKeysSnoc(items[..n], items[n]);
      assert forall i :: 0 <= i < n ==> items[..n][i] == items[i];
      assert items[n].key !in Service.KeysOf(items[..n]);
    }
  }

  lemma FallbackKeys(env: Env, flat: Tree.Flat, translated: Texts, now: int)
    requires DistinctFlat(flat) && SettingsOk(env.st)
    ensures var fallbacks := PlanOf(env, flat, translated, now).fallbacks;
      Distinct(fallbacks) && forall k :: k in fallbacks ==> k in FlatKeys(flat)
  {
    PendingItems(env, flat);
    KeysPartition(env, flat);
    ReusedFallbackKeys(env, flat);
    PendingFallbackKeys(env, Pending(env, flat), translated);
    var a, b := ReusedFallbacks(env, flat), PendingFallbacks(env, Pending(env, flat), translated);
    assert forall i :: 0 <= i < |a| ==> a[i] in a;
    assert forall i :: 0 <= i < |b| ==> b[i] in b;
  }

  /** A plan over keys that are all reused. */
  lemma PlanOfReused(env: Env, flat: Tree.Flat, texts: Texts, now: int)
    requires DistinctFlat(flat) && texts.Keys == FlatKeys(flat)
    requires forall i :: 0 <= i < |flat| ==>
      flat[i].0 in texts && Reused(env, flat[i].0, flat[i].1) == Some(texts[flat[i].0])
    ensures Pending(env, flat) == []
    ensures PlanOf(env, flat, map[], now) == Plan(texts, ReusedFallbacks(env, flat), env.tm)
    ensures Distinct(ReusedFallbacks(env, flat))
    ensures forall k :: k in ReusedFallbacks(env, flat) <==> k in FlatKeys(flat) && k in env.previousFallback
  {
    AllReused(env, flat, texts);
    AllReusedFallbacks(env, flat);
    hide Reused, DistinctFlat, ReusedTexts, ReusedFallbacks, Pending;
    var none: seq<string> := [];
    assert ReusedFallbacks(env, flat) + none == ReusedFallbacks(env, flat);
    assert ReusedTexts(env, flat) == texts;
    assert texts + map[] == texts;
  }

  lemma AllReusedAgain(env: Env, flat: Tree.Flat, translated: Texts, now: int, env': Env)
    requires SettingsOk(env.st) && DistinctFlat(flat) && TranslatesAll(env, flat, translated)
    requires Follows(env, flat, PlanOf(env, flat, translated, now), env')
    ensures var texts := PlanOf(env, flat, translated, now).nextFlat;
      forall i :: 0 <= i < |flat| ==> flat[i].0 in texts && Reused(env', flat[i].0, flat[i].1) == Some(texts[flat[i].0])
  {
    var texts := PlanOf(env, flat, translated, now).nextFlat;
    hide PlanOf, TranslatesAll, Reused, SettingsOk, DistinctFlat;
    forall i | 0 <= i < |flat|
      ensures flat[i].0 in texts && Reused(env', flat[i].0, flat[i].1) == Some(texts[flat[i].0])
    {
      KeyInFlat(flat, i);
      SecondRunReuses(env, flat, translated, now, env', i);
    }
  }

  lemma SameSort(st: Settings, a: seq<string>, b: seq<string>)
    requires SettingsOk(st) && multiset(a) == multiset(b)
    ensures st.sort(a) == st.sort(b)
  {
  }

  /** The second run's plan: nothing new, the same texts and the same fallback keys. */
  lemma SecondPlan(env: Env, flat: Tree.Flat, translated: Texts, now: int, env': Env, now': int)
    requires SettingsOk(env.st) && DistinctFlat(flat) && TranslatesAll(env, flat, translated)
    requires var plan := PlanOf(env, flat, translated, now);
      Follows(env, flat, plan, env') && plan.nextFlat.Keys == FlatKeys(flat)
    ensures var plan, plan' := PlanOf(env, flat, translated, now), PlanOf(env', flat, map[], now');
      && Pending(env', flat) == []
      && plan'.nextFlat == plan.nextFlat && plan'.tm == plan.tm
      && env.st.sort(plan'.fallbacks) == env.st.sort(plan.fallbacks)
  {
    var plan := PlanOf(env, flat, translated, now);
    hide PlanOf, TranslatesAll, Reused, SettingsOk, DistinctFlat, FlatKeys, Distinct;
    AllReusedAgain(env, flat, translated, now, env');
    PlanOfReused(env', flat, plan.nextFlat, now');
    FallbackKeys(env, flat, translated, now);
    SameElements(plan.fallbacks, ReusedFallbacks(env', flat));
    SameSort(env.st, plan.fallbacks, ReusedFallbacks(env', flat));
  }

  // ---- every key's text, and what force changes ----

  /** A pending key that was not translated has no text in the locale file, so the fallback
      pass always falls back to the source text. */
  lemma UntranslatedIsNew(env: Env, flat: Tree.Flat, translated: Texts, item: Item)
    requires SettingsOk(env.st) && DistinctFlat(flat) && TranslatesAll(env, flat, translated)
    requires item in Pending(env, flat) && !Got(translated, item.key)
    ensures !env.st.allowTranslate && item.key !in env.existing
  {
    PendingItems(env, flat);
    GotWhenTranslated(translated, item.key);
    var i :| 0 <= i < |flat| && flat[i] == (item.key, item.text);
    PendingAt(env, flat, i);
  }

  /** What a completed run decides for one key: the memory's text, else the locale file's,
      unless a provider may replace an old fallback; else the provider's text, or without
      one the source text. The key is a fallback exactly without a provider, when it was
      one before or has no text of its own. */
  lemma KeyOutcome(env: Env, flat: Tree.Flat, translated: Texts, now: int, i: nat)
    requires SettingsOk(env.st) && DistinctFlat(flat) && i < |flat| && TranslatesAll(env, flat, translated)
    ensures var (key, text) := flat[i];
      var ck := CacheKeyOf(env, key, text);
      var plan := PlanOf(env, flat, translated, now);
      var retry := env.st.allowTranslate && key in env.previousFallback;
      && key in plan.nextFlat
      && (ck in env.tm && !retry ==> plan.nextFlat[key] == env.tm[ck].translated)
      && (ck !in env.tm && key in env.existing && !retry ==> plan.nextFlat[key] == env.existing[key])
      && (retry || (ck !in env.tm && key !in env.existing) ==>
            if env.st.allowTranslate then key in translated && plan.nextFlat[key] == translated[key]
            else plan.nextFlat[key] == text)
      && (key in plan.fallbacks <==>
            !env.st.allowTranslate && (key in env.previousFallback || (ck !in env.tm && key !in env.existing)))
  {
    KeyFallback(env, flat, translated, now, i);
    if Reused(env, flat[i].0, flat[i].1).Some? {
      ReusedKeepsText(env, flat, translated, now, i);
    } else {
      PendingKeyText(env, flat, translated, now, i);
    }
    hide PlanOf, DistinctFlat, TranslatesAll, SettingsOk;
  }

  lemma PendingKeyText(env: Env, flat: Tree.Flat, translated: Texts, now: int, i: nat)
    requires SettingsOk(env.st) && DistinctFlat(flat) && i < |flat| && TranslatesAll(env, flat, translated)
    requires Reused(env, flat[i].0, flat[i].1).None?
    ensures var (key, text) := flat[i];
      var plan := PlanOf(env, flat, translated, now);
      && key in plan.nextFlat
      && (if env.st.allowTranslate then key in translated && plan.nextFlat[key] == translated[key]
          else plan.nextFlat[key] == text)
  {
    var pending := Pending(env, flat);
    var item := PendingItemOf(env, flat, i);
    PendingAt(env, flat, i);
    PendingItems(env, flat);
    PendingOutcome(env, pending, translated, now, item, env.tm);
    GotWhenTranslated(translated, item.key);
    if !Got(translated, item.key) {
      UntranslatedIsNew(env, flat, translated, item);
    }
    hide SettingsOk, DistinctFlat, Pending, ReusedTexts, PendingTexts, TmWith, Reused;
  }

  lemma {:induction false} PendingFallbackIff(env: Env, items: Batch, translated: Texts, item: Item)
    requires forall i, j :: 0 <= i < j < |items| ==> items[i].key != items[j].key
    requires item in items
    ensures item.key in PendingFallbacks(env, items, translated)
      <==> !Got(translated, item.key) && FallbackText(env, item).1
  {
    var n := |items| - 1;
    if item != items[n] {
      assert item in items[..n];
      PendingFallbackIff(env, items[..n], translated, item);
    } else {
      PendingFallbackKeys(env, items[..n], translated);
      assert forall j :: 0 <= j < n ==> items[..n][j] == items[j];
      assert item.key !in Service.KeysOf(items[..n]);
    }
  }

  lemma {:induction false} ReusedFallbackIff(env: Env, flat: Tree.Flat, i: nat)
    requires DistinctFlat(flat) && i < |flat|
    ensures flat[i].0 in ReusedFallbacks(env, flat)
      <==> Reused(env, flat[i].0, flat[i].1).Some? && flat[i].0 in env.previousFallback
  {
    var n := |flat| - 1;
    ReusedFallbackKeys(env, flat[..n]);
    KeysPartition(env, flat[..n]);
    assert flat[n].0 !in FlatKeys(flat[..n]);
    if i < n {
      assert flat[..n][i] == flat[i];
      ReusedFallbackIff(env, flat[..n], i);
    }
    hide Reused;
  }

  lemma KeyFallback(env: Env, flat: Tree.Flat, translated: Texts, now: int, i: nat)
    requires SettingsOk(env.st) && DistinctFlat(flat) && i < |flat| && TranslatesAll(env, flat, translated)
    ensures var (key, text) := flat[i];
      var ck := CacheKeyOf(env, key, text);
      key in PlanOf(env, flat, translated, now).fallbacks <==>
        !env.st.allowTranslate && (key in env.previousFallback || (ck !in env.tm && key !in env.existing))
  {
    var pending := Pending(env, flat);
    if env.st.allowTranslate {
      NoFallbacks(env, flat, translated, now);
    } else {
      ReusedFallbackIff(env, flat, i);
      PendingItems(env, flat);
      PendingFallbackKeys(env, pending, translated);
      PendingAt(env, flat, i);
      if Reused(env, flat[i].0, flat[i].1).None? {
        var item := PendingItemOf(env, flat, i);
        PendingFallbackIff(env, pending, translated, item);
        UntranslatedIsNew(env, flat, translated, item);
      }
    }
    hide SettingsOk, DistinctFlat, Pending, ReusedFallbacks, PendingFallbacks;
  }

  lemma {:induction false} ReusePassIgnoresForce(env: Env, flat: Tree.Flat, force: bool)
    ensures var other := env.(force := force);
      && Pending(other, flat) == Pending(env, flat)
      && ReusedTexts(other, flat) == ReusedTexts(env, flat)
      && ReusedFallbacks(other, flat) == ReusedFallbacks(env, flat)
  {
    if flat != [] {
      ReusePassIgnoresForce(env, flat[..|flat| - 1], force);
    }
  }

  lemma {:induction false} LaterPassesIgnoreForce(env: Env, items: Batch, translated: Texts, now: int, tm: Tm,
      force: bool)
    requires forall item :: item in items && !Got(translated, item.key) ==> item.key !in env.existing
    ensures var other := env.(force := force);
      && PendingTexts(other, items, translated) == PendingTexts(env, items, translated)
      && PendingFallbacks(other, items, translated) == PendingFallbacks(env, items, translated)
      && TmWith(other, tm, items, translated, now) == TmWith(env, tm, items, translated, now)
  {
    if items != [] {
      var n := |items| - 1;
      assert items[n] in items && forall item :: item in items[..n] ==> item in items;
      LaterPassesIgnoreForce(env, items[..n], translated, now, tm, force);
    }
  }

  /** The force option changes nothing: every run of a well-formed source decides, reports
      and writes the same with it and without it. */
  lemma ForceIsInert(st: Settings, o: Options, force: bool, files: Files, source: Source, batches: seq<Batch>,
      service: Service.Service, now: int)
    requires SettingsOk(st) && Tree.WellFormed(source.tree) && PackedFor(st, o, files, source, batches)
    ensures Sync(st, o.(force := force), files, source, batches, service, now)
      == Sync(st, o, files, source, batches, service, now)
  {
    var env, flat := LoadEnv(st, o, files), Tree.Flatten(source.tree);
    assert LoadEnv(st, o.(force := force), files) == env.(force := force);
    ReusePassIgnoresForce(env, flat, force);
    var run := Sync(st, o, files, source, batches, service, now);
    if run.Completed? {
      var translated := Translated(st, o, files, source, batches, service);
      CompletedPlan(st, o, files, source, batches, service, now, run);
      PlanIgnoresForce(env, flat, translated, now, force);
    }
    FinishIgnoresForce(st, o, files, source, Pending(env, flat), now, force);
    hide SettingsOk, PackedFor, PlanOf, Pending, TranslateAll, LoadEnv, Finish;
  }

  lemma FinishIgnoresForce(st: Settings, o: Options, files: Files, source: Source, pending: Batch, now: int,
      force: bool)
    ensures forall plan, attempts ::
      Finish(st, o.(force := force), files, source, pending, plan, attempts, now)
        == Finish(st, o, files, source, pending, plan, attempts, now)
  {
  }

  lemma PlanIgnoresForce(env: Env, flat: Tree.Flat, translated: Texts, now: int, force: bool)
    requires SettingsOk(env.st) && DistinctFlat(flat) && TranslatesAll(env, flat, translated)
    ensures PlanOf(env.(force := force), flat, translated, now) == PlanOf(env, flat, translated, now)
  {
    ReusePassIgnoresForce(env, flat, force);
    var pending := Pending(env, flat);
    forall item | item in pending && !Got(translated, item.key) ensures item.key !in env.existing {
      UntranslatedIsNew(env, flat, translated, item);
    }
    LaterPassesIgnoreForce(env, pending, translated, now, env.tm, force);
  }

  // ---- files ----

  lemma {:induction false} ToMapAt(flat: Tree.Flat, i: nat)
    requires DistinctFlat(flat) && i < |flat|
    ensures flat[i].0 in ToMap(flat) && ToMap(flat)[flat[i].0] == flat[i].1
  {
    var n := |flat| - 1;
    if i < n {
      assert flat[..n][i] == flat[i];
      ToMapAt(flat[..n], i);
    }
  }

  /** No entry of the memory has an empty key or a blank translation. */
  ghost predicate CleanTm(tm: Tm) {
    forall k :: k in tm ==> k != "" && !AllBlank(tm[k].translated)
  }

  lemma {:induction false} TmStaysClean(env: Env, tm: Tm, items: Batch, translated: Texts, now: int)
    requires CleanTm(tm) && Service.NonBlankValues(translated)
    requires forall i :: 0 <= i < |items| ==> items[i].cacheKey != ""
    ensures CleanTm(TmWith(env, tm, items, translated, now))
  {
    if items != [] {
      TmStaysClean(env, tm, items[..|items| - 1], translated, now);
    }
  }

  lemma LoadCleanTm(f: File<Tm>, tm: Tm)
    requires CleanTm(tm) && (f == OnDisk(tm, true) || (f.Missing? && tm == map[]))
    ensures LoadTm(f) == tm
  {
  }

  /** The files after a completed writing run are what the run expected of them. */
  ghost predicate AsExpected(st: Settings, source: Source, plan: Plan, meta: Meta, glossary: Glossary, files: Files) {
    && files.locale == OnDisk(Tree.Rebuild(Tree.Nil, Tree.RelabelFlat(Tree.Flatten(source.tree), plan.nextFlat)), true)
    && files.meta == OnDisk(meta, true)
    && files.glossary == OnDisk(glossary, true)
    && SameTm(files.tm, plan.tm)
  }

  lemma FinishWrites(st: Settings, o: Options, files: Files, source: Source, pending: Batch, plan: Plan,
      attempts: nat, now: int)
    requires o.write && !o.checkOnly
    ensures var run := Finish(st, o, files, source, pending, plan, attempts, now);
      var meta := NextMeta(st, files, source, run.fallbackKeys, |Tree.Flatten(source.tree)|, now);
      AsExpected(st, source, plan, meta, ExpectedGlossary(st, files), run.files)
  {
  }

  /** A run that decides what the files already hold changes nothing. */
  lemma FinishUnchanged(st: Settings, o: Options, files0: Files, files: Files, source: Source, pending: Batch,
      plan: Plan, plan': Plan, attempts: nat, now0: int, now: int)
    requires SettingsOk(st)
    requires plan'.nextFlat == plan.nextFlat && plan'.tm == plan.tm
    requires st.sort(plan'.fallbacks) == st.sort(plan.fallbacks)
    requires AsExpected(st, source, plan,
      NextMeta(st, files0, source, st.sort(plan.fallbacks), |Tree.Flatten(source.tree)|, now0),
      ExpectedGlossary(st, files0), files)
    ensures Finish(st, o, files, source, pending, plan', attempts, now)
      == Completed(pending, plan.nextFlat, st.sort(plan.fallbacks), attempts, false, false, files)
  {
    hide SettingsOk;
    GlossaryStays(st, files0);
  }

  lemma GlossaryStays(st: Settings, files: Files)
    requires SettingsOk(st)
    ensures ExpectedGlossary(st, files) != []
  {
  }

  lemma ExistingIsNextFlat(source: Source, texts: Texts, existing: Tree.Forest)
    requires Tree.WellFormed(source.tree)
    requires texts.Keys == FlatKeys(Tree.Flatten(source.tree))
    requires existing == Tree.Rebuild(Tree.Nil, Tree.RelabelFlat(Tree.Flatten(source.tree), texts))
    ensures var flat := Tree.Flatten(source.tree);
      var found := ToMap(Tree.Flatten(existing));
      FlatKeys(flat) <= found.Keys && forall k :: k in FlatKeys(flat) ==> found[k] == texts[k]
  {
    var flat := Tree.Flatten(source.tree);
    Tree.RelabelRoundTrip(source.tree, texts);
    SourceIsDistinct(existing);
    var next := Tree.Flatten(existing);
    forall k | k in FlatKeys(flat) ensures k in ToMap(next) && ToMap(next)[k] == texts[k] {
      var i :| 0 <= i < |flat| && flat[i].0 == k;
      assert next[i] == (k, texts[k]);
      ToMapAt(next, i);
    }
  }

  lemma PlanTmClean(st: Settings, o: Options, files: Files, flat: Tree.Flat, translated: Texts, now: int)
    requires SettingsOk(st) && DistinctFlat(flat) && Service.NonBlankValues(translated)
    ensures CleanTm(PlanOf(LoadEnv(st, o, files), flat, translated, now).tm)
  {
    var env := LoadEnv(st, o, files);
    PendingItems(env, flat);
    var pending := Pending(env, flat);
    assert forall i :: 0 <= i < |pending| ==> pending[i] in pending;
    TmStaysClean(env, env.tm, pending, translated, now);
  }

  lemma SortKeepsKeys(st: Settings, keys: seq<string>)
    requires SettingsOk(st)
    ensures (set k | k in st.sort(keys)) == (set k | k in keys)
  {
    assert forall k :: k in st.sort(keys) <==> k in multiset(st.sort(keys));
    assert forall k :: k in keys <==> k in multiset(keys);
  }

  /** After a completed, written sync, any further sync or check with the same settings and
      source has nothing pending, makes no attempt, decides the same texts and fallback keys,
      reports no change and leaves the files as they are. */
  lemma SecondSyncIsNoop(st: Settings, o: Options, files: Files, source: Source, batches: seq<Batch>,
      service: Service.Service, now: int, run: Run,
      o': Options, batches': seq<Batch>, service': Service.Service, now': int)
    requires IsCompleted(st, o, files, source, batches, service, now, run)
    requires SettingsOk(st) && o.write && !o.checkOnly
    ensures Sync(st, o', run.files, source, batches', service', now')
      == Completed([], run.nextFlat, run.fallbackKeys, 0, false, false, run.files)
  {
    var env, env' := LoadEnv(st, o, files), LoadEnv(st, o', run.files);
    var flat := Tree.Flatten(source.tree);
    var translated := Translated(st, o, files, source, batches, service);
    var plan := PlanOf(env, flat, translated, now);
    CompletedPlan(st, o, files, source, batches, service, now, run);
    AssignsExactlySourceKeys(st, o, files, source, batches, service, now, run);
    FinishWrites(st, o, files, source, Pending(env, flat), plan, run.attempts, now);
    PlanTmClean(st, o, files, flat, translated, now);
    AfterFirstRun(st, o, files, source, plan, o', run.files, now);
    SecondPlan(env, flat, translated, now, env', now');
    FinishUnchanged(st, o', files, run.files, source, [], plan, PlanOf(env', flat, map[], now'), 0, now, now');
  }

  lemma AfterFirstRun(st: Settings, o: Options, files: Files, source: Source, plan: Plan, o': Options, files': Files,
      now: int)
    requires SettingsOk(st) && Tree.WellFormed(source.tree) && CleanTm(plan.tm)
    requires plan.nextFlat.Keys == FlatKeys(Tree.Flatten(source.tree))
    requires AsExpected(st, source, plan,
      NextMeta(st, files, source, st.sort(plan.fallbacks), |Tree.Flatten(source.tree)|, now),
      ExpectedGlossary(st, files), files')
    ensures Follows(LoadEnv(st, o, files), Tree.Flatten(source.tree), plan, LoadEnv(st, o', files'))
  {
    LoadCleanTm(files'.tm, plan.tm);
    ExistingIsNextFlat(source, plan.nextFlat, files'.locale.value);
    SortKeepsKeys(st, plan.fallbacks);
  }
}
