/** What a sync run reports, decides and writes, in terms of the files it found, the source
    and the replies of the service. */
module SyncOutcomes {
  import opened Basics
  import opened Whitespace
  import opened TranslationBatches
  import Tree = TranslationTree
  import Service = TranslateBatch
  import opened SyncLocale

  // ---- checking, dry runs and writing ----

  function Writing(o: Options): Options {
    o.(checkOnly := false, write := true)
  }

  /** A check, a dry run and a writing run decide and report the same. They report a change
      exactly when writing changes some file; only a writing run that reports one writes;
      and every other run leaves the files as they are. */
  lemma ChangedIffWritingChanges(st: Settings, o: Options, files: Files, source: Source, batches: seq<Batch>,
      service: Service.Service, now: int)
    requires Sync(st, o, files, source, batches, service, now).Completed?
    ensures var run := Sync(st, o, files, source, batches, service, now);
      var w := Sync(st, Writing(o), files, source, batches, service, now);
      && w.Completed? && w.changed == run.changed && w.attempts == run.attempts
      && w.pending == run.pending && w.nextFlat == run.nextFlat && w.fallbackKeys == run.fallbackKeys
      && (run.changed <==> w.files != files)
      && (run.wrote <==> run.changed && o.write && !o.checkOnly)
      && run.files == (if run.wrote then w.files else files)
  {
    hide Tree.Flatten, Tree.Rebuild, Tree.RelabelFlat, NextMeta, ExpectedGlossary, PlanOf, TranslateAll, Pending;
    assert LoadEnv(st, Writing(o), files) == LoadEnv(st, o, files);
    FinishComparison(st, o, files, source, now);
    hide Finish;
  }

  lemma FinishComparison(st: Settings, o: Options, files: Files, source: Source, now: int)
    ensures forall pending, plan, attempts ::
      SameButWriting(Finish(st, o, files, source, pending, plan, attempts, now),
        Finish(st, Writing(o), files, source, pending, plan, attempts, now), o, files)
  {
    hide Tree.Flatten, Tree.Rebuild, Tree.RelabelFlat, NextMeta, ExpectedGlossary;
  }

  predicate SameButWriting(run: Run, w: Run, o: Options, files: Files) {
    && run.Completed? && w.Completed? && w.changed == run.changed && w.attempts == run.attempts
    && w.pending == run.pending && w.nextFlat == run.nextFlat && w.fallbackKeys == run.fallbackKeys
    && (run.changed <==> w.files != files)
    && (run.wrote <==> run.changed && o.write && !o.checkOnly)
    && run.files == (if run.wrote then w.files else files)
  }

  /** A completed run reports a change exactly when the files are not what its plan expects. */
  lemma ChangedIffUnexpected(st: Settings, o: Options, files: Files, source: Source, batches: seq<Batch>,
      service: Service.Service, now: int, run: Run)
    requires IsCompleted(st, o, files, source, batches, service, now, run)
    ensures var plan := PlanOf(LoadEnv(st, o, files), Tree.Flatten(source.tree),
        Translated(st, o, files, source, batches, service), now);
      var meta := NextMeta(st, files, source, run.fallbackKeys, |Tree.Flatten(source.tree)|, now);
      run.changed <==> !AsExpected(st, source, plan, meta, ExpectedGlossary(st, files), files)
  {
    CompletedPlan(st, o, files, source, batches, service, now, run);
    hide PlanOf, NextMeta, ExpectedGlossary, Tree.Flatten, Tree.Rebuild, Tree.RelabelFlat, Sync, Translated;
  }

  // ---- what the files say ----

  /** The memory file holds a usable translation under the cache key. */
  ghost predicate Remembers(files: Files, ck: string) {
    files.tm.OnDisk? && ck in files.tm.value && ck != ""
    && exists i :: 0 <= i < |files.tm.value[ck].translated| && !IsBlank(files.tm.value[ck].translated[i])
  }

  /** The locale file holds this text under the key. */
  ghost predicate Holds(files: Files, key: string, text: string) {
    files.locale.OnDisk? && (key, text) in Tree.Flatten(files.locale.value)
  }

  ghost predicate HoldsSome(files: Files, key: string) {
    exists text :: Holds(files, key, text)
  }

  predicate WasFallback(files: Files, key: string) {
    files.meta.OnDisk? && key in files.meta.value.fallbackKeys
  }

  lemma RemembersIff(st: Settings, o: Options, files: Files, ck: string)
    ensures var env := LoadEnv(st, o, files);
      Remembers(files, ck) <==> ck in env.tm && files.tm.OnDisk? && env.tm[ck] == files.tm.value[ck]
    ensures ck in LoadEnv(st, o, files).tm ==> Remembers(files, ck)
  {
    if files.tm.OnDisk? && ck in files.tm.value {
      var text := files.tm.value[ck].translated;
      assert AllBlank(text) <==> !exists i :: 0 <= i < |text| && !IsBlank(text[i]);
    }
  }

  lemma {:induction false} ToMapHolds(flat: Tree.Flat, key: string)
    ensures key in ToMap(flat) ==> (key, ToMap(flat)[key]) in flat
    ensures key !in ToMap(flat) ==> forall text :: (key, text) !in flat
  {
    if flat != [] {
      var n := |flat| - 1;
      ToMapHolds(flat[..n], key);
      assert flat == flat[..n] + [flat[n]];
    }
  }

  lemma ExistingIff(st: Settings, o: Options, files: Files, key: string)
    ensures var env := LoadEnv(st, o, files);
      && (key in env.existing <==> HoldsSome(files, key))
      && (key in env.existing ==> Holds(files, key, env.existing[key]))
  {
    var tree := if files.locale.OnDisk? then files.locale.value else Tree.Nil;
    ToMapHolds(Tree.Flatten(tree), key);
    assert Tree.Flatten(Tree.Nil) == [];
    var env := LoadEnv(st, o, files);
    if key in env.existing {
      assert Holds(files, key, env.existing[key]);
    }
  }

  lemma WasFallbackIff(st: Settings, o: Options, files: Files, key: string)
    ensures key in LoadEnv(st, o, files).previousFallback <==> WasFallback(files, key)
  {
  }

  /** The text of every source key after a completed run. A remembered translation comes
      first, then the text in the locale file, except that a provider replaces what was a
      fallback; what is left is pending and gets the provider's text, or the source text.
      Without a provider, old fallbacks and source texts are the fallbacks; with one, none. */
  lemma RunKeyOutcome(st: Settings, o: Options, files: Files, source: Source, batches: seq<Batch>,
      service: Service.Service, now: int, run: Run, i: nat)
    requires IsCompleted(st, o, files, source, batches, service, now, run) && SettingsOk(st)
    requires i < |Tree.Flatten(source.tree)|
    ensures var (key, text) := Tree.Flatten(source.tree)[i];
      var ck := st.cacheKey(key, st.hashText(text));
      var retry := st.allowTranslate && WasFallback(files, key);
      var translated := Translated(st, o, files, source, batches, service);
      && key in run.nextFlat
      && (Remembers(files, ck) && !retry ==> run.nextFlat[key] == files.tm.value[ck].translated)
      && (!Remembers(files, ck) && HoldsSome(files, key) && !retry ==> Holds(files, key, run.nextFlat[key]))
      && (retry || (!Remembers(files, ck) && !HoldsSome(files, key)) ==>
            if st.allowTranslate then key in translated && run.nextFlat[key] == translated[key]
            else run.nextFlat[key] == text)
      && (key in run.fallbackKeys <==>
            !st.allowTranslate && (WasFallback(files, key) || (!Remembers(files, ck) && !HoldsSome(files, key))))
      && (Item(ck, key, text, st.hashText(text)) in run.pending <==>
            retry || (!Remembers(files, ck) && !HoldsSome(files, key)))
  {
    CompletedPlan(st, o, files, source, batches, service, now, run);
    var env, flat := LoadEnv(st, o, files), Tree.Flatten(source.tree);
    var (key, text) := flat[i];
    var ck := CacheKeyOf(env, key, text);
    var translated := Translated(st, o, files, source, batches, service);
    FromFiles(st, o, files, key, ck);
    KeyOutcome(env, flat, translated, now, i);
    RunFallbacks(st, PlanOf(env, flat, translated, now), key);
    KeyPendingIff(env, flat, i);
    hide PlanOf, Translated, SettingsOk, IsCompleted, Remembers, HoldsSome, Holds, WasFallback, TranslatesAll,
      Tree.Flatten, LoadEnv, Pending, DistinctFlat, NextMeta, ExpectedGlossary, Tree.Rebuild, Tree.RelabelFlat;
  }

  /** What the loaded environment holds for one key, in terms of the files. */
  lemma FromFiles(st: Settings, o: Options, files: Files, key: string, ck: string)
    ensures var env := LoadEnv(st, o, files);
      && env.st == st
      && (ck in env.tm <==> Remembers(files, ck))
      && (ck in env.tm ==> files.tm.OnDisk? && ck in files.tm.value && env.tm[ck] == files.tm.value[ck])
      && (key in env.existing <==> HoldsSome(files, key))
      && (key in env.existing ==> Holds(files, key, env.existing[key]))
      && (key in env.previousFallback <==> WasFallback(files, key))
  {
    RemembersIff(st, o, files, ck);
    ExistingIff(st, o, files, key);
    WasFallbackIff(st, o, files, key);
    hide ToMap, LoadTm, Holds, HoldsSome;
  }

  lemma RunFallbacks(st: Settings, plan: Plan, key: string)
    requires SettingsOk(st)
    ensures key in st.sort(plan.fallbacks) <==> key in plan.fallbacks
  {
    assert key in st.sort(plan.fallbacks) <==> key in multiset(st.sort(plan.fallbacks));
    assert key in plan.fallbacks <==> key in multiset(plan.fallbacks);
  }

  lemma KeyPendingIff(env: Env, flat: Tree.Flat, i: nat)
    requires DistinctFlat(flat) && SettingsOk(env.st) && i < |flat|
    ensures ItemOf(env, flat[i].0, flat[i].1) in Pending(env, flat) <==> Reused(env, flat[i].0, flat[i].1).None?
  {
    PendingAt(env, flat, i);
    ItemKeyIn(Pending(env, flat), ItemOf(env, flat[i].0, flat[i].1));
    if Reused(env, flat[i].0, flat[i].1).None? {
      var item := PendingItemOf(env, flat, i);
    }
  }

  lemma ItemKeyIn(items: Batch, item: Item)
    ensures item in items ==> item.key in Service.KeysOf(items)
  {
  }

  // ---- what is pending, and in which order ----

  /** The pending items stand in the order of the source. */
  lemma {:induction false} PendingInOrder(env: Env, flat: Tree.Flat, a: nat, b: nat) returns (i: nat, j: nat)
    requires a < b < |Pending(env, flat)|
    ensures i < j < |flat|
    ensures Pending(env, flat)[a] == ItemOf(env, flat[i].0, flat[i].1)
    ensures Pending(env, flat)[b] == ItemOf(env, flat[j].0, flat[j].1)
  {
    var n := |flat| - 1;
    if b < |Pending(env, flat[..n])| {
      i, j := PendingInOrder(env, flat[..n], a, b);
    } else {
      i := PendingComesFrom(env, flat[..n], a);
      j := n;
    }
    hide Reused;
  }

  lemma {:induction false} PendingComesFrom(env: Env, flat: Tree.Flat, a: nat) returns (i: nat)
    requires a < |Pending(env, flat)|
    ensures i < |flat| && Pending(env, flat)[a] == ItemOf(env, flat[i].0, flat[i].1)
  {
    var n := |flat| - 1;
    if a < |Pending(env, flat[..n])| {
      i := PendingComesFrom(env, flat[..n], a);
    } else {
      i := n;
    }
    hide Reused;
  }

  // ---- translating ----

  /** The number of the first attempt at batch k when the batches before it have been tried. */
  function StartOf(batches: seq<Batch>, service: Service.Service, n: nat, k: nat): nat
    requires k <= |batches|
    decreases k
  {
    if k == 0 then n
    else StartOf(batches[1..], service, Service.Translate(batches[0], service, n, 0).1, k - 1)
  }

  /** Translating all batches fails exactly when some batch fails; before that batch none did. */
  lemma {:induction false} TranslateAllFailsIff(batches: seq<Batch>, service: Service.Service, n: nat)
    ensures TranslateAll(batches, service, n).0.Failed? <==> SomeFails(batches, service, n)
    decreases |batches|
  {
    if batches != [] {
      var (first, next) := Service.Translate(batches[0], service, n, 0);
      TranslateAllFailsIff(batches[1..], service, next);
      SomeFailsCons(batches, service, n);
      hide Service.Translate, SomeFails;
    }
  }

  ghost predicate SomeFails(batches: seq<Batch>, service: Service.Service, n: nat) {
    exists k :: 0 <= k < |batches| && BatchFails(batches, service, n, k)
  }

  lemma SomeFailsCons(batches: seq<Batch>, service: Service.Service, n: nat)
    requires batches != []
    ensures var (first, next) := Service.Translate(batches[0], service, n, 0);
      SomeFails(batches, service, n) <==> first.Failed? || SomeFails(batches[1..], service, next)
  {
    hide Service.Translate;
    var rest, next := batches[1..], Service.Translate(batches[0], service, n, 0).1;
    assert BatchFails(batches, service, n, 0) <==> Service.Translate(batches[0], service, n, 0).0.Failed?;
    forall k | 0 <= k < |rest| ensures BatchFails(rest, service, next, k) <==> BatchFails(batches, service, n, k + 1) {
    }
    if SomeFails(batches, service, n) {
      var k :| 0 <= k < |batches| && BatchFails(batches, service, n, k);
      assert k > 0 ==> BatchFails(rest, service, next, k - 1);
    }
    if SomeFails(rest, service, next) {
      var k :| 0 <= k < |rest| && BatchFails(rest, service, next, k);
      assert BatchFails(batches, service, n, k + 1);
    }
  }

  ghost predicate BatchFails(batches: seq<Batch>, service: Service.Service, n: nat, k: nat)
    requires k < |batches|
  {
    Service.Translate(batches[k], service, StartOf(batches, service, n, k), 0).0.Failed?
  }

  /** A run aborts exactly when it has a provider and some batch cannot be translated. */
  lemma RunAbortsIff(st: Settings, o: Options, files: Files, source: Source, batches: seq<Batch>,
      service: Service.Service, now: int)
    requires PackedFor(st, o, files, source, batches)
    ensures Sync(st, o, files, source, batches, service, now).Aborted?
      <==> st.allowTranslate && SomeFails(batches, service, 0)
  {
    TranslateAllFailsIff(batches, service, 0);
    if Pending(LoadEnv(st, o, files), Tree.Flatten(source.tree)) == [] {
      assert batches != [] ==> Fits(batches[0], st.budget);
    }
    hide Pending, LoadEnv, Tree.Flatten, Finish, PlanOf, TranslateAll, BatchFails;
    assert batches == [] ==> !SomeFails(batches, service, 0);
  }

  /** Every batch gets a good reply at once. */
  ghost predicate AllGood(batches: seq<Batch>, service: Service.Service, n: nat) {
    forall k :: 0 <= k < |batches| ==> Service.GoodReply(batches[k], service(n + k, batches[k]))
  }

  ghost predicate DistinctItemKeys(items: Batch) {
    forall i, j :: 0 <= i < j < |items| ==> items[i].key != items[j].key
  }

  /** The translations of the batch's keys are the texts of the reply. */
  ghost predicate Gives(batch: Batch, reply: Service.Reply, translated: Texts) {
    reply.Parsed? && forall key :: key in Service.KeysOf(batch) ==>
      Service.HasText(reply.fields, key) && key in translated && translated[key] == reply.fields[key].text
  }

  lemma GoodGives(batch: Batch, reply: Service.Reply)
    requires Service.GoodReply(batch, reply)
    ensures Gives(batch, reply, Service.TextsOf(batch, reply.fields))
  {
  }

  lemma DistinctParts(a: Batch, b: Batch)
    requires DistinctItemKeys(a + b)
    ensures DistinctItemKeys(b) && Service.KeysOf(a) !! Service.KeysOf(b)
  {
    var all := a + b;
    assert forall i :: 0 <= i < |b| ==> all[|a| + i] == b[i];
    forall k | k in Service.KeysOf(a) ensures k !in Service.KeysOf(b) {
      var i :| 0 <= i < |a| && a[i].key == k;
      assert all[i] == a[i];
    }
  }

  lemma GivesInUnion(batch: Batch, reply: Service.Reply, left: Texts, right: Texts)
    ensures Gives(batch, reply, right) ==> Gives(batch, reply, left + right)
    ensures Gives(batch, reply, left) && Service.KeysOf(batch) !! right.Keys ==> Gives(batch, reply, left + right)
  {
  }

  /** When the service answers every batch with a text for each of its keys, translating takes
      one attempt per batch and gives each key the text of its batch's reply. */
  lemma {:induction false} GoodServiceTranslatesAll(batches: seq<Batch>, service: Service.Service, n: nat)
    requires AllGood(batches, service, n) && DistinctItemKeys(Concat(batches))
    ensures var (r, next) := TranslateAll(batches, service, n);
      r.Done? && next == n + |batches| && AllGive(batches, service, n, r.translated)
    decreases |batches|
  {
    hide Gives;
    if batches != [] {
      var rest := batches[1..];
      var reply := service(n, batches[0]);
      TailIsGood(batches, service, n);
      DistinctParts(batches[0], Concat(rest));
      hide AllGood, AllGive, DistinctItemKeys, Service.GoodReply, Service.Translate, Concat;
      GoodGives(batches[0], reply);
      Service.AcceptedIff(batches[0], service, n, 0);
      GoodServiceTranslatesAll(rest, service, n + 1);
      TranslateAllCovers(rest, service, n + 1);
      var left, right := Service.TextsOf(batches[0], reply.fields), TranslateAll(rest, service, n + 1).0.translated;
      AllGiveCons(batches, service, n, left, right);
    }
  }

  ghost predicate AllGive(batches: seq<Batch>, service: Service.Service, n: nat, translated: Texts) {
    forall k :: 0 <= k < |batches| ==> Gives(batches[k], service(n + k, batches[k]), translated)
  }

  lemma AllGiveCons(batches: seq<Batch>, service: Service.Service, n: nat, left: Texts, right: Texts)
    requires batches != [] && Gives(batches[0], service(n, batches[0]), left)
    requires AllGive(batches[1..], service, n + 1, right) && Service.KeysOf(batches[0]) !! right.Keys
    ensures AllGive(batches, service, n, left + right)
  {
    hide Gives;
    var rest := batches[1..];
    forall k | 0 <= k < |batches| ensures Gives(batches[k], service(n + k, batches[k]), left + right) {
      GivesInUnion(batches[k], service(n + k, batches[k]), left, right);
      if k > 0 {
        assert Gives(rest[k - 1], service(n + 1 + (k - 1), rest[k - 1]), right);
      }
    }
  }

  lemma TailIsGood(batches: seq<Batch>, service: Service.Service, n: nat)
    requires batches != [] && AllGood(batches, service, n)
    ensures Service.GoodReply(batches[0], service(n, batches[0])) && AllGood(batches[1..], service, n + 1)
  {
    hide Service.GoodReply;
    assert Service.GoodReply(batches[0], service(n + 0, batches[0]));
    forall k | 0 <= k < |batches[1..]| ensures Service.GoodReply(batches[1..][k], service(n + 1 + k, batches[1..][k])) {
      assert Service.GoodReply(batches[k + 1], service(n + (k + 1), batches[k + 1]));
    }
  }

  /** With a provider and a service that gives each batch a text for every key, the run
      completes after one attempt per batch, and every pending key gets its reply's text. */
  lemma GoodServiceCompletes(st: Settings, o: Options, files: Files, source: Source, batches: seq<Batch>,
      service: Service.Service, now: int, k: nat)
    requires PackedFor(st, o, files, source, batches) && Tree.WellFormed(source.tree) && SettingsOk(st)
    requires st.allowTranslate && AllGood(batches, service, 0)
    ensures var run := Sync(st, o, files, source, batches, service, now);
      && run.Completed? && run.attempts == |batches|
      && (k < |batches| ==> Gives(batches[k], service(k, batches[k]), run.nextFlat))
  {
    var env, flat := LoadEnv(st, o, files), Tree.Flatten(source.tree);
    var pending := Pending(env, flat);
    SourceIsDistinct(source.tree);
    PendingItems(env, flat);
    GoodServiceTranslatesAll(batches, service, 0);
    PackingEmptyIff(pending, batches, st.budget);
    var run := Sync(st, o, files, source, batches, service, now);
    var translated := Translated(st, o, files, source, batches, service);
    CompletedPlan(st, o, files, source, batches, service, now, run);
    if k < |batches| {
      var reply := service(0 + k, batches[k]);
      assert Gives(batches[k], reply, translated);
      BatchKeys(batches, k);
      hide Pending, LoadEnv, Tree.Flatten, PlanOf, TranslateAll, AllGive, Gives, AllGood, PackedFor, SettingsOk,
        DistinctFlat, TranslatesAll, Translated, Sync, DistinctItemKeys, NextMeta, ExpectedGlossary, Tree.Rebuild, Tree.RelabelFlat;
      forall key | key in Service.KeysOf(batches[k])
        ensures key in run.nextFlat && run.nextFlat[key] == translated[key] {
        PendingGetsTranslation(env, flat, translated, now, key);
      }
      GivesSame(batches[k], reply, translated, run.nextFlat);
    }
  }

  lemma GivesSame(batch: Batch, reply: Service.Reply, a: Texts, b: Texts)
    requires Gives(batch, reply, a)
    requires forall key :: key in Service.KeysOf(batch) && key in a ==> key in b && b[key] == a[key]
    ensures Gives(batch, reply, b)
  {
  }

  lemma {:induction false} BatchKeys(batches: seq<Batch>, k: nat)
    requires k < |batches|
    ensures Service.KeysOf(batches[k]) <= Service.KeysOf(Concat(batches))
  {
    var all := Concat(batches);
    var n := |batches[0]|;
    Service.KeysSplit(all, n);
    assert all[..n] == batches[0] && all[n..] == Concat(batches[1..]);
    if k > 0 {
      BatchKeys(batches[1..], k - 1);
    }
  }

  lemma PendingGetsTranslation(env: Env, flat: Tree.Flat, translated: Texts, now: int, key: string)
    requires SettingsOk(env.st) && DistinctFlat(flat) && TranslatesAll(env, flat, translated) && env.st.allowTranslate
    requires key in Service.KeysOf(Pending(env, flat))
    ensures var texts := PlanOf(env, flat, translated, now).nextFlat;
      key in texts && key in translated && texts[key] == translated[key]
  {
    KeysPartition(env, flat);
    var i :| 0 <= i < |flat| && flat[i].0 == key;
    PendingAt(env, flat, i);
    PendingKeyText(env, flat, translated, now, i);
  }

  // ---- what a writing run leaves ----

  /** The metadata a run writes: its counts, its fallbacks, the source, the provider (or the
      one before when there is none), and the old time if nothing else has changed. */
  lemma WrittenMeta(st: Settings, o: Options, files: Files, source: Source, batches: seq<Batch>,
      service: Service.Service, now: int, run: Run)
    requires run == Sync(st, o, files, source, batches, service, now) && run.Completed? && run.wrote
    ensures run.files.meta.OnDisk? && run.files.meta.canonical
    ensures var m := run.files.meta.value;
      var total := |Tree.Flatten(source.tree)|;
      && m.fallbackKeys == run.fallbackKeys && m.totalKeys == total
      && m.translatedKeys + |run.fallbackKeys| == total
      && m.locale == st.locale && m.sourceHash == source.hash && m.workflow == 1
      && (st.allowTranslate ==> m.provider == st.provider && m.model == st.model)
      && (!st.allowTranslate && files.meta.OnDisk? ==>
            m.provider == files.meta.value.provider && m.model == files.meta.value.model)
      && (!st.allowTranslate && files.meta.Missing? ==> m.provider == "" && m.model == "")
      && (m.generatedAt == now || (files.meta.OnDisk? && m == files.meta.value))
      && (files.meta.OnDisk? && m == files.meta.value.(generatedAt := m.generatedAt) ==> m == files.meta.value)
  {
    hide Tree.Flatten, Tree.Rebuild, Tree.RelabelFlat, ExpectedGlossary, PlanOf, TranslateAll, Pending, LoadEnv;
  }

  /** The locale and the glossary a run writes. */
  lemma WrittenTexts(st: Settings, o: Options, files: Files, source: Source, batches: seq<Batch>,
      service: Service.Service, now: int, run: Run)
    requires IsCompleted(st, o, files, source, batches, service, now, run) && run.wrote
    ensures run.files.locale.OnDisk? && run.files.locale.canonical && Tree.WellFormed(run.files.locale.value)
    ensures var flat, written := Tree.Flatten(source.tree), Tree.Flatten(run.files.locale.value);
      && |written| == |flat|
      && forall i :: 0 <= i < |flat| ==>
           flat[i].0 in run.nextFlat && written[i] == (flat[i].0, run.nextFlat[flat[i].0])
    ensures run.files.glossary.OnDisk? && run.files.glossary.canonical
    ensures run.files.glossary.value
      == if files.glossary.OnDisk? && files.glossary.value != [] then files.glossary.value else st.defaultGlossary
  {
    CompletedPlan(st, o, files, source, batches, service, now, run);
    AssignsExactlySourceKeys(st, o, files, source, batches, service, now, run);
    Tree.RelabelRoundTrip(source.tree, run.nextFlat);
    var flat := Tree.Flatten(source.tree);
    forall i | 0 <= i < |flat| ensures flat[i].0 in run.nextFlat {
      KeyInFlat(flat, i);
    }
    hide PlanOf, NextMeta, Sync, Tree.Flatten, Tree.Rebuild, Translated, Tree.WellFormed, DistinctFlat, TranslatesAll;
  }

  /** The memory as a file holds it; a missing file is empty. */
  function Memory(f: File<Tm>): Tm {
    if f.OnDisk? then f.value else map[]
  }

  lemma {:induction false} FullEntry(env: Env, items: Batch, translated: Texts, now: int, item: Item, tm: Tm)
    requires forall i, j :: 0 <= i < j < |items| ==> items[i].cacheKey != items[j].cacheKey
    requires item in items && Got(translated, item.key)
    ensures var t := TmWith(env, tm, items, translated, now);
      item.cacheKey in t && t[item.cacheKey]
        == TmEntry(item.key, item.text, item.textHash, translated[item.key], env.st.provider, env.st.model, now)
  {
    var n := |items| - 1;
    if item != items[n] {
      assert item in items[..n];
      FullEntry(env, items[..n], translated, now, item, tm);
    }
  }

  /** The memory a run writes: with a provider, a full entry for every pending key; every
      other entry that was usable is kept as it was; nothing else. */
  lemma WrittenMemory(st: Settings, o: Options, files: Files, source: Source, batches: seq<Batch>,
      service: Service.Service, now: int, run: Run, item: Item, ck: string)
    requires IsCompleted(st, o, files, source, batches, service, now, run) && run.wrote && SettingsOk(st)
    ensures st.allowTranslate && item in run.pending ==>
      && item.key in run.nextFlat && item.cacheKey in Memory(run.files.tm)
      && Memory(run.files.tm)[item.cacheKey]
         == TmEntry(item.key, item.text, item.textHash, run.nextFlat[item.key], st.provider, st.model, now)
    ensures (!st.allowTranslate || forall p :: p in run.pending ==> p.cacheKey != ck) ==>
      && (ck in Memory(run.files.tm) <==> Remembers(files, ck))
      && (ck in Memory(run.files.tm) ==> Memory(run.files.tm)[ck] == files.tm.value[ck])
  {
    CompletedPlan(st, o, files, source, batches, service, now, run);
    var env, flat := LoadEnv(st, o, files), Tree.Flatten(source.tree);
    var translated := Translated(st, o, files, source, batches, service);
    var pending := Pending(env, flat);
    PendingItems(env, flat);
    FromFiles(st, o, files, "", ck);
    WrittenIsPlanned(st, o, files, source, pending, PlanOf(env, flat, translated, now), run.attempts, now);
    if st.allowTranslate && item in pending {
      ItemKeyIn(pending, item);
      GotWhenTranslated(translated, item.key);
      FullEntry(env, pending, translated, now, item, env.tm);
      PendingGetsTranslation(env, flat, translated, now, item.key);
    }
    if !st.allowTranslate || forall p :: p in pending ==> p.cacheKey != ck {
      forall i | 0 <= i < |pending| && Got(translated, pending[i].key) ensures pending[i].cacheKey != ck {
        assert pending[i] in pending;
        GotWhenTranslated(translated, pending[i].key);
      }
      TmElsewhere(env, pending, translated, now, env.tm, ck);
    }
    hide Tree.Flatten, LoadEnv, Pending, Translated, TmWith, Remembers, NextMeta, ExpectedGlossary, SettingsOk;
  }

  lemma WrittenIsPlanned(st: Settings, o: Options, files: Files, source: Source, pending: Batch, plan: Plan,
      attempts: nat, now: int)
    ensures var run := Finish(st, o, files, source, pending, plan, attempts, now);
      && run.pending == pending && run.nextFlat == plan.nextFlat
      && (run.wrote ==> Memory(run.files.tm) == plan.tm)
  {
    hide Tree.Flatten, Tree.Rebuild, Tree.RelabelFlat, NextMeta, ExpectedGlossary;
  }
}
