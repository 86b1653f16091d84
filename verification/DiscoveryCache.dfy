/** The Bedrock discovery cache: concurrent callers share one in-flight fetch per key.
    The code between two awaits is one step. */
module DiscoveryCache {
  import opened Basics

  /** The cache key is the whole parameter record, refresh interval included. */
  datatype Key = Key(region: string, providerFilter: seq<string>, refreshSeconds: nat, contextWindow: nat,
    maxTokens: nat)

  type Models = seq<string>

  datatype Progress = Running | Succeeded(value: Models) | Failed

  /** One discovery fetch. It has landed once the caller that started it has resumed. */
  datatype Fetch = Fetch(key: Key, startedAt: int, progress: Progress, landed: bool)

  datatype Entry = Entry(expiresAt: int, value: Option<Models>, inFlight: Option<nat>)

  /** How a call was answered when it was made. */
  datatype Answer =
    | Served(key: Key, now: int, models: Models)
    | Joined(key: Key, fetch: nat)
    | Started(fetch: nat)
    | NoClient

  datatype State = State(cache: map<Key, Entry>, fetches: seq<Fetch>, answers: seq<Answer>)

  datatype Event =
    | Call(key: Key, now: int, clientOk: bool)
    | Resolve(fetch: nat, models: Models)
    | Reject(fetch: nat)
    | Land(fetch: nat)

  function Init(): State {
    State(map[], [], [])
  }

  function ExpiresAt(f: Fetch): int {
    f.startedAt + f.key.refreshSeconds * 1000
  }

  /** A call: a live value, else the fetch in flight, else a new fetch. With a refresh
      interval of zero the cache is neither read nor written. */
  function OnCall(s: State, key: Key, now: int, clientOk: bool): State {
    var caching := key.refreshSeconds > 0;
    if caching && key in s.cache && s.cache[key].value.Some? && s.cache[key].expiresAt > now then
      s.(answers := s.answers + [Served(key, now, s.cache[key].value.value)])
    else if caching && key in s.cache && s.cache[key].inFlight.Some? then
      s.(answers := s.answers + [Joined(key, s.cache[key].inFlight.value)])
    else if !clientOk then
      s.(answers := s.answers + [NoClient])
    else
      var f := Fetch(key, now, Running, false);
      State(
        if caching then s.cache[key := Entry(ExpiresAt(f), None, Some(|s.fetches|))] else s.cache,
        s.fetches + [f],
        s.answers + [Started(|s.fetches|)])
  }

  /** The starter of a settled fetch resumes: it stores the value, or removes the entry. */
  function OnLand(s: State, i: nat): State
    requires i < |s.fetches|
  {
    var f := s.fetches[i];
    var landed := s.fetches[i := f.(landed := true)];
    if f.key.refreshSeconds == 0 then s.(fetches := landed)
    else if f.progress.Succeeded? then
      s.(fetches := landed, cache := s.cache[f.key := Entry(ExpiresAt(f), Some(f.progress.value), None)])
    else
      s.(fetches := landed, cache := s.cache - {f.key})
  }

  /** A promise settles once, and its starter resumes once, after that. */
  function Next(s: State, e: Event): State {
    match e
    case Call(key, now, clientOk) => OnCall(s, key, now, clientOk)
    case Resolve(i, models) =>
      if i < |s.fetches| && s.fetches[i].progress.Running?
      then s.(fetches := s.fetches[i := s.fetches[i].(progress := Succeeded(models))]) else s
    case Reject(i) =>
      if i < |s.fetches| && s.fetches[i].progress.Running?
      then s.(fetches := s.fetches[i := s.fetches[i].(progress := Failed)]) else s
    case Land(i) =>
      if i < |s.fetches| && !s.fetches[i].progress.Running? && !s.fetches[i].landed
      then OnLand(s, i) else s
  }

  function After(events: seq<Event>): State {
    if events == [] then Init()
    else Next(After(events[..|events| - 1]), events[|events| - 1])
  }

  /** The entry of a key is that of its one fetch in flight, or the value of a landed one. */
  ghost predicate EntryOk(s: State, key: Key)
    requires key in s.cache
  {
    var e := s.cache[key];
    && key.refreshSeconds > 0
    && (e.value.Some? <==> e.inFlight.None?)
    && (e.inFlight.Some? ==>
          && e.inFlight.value < |s.fetches|
          && var f := s.fetches[e.inFlight.value]; f.key == key && !f.landed && e.expiresAt == ExpiresAt(f))
    && (e.value.Some? ==> FromFetch(s, key, e.expiresAt, e.value.value))
  }

  ghost predicate FromFetch(s: State, key: Key, expiresAt: int, models: Models) {
    exists i :: 0 <= i < |s.fetches| && IsSource(s.fetches[i], key, expiresAt, models)
  }

  predicate IsSource(f: Fetch, key: Key, expiresAt: int, models: Models) {
    f.key == key && f.landed && f.progress == Succeeded(models) && ExpiresAt(f) == expiresAt
  }

  /** An answer is justified by a fetch of the same key: a served value by one started less
      than one refresh interval before. */
  ghost predicate AnswerOk(s: State, a: Answer) {
    match a
    case Served(key, now, models) =>
      exists i :: 0 <= i < |s.fetches| && ServedBy(s.fetches[i], key, now, models)
    case Joined(key, i) => i < |s.fetches| && s.fetches[i].key == key
    case Started(i) => i < |s.fetches|
    case NoClient => true
  }

  predicate ServedBy(f: Fetch, key: Key, now: int, models: Models) {
    f.key == key && f.progress == Succeeded(models) && now < f.startedAt + key.refreshSeconds * 1000
  }

  ghost predicate Inv(s: State) {
    && (forall key :: key in s.cache ==> EntryOk(s, key))
    && (forall i :: 0 <= i < |s.fetches| && s.fetches[i].landed ==> !s.fetches[i].progress.Running?)
    && (forall i :: 0 <= i < |s.fetches| && !s.fetches[i].landed && s.fetches[i].key.refreshSeconds > 0
          ==> Owns(s, i))
    && (forall k :: 0 <= k < |s.answers| ==> AnswerOk(s, s.answers[k]))
  }

  /** Fetch i owns the entry of its key. */
  ghost predicate Owns(s: State, i: nat)
    requires i < |s.fetches|
  {
    var f := s.fetches[i];
    f.key in s.cache && s.cache[f.key] == Entry(ExpiresAt(f), None, Some(i))
  }

  /** t's fetches extend or advance those of s. */
  ghost predicate Advances(s: State, t: State) {
    && |s.fetches| <= |t.fetches|
    && forall i :: 0 <= i < |s.fetches| ==>
        && t.fetches[i].key == s.fetches[i].key && t.fetches[i].startedAt == s.fetches[i].startedAt
        && (s.fetches[i].landed ==> t.fetches[i].landed)
        && (!s.fetches[i].progress.Running? ==> t.fetches[i].progress == s.fetches[i].progress)
  }

  lemma EntryStays(s: State, t: State, key: Key)
    requires Advances(s, t) && key in s.cache && key in t.cache && t.cache[key] == s.cache[key]
    requires EntryOk(s, key)
    requires s.cache[key].inFlight.Some? ==> !t.fetches[s.cache[key].inFlight.value].landed
    ensures EntryOk(t, key)
  {
    var e := s.cache[key];
    if e.value.Some? {
      var i :| 0 <= i < |s.fetches| && IsSource(s.fetches[i], key, e.expiresAt, e.value.value);
      assert IsSource(t.fetches[i], key, e.expiresAt, e.value.value);
    }
  }

  lemma AnswerStays(s: State, t: State, a: Answer)
    requires Advances(s, t) && AnswerOk(s, a)
    ensures AnswerOk(t, a)
  {
    if a.Served? {
      var i :| 0 <= i < |s.fetches| && ServedBy(s.fetches[i], a.key, a.now, a.models);
      assert ServedBy(t.fetches[i], a.key, a.now, a.models);
    }
  }

  lemma AnswersStay(s: State, t: State)
    requires Inv(s) && Advances(s, t) && s.answers <= t.answers
    ensures forall k :: 0 <= k < |s.answers| ==> AnswerOk(t, t.answers[k])
  {
    hide AnswerOk, Advances, EntryOk, Owns;
    forall k | 0 <= k < |s.answers| ensures AnswerOk(t, t.answers[k]) {
      AnswerStays(s, t, s.answers[k]);
    }
  }

  lemma CallInv(s: State, key: Key, now: int, clientOk: bool)
    requires Inv(s)
    ensures Inv(OnCall(s, key, now, clientOk))
  {
    var t := OnCall(s, key, now, clientOk);
    assert Advances(s, t);
    AnswersStay(s, t);
    forall k | k in t.cache ensures EntryOk(t, k) {
      if k in s.cache && t.cache[k] == s.cache[k] {
        assert EntryOk(s, k);
        EntryStays(s, t, k);
      }
    }
    CallAnswer(s, key, now, clientOk);
  }

  lemma CallAnswer(s: State, key: Key, now: int, clientOk: bool)
    requires Inv(s)
    ensures var t := OnCall(s, key, now, clientOk);
      |t.answers| == |s.answers| + 1 && AnswerOk(t, t.answers[|s.answers|])
  {
    var t := OnCall(s, key, now, clientOk);
    var a := t.answers[|s.answers|];
    if a.Served? {
      assert EntryOk(s, key);
      var e := s.cache[key];
      var i :| 0 <= i < |s.fetches| && IsSource(s.fetches[i], key, e.expiresAt, e.value.value);
      assert ServedBy(t.fetches[i], key, now, a.models);
    } else if a.Joined? {
      assert EntryOk(s, key);
    }
  }

  lemma SettleInv(s: State, i: nat, progress: Progress)
    requires Inv(s) && i < |s.fetches| && s.fetches[i].progress.Running? && !progress.Running?
    ensures Inv(s.(fetches := s.fetches[i := s.fetches[i].(progress := progress)]))
  {
    var t := s.(fetches := s.fetches[i := s.fetches[i].(progress := progress)]);
    assert Advances(s, t);
    AnswersStay(s, t);
    forall k | k in t.cache ensures EntryOk(t, k) {
      EntryStays(s, t, k);
    }
    forall j | 0 <= j < |t.fetches| && !t.fetches[j].landed && t.fetches[j].key.refreshSeconds > 0
      ensures Owns(t, j)
    {
      assert Owns(s, j);
    }
  }

  lemma LandInv(s: State, i: nat)
    requires Inv(s) && i < |s.fetches| && !s.fetches[i].progress.Running? && !s.fetches[i].landed
    ensures Inv(OnLand(s, i))
  {
    var t := OnLand(s, i);
    var f := s.fetches[i];
    assert Advances(s, t);
    AnswersStay(s, t);
    forall k | k in t.cache ensures EntryOk(t, k) {
      if k == f.key {
        assert k in s.cache ==> EntryOk(s, k);
        assert f.key.refreshSeconds > 0 ==> IsSource(t.fetches[i], k, ExpiresAt(f), f.progress.value);
      } else {
        assert EntryOk(s, k);
        EntryStays(s, t, k);
      }
    }
    forall j | 0 <= j < |t.fetches| && !t.fetches[j].landed && t.fetches[j].key.refreshSeconds > 0
      ensures Owns(t, j)
    {
      assert j != i && Owns(s, j);
      assert f.key.refreshSeconds > 0 ==> Owns(s, i);
    }
  }

  /** Under every interleaving of callers and fetches the invariant holds. */
  lemma {:induction false} EveryRunKeepsInv(events: seq<Event>)
    ensures Inv(After(events))
  {
    if events != [] {
      var s, e := After(events[..|events| - 1]), events[|events| - 1];
      EveryRunKeepsInv(events[..|events| - 1]);
      hide Inv;
      match e {
        case Call(key, now, clientOk) => CallInv(s, key, now, clientOk);
        case Resolve(i, models) =>
          if i < |s.fetches| && s.fetches[i].progress.Running? { SettleInv(s, i, Succeeded(models)); }
        case Reject(i) =>
          if i < |s.fetches| && s.fetches[i].progress.Running? { SettleInv(s, i, Failed); }
        case Land(i) =>
          if i < |s.fetches| && !s.fetches[i].progress.Running? && !s.fetches[i].landed { LandInv(s, i); }
      }
    }
  }

  /** With a positive refresh interval, at most one fetch per key has not landed. */
  lemma OneFetchInFlight(events: seq<Event>, i: nat, j: nat)
    requires i < j < |After(events).fetches|
    requires !After(events).fetches[i].landed && !After(events).fetches[j].landed
    ensures After(events).fetches[i].key != After(events).fetches[j].key
      || After(events).fetches[i].key.refreshSeconds == 0
  {
    EveryRunKeepsInv(events);
    var s := After(events);
    if s.fetches[i].key.refreshSeconds > 0 && s.fetches[j].key.refreshSeconds > 0 {
      assert Owns(s, i) && Owns(s, j);
    }
  }

  /** A fetch that lands finds its own entry in the cache: it replaces or removes that entry
      and touches no other key. */
  lemma LandReplacesOwnEntry(events: seq<Event>, i: nat)
    requires i < |After(events).fetches|
    requires var f := After(events).fetches[i]; !f.progress.Running? && !f.landed && f.key.refreshSeconds > 0
    ensures var s, t := After(events), After(events + [Land(i)]);
      var f := s.fetches[i];
      && f.key in s.cache && s.cache[f.key].inFlight == Some(i)
      && t.cache - {f.key} == s.cache - {f.key}
      && (f.progress.Failed? <==> f.key !in t.cache)
      && (f.progress.Succeeded? ==> t.cache[f.key].value == Some(f.progress.value))
  {
    EveryRunKeepsInv(events);
    assert (events + [Land(i)])[..|events|] == events;
    assert Owns(After(events), i);
  }

  /** A value served from the cache was fetched for the same key by a fetch that started
      less than one refresh interval before the call. */
  lemma ServedValueIsFresh(events: seq<Event>, k: nat)
    requires k < |After(events).answers| && After(events).answers[k].Served?
    ensures var a := After(events).answers[k];
      exists i :: 0 <= i < |After(events).fetches| && ServedBy(After(events).fetches[i], a.key, a.now, a.models)
  {
    EveryRunKeepsInv(events);
    assert AnswerOk(After(events), After(events).answers[k]);
  }

  // ---- what each call does ----

  /** Fetch i is the latest of its key. */
  ghost predicate Latest(s: State, i: nat)
    requires i < |s.fetches|
  {
    forall j :: i < j < |s.fetches| ==> s.fetches[j].key != s.fetches[i].key
  }

  /** The cache holds for every key with a refresh interval what its latest fetch left: the
      fetch itself until it lands, then its value, or nothing after a failure. */
  ghost predicate CacheIsLatest(s: State) {
    && (forall i :: 0 <= i < |s.fetches| && s.fetches[i].key.refreshSeconds > 0 && Latest(s, i) ==> Left(s, i))
    && (forall key :: key in s.cache ==> Fetched(s, key))
  }

  ghost predicate Fetched(s: State, key: Key) {
    exists i :: 0 <= i < |s.fetches| && s.fetches[i].key == key
  }

  ghost predicate Left(s: State, i: nat)
    requires i < |s.fetches|
  {
    var f := s.fetches[i];
    if !f.landed then f.key in s.cache && s.cache[f.key] == Entry(ExpiresAt(f), None, Some(i))
    else if f.progress.Succeeded? then
      f.key in s.cache && s.cache[f.key] == Entry(ExpiresAt(f), Some(f.progress.value), None)
    else f.key !in s.cache
  }

  lemma CallKeepsLatest(s: State, key: Key, now: int, clientOk: bool)
    requires CacheIsLatest(s)
    ensures CacheIsLatest(OnCall(s, key, now, clientOk))
  {
    var t := OnCall(s, key, now, clientOk);
    if |t.fetches| > |s.fetches| {
      StartKeepsLatest(s, Fetch(key, now, Running, false), t);
    } else {
      SameKeepsLatest(s, t);
    }
  }

  lemma SameKeepsLatest(s: State, t: State)
    requires CacheIsLatest(s) && t.fetches == s.fetches && t.cache == s.cache
    ensures CacheIsLatest(t)
  {
    forall i | 0 <= i < |t.fetches| && t.fetches[i].key.refreshSeconds > 0 && Latest(t, i) ensures Left(t, i) {
      assert Latest(s, i) && Left(s, i);
    }
    assert forall k :: Fetched(s, k) ==> Fetched(t, k);
  }

  lemma StartKeepsLatest(s: State, f: Fetch, t: State)
    requires CacheIsLatest(s) && !f.landed && t.fetches == s.fetches + [f]
    requires t.cache
      == if f.key.refreshSeconds > 0 then s.cache[f.key := Entry(ExpiresAt(f), None, Some(|s.fetches|))] else s.cache
    ensures CacheIsLatest(t)
  {
    var n := |s.fetches|;
    assert t.fetches[n] == f;
    forall i | 0 <= i < |t.fetches| && t.fetches[i].key.refreshSeconds > 0 && Latest(t, i) ensures Left(t, i) {
      if i < n {
        assert t.fetches[i] == s.fetches[i] && f.key != s.fetches[i].key;
        assert forall j :: i < j < n ==> t.fetches[j] == s.fetches[j];
        assert Latest(s, i) && Left(s, i);
      }
    }
    forall k | k in t.cache ensures Fetched(t, k) {
      if k in s.cache {
        assert Fetched(s, k);
        var i :| 0 <= i < n && s.fetches[i].key == k;
        assert t.fetches[i].key == k;
      } else {
        assert t.fetches[n].key == k;
      }
    }
  }

  /** A fetch that settles or lands changes no key and, when it lands, is the latest of its
      key: no other fetch of the key can be in flight or have started since. */
  lemma UpdateKeepsLatest(s: State, t: State, i: nat)
    requires CacheIsLatest(s) && i < |s.fetches| == |t.fetches|
    requires t.fetches == s.fetches[i := t.fetches[i]] && t.fetches[i].key == s.fetches[i].key
    requires s.fetches[i].key.refreshSeconds == 0 ==> t.cache == s.cache
    requires s.fetches[i].key.refreshSeconds > 0 ==>
      t.cache - {s.fetches[i].key} == s.cache - {s.fetches[i].key} && (Latest(s, i) ==> Left(t, i))
    requires !Latest(s, i) ==> t.cache == s.cache
    requires t.cache.Keys <= s.cache.Keys
    ensures CacheIsLatest(t)
  {
    var k := s.fetches[i].key;
    forall j | 0 <= j < |t.fetches| ensures t.fetches[j].key == s.fetches[j].key {
    }
    forall j | 0 <= j < |t.fetches| && t.fetches[j].key.refreshSeconds > 0 && Latest(t, j) ensures Left(t, j) {
      assert Latest(s, j) && Left(s, j);
      if j != i {
        if t.fetches[j].key == k {
          assert !Latest(s, i) by { NotBothLatest(s, i, j); }
        } else {
          var key := t.fetches[j].key;
          assert key in t.cache - {k} <==> key in s.cache - {k};
          assert key in s.cache && k.refreshSeconds > 0 ==> (t.cache - {k})[key] == (s.cache - {k})[key];
        }
      }
    }
    forall key | key in t.cache ensures Fetched(t, key) {
      assert Fetched(s, key);
      var j :| 0 <= j < |s.fetches| && s.fetches[j].key == key;
      assert t.fetches[j].key == key;
    }
  }

  lemma NotBothLatest(s: State, i: nat, j: nat)
    requires i < |s.fetches| && j < |s.fetches| && i != j && s.fetches[i].key == s.fetches[j].key && Latest(s, j)
    ensures !Latest(s, i)
  {
  }

  /** An unlanded fetch of a key with a refresh interval is the latest of the key. */
  lemma UnlandedIsLatest(s: State, i: nat)
    requires Inv(s) && CacheIsLatest(s) && i < |s.fetches|
    requires !s.fetches[i].landed && s.fetches[i].key.refreshSeconds > 0
    ensures Latest(s, i)
  {
    var j := LastOf(s, i);
    assert Left(s, j) && Owns(s, i);
    assert j == i;
  }

  lemma {:induction false} LastOf(s: State, i: nat) returns (j: nat)
    requires i < |s.fetches|
    ensures i <= j < |s.fetches| && s.fetches[j].key == s.fetches[i].key && Latest(s, j)
    decreases |s.fetches| - i
  {
    if Latest(s, i) {
      j := i;
    } else {
      var k :| i < k < |s.fetches| && s.fetches[k].key == s.fetches[i].key;
      j := LastOf(s, k);
    }
  }

  lemma SettleKeepsLatest(s: State, i: nat, progress: Progress)
    requires Inv(s) && CacheIsLatest(s) && i < |s.fetches| && s.fetches[i].progress.Running?
    ensures CacheIsLatest(s.(fetches := s.fetches[i := s.fetches[i].(progress := progress)]))
  {
    var t := s.(fetches := s.fetches[i := s.fetches[i].(progress := progress)]);
    assert !s.fetches[i].landed;
    if Latest(s, i) && s.fetches[i].key.refreshSeconds > 0 {
      assert Left(s, i);
      assert Left(t, i);
    }
    UpdateKeepsLatest(s, t, i);
  }

  lemma LandKeepsLatest(s: State, i: nat)
    requires Inv(s) && CacheIsLatest(s) && i < |s.fetches| && !s.fetches[i].progress.Running? && !s.fetches[i].landed
    ensures CacheIsLatest(OnLand(s, i))
  {
    var t := OnLand(s, i);
    var k := s.fetches[i].key;
    if k.refreshSeconds > 0 {
      UnlandedIsLatest(s, i);
      assert Owns(s, i);
      assert t.cache - {k} == s.cache - {k};
      assert Left(t, i);
    }
    UpdateKeepsLatest(s, t, i);
  }

  lemma {:induction false} EveryRunKeepsLatest(events: seq<Event>)
    ensures CacheIsLatest(After(events))
  {
    if events != [] {
      var s, e := After(events[..|events| - 1]), events[|events| - 1];
      EveryRunKeepsLatest(events[..|events| - 1]);
      EveryRunKeepsInv(events[..|events| - 1]);
      hide Inv, CacheIsLatest;
      match e {
        case Call(key, now, clientOk) => CallKeepsLatest(s, key, now, clientOk);
        case Resolve(i, models) =>
          if i < |s.fetches| && s.fetches[i].progress.Running? { SettleKeepsLatest(s, i, Succeeded(models)); }
        case Reject(i) =>
          if i < |s.fetches| && s.fetches[i].progress.Running? { SettleKeepsLatest(s, i, Failed); }
        case Land(i) =>
          if i < |s.fetches| && !s.fetches[i].progress.Running? && !s.fetches[i].landed { LandKeepsLatest(s, i); }
      }
    }
  }

  /** Fetch i of the key is landed, and its value may still be served. */
  ghost predicate ServableAt(f: Fetch, now: int) {
    f.landed && f.progress.Succeeded? && now < f.startedAt + f.key.refreshSeconds * 1000
  }

  /** While the latest fetch of the key is fresh, a call is served its value and starts
      nothing. */
  lemma FreshIsServed(events: seq<Event>, i: nat, now: int, clientOk: bool)
    requires i < |After(events).fetches| && Latest(After(events), i)
    requires var f := After(events).fetches[i]; f.key.refreshSeconds > 0 && ServableAt(f, now)
    ensures var s := After(events);
      var f := s.fetches[i];
      After(events + [Call(f.key, now, clientOk)])
        == State(s.cache, s.fetches, s.answers + [Served(f.key, now, f.progress.value)])
  {
    EveryRunKeepsLatest(events);
    var s := After(events);
    assert (events + [Call(s.fetches[i].key, now, clientOk)])[..|events|] == events;
    assert Left(s, i);
  }

  /** While a fetch of the key has not landed, a call joins it and starts nothing. */
  lemma UnlandedIsJoined(events: seq<Event>, i: nat, now: int, clientOk: bool)
    requires i < |After(events).fetches|
    requires var f := After(events).fetches[i]; f.key.refreshSeconds > 0 && !f.landed
    ensures var s := After(events);
      After(events + [Call(s.fetches[i].key, now, clientOk)])
        == State(s.cache, s.fetches, s.answers + [Joined(s.fetches[i].key, i)])
  {
    EveryRunKeepsInv(events);
    var s := After(events);
    assert (events + [Call(s.fetches[i].key, now, clientOk)])[..|events|] == events;
    assert Owns(s, i);
  }

  /** The key has a refresh interval, and its latest fetch has not landed or is still fresh. */
  ghost predicate Covered(s: State, key: Key, now: int) {
    key.refreshSeconds > 0 &&
    exists i :: 0 <= i < |s.fetches| && s.fetches[i].key == key && Latest(s, i)
      && (!s.fetches[i].landed || ServableAt(s.fetches[i], now))
  }

  /** In every other case a call with a working client starts a new fetch, in the cache when
      there is a refresh interval; without a client it changes nothing and throws. */
  lemma OtherwiseStarts(events: seq<Event>, key: Key, now: int, clientOk: bool)
    requires !Covered(After(events), key, now)
    ensures var s, t := After(events), After(events + [Call(key, now, clientOk)]);
      if clientOk then
        && t.fetches == s.fetches + [Fetch(key, now, Running, false)]
        && t.answers == s.answers + [Started(|s.fetches|)]
        && t.cache - {key} == s.cache - {key}
        && (key in t.cache <==> key.refreshSeconds > 0)
      else t == State(s.cache, s.fetches, s.answers + [NoClient])
  {
    EveryRunKeepsLatest(events);
    EveryRunKeepsInv(events);
    var s := After(events);
    var all := events + [Call(key, now, clientOk)];
    assert all[..|events|] == events && After(all) == OnCall(s, key, now, clientOk);
    hide Inv, CacheIsLatest, Covered, After, OnCall;
    NotCoveredNotCached(s, key, now);
    NotCachedStarts(s, key, now, clientOk);
  }

  lemma NotCachedStarts(s: State, key: Key, now: int, clientOk: bool)
    requires key in s.cache ==> s.cache[key].inFlight.None? && s.cache[key].expiresAt <= now
    requires key in s.cache ==> key.refreshSeconds > 0
    ensures var t := OnCall(s, key, now, clientOk);
      if clientOk then
        && t.fetches == s.fetches + [Fetch(key, now, Running, false)]
        && t.answers == s.answers + [Started(|s.fetches|)]
        && t.cache - {key} == s.cache - {key}
        && (key in t.cache <==> key.refreshSeconds > 0)
      else t == State(s.cache, s.fetches, s.answers + [NoClient])
  {
  }

  lemma NotCoveredNotCached(s: State, key: Key, now: int)
    requires Inv(s) && CacheIsLatest(s) && !Covered(s, key, now)
    ensures key in s.cache ==>
      && key.refreshSeconds > 0 && s.cache[key].inFlight.None?
      && s.cache[key].value.Some? && s.cache[key].expiresAt <= now
  {
    if key in s.cache {
      assert EntryOk(s, key) && Fetched(s, key);
      var j :| 0 <= j < |s.fetches| && s.fetches[j].key == key;
      var i := LastOf(s, j);
      assert Left(s, i);
    }
  }

  /** A fetch that is running settles with what the service returns, and only then. */
  lemma FetchSettles(events: seq<Event>, i: nat, models: Models)
    requires i < |After(events).fetches| && After(events).fetches[i].progress.Running?
    ensures After(events + [Resolve(i, models)]).fetches[i].progress == Succeeded(models)
    ensures After(events + [Reject(i)]).fetches[i].progress == Failed
  {
    assert (events + [Resolve(i, models)])[..|events|] == events && (events + [Reject(i)])[..|events|] == events;
  }

  /** What a caller finally receives. */
  datatype Result = Waiting | Received(models: Models) | Throws

  /** The starter of a failed fetch receives an empty list; a caller that joined it sees the
      rejection itself. */
  function ResultOf(s: State, a: Answer): Result {
    match a
    case Served(_, _, models) => Received(models)
    case NoClient => Throws
    case Joined(_, i) =>
      if i >= |s.fetches| || s.fetches[i].progress.Running? then Waiting
      else if s.fetches[i].progress.Succeeded? then Received(s.fetches[i].progress.value)
      else Throws
    case Started(i) =>
      if i >= |s.fetches| || !s.fetches[i].landed then Waiting
      else if s.fetches[i].progress.Succeeded? then Received(s.fetches[i].progress.value)
      else Received([])
  }

  lemma StepAdvances(s: State, e: Event)
    ensures Advances(s, Next(s, e)) && s.answers <= Next(s, e).answers
  {
  }

  lemma AdvancesTrans(s: State, t: State, u: State)
    requires Advances(s, t) && Advances(t, u)
    ensures Advances(s, u)
  {
  }

  lemma AdvancesOverRun(events: seq<Event>, more: seq<Event>)
    ensures Advances(After(events), After(events + more))
    ensures After(events).answers <= After(events + more).answers
    decreases |more|
  {
    hide Advances, Next;
    if more == [] {
      assert events + more == events;
      assert Advances(After(events), After(events)) by { AdvancesSelf(After(events)); }
    } else {
      var n := |more| - 1;
      AdvancesOverRun(events, more[..n]);
      assert (events + more)[..|events + more| - 1] == events + more[..n];
      var s := After(events + more[..n]);
      StepAdvances(s, more[n]);
      AdvancesTrans(After(events), s, After(events + more));
    }
  }

  lemma AdvancesSelf(s: State)
    ensures Advances(s, s)
  {
  }

  /** Callers that share a fetch never receive different lists, and a result once received
      never changes. */
  lemma CallersAgree(events: seq<Event>, more: seq<Event>, j: nat, k: nat)
    requires j < |After(events).answers| && k < |After(events).answers|
    requires After(events).answers[j].Joined? && After(events).answers[k].Started?
    requires After(events).answers[j].fetch == After(events).answers[k].fetch
    requires !ResultOf(After(events), After(events).answers[k]).Waiting?
    ensures After(events).answers <= After(events + more).answers
    ensures var s := After(events);
      && ResultOf(s, s.answers[j])
         == (if s.fetches[s.answers[k].fetch].progress.Failed? then Throws else ResultOf(s, s.answers[k]))
      && ResultOf(After(events + more), s.answers[j]) == ResultOf(s, s.answers[j])
      && ResultOf(After(events + more), s.answers[k]) == ResultOf(s, s.answers[k])
  {
    EveryRunKeepsInv(events);
    AdvancesOverRun(events, more);
  }

  /** The module-level cache and its callers. */
  class Discovery {
    var cache: map<Key, Entry>
    var fetches: seq<Fetch>
    var answers: seq<Answer>

    function Snap(): State
      reads this
    {
      State(cache, fetches, answers)
    }

    constructor ()
      ensures Snap() == After([])
    {
      cache, fetches, answers := map[], [], [];
    }

    method DiscoverBedrockModels(key: Key, now: int, clientOk: bool, ghost past: seq<Event>)
      requires Snap() == After(past)
      modifies this
      ensures Snap() == After(past + [Call(key, now, clientOk)])
    {
      assert (past + [Call(key, now, clientOk)])[..|past|] == past;
      if key.refreshSeconds > 0 && key in cache {
        var cached := cache[key];
        if cached.value.Some? && cached.expiresAt > now {
          answers := answers + [Served(key, now, cached.value.value)];
          return;
        }
        if cached.inFlight.Some? {
          answers := answers + [Joined(key, cached.inFlight.value)];
          return;
        }
      }
      if !clientOk {
        answers := answers + [NoClient];
        return;
      }
      var fetch := |fetches|;
      fetches := fetches + [Fetch(key, now, Running, false)];
      if key.refreshSeconds > 0 {
        cache := cache[key := Entry(now + key.refreshSeconds * 1000, None, Some(fetch))];
      }
      answers := answers + [Started(fetch)];
    }

    /** The code after the await of the caller that started the fetch. */
    method Resume(fetch: nat, ghost past: seq<Event>)
      requires Snap() == After(past) && fetch < |fetches|
      requires !fetches[fetch].progress.Running? && !fetches[fetch].landed
      modifies this
      ensures Snap() == After(past + [Land(fetch)])
    {
      assert (past + [Land(fetch)])[..|past|] == past;
      var f := fetches[fetch];
      fetches := fetches[fetch := f.(landed := true)];
      if f.key.refreshSeconds > 0 {
        if f.progress.Succeeded? {
          cache := cache[f.key := Entry(f.startedAt + f.key.refreshSeconds * 1000, Some(f.progress.value), None)];
        } else {
          cache := cache - {f.key};
        }
      }
    }
  }
}
