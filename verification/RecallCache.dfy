/** The recall cache: entries expire, an insert moves its key to the end, and the oldest
    entry goes when the cache is full. */
module RecallCache {
  import opened Basics

  const MAX_CACHE_ENTRIES: nat := 1000

  datatype Cached<R> = Cached(expiresAt: int, result: R)

  /** A JavaScript map: its entries in insertion order. */
  type Entries<R> = seq<(string, Cached<R>)>

  function Keys<R>(m: Entries<R>): set<string> {
    set i | 0 <= i < |m| :: m[i].0
  }

  ghost predicate DistinctKeys<R>(m: Entries<R>) {
    forall i, j :: 0 <= i < j < |m| ==> m[i].0 != m[j].0
  }

  function Find<R>(m: Entries<R>, key: string): (r: Option<Cached<R>>)
    ensures r.Some? ==> exists i :: 0 <= i < |m| && m[i] == (key, r.value)
    ensures r.None? <==> forall i :: 0 <= i < |m| ==> m[i].0 != key
  {
    if m == [] then None
    else if m[0].0 == key then Some(m[0].1)
    else
      var r := Find(m[1..], key);
      assert m == [m[0]] + m[1..];
      r
  }

  /** `Map.delete`. */
  function Without<R>(m: Entries<R>, key: string): Entries<R> {
    if m == [] then []
    else if m[|m| - 1].0 == key then Without(m[..|m| - 1], key)
    else Without(m[..|m| - 1], key) + [m[|m| - 1]]
  }

  /** The entries that have not expired at `now`. */
  function Swept<R>(m: Entries<R>, now: int): Entries<R> {
    if m == [] then []
    else if m[|m| - 1].1.expiresAt <= now then Swept(m[..|m| - 1], now)
    else Swept(m[..|m| - 1], now) + [m[|m| - 1]]
  }

  /** The entries after sweeping at `sweepAt` and putting the key last, before any eviction. */
  function Placed<R>(m: Entries<R>, key: string, result: R, ttl: int, sweepAt: int, now: int): Entries<R> {
    Without(Swept(m, sweepAt), key) + [(key, Cached(now + ttl, result))]
  }

  /** Dropping the oldest entries until the cache fits; an empty key stops the loop. */
  function Evicted<R>(m: Entries<R>): Entries<R> {
    if |m| <= MAX_CACHE_ENTRIES || m[0].0 == "" then m else Evicted(m[1..])
  }

  /** A key built by `buildCacheKey` always contains its two colons. */
  function BuildCacheKey(agentId: string, sessionKey: Option<string>, sessionId: Option<string>, hash: string):
    (key: string)
    ensures key != ""
  {
    agentId + ":" +
    (if sessionKey.Some? then sessionKey.value else if sessionId.Some? then sessionId.value else "none")
    + ":" + hash
  }

  predicate NoColon(s: string) {
    ':' !in s
  }

  function SessionPart(sessionKey: Option<string>, sessionId: Option<string>): string {
    if sessionKey.Some? then sessionKey.value else if sessionId.Some? then sessionId.value else "none"
  }

  /** Two keys are equal exactly when the query hashes agree and so do the agent and session
      parts joined by a colon. Hashes are hexadecimal and of one length. */
  lemma CacheKeyIff(a: string, k: Option<string>, i: Option<string>, h: string,
      a': string, k': Option<string>, i': Option<string>, h': string)
    requires |h| == |h'|
    ensures BuildCacheKey(a, k, i, h) == BuildCacheKey(a', k', i', h')
      <==> h == h' && a + ":" + SessionPart(k, i) == a' + ":" + SessionPart(k', i')
  {
    var x, x' := a + ":" + SessionPart(k, i), a' + ":" + SessionPart(k', i');
    var y, y' := x + ":" + h, x' + ":" + h';
    assert BuildCacheKey(a, k, i, h) == y && BuildCacheKey(a', k', i', h') == y';
    if y == y' {
      assert |x| == |x'|;
      assert x == y[..|x|] && x' == y'[..|x|];
      assert h == y[|x| + 1..] && h' == y'[|x| + 1..];
    }
  }

  /** So among agent ids without a colon the key determines the agent, the session part and
      the hash. */
  lemma CacheKeyDetermines(a: string, k: Option<string>, i: Option<string>, h: string,
      a': string, k': Option<string>, i': Option<string>, h': string)
    requires |h| == |h'| && NoColon(a) && NoColon(a')
    ensures BuildCacheKey(a, k, i, h) == BuildCacheKey(a', k', i', h')
      <==> a == a' && SessionPart(k, i) == SessionPart(k', i') && h == h'
  {
    CacheKeyIff(a, k, i, h, a', k', i', h');
    var s, s' := SessionPart(k, i), SessionPart(k', i');
    if a + ":" + s == a' + ":" + s' {
      if |a'| < |a| {
        ColonInLonger(a, s, a', s');
      } else if |a| < |a'| {
        ColonInLonger(a', s', a, s);
      } else {
        assert a == (a + ":" + s)[..|a|] && a' == (a' + ":" + s')[..|a|];
        assert s == (a + ":" + s)[|a| + 1..] && s' == (a' + ":" + s')[|a| + 1..];
      }
    }
  }

  lemma ColonInLonger(a: string, s: string, a': string, s': string)
    requires |a'| < |a| && a + ":" + s == a' + ":" + s'
    ensures !NoColon(a)
  {
    assert (a' + ":" + s')[|a'|] == ':';
    assert a[|a'|] == (a + ":" + s)[|a'|];
  }

  /** With a colon in the agent id two different recalls share a key. */
  lemma CacheKeysCollide(h: string)
    ensures BuildCacheKey("a", Some("b:c"), None, h) == BuildCacheKey("a:b", Some("c"), None, h)
  {
    assert "a" + ":" + "b:c" == "a:b" + ":" + "c";
  }

  datatype Op<R> =
    | Get(key: string, now: int)
    | Set(key: string, result: R, ttl: int, sweepAt: int, now: int)

  function AfterOp<R>(m: Entries<R>, op: Op<R>): Entries<R> {
    match op
    case Get(key, now) =>
      var cached := Find(m, key);
      if cached.Some? && cached.value.expiresAt <= now then Without(m, key) else m
    case Set(key, result, ttl, sweepAt, now) => Evicted(Placed(m, key, result, ttl, sweepAt, now))
  }

  function After<R>(ops: seq<Op<R>>): Entries<R> {
    if ops == [] then [] else AfterOp(After(ops[..|ops| - 1]), ops[|ops| - 1])
  }

  function Hit<R>(m: Entries<R>, key: string, now: int): Option<R> {
    var cached := Find(m, key);
    if cached.None? || cached.value.expiresAt <= now then None else Some(cached.value.result)
  }

  /** A plain map of the last value stored per key, with the number of the insert. */
  type Plain<R> = map<string, (nat, Cached<R>)>

  function PlainAfter<R>(ops: seq<Op<R>>): Plain<R> {
    if ops == [] then map[]
    else
      var n := |ops| - 1;
      match ops[n]
      case Get(_, _) => PlainAfter(ops[..n])
      case Set(key, result, ttl, _, now) => PlainAfter(ops[..n])[key := (n, Cached(now + ttl, result))]
  }

  function PlainHit<R>(p: Plain<R>, key: string, now: int): Option<R> {
    if key !in p || p[key].1.expiresAt <= now then None else Some(p[key].1.result)
  }

  /** The keys whose last stored value is unexpired. */
  function LiveKeys<R>(p: Plain<R>, now: int): set<string> {
    set key | key in p && p[key].1.expiresAt > now
  }

  function StartsAt<R>(op: Op<R>): int {
    if op.Get? then op.now else op.sweepAt
  }

  /** The clock never runs backwards over the run, keys are non-empty, and `end` is no
      earlier than the last reading. */
  ghost predicate Orderly<R>(ops: seq<Op<R>>, end: int) {
    && NamedKeys(ops)
    && (forall i :: 0 <= i < |ops| ==> StartsAt(ops[i]) <= ops[i].now <= end)
    && (forall i, j :: 0 <= i < j < |ops| ==> ops[i].now <= StartsAt(ops[j]))
  }

  ghost predicate NamedKeys<R>(ops: seq<Op<R>>) {
    forall i :: 0 <= i < |ops| ==> ops[i].key != ""
  }

  /** Every cached entry is the last value stored for its key, and entries are in the order
      of their last insert. */
  ghost predicate InOrder<R>(m: Entries<R>, p: Plain<R>) {
    && (forall i :: 0 <= i < |m| ==> m[i].0 in p && p[m[i].0].1 == m[i].1)
    && (forall i, j :: 0 <= i < j < |m| ==> p[m[i].0].0 < p[m[j].0].0)
  }

  lemma InOrderPrefix<R>(m: Entries<R>, p: Plain<R>)
    requires InOrder(m, p) && m != []
    ensures InOrder(m[..|m| - 1], p)
  {
  }

  /** Sweeping or deleting keeps the order and the last entry bound. */
  lemma {:induction false} SweptInOrder<R>(m: Entries<R>, now: int, p: Plain<R>)
    requires InOrder(m, p)
    ensures InOrder(Swept(m, now), p) && |Swept(m, now)| <= |m|
    ensures forall i :: 0 <= i < |m| && m[i].1.expiresAt > now ==> m[i] in Swept(m, now)
    ensures forall e :: e in Swept(m, now) ==> e in m && e.1.expiresAt > now
  {
    if m != [] {
      InOrderPrefix(m, p);
      SweptInOrder(m[..|m| - 1], now, p);
    }
  }

  lemma {:induction false} WithoutInOrder<R>(m: Entries<R>, key: string, p: Plain<R>)
    requires InOrder(m, p)
    ensures InOrder(Without(m, key), p) && |Without(m, key)| <= |m|
    ensures forall e :: e in Without(m, key) <==> e in m && e.0 != key
  {
    if m != [] {
      InOrderPrefix(m, p);
      WithoutInOrder(m[..|m| - 1], key, p);
    }
  }

  lemma {:induction false} EvictedInOrder<R>(m: Entries<R>, p: Plain<R>)
    requires InOrder(m, p)
    ensures InOrder(Evicted(m), p)
  {
    if !(|m| <= MAX_CACHE_ENTRIES || m[0].0 == "") {
      EvictedInOrder(m[1..], p);
    }
  }

  lemma {:induction false} EvictedOne<R>(m: Entries<R>)
    requires |m| <= MAX_CACHE_ENTRIES + 1 && forall i :: 0 <= i < |m| ==> m[i].0 != ""
    ensures Evicted(m) == if |m| <= MAX_CACHE_ENTRIES then m else m[1..]
  {
    if |m| > MAX_CACHE_ENTRIES {
      assert Evicted(m[1..]) == m[1..];
    }
  }

  lemma PlacedInOrder<R>(m: Entries<R>, p: Plain<R>, n: nat, op: Op<R>)
    requires InOrder(m, p) && op.Set?
    requires forall k :: k in p ==> p[k].0 < n
    ensures InOrder(Placed(m, op.key, op.result, op.ttl, op.sweepAt, op.now),
      p[op.key := (n, Cached(op.now + op.ttl, op.result))])
    ensures |Placed(m, op.key, op.result, op.ttl, op.sweepAt, op.now)| <= |m| + 1
  {
    hide Swept, Without, InOrder;
    KeptInOrder(m, p, op.key, op.sweepAt);
    AppendInOrder(Without(Swept(m, op.sweepAt), op.key), p, op.key, n, Cached(op.now + op.ttl, op.result));
  }

  lemma KeptInOrder<R>(m: Entries<R>, p: Plain<R>, key: string, sweepAt: int)
    requires InOrder(m, p)
    ensures var w := Without(Swept(m, sweepAt), key);
      InOrder(w, p) && |w| <= |m| && forall i :: 0 <= i < |w| ==> w[i].0 != key
  {
    hide Swept, Without, InOrder;
    SweptInOrder(m, sweepAt, p);
    WithoutInOrder(Swept(m, sweepAt), key, p);
    var w := Without(Swept(m, sweepAt), key);
    assert forall i :: 0 <= i < |w| ==> w[i] in w;
  }

  lemma AppendInOrder<R>(w: Entries<R>, p: Plain<R>, key: string, n: nat, cached: Cached<R>)
    requires InOrder(w, p) && (forall i :: 0 <= i < |w| ==> w[i].0 != key) && forall k :: k in p ==> p[k].0 < n
    ensures InOrder(w + [(key, cached)], p[key := (n, cached)])
  {
  }

  /** After every run the entries are the last values stored, in order of last insert; with
      non-empty keys there are at most 1000 of them. */
  lemma {:induction false} RunKeepsOrder<R>(ops: seq<Op<R>>)
    ensures InOrder(After(ops), PlainAfter(ops))
    ensures forall k :: k in PlainAfter(ops) ==> PlainAfter(ops)[k].0 < |ops|
    ensures NamedKeys(ops) ==> "" !in PlainAfter(ops) && |After(ops)| <= 1000
  {
    if ops != [] {
      var n := |ops| - 1;
      RunKeepsOrder(ops[..n]);
      var m, p, op := After(ops[..n]), PlainAfter(ops[..n]), ops[n];
      if op.Get? {
        WithoutInOrder(m, op.key, p);
      } else {
        var placed := Placed(m, op.key, op.result, op.ttl, op.sweepAt, op.now);
        PlacedInOrder(m, p, n, op);
        EvictedInOrder(placed, PlainAfter(ops));
        if NamedKeys(ops) {
          EvictedOne(placed);
        }
      }
    }
  }

  lemma KeysDistinct<R>(m: Entries<R>, p: Plain<R>)
    requires InOrder(m, p)
    ensures DistinctKeys(m)
  {
  }

  lemma FindOf<R>(m: Entries<R>, p: Plain<R>, key: string)
    requires InOrder(m, p)
    ensures Find(m, key).Some? ==> key in p && p[key].1 == Find(m, key).value
    ensures Find(m, key).None? <==> key !in Keys(m)
  {
  }

  /** A hit is always the last value stored for the key, and it has not expired. */
  lemma HitIsLatestUnexpired<R>(ops: seq<Op<R>>, key: string, now: int)
    ensures Hit(After(ops), key, now).Some? ==> PlainHit(PlainAfter(ops), key, now) == Hit(After(ops), key, now)
  {
    RunKeepsOrder(ops);
    FindOf(After(ops), PlainAfter(ops), key);
  }

  /** An insert leaves its key last in a cache of at most 1000 entries. It evicts at most one
      entry, and only the one whose last insert is oldest among those unexpired. */
  lemma {:induction false} InsertEvictsOldestOnly<R>(ops: seq<Op<R>>, op: Op<R>)
    requires op.Set? && op.key != "" && NamedKeys(ops)
    ensures var before := Without(Swept(After(ops), op.sweepAt), op.key);
      var after := After(ops + [op]);
      var entry := (op.key, Cached(op.now + op.ttl, op.result));
      && InOrder(before, PlainAfter(ops))
      && |after| <= 1000 && after != [] && after[|after| - 1] == entry
      && (if |before| < 1000 then after == before + [entry]
          else |before| == 1000 && after == before[1..] + [entry])
  {
    assert (ops + [op])[..|ops|] == ops;
    RunKeepsOrder(ops);
    var m, p := After(ops), PlainAfter(ops);
    assert After(ops + [op]) == Evicted(Placed(m, op.key, op.result, op.ttl, op.sweepAt, op.now));
    hide After, PlainAfter, Evicted, InOrder, Swept, Without;
    SweptInOrder(m, op.sweepAt, p);
    WithoutInOrder(Swept(m, op.sweepAt), op.key, p);
    PlacedInOrder(m, p, |ops|, op);
    PlacedNamed(m, p, op);
    EvictAfterPlacing(Without(Swept(m, op.sweepAt), op.key), (op.key, Cached(op.now + op.ttl, op.result)));
  }

  /** What an insert finds before it: exactly the unexpired entries of other keys. */
  lemma SurvivorsOfInsert<R>(ops: seq<Op<R>>, sweepAt: int, key: string)
    ensures var before := Without(Swept(After(ops), sweepAt), key);
      forall e :: e in before <==> e in After(ops) && e.1.expiresAt > sweepAt && e.0 != key
  {
    RunKeepsOrder(ops);
    hide After, PlainAfter, InOrder, Swept, Without;
    SweptInOrder(After(ops), sweepAt, PlainAfter(ops));
    WithoutInOrder(Swept(After(ops), sweepAt), key, PlainAfter(ops));
  }

  lemma {:induction false} EvictAfterPlacing<R>(before: Entries<R>, entry: (string, Cached<R>))
    requires |before| <= MAX_CACHE_ENTRIES && entry.0 != "" && forall i :: 0 <= i < |before| ==> before[i].0 != ""
    ensures Evicted(before + [entry])
      == if |before| < MAX_CACHE_ENTRIES then before + [entry] else before[1..] + [entry]
  {
    EvictedOne(before + [entry]);
    assert before != [] ==> (before + [entry])[1..] == before[1..] + [entry];
  }

  lemma {:induction false} PlacedNamed<R>(m: Entries<R>, p: Plain<R>, op: Op<R>)
    requires InOrder(m, p) && op.Set? && op.key != "" && "" !in p
    ensures var w := Without(Swept(m, op.sweepAt), op.key); forall i :: 0 <= i < |w| ==> w[i].0 != ""
  {
    SweptInOrder(m, op.sweepAt, p);
    WithoutInOrder(Swept(m, op.sweepAt), op.key, p);
  }

  /** A lookup removes the key's entry if it has expired, and nothing else. */
  lemma LookupDropsExpired<R>(ops: seq<Op<R>>, key: string, now: int)
    ensures forall e ::
      e in After(ops + [Get(key, now)]) <==> e in After(ops) && !(e.0 == key && e.1.expiresAt <= now)
    ensures InOrder(After(ops + [Get(key, now)]), PlainAfter(ops))
  {
    assert (ops + [Get(key, now)])[..|ops|] == ops;
    RunKeepsOrder(ops);
    var m, p := After(ops), PlainAfter(ops);
    WithoutInOrder(m, key, p);
    FindOf(m, p, key);
    SameKeySameEntry(m, p);
    hide After, PlainAfter, Without, InOrder;
    assert forall e :: e in m && e.0 == key ==> Find(m, key) == Some(e.1) by { FindsEntry(m, p, key); }
  }

  lemma SameKeySameEntry<R>(m: Entries<R>, p: Plain<R>)
    requires InOrder(m, p)
    ensures forall e :: e in m ==> e.0 in p && p[e.0].1 == e.1
  {
  }

  lemma FindsEntry<R>(m: Entries<R>, p: Plain<R>, key: string)
    requires InOrder(m, p)
    ensures forall e :: e in m && e.0 == key ==> Find(m, key) == Some(e.1)
  {
    FindOf(m, p, key);
    SameKeySameEntry(m, p);
    forall e | e in m && e.0 == key ensures Find(m, key).Some? {
      var i :| 0 <= i < |m| && m[i] == e;
      assert m[i].0 == key;
    }
  }

  /** No insert of the run finds more than 999 other live keys. */
  ghost predicate NeverCrowded<R>(ops: seq<Op<R>>) {
    forall i :: 0 <= i < |ops| && ops[i].Set? ==> Uncrowded(ops, i)
  }

  ghost predicate Uncrowded<R>(ops: seq<Op<R>>, i: nat)
    requires i < |ops| && ops[i].Set?
  {
    |LiveKeys(PlainAfter(ops[..i]), ops[i].sweepAt) - {ops[i].key}| < 1000
  }

  lemma {:induction false} KeysSize<R>(m: Entries<R>)
    requires DistinctKeys(m)
    ensures |Keys(m)| == |m|
  {
    if m != [] {
      var n := |m| - 1;
      KeysSize(m[..n]);
      assert Keys(m) == Keys(m[..n]) + {m[n].0};
    }
  }

  lemma SubsetSize(a: set<string>, b: set<string>)
    requires a <= b
    ensures |a| <= |b|
  {
    assert b == a + (b - a);
  }

  /** Every unexpired key is cached. */
  ghost predicate Complete<R>(m: Entries<R>, p: Plain<R>, now: int) {
    LiveKeys(p, now) <= Keys(m)
  }

  /** What an insert keeps before eviction: at most the other live entries. */
  lemma {:induction false} KeptAreLive<R>(m: Entries<R>, p: Plain<R>, sweepAt: int, key: string)
    requires InOrder(m, p)
    ensures Keys(Without(Swept(m, sweepAt), key)) <= LiveKeys(p, sweepAt) - {key}
    ensures |Without(Swept(m, sweepAt), key)| <= |LiveKeys(p, sweepAt) - {key}|
  {
    SweptInOrder(m, sweepAt, p);
    var s := Swept(m, sweepAt);
    WithoutInOrder(s, key, p);
    var w := Without(s, key);
    forall k | k in Keys(w) ensures k in LiveKeys(p, sweepAt) - {key} {
      var i :| 0 <= i < |w| && w[i].0 == k;
      assert w[i] in w;
    }
    KeysSize(w);
    SubsetSize(Keys(w), LiveKeys(p, sweepAt) - {key});
  }

  lemma {:induction false} SetComplete<R>(ops: seq<Op<R>>, op: Op<R>)
    requires op.Set? && op.key != "" && NamedKeys(ops)
    requires Complete(After(ops), PlainAfter(ops), op.sweepAt) && op.sweepAt <= op.now
    requires |LiveKeys(PlainAfter(ops), op.sweepAt) - {op.key}| < MAX_CACHE_ENTRIES
    ensures Complete(After(ops + [op]), PlainAfter(ops + [op]), op.now)
  {
    var m, p := After(ops), PlainAfter(ops);
    RunKeepsOrder(ops);
    InsertEvictsOldestOnly(ops, op);
    KeptAreLive(m, p, op.sweepAt, op.key);
    var before := Without(Swept(m, op.sweepAt), op.key);
    var after := After(ops + [op]);
    PlainAfterSet(ops, op);
    hide After, PlainAfter, Swept, Without, InOrder;
    forall k | k in LiveKeys(PlainAfter(ops + [op]), op.now) ensures k in Keys(after) {
      if k == op.key {
        assert after[|before|].0 == k;
      } else {
        StaysCached(m, p, op.sweepAt, op.key, k);
        var i :| 0 <= i < |before| && before[i].0 == k;
        assert after[i].0 == k;
      }
    }
  }

  lemma {:induction false} PlainAfterSet<R>(ops: seq<Op<R>>, op: Op<R>)
    requires op.Set?
    ensures PlainAfter(ops + [op]) == PlainAfter(ops)[op.key := (|ops|, Cached(op.now + op.ttl, op.result))]
  {
    assert (ops + [op])[..|ops|] == ops;
  }

  lemma StaysCached<R>(m: Entries<R>, p: Plain<R>, now: int, gone: string, k: string)
    requires InOrder(m, p) && k in LiveKeys(p, now) && k in Keys(m) && k != gone
    ensures k in Keys(Without(Swept(m, now), gone))
  {
    SweptInOrder(m, now, p);
    WithoutInOrder(Swept(m, now), gone, p);
    var i :| 0 <= i < |m| && m[i].0 == k;
    var w := Without(Swept(m, now), gone);
    assert m[i] in w;
    var j :| 0 <= j < |w| && w[j] == m[i];
    assert w[j].0 == k;
  }

  lemma GetComplete<R>(m: Entries<R>, p: Plain<R>, op: Op<R>)
    requires InOrder(m, p) && op.Get? && Complete(m, p, op.now)
    ensures Complete(AfterOp(m, op), p, op.now)
  {
    WithoutInOrder(m, op.key, p);
    FindOf(m, p, op.key);
    var cached := Find(m, op.key);
    if cached.Some? && cached.value.expiresAt <= op.now {
      hide InOrder, Find;
      var w := Without(m, op.key);
      forall k | k in LiveKeys(p, op.now) ensures k in Keys(w) {
        var i :| 0 <= i < |m| && m[i].0 == k;
        assert m[i] in w;
        var j :| 0 <= j < |w| && w[j] == m[i];
        assert w[j].0 == k;
      }
    }
  }

  lemma LaterComplete<R>(m: Entries<R>, p: Plain<R>, now: int, later: int)
    requires Complete(m, p, now) && now <= later
    ensures Complete(m, p, later)
  {
  }

  lemma {:induction false} UncrowdedIsComplete<R>(ops: seq<Op<R>>, end: int)
    requires Orderly(ops, end) && NeverCrowded(ops)
    ensures Complete(After(ops), PlainAfter(ops), end)
  {
    if ops != [] {
      var n := |ops| - 1;
      var before, op := ops[..n], ops[n];
      assert before + [op] == ops;
      assert NeverCrowded(before) by {
        forall i | 0 <= i < |before| && before[i].Set? ensures Uncrowded(before, i) {
          assert before[..i] == ops[..i] && Uncrowded(ops, i);
        }
      }
      UncrowdedIsComplete(before, StartsAt(op));
      RunKeepsOrder(before);
      if op.Set? {
        assert Uncrowded(ops, n);
        SetComplete(before, op);
      } else {
        GetComplete(After(before), PlainAfter(before), op);
      }
      LaterComplete(After(ops), PlainAfter(ops), op.now, end);
    }
  }

  /** While no insert finds 1000 other live keys, every lookup answers as a plain map with
      expiry times would. */
  lemma AgreesWithPlainMap<R>(ops: seq<Op<R>>, key: string, now: int)
    requires Orderly(ops, now) && NeverCrowded(ops)
    ensures Hit(After(ops), key, now) == PlainHit(PlainAfter(ops), key, now)
  {
    RunKeepsOrder(ops);
    UncrowdedIsComplete(ops, now);
    FindOf(After(ops), PlainAfter(ops), key);
    assert key in LiveKeys(PlainAfter(ops), now) ==> key in Keys(After(ops));
  }

  /** The module-level map and its three operations. */
  class ActiveRecallCache<R> {
    var entries: Entries<R>

    constructor ()
      ensures entries == After<R>([])
    {
      entries := [];
    }

    method GetCachedResult(key: string, now: int, ghost past: seq<Op<R>>) returns (r: Option<R>)
      requires entries == After(past)
      modifies this
      ensures r == Hit(old(entries), key, now)
      ensures entries == After(past + [Get(key, now)])
    {
      assert (past + [Get(key, now)])[..|past|] == past;
      var cached := Find(entries, key);
      if cached.None? {
        return None;
      }
      if cached.value.expiresAt <= now {
        entries := Without(entries, key);
        return None;
      }
      return Some(cached.value.result);
    }

    /** Visits the entries in order and deletes the expired ones. */
    method SweepExpired(now: int)
      requires DistinctKeys(entries)
      modifies this
      ensures entries == Swept(old(entries), now)
    {
      var snapshot := entries;
      for i := 0 to |snapshot|
        invariant entries == Swept(snapshot[..i], now) + snapshot[i..]
      {
        SweepStep(snapshot, i, now);
        if snapshot[i].1.expiresAt <= now {
          entries := Without(entries, snapshot[i].0);
        }
      }
      assert snapshot[..|snapshot|] == snapshot;
    }

    method SetCachedResult(key: string, result: R, ttl: int, sweepAt: int, now: int, ghost past: seq<Op<R>>)
      requires entries == After(past)
      modifies this
      ensures entries == After(past + [Set(key, result, ttl, sweepAt, now)])
    {
      assert (past + [Set(key, result, ttl, sweepAt, now)])[..|past|] == past;
      RunKeepsOrder(past);
      KeysDistinct(entries, PlainAfter(past));
      SweepExpired(sweepAt);
      if Find(entries, key).Some? {
        entries := Without(entries, key);
      } else {
        WithoutAbsent(entries, key);
      }
      entries := entries + [(key, Cached(now + ttl, result))];
      while |entries| > MAX_CACHE_ENTRIES
        invariant Evicted(entries) == Evicted(Placed(old(entries), key, result, ttl, sweepAt, now))
      {
        var oldestKey := entries[0].0;
        if oldestKey == "" {
          break;
        }
        entries := entries[1..];
      }
    }
  }

  lemma {:induction false} SweepStep<R>(m: Entries<R>, i: nat, now: int)
    requires i < |m| && DistinctKeys(m)
    ensures var entries := Swept(m[..i], now) + m[i..];
      (if m[i].1.expiresAt <= now then Without(entries, m[i].0) else entries)
        == Swept(m[..i + 1], now) + m[i + 1..]
  {
    var front, back := Swept(m[..i], now), m[i + 1..];
    assert m[..i + 1][..i] == m[..i];
    assert front + m[i..] == front + ([m[i]] + back);
    if m[i].1.expiresAt <= now {
      SweptKeys(m[..i], now);
      assert forall j :: 0 <= j < |front| ==> front[j] in front;
      DeleteMiddle(front, m[i], back);
    } else {
      assert Swept(m[..i + 1], now) == front + [m[i]];
    }
  }

  lemma {:induction false} SweptKeys<R>(m: Entries<R>, now: int)
    ensures forall e :: e in Swept(m, now) ==> e in m
  {
    if m != [] {
      SweptKeys(m[..|m| - 1], now);
    }
  }

  lemma {:induction false} WithoutAbsent<R>(m: Entries<R>, key: string)
    requires forall i :: 0 <= i < |m| ==> m[i].0 != key
    ensures Without(m, key) == m
  {
    if m != [] {
      WithoutAbsent(m[..|m| - 1], key);
    }
  }

  lemma {:induction false} DeleteMiddle<R>(front: Entries<R>, e: (string, Cached<R>), back: Entries<R>)
    requires forall i :: 0 <= i < |front| ==> front[i].0 != e.0
    requires forall i :: 0 <= i < |back| ==> back[i].0 != e.0
    ensures Without(front + ([e] + back), e.0) == front + back
  {
    var m := front + ([e] + back);
    if back == [] {
      assert m[..|m| - 1] == front;
      WithoutAbsent(front, e.0);
    } else {
      var n := |back| - 1;
      assert m[..|m| - 1] == front + ([e] + back[..n]);
      DeleteMiddle(front, e, back[..n]);
      assert front + back[..n] + [back[n]] == front + back;
    }
  }
}
