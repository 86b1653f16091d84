/** Translating one batch: two attempts, and a batch that times out is split in half. */
module TranslateBatch {
  import opened Basics
  import opened Whitespace
  import opened TranslationBatches

  const TRANSLATE_MAX_ATTEMPTS: nat := 2

  /** A field of the parsed reply; anything but a string counts as missing. */
  datatype Field = Str(text: string) | NotString

  /** What one attempt meets: an error, from the client or from parsing, or a JSON object. */
  datatype Reply = Raised(timedOut: bool) | Parsed(fields: map<string, Field>)

  /** The translation service: its reply to the n-th attempt, made for these items. */
  type Service = (nat, Batch) -> Reply

  datatype Result = Done(translated: map<string, string>) | Failed(timedOut: bool)

  /** Whether the error "missing translation for <key>" is taken for a timeout. */
  predicate MissingLooksTimedOut(key: string) {
    Contains(Lower("missing translation for " + key), "timed out")
  }

  predicate HasTranslation(fields: map<string, Field>, key: string) {
    key in fields && fields[key].Str? && !AllBlank(fields[key].text)
  }

  /** Reading the values of items i, i + 1, ... into the map. */
  function ReadItems(items: Batch, i: nat, fields: map<string, Field>, translated: map<string, string>): Result
    requires i <= |items|
    decreases |items| - i
  {
    if i == |items| then Done(translated)
    else if !HasTranslation(fields, items[i].key) then Failed(MissingLooksTimedOut(items[i].key))
    else ReadItems(items, i + 1, fields, translated[items[i].key := fields[items[i].key].text])
  }

  function Outcome(items: Batch, reply: Reply): Result {
    match reply
    case Raised(timedOut) => Failed(timedOut)
    case Parsed(fields) => ReadItems(items, 0, fields, map[])
  }

  function Midpoint(items: Batch): (m: nat)
    ensures |items| > 1 ==> 0 < m < |items|
    ensures 0 <= 2 * m - |items| <= 1
  {
    (|items| + 1) / 2
  }

  /** The result from attempt number `attempt` on, and the number of the next attempt. */
  function Translate(items: Batch, service: Service, n: nat, attempt: nat): (Result, nat)
    requires attempt < TRANSLATE_MAX_ATTEMPTS
    decreases |items|, TRANSLATE_MAX_ATTEMPTS - attempt
  {
    var outcome := Outcome(items, service(n, items));
    if outcome.Done? then (outcome, n + 1)
    else if outcome.timedOut && |items| > 1 then
      var mid := Midpoint(items);
      var (left, afterLeft) := Translate(items[..mid], service, n + 1, 0);
      if left.Failed? then (left, afterLeft)
      else
        var (right, afterRight) := Translate(items[mid..], service, afterLeft, 0);
        if right.Failed? then (right, afterRight)
        else (Done(left.translated + right.translated), afterRight)
    else if outcome.timedOut || attempt + 1 == TRANSLATE_MAX_ATTEMPTS then (outcome, n + 1)
    else Translate(items, service, n + 1, attempt + 1)
  }

  method ReadTranslations(items: Batch, fields: map<string, Field>) returns (r: Result)
    ensures r == Outcome(items, Parsed(fields))
  {
    var translated: map<string, string> := map[];
    for i := 0 to |items|
      invariant ReadItems(items, i, fields, translated) == ReadItems(items, 0, fields, map[])
    {
      var key := items[i].key;
      if key !in fields || !fields[key].Str? || AllBlank(fields[key].text) {
        return Failed(MissingLooksTimedOut(key));
      }
      translated := translated[key := fields[key].text];
    }
    return Done(translated);
  }

  method TranslateBatch(items: Batch, service: Service, n: nat) returns (r: Result, next: nat)
    ensures (r, next) == Translate(items, service, n, 0)
    decreases |items|
  {
    next := n;
    var lastError := false;
    var attempt := 0;
    while attempt < TRANSLATE_MAX_ATTEMPTS
      invariant attempt <= TRANSLATE_MAX_ATTEMPTS
      invariant if attempt < TRANSLATE_MAX_ATTEMPTS
        then Translate(items, service, n, 0) == Translate(items, service, next, attempt)
        else Translate(items, service, n, 0) == (Failed(lastError), next)
    {
      var reply := service(next, items);
      next := next + 1;
      match reply {
        case Raised(timedOut) => r := Failed(timedOut);
        case Parsed(fields) => r := ReadTranslations(items, fields);
      }
      if r.Done? {
        return;
      }
      lastError := r.timedOut;
      if lastError && |items| > 1 {
        var midpoint := Midpoint(items);
        var left, right;
        left, next := TranslateBatch(items[..midpoint], service, next);
        if left.Failed? {
          return left, next;
        }
        right, next := TranslateBatch(items[midpoint..], service, next);
        if right.Failed? {
          return right, next;
        }
        return Done(left.translated + right.translated), next;
      }
      if lastError {
        return Failed(lastError), next;
      }
      attempt := attempt + 1;
    }
    return Failed(lastError), next;
  }

  // ---- when an attempt is accepted, and what follows when it is not ----

  /** The key holds a string with some character that is not blank. */
  ghost predicate HasText(fields: map<string, Field>, key: string) {
    key in fields && fields[key].Str? && exists i :: 0 <= i < |fields[key].text| && !IsBlank(fields[key].text[i])
  }

  /** A JSON object with a text for every item. */
  ghost predicate GoodReply(items: Batch, reply: Reply) {
    reply.Parsed? && forall i :: 0 <= i < |items| ==> HasText(reply.fields, items[i].key)
  }

  lemma HasTextIff(fields: map<string, Field>, key: string)
    ensures HasText(fields, key) <==> HasTranslation(fields, key)
  {
    if key in fields && fields[key].Str? {
      var text := fields[key].text;
      assert AllBlank(text) <==> !exists i :: 0 <= i < |text| && !IsBlank(text[i]);
    }
  }

  /** The texts of the items in the reply. */
  function TextsOf(items: Batch, fields: map<string, Field>): map<string, string>
    requires forall i :: 0 <= i < |items| ==> items[i].key in fields && fields[items[i].key].Str?
  {
    map i | 0 <= i < |items| :: items[i].key := fields[items[i].key].text
  }

  lemma {:induction false} ReadsAllOrFails(items: Batch, i: nat, fields: map<string, Field>,
                                            translated: map<string, string>)
    requires i <= |items|
    ensures ReadItems(items, i, fields, translated).Done?
      <==> forall j :: i <= j < |items| ==> HasText(fields, items[j].key)
    decreases |items| - i
  {
    hide HasText, HasTranslation;
    if i < |items| {
      HasTextIff(fields, items[i].key);
      if HasTranslation(fields, items[i].key) {
        ReadsAllOrFails(items, i + 1, fields, translated[items[i].key := FieldText(fields, items[i].key)]);
      }
    }
  }

  function FieldText(fields: map<string, Field>, key: string): string
    requires HasTranslation(fields, key)
  {
    fields[key].text
  }

  /** An attempt is accepted exactly when its reply has a text for every item; the result is
      then those texts, after that one attempt. */
  lemma AcceptedIff(items: Batch, service: Service, n: nat, attempt: nat)
    requires attempt < TRANSLATE_MAX_ATTEMPTS
    ensures GoodReply(items, service(n, items)) ==>
      Translate(items, service, n, attempt) == (Done(TextsOf(items, service(n, items).fields)), n + 1)
    ensures !GoodReply(items, service(n, items)) ==>
      var (r, next) := Translate(items, service, n, attempt); r.Failed? || next > n + 1
  {
    var reply := service(n, items);
    if reply.Parsed? {
      ReadsAllOrFails(items, 0, reply.fields, map[]);
    }
    if GoodReply(items, reply) {
      assert KeysOf(items[..0]) == {};
      ReadItemsKeys(items, 0, reply.fields, map[]);
      assert ReadItems(items, 0, reply.fields, map[]).translated == TextsOf(items, reply.fields);
    } else {
      assert Outcome(items, reply).Failed?;
      hide Outcome, GoodReply;
      LaterAttempts(items, service, n, attempt);
    }
  }

  lemma LaterAttempts(items: Batch, service: Service, n: nat, attempt: nat)
    requires attempt < TRANSLATE_MAX_ATTEMPTS && Outcome(items, service(n, items)).Failed?
    ensures var (r, next) := Translate(items, service, n, attempt); r.Failed? || next > n + 1
  {
    hide Outcome;
    var outcome := Outcome(items, service(n, items));
    if outcome.timedOut && |items| > 1 {
      var mid := Midpoint(items);
      AttemptsBounded(items[..mid], service, n + 1, 0);
      AttemptsBounded(items[mid..], service, Translate(items[..mid], service, n + 1, 0).1, 0);
    } else if !outcome.timedOut && attempt + 1 < TRANSLATE_MAX_ATTEMPTS {
      AttemptsBounded(items, service, n + 1, attempt + 1);
    }
  }

  /** What follows an error. A timeout splits a batch of more than one into halves, the first
      no smaller and at most one larger, and ends a single item; any other error is
      followed by one more attempt at the same items, and ends the second. */
  lemma AfterError(items: Batch, service: Service, n: nat, timedOut: bool, mid: nat)
    requires service(n, items) == Raised(timedOut) && mid <= |items| && 0 <= 2 * mid - |items| <= 1
    ensures timedOut && |items| > 1 ==> forall attempt: nat :: attempt < 2 ==>
      var (left, middle) := Translate(items[..mid], service, n + 1, 0);
      var (right, next) := Translate(items[mid..], service, middle, 0);
      Translate(items, service, n, attempt)
        == (if left.Failed? then (left, middle) else if right.Failed? then (right, next)
            else (Done(left.translated + right.translated), next))
    ensures timedOut && |items| <= 1 ==> forall attempt: nat :: attempt < 2 ==>
      Translate(items, service, n, attempt) == (Failed(true), n + 1)
    ensures !timedOut ==> Translate(items, service, n, 0) == Translate(items, service, n + 1, 1)
    ensures !timedOut ==> Translate(items, service, n, 1) == (Failed(false), n + 1)
  {
    assert mid == Midpoint(items);
  }

  // ---- a reply that lacks a key ----

  /** Characters before the text that begin no occurrence do not matter. */
  lemma {:induction false} ContainsAfter(front: string, s: string, part: string)
    requires forall i :: 0 <= i < |front| ==> !(part <= front[i..] + s)
    ensures Contains(front + s, part) == Contains(s, part)
  {
    if front == [] {
      assert front + s == s;
    } else {
      assert front[0..] + s == front + s && (front + s)[1..] == front[1..] + s;
      forall i | 0 <= i < |front[1..]| ensures !(part <= front[1..][i..] + s) {
        assert front[1..][i..] == front[i + 1..];
      }
      ContainsAfter(front[1..], s, part);
    }
  }

  /** Whether the error for a missing translation is taken for a timeout depends on the key
      alone: on whether it holds "timed out", in any case. */
  lemma MissingLooksTimedOutIff(key: string)
    ensures MissingLooksTimedOut(key) <==> Contains(Lower(key), "timed out")
  {
    var front, part := "missing translation for ", "timed out";
    assert Lower(front + key) == front + Lower(key) by {
      assert forall i :: 0 <= i < |front| ==> LowerChar(front[i]) == front[i];
    }
    forall i | 0 <= i < |front| ensures !(part <= front[i..] + Lower(key)) {
      var s := front[i..] + Lower(key);
      assert s[0] == front[i];
      assert part[0] == 't' && part[1] == 'i' && part[2] == 'm';
      assert i + 2 < |front| ==> s[1] == front[i + 1] && s[2] == front[i + 2];
    }
    ContainsAfter(front, Lower(key), part);
  }

  /** What an attempt does next when item i is the first without a translation in the reply. */
  lemma MissingKeyDecides(items: Batch, service: Service, n: nat, fields: map<string, Field>, i: nat)
    requires i < |items| && service(n, items) == Parsed(fields) && !HasTranslation(fields, items[i].key)
    requires forall j :: 0 <= j < i ==> HasTranslation(fields, items[j].key)
    ensures var timedOut := Contains(Lower(items[i].key), "timed out");
      && Outcome(items, service(n, items)) == Failed(timedOut)
      && (!timedOut ==> Translate(items, service, n, 0) == Translate(items, service, n + 1, 1))
      && (timedOut && |items| == 1 ==> Translate(items, service, n, 0) == (Failed(true), n + 1))
      && (timedOut && |items| > 1 ==>
            var left := Translate(items[..Midpoint(items)], service, n + 1, 0);
            left.0.Failed? ==> Translate(items, service, n, 0) == left)
  {
    MissingLooksTimedOutIff(items[i].key);
    FirstMissing(items, 0, fields, map[], i);
    hide HasTranslation, Contains, Lower;
  }

  lemma {:induction false} FirstMissing(items: Batch, from: nat, fields: map<string, Field>,
      translated: map<string, string>, i: nat)
    requires from <= i < |items| && !HasTranslation(fields, items[i].key)
    requires forall j :: from <= j < i ==> HasTranslation(fields, items[j].key)
    ensures ReadItems(items, from, fields, translated) == Failed(MissingLooksTimedOut(items[i].key))
    decreases i - from
  {
    if from < i {
      FirstMissing(items, from + 1, fields, translated[items[from].key := fields[items[from].key].text], i);
    }
  }

  /** A reply without the key "timed out" splits its batch of two: the next attempt is for
      the first half. A reply without the key "title" is asked for again as a whole. */
  lemma TimedOutKeySplits(other: Item, service: Service)
    requires service == ((n: nat, items: Batch) => Parsed(map[]))
    ensures var split, whole := [Item("", "timed out", "", ""), other], [Item("", "title", "", ""), other];
      && Translate(split, service, 0, 0) == Translate(split[..1], service, 1, 0)
      && Translate(whole, service, 0, 0) == Translate(whole, service, 1, 1)
  {
    var split, whole := [Item("", "timed out", "", ""), other], [Item("", "title", "", ""), other];
    assert Lower("timed out") == "timed out" && Lower("title") == "title";
    assert !Contains("title", "timed out") by { ShortContainsNothing("title", "timed out"); }
    MissingKeyDecides(split, service, 0, map[], 0);
    MissingKeyDecides(split[..1], service, 1, map[], 0);
    MissingKeyDecides(whole, service, 0, map[], 0);
  }

  lemma {:induction false} ShortContainsNothing(s: string, part: string)
    requires |s| < |part|
    ensures !Contains(s, part)
  {
    if s != [] {
      ShortContainsNothing(s[1..], part);
    }
  }

  // ---- the number of prompts ----

  /** For every pattern of errors, n items cost at most 4n - 2 attempts (two for none), and
      each attempt sends at most one prompt. */
  lemma {:induction false} AttemptsBounded(items: Batch, service: Service, n: nat, attempt: nat)
    requires attempt < TRANSLATE_MAX_ATTEMPTS
    ensures var calls := Translate(items, service, n, attempt).1 - n;
      1 <= calls <= (if items == [] then 2 else 4 * |items| - 2) - attempt
    decreases |items|, TRANSLATE_MAX_ATTEMPTS - attempt
  {
    var outcome := Outcome(items, service(n, items));
    if outcome.Failed? {
      if outcome.timedOut && |items| > 1 {
        var mid := Midpoint(items);
        AttemptsBounded(items[..mid], service, n + 1, 0);
        var afterLeft := Translate(items[..mid], service, n + 1, 0).1;
        AttemptsBounded(items[mid..], service, afterLeft, 0);
      } else if !outcome.timedOut && attempt + 1 < TRANSLATE_MAX_ATTEMPTS {
        AttemptsBounded(items, service, n + 1, attempt + 1);
      }
    }
  }

  /** A service that fails every even attempt, and every odd one for more than one item by a
      timeout. */
  function WorstService(): Service {
    (n: nat, items: Batch) =>
      if n % 2 == 0 || items == [] then Raised(false)
      else if |items| > 1 then Raised(true)
      else Parsed(map[items[0].key := Str("x")])
  }

  /** The bound is reached, for any number of items, by a translation that succeeds. */
  lemma {:induction false} BoundIsReached(items: Batch, n: nat)
    requires items != [] && n % 2 == 0
    ensures Translate(items, WorstService(), n, 0).0.Done?
    ensures Translate(items, WorstService(), n, 0).1 == n + (4 * |items| - 2)
    decreases |items|
  {
    var w := WorstService();
    assert Outcome(items, w(n, items)) == Failed(false);
    assert Translate(items, w, n, 0) == Translate(items, w, n + 1, 1);
    if |items| == 1 {
      assert !AllBlank("x") by { assert !IsBlank("x"[0]); }
      var fields := map[items[0].key := Str("x")];
      assert HasTranslation(fields, items[0].key);
      assert ReadItems(items, 1, fields, map[items[0].key := "x"]).Done?;
      assert w(n + 1, items) == Parsed(fields);
      assert Outcome(items, w(n + 1, items)).Done?;
    } else {
      assert Outcome(items, w(n + 1, items)) == Failed(true);
      var mid := Midpoint(items);
      BoundIsReached(items[..mid], n + 2);
      BoundIsReached(items[mid..], n + 2 + (4 * mid - 2));
    }
  }

  // ---- what a result holds ----

  function KeysOf(items: Batch): set<string> {
    set i | 0 <= i < |items| :: items[i].key
  }

  ghost predicate NonBlankValues(m: map<string, string>) {
    forall k :: k in m ==> !AllBlank(m[k])
  }

  lemma {:induction false} ReadItemsKeys(items: Batch, i: nat, fields: map<string, Field>,
      translated: map<string, string>)
    requires i <= |items| && translated.Keys == KeysOf(items[..i]) && NonBlankValues(translated)
    requires forall k :: k in translated ==> k in fields && fields[k] == Str(translated[k])
    ensures var r := ReadItems(items, i, fields, translated);
      r.Done? ==>
        && r.translated.Keys == KeysOf(items) && NonBlankValues(r.translated)
        && (forall k :: k in r.translated ==> k in fields && fields[k] == Str(r.translated[k]))
    decreases |items| - i
  {
    if i == |items| {
      assert items[..i] == items;
    } else if HasTranslation(fields, items[i].key) {
      KeysSnoc(items, i);
      ReadItemsKeys(items, i + 1, fields, translated[items[i].key := fields[items[i].key].text]);
    }
  }

  lemma KeysSnoc(items: Batch, i: nat)
    requires i < |items|
    ensures KeysOf(items[..i + 1]) == KeysOf(items[..i]) + {items[i].key}
  {
    var a, b := items[..i], items[..i + 1];
    assert forall j :: 0 <= j < i ==> a[j] == b[j];
    assert b[i] == items[i];
  }

  lemma KeysSplit(items: Batch, mid: nat)
    requires mid <= |items|
    ensures KeysOf(items) == KeysOf(items[..mid]) + KeysOf(items[mid..])
  {
    var a, b := items[..mid], items[mid..];
    forall k | k in KeysOf(items) ensures k in KeysOf(a) + KeysOf(b) {
      var i :| 0 <= i < |items| && items[i].key == k;
      if i < mid {
        assert a[i].key == k;
      } else {
        assert b[i - mid].key == k;
      }
    }
  }

  /** The value of a key came from a reply, within these attempts, to a prompt whose items
      include that key. */
  ghost predicate CameFrom(service: Service, items: Batch, key: string, value: string, first: nat, next: nat) {
    exists c: nat, i, j :: first <= c < next && 0 <= i <= j <= |items| && Replied(service, c, items[i..j], key, value)
  }

  ghost predicate Replied(service: Service, c: nat, asked: Batch, key: string, value: string) {
    && key in KeysOf(asked)
    && var reply := service(c, asked); reply.Parsed? && key in reply.fields && reply.fields[key] == Str(value)
  }

  lemma SliceOfSlice(items: Batch, a: nat, b: nat, i: nat, j: nat)
    requires a <= b <= |items| && i <= j <= b - a
    ensures items[a..b][i..j] == items[a + i..a + j]
  {
    var part := items[a..b];
    assert forall k :: 0 <= k < |part| ==> part[k] == items[a + k];
    assert forall k :: 0 <= k < j - i ==> part[i..j][k] == part[i + k];
  }

  lemma CameFromPart(service: Service, items: Batch, a: nat, b: nat, key: string, value: string,
      first: nat, next: nat, first': nat, next': nat)
    requires a <= b <= |items| && first' <= first && next <= next'
    requires CameFrom(service, items[a..b], key, value, first, next)
    ensures CameFrom(service, items, key, value, first', next')
  {
    var part := items[a..b];
    var c: nat, i, j :| first <= c < next && 0 <= i <= j <= |part| && Replied(service, c, part[i..j], key, value);
    SliceOfSlice(items, a, b, i, j);
  }

  /** What a successful translation of the items holds. */
  ghost predicate Covers(items: Batch, service: Service, translated: map<string, string>, first: nat, next: nat) {
    && translated.Keys == KeysOf(items)
    && NonBlankValues(translated)
    && (forall k :: k in translated ==> CameFrom(service, items, k, translated[k], first, next))
  }

  lemma CoversHalves(items: Batch, mid: nat, service: Service, left: map<string, string>, right: map<string, string>,
      first: nat, middle: nat, next: nat)
    requires mid <= |items| && first < middle <= next
    requires Covers(items[..mid], service, left, first + 1, middle)
    requires Covers(items[mid..], service, right, middle, next)
    ensures Covers(items, service, left + right, first, next)
  {
    KeysSplit(items, mid);
    var all := left + right;
    assert items[..mid] == items[0..mid] && items[mid..] == items[mid..|items|];
    forall k | k in all ensures CameFrom(service, items, k, all[k], first, next) {
      if k in right {
        CameFromPart(service, items, mid, |items|, k, right[k], middle, next, first, next);
      } else {
        CameFromPart(service, items, 0, mid, k, left[k], first + 1, middle, first, next);
      }
    }
  }

  lemma CoversLater(items: Batch, service: Service, translated: map<string, string>, first: nat, next: nat)
    requires Covers(items, service, translated, first + 1, next)
    ensures Covers(items, service, translated, first, next)
  {
    assert items == items[0..|items|];
    forall k | k in translated ensures CameFrom(service, items, k, translated[k], first, next) {
      CameFromPart(service, items, 0, |items|, k, translated[k], first + 1, next, first, next);
    }
  }

  /** A successful translation has exactly the items' keys, no blank value, and only values
      that some reply gave for that key. */
  lemma {:induction false} DoneCoversItems(items: Batch, service: Service, n: nat, attempt: nat)
    requires attempt < TRANSLATE_MAX_ATTEMPTS && Translate(items, service, n, attempt).0.Done?
    ensures var (r, next) := Translate(items, service, n, attempt);
      Covers(items, service, r.translated, n, next)
    decreases |items|, TRANSLATE_MAX_ATTEMPTS - attempt
  {
    hide Covers, Outcome;
    var (r, next) := Translate(items, service, n, attempt);
    var outcome := Outcome(items, service(n, items));
    if outcome.Done? {
      DirectCovers(items, service, n);
    } else if outcome.timedOut && |items| > 1 {
      var mid := Midpoint(items);
      var (left, afterLeft) := Translate(items[..mid], service, n + 1, 0);
      DoneCoversItems(items[..mid], service, n + 1, 0);
      AttemptsBounded(items[..mid], service, n + 1, 0);
      var (right, _) := Translate(items[mid..], service, afterLeft, 0);
      DoneCoversItems(items[mid..], service, afterLeft, 0);
      AttemptsBounded(items[mid..], service, afterLeft, 0);
      CoversHalves(items, mid, service, left.translated, right.translated, n, afterLeft, next);
    } else {
      DoneCoversItems(items, service, n + 1, attempt + 1);
      CoversLater(items, service, r.translated, n, next);
    }
  }

  lemma DirectCovers(items: Batch, service: Service, n: nat)
    requires Outcome(items, service(n, items)).Done?
    ensures Covers(items, service, Outcome(items, service(n, items)).translated, n, n + 1)
  {
    var fields := service(n, items).fields;
    ReadItemsKeys(items, 0, fields, map[]);
    var r := Outcome(items, service(n, items));
    forall k | k in r.translated ensures CameFrom(service, items, k, r.translated[k], n, n + 1) {
      assert items[0..|items|] == items;
      assert Replied(service, n, items[0..|items|], k, r.translated[k]);
    }
  }

  // ---- failure and recovery ----

  /** The last attempt, c, gave up: a single item timed out, or two attempts in a row at the
      same items failed without a timeout. */
  ghost predicate GaveUp(service: Service, c: nat, asked: Batch, timedOut: bool) {
    && Outcome(asked, service(c, asked)) == Failed(timedOut)
    && (if timedOut then |asked| <= 1 else c > 0 && Outcome(asked, service(c - 1, asked)) == Failed(false))
  }

  lemma GivesUpWhole(items: Batch, service: Service, n: nat, timedOut: bool)
    requires Outcome(items, service(n, items)) == Failed(timedOut)
    requires if timedOut then |items| <= 1 else n > 0 && Outcome(items, service(n - 1, items)) == Failed(false)
    ensures GaveUp(service, n, items[0..|items|], timedOut)
  {
    assert items[0..|items|] == items;
  }

  lemma SliceOfHalf(items: Batch, mid: nat, i: nat, j: nat)
    requires mid <= |items|
    ensures i <= j <= mid ==> items[..mid][i..j] == items[i..j]
    ensures i <= j <= |items| - mid ==> items[mid..][i..j] == items[mid + i..mid + j]
  {
  }

  /** A translation fails only by giving up on one stretch of its items, and stops there. */
  lemma {:induction false} FailureGivesUp(items: Batch, service: Service, n: nat, attempt: nat) returns (i: nat, j: nat)
    requires attempt < TRANSLATE_MAX_ATTEMPTS && Translate(items, service, n, attempt).0.Failed?
    requires attempt > 0 ==> n > 0 && Outcome(items, service(n - 1, items)) == Failed(false)
    ensures var (r, next) := Translate(items, service, n, attempt);
      i <= j <= |items| && next > 0 && GaveUp(service, next - 1, items[i..j], r.timedOut)
    decreases |items|, TRANSLATE_MAX_ATTEMPTS - attempt
  {
    hide Outcome, GaveUp;
    var outcome := Outcome(items, service(n, items));
    if outcome.timedOut && |items| > 1 {
      var mid := Midpoint(items);
      var (left, afterLeft) := Translate(items[..mid], service, n + 1, 0);
      if left.Failed? {
        i, j := FailureGivesUp(items[..mid], service, n + 1, 0);
        SliceOfHalf(items, mid, i, j);
      } else {
        i, j := FailureGivesUp(items[mid..], service, afterLeft, 0);
        SliceOfHalf(items, mid, i, j);
        i, j := mid + i, mid + j;
      }
    } else if outcome.timedOut || attempt + 1 == TRANSLATE_MAX_ATTEMPTS {
      i, j := 0, |items|;
      GivesUpWhole(items, service, n, outcome.timedOut);
    } else {
      i, j := FailureGivesUp(items, service, n + 1, attempt + 1);
    }
  }

  /** Splitting recovers: if single items always succeed and larger batches fail only by
      timing out, the whole batch succeeds. */
  lemma {:induction false} SplittingRecovers(items: Batch, service: Service, n: nat)
    requires items != []
    requires forall c: nat, b: Batch :: |b| == 1 ==> Outcome(b, service(c, b)).Done?
    requires forall c: nat, b: Batch :: |b| > 1 ==> Outcome(b, service(c, b)) != Failed(false)
    ensures Translate(items, service, n, 0).0.Done?
    decreases |items|
  {
    var outcome := Outcome(items, service(n, items));
    if outcome.Failed? {
      var mid := Midpoint(items);
      SplittingRecovers(items[..mid], service, n + 1);
      SplittingRecovers(items[mid..], service, Translate(items[..mid], service, n + 1, 0).1);
    }
  }
}
