/** A bounded pool of workers that share one index and write their results in place.
    The code between two awaits is one step. */
module MapConcurrent {
  import opened Basics

  datatype Worker = Running(index: nat) | Finished | Rejected(index: nat)

  /** `claimed` lists the indices taken so far, in the order they were taken. */
  datatype State<R> = State(
    nextIndex: nat,
    workers: seq<Worker>,
    results: seq<Option<R>>,
    claimed: seq<nat>)

  /** The mapper call of a worker settles. */
  datatype Event = Resolves(worker: nat) | Rejects(worker: nat)

  function WorkerCount(limit: int, n: nat): (k: nat)
    ensures 1 <= k && (limit >= 1 ==> k <= limit) && (limit < 1 ==> k == 1) && (n > 0 ==> k <= n)
  {
    var wanted := if limit < n then limit else n;
    if wanted < 1 then 1 else wanted
  }

  /** The head of a worker's loop: take the next index, or finish. */
  function Claim<R>(s: State<R>, w: nat, n: nat): State<R>
    requires w < |s.workers|
  {
    if s.nextIndex < n then
      s.(nextIndex := s.nextIndex + 1,
         workers := s.workers[w := Running(s.nextIndex)],
         claimed := s.claimed + [s.nextIndex])
    else
      s.(workers := s.workers[w := Finished])
  }

  /** Worker w enters its loop while the pool is being created. */
  function Spawn<R>(s: State<R>, n: nat): State<R> {
    Claim(s.(workers := s.workers + [Finished]), |s.workers|, n)
  }

  function Spawned<R>(k: nat, n: nat): State<R> {
    if k == 0 then State(0, [], seq(n, _ => None), []) else Spawn(Spawned(k - 1, n), n)
  }

  function Init<R>(limit: int, n: nat): State<R> {
    Spawned(WorkerCount(limit, n), n)
  }

  /** `values[i]` is what the mapper resolves to on item i. An event for a worker with no
      call in flight has no effect. */
  function Next<R>(s: State<R>, values: seq<R>, e: Event): State<R> {
    if e.worker >= |s.workers| || !s.workers[e.worker].Running? then s
    else
      var index := s.workers[e.worker].index;
      if index >= |s.results| || |s.results| != |values| then s
      else
        match e
        case Resolves(w) => Claim(s.(results := s.results[index := Some(values[index])]), w, |values|)
        case Rejects(w) => s.(workers := s.workers[w := Rejected(index)])
  }

  function After<R>(limit: int, values: seq<R>, events: seq<Event>): State<R> {
    if events == [] then Init(limit, |values|)
    else Next(After(limit, values, events[..|events| - 1]), values, events[|events| - 1])
  }

  ghost predicate Holds(s: Worker, i: nat) {
    s == Running(i) || s == Rejected(i)
  }

  /** Each claimed index is in exactly one place: held by one worker, or resolved. */
  ghost predicate Inv<R>(s: State<R>, values: seq<R>) {
    && |s.results| == |values| && s.nextIndex <= |values|
    && s.claimed == seq(s.nextIndex, i => i)
    && (forall w :: 0 <= w < |s.workers| && !s.workers[w].Finished? ==> s.workers[w].index < s.nextIndex)
    && (forall w :: 0 <= w < |s.workers| && s.workers[w].Finished? ==> s.nextIndex == |values|)
    && (forall v, w :: 0 <= v < w < |s.workers| && !s.workers[v].Finished? && !s.workers[w].Finished?
          ==> s.workers[v].index != s.workers[w].index)
    && (forall w :: 0 <= w < |s.workers| && !s.workers[w].Finished? ==> s.results[s.workers[w].index].None?)
    && (forall i :: 0 <= i < s.nextIndex && s.results[i].None? ==> Held(s, i))
    && (forall i :: 0 <= i < |values| && s.results[i].Some? ==> i < s.nextIndex && s.results[i].value == values[i])
  }

  ghost predicate Held<R>(s: State<R>, i: nat) {
    exists w :: 0 <= w < |s.workers| && Holds(s.workers[w], i)
  }

  /** Taking the next index keeps the invariant for a worker that holds nothing. */
  lemma ClaimInv<R>(s: State<R>, values: seq<R>, w: nat)
    requires w < |s.workers| && s.workers[w].Finished?
    requires Inv(s.(workers := s.workers[..w] + s.workers[w + 1..]), values)
    ensures Inv(Claim(s, w, |values|), values)
  {
    var rest := s.(workers := s.workers[..w] + s.workers[w + 1..]);
    var t := Claim(s, w, |values|);
    assert forall v :: 0 <= v < |s.workers| && v != w ==>
        t.workers[v] == rest.workers[if v < w then v else v - 1];
    forall i | 0 <= i < t.nextIndex && t.results[i].None? ensures Held(t, i) {
      if i < s.nextIndex {
        assert Held(rest, i);
        var v :| 0 <= v < |rest.workers| && Holds(rest.workers[v], i);
        assert Holds(t.workers[if v < w then v else v + 1], i);
      } else {
        assert Holds(t.workers[w], i);
      }
    }
  }

  lemma {:induction false} SpawnedInv<R>(k: nat, values: seq<R>)
    ensures Inv(Spawned<R>(k, |values|), values) && |Spawned<R>(k, |values|).workers| == k
  {
    if k > 0 {
      SpawnedInv<R>(k - 1, values);
      var s := Spawned<R>(k - 1, |values|);
      var t := s.(workers := s.workers + [Finished]);
      assert t.workers[..k - 1] + t.workers[k..] == s.workers;
      ClaimInv(t, values, k - 1);
    }
  }

  /** The state of the other workers once worker w's call has resolved. */
  function Freed<R>(s: State<R>, values: seq<R>, w: nat): State<R>
    requires w < |s.workers| && s.workers[w].Running? && s.workers[w].index < |s.results| == |values|
  {
    var index := s.workers[w].index;
    s.(results := s.results[index := Some(values[index])], workers := s.workers[..w] + s.workers[w + 1..])
  }

  lemma FreedHeld<R>(s: State<R>, values: seq<R>, w: nat, i: nat)
    requires Inv(s, values) && w < |s.workers| && s.workers[w].Running?
    requires i < s.nextIndex && Freed(s, values, w).results[i].None?
    ensures Held(Freed(s, values, w), i)
  {
    assert Held(s, i);
    var v :| 0 <= v < |s.workers| && Holds(s.workers[v], i);
    assert v != w;
    assert Holds(Freed(s, values, w).workers[if v < w then v else v - 1], i);
  }

  lemma FreedInv<R>(s: State<R>, values: seq<R>, w: nat)
    requires Inv(s, values) && w < |s.workers| && s.workers[w].Running?
    ensures Inv(Freed(s, values, w), values)
  {
    var rest := Freed(s, values, w);
    assert forall v :: 0 <= v < |rest.workers| ==> rest.workers[v] == s.workers[if v < w then v else v + 1];
    hide Held;
    forall i | 0 <= i < rest.nextIndex && rest.results[i].None? ensures Held(rest, i) {
      FreedHeld(s, values, w, i);
    }
  }

  lemma ResolveInv<R>(s: State<R>, values: seq<R>, w: nat)
    requires Inv(s, values) && w < |s.workers| && s.workers[w].Running?
    ensures Inv(Next(s, values, Resolves(w)), values)
  {
    FreedInv(s, values, w);
    var index := s.workers[w].index;
    assert index < |values| && |s.results| == |values|;
    var t := s.(results := s.results[index := Some(values[index])]);
    var free := t.(workers := t.workers[w := Finished]);
    assert free.workers[..w] + free.workers[w + 1..] == Freed(s, values, w).workers;
    hide Inv;
    ClaimInv(free, values, w);
    assert Claim(free, w, |values|).workers == Claim(t, w, |values|).workers;
  }

  lemma RejectInv<R>(s: State<R>, values: seq<R>, w: nat)
    requires Inv(s, values) && w < |s.workers| && s.workers[w].Running?
    ensures Inv(Next(s, values, Rejects(w)), values)
  {
    var t := Next(s, values, Rejects(w));
    forall i | 0 <= i < t.nextIndex && t.results[i].None? ensures Held(t, i) {
      assert Held(s, i);
      var v :| 0 <= v < |s.workers| && Holds(s.workers[v], i);
      assert Holds(t.workers[v], i);
    }
  }

  /** Under every schedule: indices are claimed once and in order, no two workers hold the
      same one, and every result already written is the mapper's. */
  lemma {:induction false} EveryScheduleKeepsInv<R>(limit: int, values: seq<R>, events: seq<Event>)
    ensures Inv(After(limit, values, events), values)
    ensures |After(limit, values, events).workers| == WorkerCount(limit, |values|)
  {
    if events == [] {
      SpawnedInv<R>(WorkerCount(limit, |values|), values);
    } else {
      var before, e := events[..|events| - 1], events[|events| - 1];
      EveryScheduleKeepsInv(limit, values, before);
      var s := After(limit, values, before);
      if e.worker < |s.workers| && s.workers[e.worker].Running? {
        if e.Resolves? {
          ResolveInv(s, values, e.worker);
        } else {
          RejectInv(s, values, e.worker);
        }
      }
    }
  }

  function InFlight(workers: seq<Worker>): nat {
    if workers == [] then 0
    else InFlight(workers[..|workers| - 1]) + if workers[|workers| - 1].Running? then 1 else 0
  }

  lemma {:induction false} InFlightAtMostAll(workers: seq<Worker>)
    ensures InFlight(workers) <= |workers|
  {
    if workers != [] {
      InFlightAtMostAll(workers[..|workers| - 1]);
    }
  }

  /** Never more mapper calls in flight than the limit (one, for a limit below one), and
      each index is claimed at most once. */
  lemma BoundedAndClaimedOnce<R>(limit: int, values: seq<R>, events: seq<Event>)
    ensures var s := After(limit, values, events);
      && InFlight(s.workers) <= (if limit < 1 then 1 else limit)
      && forall i, j :: 0 <= i < j < |s.claimed| ==> s.claimed[i] != s.claimed[j]
  {
    EveryScheduleKeepsInv(limit, values, events);
    InFlightAtMostAll(After(limit, values, events).workers);
  }

  /** No call is in flight. */
  ghost predicate Quiescent<R>(s: State<R>) {
    forall w :: 0 <= w < |s.workers| ==> !s.workers[w].Running?
  }

  ghost predicate NoneRejected<R>(s: State<R>) {
    forall w :: 0 <= w < |s.workers| ==> !s.workers[w].Rejected?
  }

  /** When nothing is in flight, every item has been claimed unless every worker was
      rejected, and the items without a result are exactly those whose call was rejected. */
  lemma QuiescentOutcome<R>(limit: int, values: seq<R>, events: seq<Event>)
    requires Quiescent(After(limit, values, events))
    ensures var s := After(limit, values, events);
      && s.nextIndex <= |s.results|
      && (s.nextIndex == |values| || forall w :: 0 <= w < |s.workers| ==> s.workers[w].Rejected?)
      && (forall i :: 0 <= i < s.nextIndex ==>
            (s.results[i].None? <==> exists w :: 0 <= w < |s.workers| && s.workers[w] == Rejected(i)))
  {
    EveryScheduleKeepsInv(limit, values, events);
    var s := After(limit, values, events);
    forall i | 0 <= i < s.nextIndex && s.results[i].None?
      ensures exists w :: 0 <= w < |s.workers| && s.workers[w] == Rejected(i)
    {
      assert Held(s, i);
      var w :| 0 <= w < |s.workers| && Holds(s.workers[w], i);
      assert s.workers[w] == Rejected(i);
    }
  }

  /** If no mapper rejects, the finished pool holds the mapper's value at every index. */
  lemma AllResolvedIsMap<R>(limit: int, values: seq<R>, events: seq<Event>)
    requires Quiescent(After(limit, values, events)) && NoneRejected(After(limit, values, events))
    ensures After(limit, values, events).results == seq(|values|, i requires 0 <= i < |values| => Some(values[i]))
  {
    EveryScheduleKeepsInv(limit, values, events);
    var s := After(limit, values, events);
    QuiescentOutcome(limit, values, events);
    assert |s.workers| >= 1 && s.workers[0].Finished?;
  }

  /** The pool is as wide as it may be: as many workers as the limit and the items allow, one
      at least, and none of them stops before every item has been taken. */
  lemma PoolIsFull<R>(limit: int, values: seq<R>, events: seq<Event>)
    ensures var s := After(limit, values, events);
      && |s.workers| == (if limit < |values| then if limit < 1 then 1 else limit
                         else if |values| < 1 then 1 else |values|)
      && (s.nextIndex < |values| ==> forall w :: 0 <= w < |s.workers| ==> !s.workers[w].Finished?)
  {
    EveryScheduleKeepsInv(limit, values, events);
  }

  // ---- what the caller awaits ----

  /** The promise over all workers: it resolves to the results once every worker is done, and
      rejects as soon as one worker does. */
  datatype Promised<R> = Unsettled | ResolvedWith(results: seq<Option<R>>) | RejectedBy(index: nat)

  predicate AllFinished(workers: seq<Worker>) {
    forall w :: 0 <= w < |workers| ==> workers[w].Finished?
  }

  /** What one step from s to t does to the promise: once settled it stays as it is, while
      workers may go on. */
  function PromisedNext<R>(p: Promised<R>, s: State<R>, e: Event, t: State<R>): Promised<R> {
    if !p.Unsettled? then p
    else if RejectsCall(s, e) then RejectedBy(s.workers[e.worker].index)
    else if AllFinished(t.workers) then ResolvedWith(t.results)
    else Unsettled
  }

  /** The event rejects a call in flight. */
  predicate RejectsCall<R>(s: State<R>, e: Event) {
    e.Rejects? && e.worker < |s.workers| && s.workers[e.worker].Running?
  }

  function PromisedAfter<R>(limit: int, values: seq<R>, events: seq<Event>): Promised<R> {
    if events == [] then
      var s := Init<R>(limit, |values|);
      if AllFinished(s.workers) then ResolvedWith(s.results) else Unsettled
    else
      var before, e := events[..|events| - 1], events[|events| - 1];
      PromisedNext(PromisedAfter(limit, values, before), After(limit, values, before), e, After(limit, values, events))
  }

  /** The promise has rejected exactly when some worker has, and has resolved exactly when
      every worker is done without rejection; it then holds the mapper's value at every
      index, in order. */
  ghost predicate PromiseAgrees<R>(s: State<R>, p: Promised<R>, values: seq<R>) {
    && (p.RejectedBy? <==> !NoneRejected(s))
    && (p.ResolvedWith? <==> Quiescent(s) && NoneRejected(s))
    && (p.ResolvedWith? ==> p.results == seq(|values|, i requires 0 <= i < |values| => Some(values[i])))
  }

  lemma FinishedIsMap<R>(s: State<R>, values: seq<R>)
    requires Inv(s, values) && |s.workers| >= 1 && AllFinished(s.workers)
    ensures s.results == seq(|values|, i requires 0 <= i < |values| => Some(values[i]))
  {
    assert s.workers[0].Finished?;
  }

  lemma StepAgrees<R>(s: State<R>, p: Promised<R>, values: seq<R>, e: Event)
    requires Inv(s, values) && Inv(Next(s, values, e), values) && |Next(s, values, e).workers| >= 1
    requires PromiseAgrees(s, p, values)
    ensures PromiseAgrees(Next(s, values, e), PromisedNext(p, s, e, Next(s, values, e)), values)
  {
    hide Inv, Next;
    var t := Next(s, values, e);
    StepRejects(s, values, e);
    StepWhenFinished(s, values, e);
    FinishedIff(t);
    if AllFinished(t.workers) {
      FinishedIsMap(t, values);
    }
    hide AllFinished, Quiescent, NoneRejected, RejectsCall;
  }

  lemma FinishedIff<R>(s: State<R>)
    ensures AllFinished(s.workers) <==> Quiescent(s) && NoneRejected(s)
  {
  }

  /** Under every schedule the promise agrees with the workers. */
  lemma {:induction false} PromiseSettlesIff<R>(limit: int, values: seq<R>, events: seq<Event>)
    ensures PromiseAgrees(After(limit, values, events), PromisedAfter(limit, values, events), values)
  {
    EveryScheduleKeepsInv(limit, values, events);
    hide Inv, Next, PromisedNext;
    var s := After(limit, values, events);
    if events == [] {
      NoneRejectedAtFirst<R>(WorkerCount(limit, |values|), |values|);
      if AllFinished(s.workers) {
        FinishedIsMap(s, values);
      }
      FinishedIff(s);
    } else {
      var before := events[..|events| - 1];
      PromiseSettlesIff(limit, values, before);
      EveryScheduleKeepsInv(limit, values, before);
      hide PromiseAgrees;
      StepAgrees(After(limit, values, before), PromisedAfter(limit, values, before), values, events[|events| - 1]);
    }
  }

  lemma {:induction false} NoneRejectedAtFirst<R>(k: nat, n: nat)
    ensures NoneRejected(Spawned<R>(k, n))
  {
    if k > 0 {
      NoneRejectedAtFirst<R>(k - 1, n);
    }
  }

  /** A step makes a worker rejected exactly when it rejects a call in flight. */
  lemma StepRejects<R>(s: State<R>, values: seq<R>, e: Event)
    requires Inv(s, values)
    ensures NoneRejected(Next(s, values, e))
      <==> NoneRejected(s) && !RejectsCall(s, e)
  {
    var t := Next(s, values, e);
    if e.worker < |s.workers| && s.workers[e.worker].Running? {
      assert forall v :: 0 <= v < |s.workers| && v != e.worker ==> t.workers[v] == s.workers[v];
      assert e.Rejects? ==> t.workers[e.worker].Rejected?;
      if !NoneRejected(s) {
        var v :| 0 <= v < |s.workers| && s.workers[v].Rejected?;
        assert t.workers[v].Rejected?;
      }
    }
  }

  /** Nothing happens after the last worker is done. */
  lemma StepWhenFinished<R>(s: State<R>, values: seq<R>, e: Event)
    ensures Quiescent(s) ==> Next(s, values, e) == s
  {
  }

  /** The promise rejects with the call that was rejected first, while the other workers may
      still be running. */
  lemma {:induction false} RejectsWithFirst<R>(limit: int, values: seq<R>, events: seq<Event>) returns (k: nat)
    requires PromisedAfter(limit, values, events).RejectedBy?
    ensures k < |events| && events[k].Rejects? && NoneRejected(After(limit, values, events[..k]))
    ensures var s := After(limit, values, events[..k]);
      && events[k].worker < |s.workers|
      && s.workers[events[k].worker] == Running(PromisedAfter(limit, values, events).index)
  {
    var n := |events| - 1;
    PromiseSettlesIff(limit, values, events[..n]);
    if PromisedAfter(limit, values, events[..n]).Unsettled? {
      k := n;
    } else {
      k := RejectsWithFirst(limit, values, events[..n]);
      assert events[..n][..k] == events[..k];
    }
    hide After, PromisedAfter, NoneRejected;
  }

  /** Whatever the remaining workers do, a settled promise stays as it is. */
  lemma {:induction false} SettledStays<R>(limit: int, values: seq<R>, events: seq<Event>, more: seq<Event>)
    requires !PromisedAfter(limit, values, events).Unsettled?
    ensures PromisedAfter(limit, values, events + more) == PromisedAfter(limit, values, events)
    decreases |more|
  {
    if more == [] {
      assert events + more == events;
    } else {
      var n := |more| - 1;
      SettledStays(limit, values, events, more[..n]);
      assert (events + more)[..|events + more| - 1] == events + more[..n];
    }
  }

  lemma {:induction false} InFlightUpdate(workers: seq<Worker>, w: nat, x: Worker)
    requires w < |workers|
    ensures InFlight(workers[w := x]) + (if workers[w].Running? then 1 else 0)
      == InFlight(workers) + (if x.Running? then 1 else 0)
  {
    var n := |workers| - 1;
    if w == n {
      assert workers[w := x][..n] == workers[..n];
    } else {
      assert workers[w := x][..n] == workers[..n][w := x];
      InFlightUpdate(workers[..n], w, x);
    }
  }

  /** How many events of the run settled a call that was in flight. */
  function Settlements<R>(limit: int, values: seq<R>, events: seq<Event>): nat {
    if events == [] then 0
    else
      var before, e := events[..|events| - 1], events[|events| - 1];
      var s := After(limit, values, before);
      Settlements(limit, values, before) + if e.worker < |s.workers| && s.workers[e.worker].Running? then 1 else 0
  }

  lemma {:induction false} SpawnedInFlight<R>(k: nat, values: seq<R>)
    ensures InFlight(Spawned<R>(k, |values|).workers) == |Spawned<R>(k, |values|).claimed|
  {
    if k > 0 {
      SpawnedInFlight<R>(k - 1, values);
      var s := Spawned<R>(k - 1, |values|);
      var ws := s.workers + [Finished];
      assert ws[..|ws| - 1] == s.workers;
      InFlightUpdate(ws, |ws| - 1, Running(s.nextIndex));
    }
  }

  /** Every call settles once: the calls settled and those in flight add up to the indices
      claimed, so a run settles at most one call per item. */
  lemma {:induction false} SettledOncePerItem<R>(limit: int, values: seq<R>, events: seq<Event>)
    ensures var s := After(limit, values, events);
      Settlements(limit, values, events) + InFlight(s.workers) == |s.claimed| <= |values|
  {
    EveryScheduleKeepsInv(limit, values, events);
    if events == [] {
      SpawnedInFlight<R>(WorkerCount(limit, |values|), values);
    } else {
      var before, e := events[..|events| - 1], events[|events| - 1];
      SettledOncePerItem(limit, values, before);
      EveryScheduleKeepsInv(limit, values, before);
      var s, t := After(limit, values, before), After(limit, values, events);
      if e.worker < |s.workers| && s.workers[e.worker].Running? {
        assert t.workers == s.workers[e.worker := t.workers[e.worker]];
        InFlightUpdate(s.workers, e.worker, t.workers[e.worker]);
      }
    }
  }

  /** The shared variables of one pool, with its results written in place. */
  class Pool<R> {
    const limit: int
    const values: seq<R>
    var nextIndex: nat
    var workers: seq<Worker>
    var claimed: seq<nat>
    const results: array<Option<R>>

    function Snap(): State<R>
      reads this, results
    {
      State(nextIndex, workers, results[..], claimed)
    }

    constructor (limit: int, values: seq<R>)
      ensures this.limit == limit && this.values == values && fresh(results)
      ensures Snap() == After(limit, values, [])
    {
      this.limit, this.values := limit, values;
      nextIndex, workers, claimed := 0, [], [];
      results := new Option<R>[|values|](_ => None);
      new;
      var count := WorkerCount(limit, |values|);
      for k := 0 to count
        invariant Snap() == Spawned(k, |values|) && results.Length == |values|
      {
        SpawnedInv<R>(k, values);
        workers := workers + [Finished];
        Enter(k);
      }
    }

    /** The head of a worker's loop. */
    method Enter(w: nat)
      requires w < |workers|
      modifies this
      ensures Snap() == Claim(old(Snap()), w, |values|)
    {
      if nextIndex < |values| {
        var index := nextIndex;
        nextIndex := nextIndex + 1;
        workers := workers[w := Running(index)];
        claimed := claimed + [index];
      } else {
        workers := workers[w := Finished];
      }
    }

    /** The mapper call of worker w resolves: its result is stored and the worker goes on. */
    method Resolve(w: nat, ghost past: seq<Event>)
      requires w < |workers| && workers[w].Running? && Snap() == After(limit, values, past)
      modifies this, results
      ensures Snap() == After(limit, values, past + [Resolves(w)])
    {
      EveryScheduleKeepsInv(limit, values, past);
      assert (past + [Resolves(w)])[..|past|] == past;
      var index := workers[w].index;
      ghost var s := Snap();
      assert s.results == results[..];
      results[index] := Some(values[index]);
      assert results[..] == s.results[index := Some(values[index])];
      Enter(w);
    }

    /** The mapper call of worker w rejects: the worker stops, the others go on. */
    method Reject(w: nat, ghost past: seq<Event>)
      requires w < |workers| && workers[w].Running? && Snap() == After(limit, values, past)
      modifies this
      ensures Snap() == After(limit, values, past + [Rejects(w)])
    {
      EveryScheduleKeepsInv(limit, values, past);
      assert (past + [Rejects(w)])[..|past|] == past;
      assert results.Length == |Snap().results| == |values|;
      workers := workers[w := Rejected(workers[w].index)];
    }
  }
}
