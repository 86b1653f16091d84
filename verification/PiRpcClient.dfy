/** The RPC client of the translation process: prompts run one at a time on a promise chain,
    and a reply carries no request id. */
module PiRpcClient {
  import opened Basics

  /** The payload of an `agent_end` line: an assistant text, or none to be found. */
  datatype Reply = Text(text: string) | NoText

  datatype Outcome = Resolved(text: string) | Failed

  datatype Pending = Pending(id: nat, responseReceived: bool)

  /** Calls are numbered in the order of `prompt`. Calls from `waitingFrom` on are still in
      the chain; `running` is the call whose promise is open. `poisoned` says that the chain
      has been rejected. `ended` logs the reply the process gave to each request. */
  datatype State = State(
    closed: bool,
    poisoned: bool,
    nextCall: nat,
    waitingFrom: nat,
    running: Option<nat>,
    requestCount: nat,
    pending: Option<Pending>,
    timers: set<nat>,
    heartbeats: set<nat>,
    requestOf: map<nat, nat>,
    outcomes: map<nat, Outcome>,
    ended: map<nat, Reply>)

  datatype Event =
    | Prompt
    | RunNext
    | Response(id: nat, success: bool)
    | AgentEnd(origin: nat, reply: Reply)
    | ProcessError
    | ProcessClose
    | TimerFires(id: nat)
    | WriteFails(id: nat)
    | Close

  function Init(): State {
    State(false, false, 0, 0, None, 0, None, {}, {}, map[], map[], map[])
  }

  /** The pending prompt's callback: its promise settles and its timers are cleared. */
  function Settled(s: State, outcome: Outcome): State {
    if s.pending.None? || s.running.None? then s
    else
      var id := s.pending.value.id;
      s.(pending := None, running := None, timers := s.timers - {id}, heartbeats := s.heartbeats - {id},
         poisoned := s.poisoned || outcome.Failed?, outcomes := s.outcomes[s.running.value := outcome])
  }

  /** The next callback of the chain runs once the promise before it has settled. A rejected
      chain passes its error on; a closed client refuses; else the prompt is written. */
  function RunNextCall(s: State): State {
    var c := s.waitingFrom;
    var taken := s.(waitingFrom := c + 1);
    if s.poisoned then taken.(outcomes := s.outcomes[c := Failed])
    else if s.closed then taken.(outcomes := s.outcomes[c := Failed], poisoned := true)
    else
      var id := s.requestCount + 1;
      taken.(running := Some(c), requestCount := id, pending := Some(Pending(id, false)),
             timers := s.timers + {id}, heartbeats := s.heartbeats + {id}, requestOf := s.requestOf[c := id])
  }

  predicate IsPending(s: State, id: nat) {
    s.pending.Some? && s.pending.value.id == id
  }

  /** A timer that is not armed does not fire, and the process answers a request it has
      received with at most one `agent_end`. */
  function Next(s: State, e: Event): State {
    match e
    case Prompt => s.(nextCall := s.nextCall + 1)
    case RunNext => if s.running.None? && s.waitingFrom < s.nextCall then RunNextCall(s) else s
    case Response(id, success) =>
      if !IsPending(s, id) then s
      else if success then s.(pending := Some(s.pending.value.(responseReceived := true)))
      else Settled(s, Failed)
    case AgentEnd(origin, reply) =>
      if !(1 <= origin <= s.requestCount) || origin in s.ended then s
      else
        var t := s.(ended := s.ended[origin := reply]);
        Settled(t, if reply.Text? then Resolved(reply.text) else Failed)
    case ProcessError => Settled(s, Failed)
    case ProcessClose => Settled(s.(closed := true), Failed)
    case TimerFires(id) =>
      if id !in s.timers then s
      else if IsPending(s, id) then Settled(s.(closed := true), Failed)
      else s.(timers := s.timers - {id})
    case WriteFails(id) =>
      if IsPending(s, id) then Settled(s, Failed)
      else s.(timers := s.timers - {id}, heartbeats := s.heartbeats - {id})
    case Close => s.(closed := true)
  }

  function After(events: seq<Event>): State {
    if events == [] then Init()
    else Next(After(events[..|events| - 1]), events[|events| - 1])
  }

  ghost predicate Inv(s: State) {
    && s.waitingFrom <= s.nextCall
    && CallsInv(s) && PendingInv(s) && RequestsInv(s) && RepliesInv(s)
  }

  /** Every call taken from the chain is open or has one outcome; after a failure every later
      outcome is a failure. */
  ghost predicate CallsInv(s: State) {
    && (forall c: nat :: c in s.outcomes <==> c < s.waitingFrom && s.running != Some(c))
    && (s.running.Some? ==> s.running.value + 1 == s.waitingFrom)
    && (forall c: nat :: c in s.outcomes && s.outcomes[c].Failed? ==> s.poisoned)
    && (forall c: nat, d: nat :: c < d && c in s.outcomes && d in s.outcomes && s.outcomes[c].Failed? ==>
          s.outcomes[d].Failed?)
  }

  /** A call is open exactly while its prompt is pending, with its two timers armed. */
  ghost predicate PendingInv(s: State) {
    && (s.running.Some? <==> s.pending.Some?)
    && (s.pending.Some? ==>
          && !s.poisoned
          && s.pending.value.id == s.requestCount
          && s.running.value in s.requestOf && s.requestOf[s.running.value] == s.requestCount
          && s.requestCount !in s.ended
          && s.timers == {s.requestCount} && s.heartbeats == {s.requestCount})
    && (s.pending.None? ==> s.timers == {} && s.heartbeats == {})
  }

  ghost predicate RequestsInv(s: State) {
    && (forall c :: c in s.requestOf ==> c < s.waitingFrom && 1 <= s.requestOf[c] <= s.requestCount)
    && (forall c, d :: c in s.requestOf && d in s.requestOf && c < d ==> s.requestOf[c] < s.requestOf[d])
    && (s.pending.Some? ==> s.requestCount >= 1)
  }

  /** While nothing has failed, the process owes a reply to the pending request only; and a
      resolved call holds the reply to its own request. */
  ghost predicate RepliesInv(s: State) {
    && (forall id :: id in s.ended ==> 1 <= id <= s.requestCount)
    && (!s.poisoned ==> forall id :: 1 <= id <= s.requestCount && !IsPending(s, id) ==> id in s.ended)
    && (forall c :: c in s.outcomes && s.outcomes[c].Resolved? ==>
          c in s.requestOf && s.requestOf[c] in s.ended && s.ended[s.requestOf[c]] == Text(s.outcomes[c].text))
  }

  lemma SettledInv(s: State, outcome: Outcome)
    requires Inv(s) && (outcome.Resolved? ==> s.pending.None?)
    ensures Inv(Settled(s, outcome))
  {
  }

  /** An `agent_end` that finds a prompt pending answers that prompt. */
  lemma AgentEndIsForPending(s: State, origin: nat)
    requires Inv(s) && s.pending.Some? && 1 <= origin <= s.requestCount && origin !in s.ended
    ensures IsPending(s, origin)
  {
  }

  lemma AgentEndInv(s: State, origin: nat, reply: Reply)
    requires Inv(s) && 1 <= origin <= s.requestCount && origin !in s.ended
    ensures Inv(Next(s, AgentEnd(origin, reply)))
  {
    if s.pending.Some? {
      AgentEndIsForPending(s, origin);
    }
  }

  lemma RunNextInv(s: State)
    requires Inv(s) && s.running.None? && s.waitingFrom < s.nextCall
    ensures Inv(RunNextCall(s))
  {
    hide CallsInv, PendingInv, RequestsInv, RepliesInv;
    RunNextCalls(s);
    RunNextPending(s);
    RunNextRequests(s);
    RunNextReplies(s);
  }

  lemma RunNextCalls(s: State)
    requires CallsInv(s) && PendingInv(s) && s.running.None?
    ensures CallsInv(RunNextCall(s))
  {
  }

  lemma RunNextPending(s: State)
    requires PendingInv(s) && RepliesInv(s) && s.running.None?
    ensures PendingInv(RunNextCall(s))
  {
  }

  lemma RunNextRequests(s: State)
    requires RequestsInv(s) && s.running.None?
    ensures RequestsInv(RunNextCall(s))
  {
  }

  lemma RunNextReplies(s: State)
    requires RepliesInv(s) && RequestsInv(s) && PendingInv(s) && CallsInv(s) && s.running.None?
    ensures RepliesInv(RunNextCall(s))
  {
  }

  lemma {:induction false} EveryRunKeepsInv(events: seq<Event>)
    ensures Inv(After(events))
  {
    if events != [] {
      var s, e := After(events[..|events| - 1]), events[|events| - 1];
      EveryRunKeepsInv(events[..|events| - 1]);
      StepInv(s, e);
    }
  }

  lemma StepInv(s: State, e: Event)
    requires Inv(s)
    ensures Inv(Next(s, e))
  {
    hide Inv, Settled, RunNextCall;
    match e {
      case Prompt => PlainInv(s, s.closed, s.nextCall + 1);
      case RunNext => if s.running.None? && s.waitingFrom < s.nextCall { RunNextInv(s); }
      case AgentEnd(origin, reply) =>
        if 1 <= origin <= s.requestCount && origin !in s.ended { AgentEndInv(s, origin, reply); }
      case Response(id, success) =>
        if IsPending(s, id) && success { ReceivedInv(s); } else { SettledInv(s, Failed); }
      case ProcessError => SettledInv(s, Failed);
      case WriteFails(id) => if IsPending(s, id) { SettledInv(s, Failed); } else { NotArmed(s, id); }
      case Close => PlainInv(s, true, s.nextCall);
      case ProcessClose =>
        PlainInv(s, true, s.nextCall);
        SettledInv(s.(closed := true), Failed);
      case TimerFires(id) =>
        PlainInv(s, true, s.nextCall);
        SettledInv(s.(closed := true), Failed);
        NotArmed(s, id);
    }
  }

  lemma PlainInv(s: State, closed: bool, nextCall: nat)
    requires Inv(s) && nextCall >= s.nextCall
    ensures Inv(s.(closed := closed, nextCall := nextCall))
  {
  }

  lemma ReceivedInv(s: State)
    requires Inv(s) && s.pending.Some?
    ensures Inv(s.(pending := Some(s.pending.value.(responseReceived := true))))
  {
  }

  lemma NotArmed(s: State, id: nat)
    requires Inv(s)
    ensures !IsPending(s, id) ==> s.timers - {id} == s.timers && s.heartbeats - {id} == s.heartbeats
  {
  }

  /** A reply never reaches the wrong prompt: a call that resolved holds the text the process
      gave to that call's own request, and no two calls share a request. */
  lemma RepliesReachTheirPrompt(events: seq<Event>, c: nat)
    requires c in After(events).outcomes && After(events).outcomes[c].Resolved?
    ensures var s := After(events);
      && c in s.requestOf && s.requestOf[c] in s.ended
      && s.ended[s.requestOf[c]] == Text(s.outcomes[c].text)
      && (forall d :: d in s.requestOf && d != c ==> s.requestOf[d] != s.requestOf[c])
  {
    EveryRunKeepsInv(events);
  }

  /** In every reachable state the timeout and the heartbeat of the pending prompt are the
      only armed timers, and there is one open call at most: the pending one. */
  lemma TimersBelongToPending(events: seq<Event>)
    ensures var s := After(events);
      && s.timers == s.heartbeats
      && s.timers == (if s.pending.Some? then {s.pending.value.id} else {})
      && (forall c: nat :: c < s.waitingFrom && c !in s.outcomes <==> s.pending.Some? && s.running == Some(c))
  {
    EveryRunKeepsInv(events);
  }

  /** Outcomes come in call order: successes first, then only failures. */
  lemma FailuresAreFinal(events: seq<Event>, c: nat, d: nat)
    requires c < d && c in After(events).outcomes && d in After(events).outcomes
    requires After(events).outcomes[c].Failed?
    ensures After(events).outcomes[d].Failed?
  {
    EveryRunKeepsInv(events);
  }

  /** Whatever happens later, outcomes stay as they are, and once a call has failed no
      further prompt is sent. */
  lemma LaterRun(events: seq<Event>, more: seq<Event>)
    ensures var s, t := After(events), After(events + more);
      && (forall c :: c in s.outcomes ==> c in t.outcomes && t.outcomes[c] == s.outcomes[c])
      && ((exists c :: c in s.outcomes && s.outcomes[c].Failed?) ==> t.requestCount == s.requestCount)
    decreases |more|
  {
    EveryRunKeepsInv(events);
    LaterRunFrom(events, more);
  }

  lemma {:induction false} LaterRunFrom(events: seq<Event>, more: seq<Event>)
    ensures var s, t := After(events), After(events + more);
      && (forall c :: c in s.outcomes ==> c in t.outcomes && t.outcomes[c] == s.outcomes[c])
      && (s.poisoned ==> t.poisoned && t.requestCount == s.requestCount)
    decreases |more|
  {
    if more == [] {
      assert events + more == events;
    } else {
      var n := |more| - 1;
      LaterRunFrom(events, more[..n]);
      assert (events + more)[..|events + more| - 1] == events + more[..n];
      EveryRunKeepsInv(events + more[..n]);
      StepKeepsOutcomes(After(events + more[..n]), more[n]);
    }
  }

  lemma StepKeepsOutcomes(s: State, e: Event)
    requires Inv(s)
    ensures forall c :: c in s.outcomes ==> c in Next(s, e).outcomes && Next(s, e).outcomes[c] == s.outcomes[c]
    ensures s.poisoned ==> Next(s, e).poisoned && Next(s, e).requestCount == s.requestCount
  {
    assert s.running.Some? ==> s.running.value !in s.outcomes;
    assert s.waitingFrom !in s.outcomes;
  }

  // ---- what each event does to the open call ----

  /** How an event ends the pending prompt, if it does. */
  ghost predicate Ends(s: State, e: Event, outcome: Outcome)
    requires s.pending.Some?
  {
    var id := s.pending.value.id;
    || (e == Response(id, false) && outcome == Failed)
    || ((e == TimerFires(id) || e == WriteFails(id) || e == ProcessError || e == ProcessClose) && outcome == Failed)
    || (exists reply :: e == AgentEnd(id, reply)
          && outcome == (if reply.Text? then Resolved(reply.text) else Failed))
  }

  /** The open call ends exactly by a failed response to its request, its timeout, its write
      error, the end or an error of the process, or its reply; and with that outcome. */
  lemma OpenCallEndsIff(events: seq<Event>, e: Event, outcome: Outcome)
    requires After(events).pending.Some?
    ensures var s, t := After(events), After(events + [e]);
      && s.running.Some?
      && (s.running.value in t.outcomes && t.outcomes[s.running.value] == outcome <==> Ends(s, e, outcome))
      && (t.pending.Some? <==> s.running.value !in t.outcomes)
  {
    EveryRunKeepsInv(events);
    var s := After(events);
    assert (events + [e])[..|events|] == events;
    assert After(events + [e]) == Next(s, e);
    hide Inv, After, Next, Ends;
    StepEnds(s, e, outcome);
  }

  lemma StepEnds(s: State, e: Event, outcome: Outcome)
    requires Inv(s) && s.pending.Some?
    ensures var t := Next(s, e);
      && s.running.Some?
      && (s.running.value in t.outcomes && t.outcomes[s.running.value] == outcome <==> Ends(s, e, outcome))
      && (t.pending.Some? <==> s.running.value !in t.outcomes)
  {
    PendingFacts(s);
    if e.AgentEnd? {
      OnlyPendingUnended(s, e.origin);
    }
    hide Inv;
  }

  lemma PendingFacts(s: State)
    requires Inv(s) && s.pending.Some?
    ensures s.running.Some? && s.running.value !in s.outcomes && s.waitingFrom != s.running.value
    ensures s.timers == {s.pending.value.id} && s.pending.value.id == s.requestCount >= 1
    ensures s.pending.value.id !in s.ended
  {
  }

  lemma OnlyPendingUnended(s: State, origin: nat)
    requires Inv(s) && s.pending.Some?
    ensures 1 <= origin <= s.requestCount && origin !in s.ended <==> origin == s.pending.value.id
  {
  }

  /** With nothing pending, only the next call's turn can give a call an outcome. */
  lemma IdleEndsNothing(events: seq<Event>, e: Event)
    requires After(events).pending.None? && !e.RunNext?
    ensures After(events + [e]).outcomes == After(events).outcomes
    ensures After(events + [e]).requestCount == After(events).requestCount && After(events + [e]).pending.None?
  {
    EveryRunKeepsInv(events);
    assert (events + [e])[..|events|] == events;
  }

  function PromptCount(events: seq<Event>): nat {
    if events == [] then 0
    else PromptCount(events[..|events| - 1]) + if events[|events| - 1].Prompt? then 1 else 0
  }

  /** Every prompt asked for is a call of the chain. */
  lemma {:induction false} CallsArePrompts(events: seq<Event>)
    ensures After(events).nextCall == PromptCount(events)
  {
    if events != [] {
      CallsArePrompts(events[..|events| - 1]);
    }
  }

  // ---- closing ----

  /** Event k closes the client: `close`, the end of the process, or the timeout of the
      prompt that is pending then. */
  ghost predicate Closes(events: seq<Event>, k: nat)
    requires k < |events|
  {
    || events[k] == Close || events[k] == ProcessClose
    || (events[k].TimerFires? && IsPending(After(events[..k]), events[k].id))
  }

  lemma {:induction false} ClosedIff(events: seq<Event>)
    ensures After(events).closed <==> exists k :: 0 <= k < |events| && Closes(events, k)
  {
    if events != [] {
      var n := |events| - 1;
      var before := events[..n];
      ClosedIff(before);
      EveryRunKeepsInv(before);
      StepCloses(After(before), events[n]);
      assert forall k :: 0 <= k < n ==> before[..k] == events[..k] && before[k] == events[k];
      assert forall k :: 0 <= k < n ==> (Closes(before, k) <==> Closes(events, k));
      assert Closes(events, n) <==> CloseStep(After(before), events[n]);
      hide After, Closes;
    }
  }

  predicate CloseStep(s: State, e: Event) {
    e == Close || e == ProcessClose || (e.TimerFires? && IsPending(s, e.id))
  }

  lemma StepCloses(s: State, e: Event)
    requires Inv(s)
    ensures Next(s, e).closed <==> s.closed || CloseStep(s, e)
  {
    if s.pending.Some? {
      PendingFacts(s);
    }
    hide Inv;
  }

  /** A call has failed exactly when the chain is rejected. */
  lemma {:induction false} PoisonedIff(events: seq<Event>)
    ensures After(events).poisoned <==> exists c :: c in After(events).outcomes && After(events).outcomes[c].Failed?
  {
    if events != [] {
      var before := events[..|events| - 1];
      PoisonedIff(before);
      EveryRunKeepsInv(before);
      StepPoisons(After(before), events[|events| - 1]);
      hide After;
    }
  }

  ghost predicate SomeFailed(s: State) {
    exists c :: c in s.outcomes && s.outcomes[c].Failed?
  }

  lemma StepPoisons(s: State, e: Event)
    requires Inv(s) && (s.poisoned <==> SomeFailed(s))
    ensures Next(s, e).poisoned <==> SomeFailed(Next(s, e))
  {
    var t := Next(s, e);
    var c, o, changed := StepOutcomes(s, e);
    hide Inv, Next;
    if changed {
      OneMoreFailed(s.outcomes, c, o);
    }
  }

  lemma OneMoreFailed(outcomes: map<nat, Outcome>, c: nat, o: Outcome)
    requires c !in outcomes
    ensures var more := outcomes[c := o];
      (exists d :: d in more && more[d].Failed?) <==> o.Failed? || exists d :: d in outcomes && outcomes[d].Failed?
  {
    var more := outcomes[c := o];
    assert forall d :: d in outcomes ==> d in more && more[d] == outcomes[d];
    assert c in more && more[c] == o;
  }

  /** A step adds at most one outcome: the open call's, or the next call's. */
  lemma StepOutcomes(s: State, e: Event) returns (c: nat, o: Outcome, changed: bool)
    requires Inv(s)
    ensures c !in s.outcomes
    ensures Next(s, e).outcomes == if changed then s.outcomes[c := o] else s.outcomes
    ensures Next(s, e).poisoned == (s.poisoned || (changed && o.Failed?))
  {
    hide Inv, Settled, RunNextCall;
    CallFacts(s);
    c := if s.running.Some? then s.running.value else s.waitingFrom;
    o, changed := Failed, false;
    match e {
      case RunNext =>
        if s.running.None? && s.waitingFrom < s.nextCall {
          RunNextOutcome(s);
          changed := s.poisoned || s.closed;
        }
      case Response(id, success) =>
        if IsPending(s, id) && !success {
          SettledOutcome(s, Failed);
          changed := true;
        }
      case AgentEnd(origin, reply) =>
        if 1 <= origin <= s.requestCount && origin !in s.ended {
          o := if reply.Text? then Resolved(reply.text) else Failed;
          SettledOutcome(s.(ended := s.ended[origin := reply]), o);
          changed := s.running.Some?;
        }
      case ProcessError =>
        SettledOutcome(s, Failed);
        changed := s.running.Some?;
      case ProcessClose =>
        SettledOutcome(s.(closed := true), Failed);
        changed := s.running.Some?;
      case TimerFires(id) =>
        if id in s.timers && IsPending(s, id) {
          SettledOutcome(s.(closed := true), Failed);
          changed := true;
        }
      case WriteFails(id) =>
        if IsPending(s, id) {
          SettledOutcome(s, Failed);
          changed := true;
        }
      case _ =>
    }
  }

  lemma CallFacts(s: State)
    requires Inv(s)
    ensures s.running.Some? <==> s.pending.Some?
    ensures s.running.Some? ==> s.running.value !in s.outcomes
    ensures s.waitingFrom !in s.outcomes
  {
  }

  lemma SettledOutcome(s: State, o: Outcome)
    requires s.running.Some? <==> s.pending.Some?
    requires s.running.Some? ==> s.running.value !in s.outcomes
    ensures var t := Settled(s, o);
      if s.running.Some? then
        t.outcomes == s.outcomes[s.running.value := o] && t.poisoned == (s.poisoned || o.Failed?)
      else t.outcomes == s.outcomes && t.poisoned == s.poisoned
  {
  }

  lemma RunNextOutcome(s: State)
    requires s.waitingFrom !in s.outcomes
    ensures var t := RunNextCall(s);
      if s.poisoned || s.closed then t.outcomes == s.outcomes[s.waitingFrom := Failed] && t.poisoned
      else t.outcomes == s.outcomes && t.poisoned == s.poisoned
  {
  }

  /** Once a run has closed the client, no continuation sends a prompt, and every call whose
      turn comes afterwards fails. */
  lemma ClosedSendsNothing(events: seq<Event>, more: seq<Event>)
    requires exists k :: 0 <= k < |events| && Closes(events, k)
    ensures var s, t := After(events), After(events + more);
      && t.closed && t.requestCount == s.requestCount && t.requestOf == s.requestOf
      && (forall c :: s.waitingFrom <= c < t.waitingFrom ==> c in t.outcomes && t.outcomes[c] == Failed)
  {
    ClosedIff(events);
    ClosedStaysSilent(events, more);
  }

  ghost predicate Silent(s: State, t: State) {
    && t.closed && t.requestCount == s.requestCount && t.requestOf == s.requestOf
    && s.waitingFrom <= t.waitingFrom
    && (forall c :: s.waitingFrom <= c < t.waitingFrom ==> c in t.outcomes && t.outcomes[c] == Failed)
  }

  lemma {:induction false} ClosedStaysSilent(events: seq<Event>, more: seq<Event>)
    requires After(events).closed
    ensures Silent(After(events), After(events + more))
    decreases |more|
  {
    hide Next, Inv;
    if more == [] {
      assert events + more == events;
    } else {
      var n := |more| - 1;
      ClosedStaysSilent(events, more[..n]);
      assert (events + more)[..|events + more| - 1] == events + more[..n];
      var s, e := After(events + more[..n]), more[n];
      EveryRunKeepsInv(events + more[..n]);
      assert After(events + more) == Next(s, e);
      hide After, Silent;
      SilentStep(After(events), s, e);
    }
  }

  lemma SilentStep(a: State, s: State, e: Event)
    requires Inv(s) && Silent(a, s)
    ensures Silent(a, Next(s, e))
  {
    ClosedStep(s, e);
    StepKeepsOutcomes(s, e);
    hide Next, Inv;
  }

  lemma ClosedStep(s: State, e: Event)
    requires Inv(s) && s.closed
    ensures var t := Next(s, e);
      && t.closed && t.requestCount == s.requestCount && t.requestOf == s.requestOf
      && s.waitingFrom <= t.waitingFrom <= s.waitingFrom + 1
      && (t.waitingFrom > s.waitingFrom ==> s.waitingFrom in t.outcomes && t.outcomes[s.waitingFrom] == Failed)
  {
    RunningIffPending(s);
    hide Inv;
  }

  /** As long as nothing has closed the client and no call has failed, the next waiting call
      is sent, as the next request, with its two timers; with a failure or a closed client
      it fails instead. */
  lemma NextCallIsSentIff(events: seq<Event>)
    requires After(events).running.None? && After(events).waitingFrom < After(events).nextCall
    ensures var s, t := After(events), After(events + [RunNext]);
      var c := s.waitingFrom;
      && t.waitingFrom == c + 1
      && (if (exists k :: 0 <= k < |events| && Closes(events, k))
             || (exists d :: d in s.outcomes && s.outcomes[d].Failed?) then
            && t.outcomes == s.outcomes[c := Failed] && t.running.None?
            && t.requestCount == s.requestCount && t.requestOf == s.requestOf && t.pending.None?
          else
            && t.running == Some(c) && t.pending == Some(Pending(s.requestCount + 1, false))
            && t.requestCount == s.requestCount + 1 && t.requestOf == s.requestOf[c := s.requestCount + 1]
            && t.timers == {s.requestCount + 1} && t.heartbeats == {s.requestCount + 1}
            && t.outcomes == s.outcomes)
  {
    ClosedIff(events);
    PoisonedIff(events);
    EveryRunKeepsInv(events);
    var s := After(events);
    assert (events + [RunNext])[..|events|] == events;
    assert s.pending.None? && s.timers == {} && s.heartbeats == {};
    hide Inv, Closes;
  }

  lemma RunningIffPending(s: State)
    requires Inv(s)
    ensures s.running.Some? <==> s.pending.Some?
  {
  }

  /** The fields of the client, the callbacks waiting in its chain, and what they led to. */
  class Client {
    var closed: bool
    var poisoned: bool
    var nextCall: nat
    var waitingFrom: nat
    var running: Option<nat>
    var requestCount: nat
    var pending: Option<Pending>
    var timers: set<nat>
    var heartbeats: set<nat>
    var requestOf: map<nat, nat>
    var outcomes: map<nat, Outcome>
    var ended: map<nat, Reply>

    function Snap(): State
      reads this
    {
      State(closed, poisoned, nextCall, waitingFrom, running, requestCount, pending, timers, heartbeats,
            requestOf, outcomes, ended)
    }

    constructor ()
      ensures Snap() == After([])
    {
      closed, poisoned, nextCall, waitingFrom := false, false, 0, 0;
      running, requestCount, pending := None, 0, None;
      timers, heartbeats, requestOf, outcomes, ended := {}, {}, map[], map[], map[];
    }

    /** The prompt's promise settles. */
    method SettleRunning(outcome: Outcome)
      requires running.Some?
      modifies `running, `poisoned, `outcomes
      ensures running == None && poisoned == (old(poisoned) || outcome.Failed?)
      ensures outcomes == old(outcomes)[old(running.value) := outcome]
    {
      outcomes := outcomes[running.value := outcome];
      poisoned := poisoned || outcome.Failed?;
      running := None;
    }

    /** The reject and resolve callbacks kept in `pending`. */
    method SettlePending(outcome: Outcome)
      requires running.Some? <==> pending.Some?
      modifies this
      ensures Snap() == Settled(old(Snap()), outcome)
    {
      if pending.None? {
        return;
      }
      var id := pending.value.id;
      pending := None;
      timers := timers - {id};
      heartbeats := heartbeats - {id};
      SettleRunning(outcome);
    }

    method StartNext()
      requires running.None? && waitingFrom < nextCall
      modifies this
      ensures Snap() == RunNextCall(old(Snap()))
    {
      var call := waitingFrom;
      waitingFrom := waitingFrom + 1;
      if poisoned {
        outcomes := outcomes[call := Failed];
        return;
      }
      if closed {
        outcomes := outcomes[call := Failed];
        poisoned := true;
        return;
      }
      requestCount := requestCount + 1;
      var id := requestCount;
      heartbeats := heartbeats + {id};
      timers := timers + {id};
      pending := Some(Pending(id, false));
      running := Some(call);
      requestOf := requestOf[call := id];
    }

    method OnResponse(id: nat, success: bool)
      requires Inv(Snap())
      modifies this
      ensures Snap() == Next(old(Snap()), Response(id, success))
    {
      if pending.None? || pending.value.id != id {
        return;
      }
      if !success {
        SettlePending(Failed);
        return;
      }
      pending := Some(Pending(id, true));
    }

    method OnTimer(id: nat)
      requires Inv(Snap()) && id in timers
      modifies this
      ensures Snap() == Next(old(Snap()), TimerFires(id))
    {
      RunningIffPending(Snap());
      hide Inv;
      timers := timers - {id};
      if pending.Some? && pending.value.id == id {
        pending := None;
        heartbeats := heartbeats - {id};
        closed := true;
        SettleRunning(Failed);
      }
    }

    method OnWriteError(id: nat)
      requires Inv(Snap())
      modifies this
      ensures Snap() == Next(old(Snap()), WriteFails(id))
    {
      timers := timers - {id};
      heartbeats := heartbeats - {id};
      if pending.Some? && pending.value.id == id {
        pending := None;
        SettleRunning(Failed);
      }
    }

    /** The handler of an `agent_end` line never looks at a request id. */
    method OnAgentEnd(origin: nat, reply: Reply)
      requires running.Some? <==> pending.Some?
      requires 1 <= origin <= requestCount && origin !in ended
      modifies this
      ensures Snap() == Next(old(Snap()), AgentEnd(origin, reply))
    {
      ended := ended[origin := reply];
      match reply {
        case Text(text) => SettlePending(Resolved(text));
        case NoText => SettlePending(Failed);
      }
    }

    method OnProcessClose()
      requires running.Some? <==> pending.Some?
      modifies this
      ensures Snap() == Next(old(Snap()), ProcessClose)
    {
      closed := true;
      SettlePending(Failed);
    }

    method OnProcessError()
      requires running.Some? <==> pending.Some?
      modifies this
      ensures Snap() == Next(old(Snap()), ProcessError)
    {
      SettlePending(Failed);
    }

    /** Delivers one event to the client. */
    method Deliver(e: Event, ghost past: seq<Event>)
      requires Snap() == After(past)
      modifies this
      ensures Snap() == After(past + [e])
    {
      assert (past + [e])[..|past|] == past;
      EveryRunKeepsInv(past);
      RunningIffPending(Snap());
      assert After(past + [e]) == Next(Snap(), e);
      hide Inv, After, Settled, RunNextCall;
      match e {
        case Prompt => nextCall := nextCall + 1;
        case RunNext => if running.None? && waitingFrom < nextCall { StartNext(); }
        case Response(id, success) => OnResponse(id, success);
        case AgentEnd(origin, reply) =>
          if 1 <= origin <= requestCount && origin !in ended { OnAgentEnd(origin, reply); }
        case ProcessError => OnProcessError();
        case ProcessClose => OnProcessClose();
        case TimerFires(id) => if id in timers { OnTimer(id); }
        case WriteFails(id) => OnWriteError(id);
        case Close => closed := true;
      }
    }
  }
}
