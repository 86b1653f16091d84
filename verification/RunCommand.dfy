/** The child-process supervisor: two output streams, a timeout, a kill-wait timer, and a
    promise that must settle once. */
module RunCommand {
  import opened Basics

  datatype Outcome =
    | Resolved(exitCode: int, stdout: string, stderr: string)
    | ChildErrored
    | TimedOut
    | NotKilled
    | CommandFailed(exitCode: int)

  /** What the environment may deliver. `TimeoutFires` says whether the kill it asks for makes
      the child report an error before the kill request returns. */
  datatype Event =
    | Stdout(text: string)
    | Stderr(text: string)
    | TimeoutFires(killErrors: bool)
    | KillWaitFires
    | ChildError
    | Close(exitCode: Option<int>)

  datatype Options = Options(hasTimeout: bool, check: bool)

  datatype State = State(
    stdout: string,
    stderr: string,
    timedOut: bool,
    settled: bool,
    timer: bool,
    killWaitTimer: bool,
    outcome: Option<Outcome>,
    settlements: nat,
    lateWrites: nat)

  function Init(o: Options): State {
    State("", "", false, false, o.hasTimeout, false, None, 0, 0)
  }

  /** `finalize`: the first caller settles the promise and clears both timers. */
  function Finalized(s: State, outcome: Outcome): State {
    if s.settled then s
    else s.(settled := true, timer := false, killWaitTimer := false,
            outcome := Some(outcome), settlements := s.settlements + 1)
  }

  /** A write to the log; the log has been ended once the promise has settled. */
  function Logged(s: State): State {
    if s.settled then s.(lateWrites := s.lateWrites + 1) else s
  }

  function CloseOutcome(s: State, o: Options, exitCode: Option<int>): Outcome {
    var code := if exitCode.Some? then exitCode.value else 1;
    if s.timedOut then TimedOut
    else if o.check && code != 0 then CommandFailed(code)
    else Resolved(code, s.stdout, s.stderr)
  }

  /** A timer that is not armed does not fire. */
  function Next(s: State, o: Options, e: Event): State {
    match e
    case Stdout(text) => Logged(s.(stdout := s.stdout + text))
    case Stderr(text) => Logged(s.(stderr := s.stderr + text))
    case TimeoutFires(killErrors) =>
      if !s.timer then s
      else
        var fired := Logged(s.(timer := false, timedOut := true));
        var asked := if killErrors then Finalized(fired, ChildErrored) else fired;
        asked.(killWaitTimer := true)
    case KillWaitFires =>
      if !s.killWaitTimer then s else Finalized(s.(killWaitTimer := false), NotKilled)
    case ChildError => Finalized(s, ChildErrored)
    case Close(exitCode) => Finalized(s, CloseOutcome(s, o, exitCode))
  }

  /** The state after a run of events, in order. */
  function After(o: Options, events: seq<Event>): State {
    if events == [] then Init(o)
    else Next(After(o, events[..|events| - 1]), o, events[|events| - 1])
  }

  function Chunks(events: seq<Event>): (r: (string, string)) {
    if events == [] then ("", "")
    else
      var (out, err) := Chunks(events[..|events| - 1]);
      match events[|events| - 1]
      case Stdout(text) => (out + text, err)
      case Stderr(text) => (out, err + text)
      case _ => (out, err)
  }

  /** A chunk goes to the end of its own stream. */
  lemma ChunksGrow(events: seq<Event>, text: string)
    ensures Chunks(events + [Stdout(text)]) == (Chunks(events).0 + text, Chunks(events).1)
    ensures Chunks(events + [Stderr(text)]) == (Chunks(events).0, Chunks(events).1 + text)
  {
    assert (events + [Stdout(text)])[..|events|] == events && (events + [Stderr(text)])[..|events|] == events;
  }

  lemma {:induction false} OutputIsConcatenation(o: Options, events: seq<Event>)
    ensures (After(o, events).stdout, After(o, events).stderr) == Chunks(events)
  {
    if events != [] {
      OutputIsConcatenation(o, events[..|events| - 1]);
    }
  }

  /** The promise settles at most once, and `settled` says whether it has. */
  lemma {:induction false} SettlesAtMostOnce(o: Options, events: seq<Event>)
    ensures After(o, events).settlements == (if After(o, events).settled then 1 else 0)
    ensures After(o, events).settled <==> After(o, events).outcome.Some?
  {
    if events != [] {
      var before := events[..|events| - 1];
      SettlesAtMostOnce(o, before);
      StepSettlesOnce(After(o, before), o, events[|events| - 1]);
      hide Next;
    }
  }

  ghost predicate SettledOnce(s: State) {
    s.settlements == (if s.settled then 1 else 0) && (s.settled <==> s.outcome.Some?)
  }

  lemma StepSettlesOnce(s: State, o: Options, e: Event)
    requires SettledOnce(s)
    ensures SettledOnce(Next(s, o, e))
    ensures s.settled ==> Next(s, o, e).settled && Next(s, o, e).outcome == s.outcome
  {
  }

  /** The first k events of a run determine its outcome once they contain the settling one. */
  lemma {:induction false} OutcomeNeverChanges(o: Options, events: seq<Event>, k: nat)
    requires k <= |events| && After(o, events[..k]).settled
    ensures After(o, events).settled && After(o, events).outcome == After(o, events[..k]).outcome
  {
    if k == |events| {
      assert events[..k] == events;
    } else {
      var before := events[..|events| - 1];
      assert before[..k] == events[..k];
      OutcomeNeverChanges(o, before, k);
      SettlesAtMostOnce(o, before);
      StepSettlesOnce(After(o, before), o, events[|events| - 1]);
      hide Next;
    }
  }

  /** Once the timeout has fired on an unsettled command, it can only reject. */
  lemma {:induction false} TimedOutNeverResolves(o: Options, events: seq<Event>)
    ensures After(o, events).outcome.Some? && After(o, events).outcome.value.Resolved?
      ==> forall k :: 0 <= k <= |events| ==> !After(o, events[..k]).timedOut
  {
    if events == [] {
      assert forall k :: 0 <= k <= |events| ==> events[..k] == [];
    } else {
      var before := events[..|events| - 1];
      TimedOutNeverResolves(o, before);
      TimerNeedsUnsettled(o, before);
      SettlesAtMostOnce(o, before);
      TimedOutStays(o, before);
      forall k | 0 <= k <= |events| && After(o, events).outcome.Some? && After(o, events).outcome.value.Resolved?
        ensures !After(o, events[..k]).timedOut
      {
        if k == |events| {
          assert events[..k] == events;
          assert before[..|before|] == before;
        } else {
          assert before[..k] == events[..k];
        }
      }
    }
  }

  lemma {:induction false} TimedOutStays(o: Options, events: seq<Event>)
    ensures forall k :: 0 <= k <= |events| && After(o, events[..k]).timedOut ==> After(o, events).timedOut
  {
    if events == [] {
      assert forall k :: 0 <= k <= |events| ==> events[..k] == [];
    } else {
      var before := events[..|events| - 1];
      TimedOutStays(o, before);
      forall k | 0 <= k <= |events| && After(o, events[..k]).timedOut
        ensures After(o, events).timedOut
      {
        if k == |events| {
          assert events[..k] == events;
        } else {
          assert before[..k] == events[..k];
        }
      }
    }
  }

  /** A settled command has no armed timeout. */
  lemma {:induction false} TimerNeedsUnsettled(o: Options, events: seq<Event>)
    ensures After(o, events).timer ==> !After(o, events).settled && !After(o, events).timedOut && o.hasTimeout
    ensures After(o, events).killWaitTimer ==> After(o, events).timedOut
  {
    if events != [] {
      TimerNeedsUnsettled(o, events[..|events| - 1]);
    }
  }

  // ---- the outcome, from the events alone ----

  /** The timeout has fired. */
  ghost predicate Fired(o: Options, events: seq<Event>) {
    o.hasTimeout && exists i :: 0 <= i < |events| && events[i].TimeoutFires?
  }

  /** What event e makes of a command that nothing has settled before it: a close reports the
      timeout if it has fired, else a failing exit code when that is checked, else the
      output; an error of the child, or of the kill that the first timeout asks for, is
      reported as such; and the kill-wait timer gives up on a command that has timed out. */
  ghost function Settles(o: Options, before: seq<Event>, e: Event): Option<Outcome> {
    match e
    case Close(exitCode) =>
      var code := if exitCode.Some? then exitCode.value else 1;
      Some(if Fired(o, before) then TimedOut
           else if o.check && code != 0 then CommandFailed(code)
           else Resolved(code, Chunks(before).0, Chunks(before).1))
    case ChildError => Some(ChildErrored)
    case TimeoutFires(killErrors) =>
      if o.hasTimeout && !Fired(o, before) && killErrors then Some(ChildErrored) else None
    case KillWaitFires => if Fired(o, before) then Some(NotKilled) else None
    case _ => None
  }

  /** Nothing before event k settles the command. */
  ghost predicate Unsettled(o: Options, events: seq<Event>, k: nat)
    requires k <= |events|
  {
    forall i :: 0 <= i < k ==> Settles(o, events[..i], events[i]).None?
  }

  /** The command is unsettled exactly while no event has settled it, and then its timers are
      armed as the timeout has or has not fired. */
  lemma {:induction false} UnsettledIff(o: Options, events: seq<Event>)
    ensures !After(o, events).settled <==> Unsettled(o, events, |events|)
    ensures !After(o, events).settled ==>
      && After(o, events).timedOut == Fired(o, events)
      && After(o, events).timer == (o.hasTimeout && !Fired(o, events))
      && After(o, events).killWaitTimer == Fired(o, events)
  {
    if events != [] {
      var before, e := events[..|events| - 1], events[|events| - 1];
      UnsettledIff(o, before);
      FiredSnoc(o, events);
      UnsettledSnoc(o, events);
      hide Fired, Unsettled, Chunks;
    }
  }

  lemma FiredSnoc(o: Options, events: seq<Event>)
    requires events != []
    ensures var n := |events| - 1;
      Fired(o, events) <==> Fired(o, events[..n]) || (o.hasTimeout && events[n].TimeoutFires?)
  {
    var n := |events| - 1;
    assert forall i :: 0 <= i < n ==> events[..n][i] == events[i];
  }

  lemma UnsettledSnoc(o: Options, events: seq<Event>)
    requires events != []
    ensures var n := |events| - 1;
      Unsettled(o, events, |events|) <==> Unsettled(o, events[..n], n) && Settles(o, events[..n], events[n]).None?
  {
    hide Settles;
    var n := |events| - 1;
    var before := events[..n];
    assert forall i :: 0 <= i < n ==> before[i] == events[i] && before[..i] == events[..i];
    assert Unsettled(o, events, |events|) ==> Settles(o, events[..n], events[n]).None?;
  }

  /** In every event order the first event that settles decides the outcome, and without one
      there is none. */
  lemma OutcomeIsFirstSettling(o: Options, events: seq<Event>, k: nat)
    requires k < |events| && Unsettled(o, events, k) && Settles(o, events[..k], events[k]).Some?
    ensures After(o, events).outcome == Settles(o, events[..k], events[k])
  {
    var upTo := events[..k + 1];
    assert upTo[..k] == events[..k] && upTo[k] == events[k];
    assert Unsettled(o, events[..k], k) by {
      assert forall i :: 0 <= i < k ==> events[..k][i] == events[i] && events[..k][..i] == events[..i];
    }
    UnsettledIff(o, events[..k]);
    OutputIsConcatenation(o, events[..k]);
    SettlesAtMostOnce(o, events[..k]);
    assert upTo[..|upTo| - 1] == events[..k];
    assert After(o, upTo) == Next(After(o, events[..k]), o, events[k]);
    SettlingStep(o, events[..k], events[k]);
    hide Unsettled, Settles, Next, Fired, Chunks;
    OutcomeNeverChanges(o, events, k + 1);
  }

  lemma SettlingStep(o: Options, before: seq<Event>, e: Event)
    requires !After(o, before).settled && Settles(o, before, e).Some?
    ensures var t := Next(After(o, before), o, e); t.settled && t.outcome == Settles(o, before, e)
  {
    UnsettledIff(o, before);
    OutputIsConcatenation(o, before);
    hide Fired, Chunks, Unsettled, After;
  }

  lemma NoneSettlingNoOutcome(o: Options, events: seq<Event>)
    ensures After(o, events).outcome.None? <==> Unsettled(o, events, |events|)
  {
    UnsettledIff(o, events);
    SettlesAtMostOnce(o, events);
  }

  /** The timeout fired and its kill reported an error on the spot, and the kill-wait timer
      that was armed after that has not run yet. */
  ghost predicate LeftArmed(o: Options, events: seq<Event>) {
    exists i :: 0 <= i < |events| && ErrorsOnKill(o, events, i)
      && forall j :: i < j < |events| ==> events[j] != KillWaitFires
  }

  ghost predicate ErrorsOnKill(o: Options, events: seq<Event>, i: nat)
    requires i < |events|
  {
    events[i] == TimeoutFires(true) && After(o, events[..i]).timer
  }

  lemma LeftArmedStep(o: Options, before: seq<Event>, e: Event)
    ensures LeftArmed(o, before + [e])
      <==> (e == TimeoutFires(true) && After(o, before).timer) || (LeftArmed(o, before) && e != KillWaitFires)
  {
    var events := before + [e];
    var n := |before|;
    assert events[..n] == before;
    assert forall i :: 0 <= i < n ==> events[..i] == before[..i];
    if LeftArmed(o, events) {
      var i :| 0 <= i < |events| && ErrorsOnKill(o, events, i)
        && forall j :: i < j < |events| ==> events[j] != KillWaitFires;
      if i < n {
        assert ErrorsOnKill(o, before, i);
        assert events[n] != KillWaitFires;
        assert forall j :: i < j < n ==> events[j] == before[j];
      }
    }
    if e == TimeoutFires(true) && After(o, before).timer {
      assert ErrorsOnKill(o, events, n);
    }
    if LeftArmed(o, before) && e != KillWaitFires {
      var i :| 0 <= i < n && ErrorsOnKill(o, before, i)
        && forall j :: i < j < n ==> before[j] != KillWaitFires;
      assert ErrorsOnKill(o, events, i);
      assert forall j :: i < j < |events| ==> events[j] == if j < n then before[j] else e;
    }
  }

  /** A timer stays armed after settling exactly when the timeout's kill made the child report
      an error on the spot and the kill-wait timer armed after that has not run yet. */
  lemma {:induction false} ArmedAfterSettlingIff(o: Options, events: seq<Event>)
    ensures After(o, events).settled
      ==> (After(o, events).timer || After(o, events).killWaitTimer <==> LeftArmed(o, events))
    ensures !After(o, events).settled ==> !LeftArmed(o, events)
  {
    if events != [] {
      var before, e := events[..|events| - 1], events[|events| - 1];
      assert events == before + [e];
      ArmedAfterSettlingIff(o, before);
      LeftArmedStep(o, before, e);
      TimerNeedsUnsettled(o, before);
      TimerNeedsUnsettled(o, events);
    }
  }

  /** One event suffices to leave the kill-wait timer armed behind a settled promise. */
  lemma KillErrorLeavesTimerArmed()
    ensures var s := After(Options(true, true), [TimeoutFires(true)]); s.settled && s.killWaitTimer
  {
    var events := [TimeoutFires(true)];
    assert events[..0] == [];
    assert After(Options(true, true), events[..0]) == Init(Options(true, true));
  }

  /** The settling close of a run that resolved. */
  ghost predicate ResolvedAt(o: Options, events: seq<Event>, k: nat)
    requires k < |events|
  {
    && !After(o, events[..k]).settled
    && events[k].Close?
    && var code := if events[k].exitCode.Some? then events[k].exitCode.value else 1;
       && (o.check ==> code == 0)
       && After(o, events).outcome == Some(Resolved(code, Chunks(events[..k]).0, Chunks(events[..k]).1))
  }

  /** A resolved result holds exactly the chunks received before the close that settled it,
      each stream in order, and with `check` only a zero exit code resolves. */
  lemma {:induction false} ResolvedIsInOrderOutput(o: Options, events: seq<Event>)
    requires After(o, events).outcome.Some? && After(o, events).outcome.value.Resolved?
    ensures exists k :: 0 <= k < |events| && ResolvedAt(o, events, k)
  {
    var before, last := events[..|events| - 1], |events| - 1;
    assert before + [events[last]] == events;
    if After(o, before).settled {
      OutcomeKept(o, before, events[last]);
      ResolvedIsInOrderOutput(o, before);
      hide After, Chunks;
      var k :| 0 <= k < |before| && ResolvedAt(o, before, k);
      assert before[..k] == events[..k];
      assert ResolvedAt(o, events, k);
    } else {
      ResolvedByLast(o, before, events[last]);
    }
  }

  lemma ResolvedByLast(o: Options, before: seq<Event>, e: Event)
    requires !After(o, before).settled
    requires After(o, before + [e]).outcome.Some? && After(o, before + [e]).outcome.value.Resolved?
    ensures ResolvedAt(o, before + [e], |before|)
  {
    assert (before + [e])[..|before|] == before;
    SettlesAtMostOnce(o, before);
    OutputIsConcatenation(o, before);
    assert After(o, before).outcome.None?;
  }

  lemma OutcomeKept(o: Options, before: seq<Event>, e: Event)
    requires After(o, before).settled
    ensures After(o, before + [e]).outcome == After(o, before).outcome
  {
    assert (before + [e])[..|before|] == before;
  }

  function DataAfterSettling(o: Options, events: seq<Event>): nat {
    if events == [] then 0
    else
      var before, e := events[..|events| - 1], events[|events| - 1];
      DataAfterSettling(o, before) + if (e.Stdout? || e.Stderr?) && After(o, before).settled then 1 else 0
  }

  /** The ended log is written to once for every chunk that arrives after settling, and by
      nothing else. */
  lemma {:induction false} LateWritesAreLateChunks(o: Options, events: seq<Event>)
    ensures After(o, events).lateWrites == DataAfterSettling(o, events)
  {
    if events != [] {
      var before := events[..|events| - 1];
      LateWritesAreLateChunks(o, before);
      TimerNeedsUnsettled(o, before);
    }
  }

  /** The variables shared by the callbacks of one command. */
  class Command {
    const options: Options
    var stdout: string
    var stderr: string
    var timedOut: bool
    var settled: bool
    var timer: bool
    var killWaitTimer: bool
    var outcome: Option<Outcome>
    var settlements: nat
    var lateWrites: nat

    function Snap(): State
      reads this
    {
      State(stdout, stderr, timedOut, settled, timer, killWaitTimer, outcome, settlements, lateWrites)
    }

    constructor (options: Options)
      ensures this.options == options && Snap() == After(options, [])
    {
      this.options := options;
      stdout, stderr, timedOut, settled := "", "", false, false;
      timer, killWaitTimer := options.hasTimeout, false;
      outcome, settlements, lateWrites := None, 0, 0;
    }

    method Finalize(result: Outcome)
      modifies this
      ensures Snap() == Finalized(old(Snap()), result)
    {
      if settled {
        return;
      }
      settled := true;
      timer := false;
      killWaitTimer := false;
      outcome := Some(result);
      settlements := settlements + 1;
    }

    method WriteLog()
      modifies this`lateWrites
      ensures Snap() == Logged(old(Snap()))
    {
      if settled {
        lateWrites := lateWrites + 1;
      }
    }

    /** Delivers one event to its callback. */
    method Deliver(e: Event, ghost past: seq<Event>)
      requires Snap() == After(options, past)
      modifies this
      ensures Snap() == After(options, past + [e])
    {
      assert (past + [e])[..|past|] == past;
      match e {
        case Stdout(text) =>
          stdout := stdout + text;
          WriteLog();
        case Stderr(text) =>
          stderr := stderr + text;
          WriteLog();
        case TimeoutFires(killErrors) =>
          if timer {
            timer := false;
            timedOut := true;
            WriteLog();
            if killErrors {
              Finalize(ChildErrored);
            }
            killWaitTimer := true;
          }
        case KillWaitFires =>
          if killWaitTimer {
            killWaitTimer := false;
            Finalize(NotKilled);
          }
        case ChildError =>
          Finalize(ChildErrored);
        case Close(exitCode) =>
          var code := if exitCode.Some? then exitCode.value else 1;
          if timedOut {
            Finalize(TimedOut);
          } else if options.check && code != 0 {
            Finalize(CommandFailed(code));
          } else {
            Finalize(Resolved(code, stdout, stderr));
          }
      }
    }
  }
}
