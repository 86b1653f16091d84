/** The session toggle file: a read-modify-write guarded by a promise-chain lock. Every await
    is a point where other calls may run; write-then-rename is one atomic replacement. */
module ToggleStore {
  import opened Basics
  import opened Whitespace

  /** A value of the parsed `sessions` object. */
  datatype RawEntry = NotObject | Obj(disabled: bool, updatedAt: Option<int>)

  /** The file as found on disk. */
  datatype File = Missing | Corrupt | Sessions(entries: map<string, RawEntry>)

  /** A sanitised store: the sessions that are disabled. */
  type Store = map<string, Option<int>>

  /** `readToggleStore`: keeps the named sessions that are disabled; anything unreadable
      counts as an empty store. */
  function ReadStore(f: File): Store {
    match f
    case Missing => map[]
    case Corrupt => map[]
    case Sessions(entries) =>
      map k | k in entries && !AllBlank(k) && entries[k].Obj? && entries[k].disabled :: entries[k].updatedAt
  }

  function WriteStore(s: Store): File {
    Sessions(map k | k in s :: Obj(true, s[k]))
  }

  datatype Toggle = Toggle(key: string, disable: bool)

  function Modified(s: Store, t: Toggle, now: int): Store {
    if t.disable then s[t.key := Some(now)] else s - {t.key}
  }

  datatype Phase =
    | Waiting(previous: nat)
    | Reading
    | Writing(store: Store)
    | Finished(ok: bool)

  datatype Call = Call(toggle: Toggle, phase: Phase)

  /** The result of one call's turn: whether its read and its write worked, and the clock. */
  datatype Turn = Turn(toggle: Toggle, readOk: bool, now: int, writeOk: bool)

  /** `resolved` holds the lock promises that have been released; promise 0 is resolved from
      the start and promise i + 1 belongs to call i. `turns` logs the completed turns. */
  datatype State = State(
    lock: nat,
    resolved: set<nat>,
    calls: seq<Call>,
    file: File,
    readLog: seq<(bool, int)>,
    turns: seq<Turn>)

  datatype Event =
    | Start(toggle: Toggle)
    | Acquire(call: nat)
    | ReadDone(call: nat, readOk: bool, now: int)
    | WriteDone(call: nat, writeOk: bool)

  function Init(file: File): State {
    State(0, {0}, [], file, [], [])
  }

  function Next(s: State, e: Event): State {
    match e
    case Start(toggle) =>
      s.(lock := |s.calls| + 1, calls := s.calls + [Call(toggle, Waiting(s.lock))])
    case Acquire(i) =>
      if i < |s.calls| && s.calls[i].phase.Waiting? && s.calls[i].phase.previous in s.resolved
      then s.(calls := s.calls[i := s.calls[i].(phase := Reading)]) else s
    case ReadDone(i, readOk, now) =>
      if i < |s.calls| && s.calls[i].phase.Reading? then
        var store := if readOk then ReadStore(s.file) else map[];
        s.(calls := s.calls[i := s.calls[i].(phase := Writing(Modified(store, s.calls[i].toggle, now)))],
           readLog := s.readLog + [(readOk, now)])
      else s
    case WriteDone(i, writeOk) =>
      if i < |s.calls| && s.calls[i].phase.Writing? && |s.readLog| > 0 then
        var (readOk, now) := s.readLog[|s.readLog| - 1];
        s.(calls := s.calls[i := s.calls[i].(phase := Finished(writeOk))],
           resolved := s.resolved + {i + 1},
           file := if writeOk then WriteStore(s.calls[i].phase.store) else s.file,
           turns := s.turns + [Turn(s.calls[i].toggle, readOk, now, writeOk)])
      else s
  }

  function After(file: File, events: seq<Event>): State {
    if events == [] then Init(file)
    else Next(After(file, events[..|events| - 1]), events[|events| - 1])
  }

  /** The effect of one turn run alone. */
  function Apply(f: File, t: Turn): File {
    if !t.writeOk then f
    else WriteStore(Modified(if t.readOk then ReadStore(f) else map[], t.toggle, t.now))
  }

  /** The turns run one after another with nothing in between. */
  function Sequential(f: File, turns: seq<Turn>): File {
    if turns == [] then f
    else Apply(Sequential(f, turns[..|turns| - 1]), turns[|turns| - 1])
  }

  /** The calls before `Turn` count have finished, the next one may hold the lock, the rest wait
      in a chain. */
  ghost predicate Inv(file: File, s: State) {
    var n := |s.turns|;
    && n <= |s.calls| && s.lock == |s.calls|
    && (forall k: nat :: k in s.resolved <==> k <= n)
    && (forall i :: 0 <= i < n ==> s.calls[i].phase == Finished(s.turns[i].writeOk))
    && (forall i :: 0 <= i < n ==> s.turns[i].toggle == s.calls[i].toggle)
    && (forall i :: n < i < |s.calls| ==> s.calls[i].phase == Waiting(i))
    && (n < |s.calls| ==> !s.calls[n].phase.Finished? && (s.calls[n].phase.Waiting? ==> s.calls[n].phase.previous == n))
    && s.file == Sequential(file, s.turns)
    && |s.readLog| == (if n < |s.calls| && s.calls[n].phase.Writing? then n + 1 else n)
    && (forall i :: 0 <= i < n ==> s.readLog[i] == (s.turns[i].readOk, s.turns[i].now))
    && (n < |s.calls| && s.calls[n].phase.Writing? ==>
          s.calls[n].phase.store
            == Modified(if s.readLog[n].0 then ReadStore(s.file) else map[], s.calls[n].toggle, s.readLog[n].1))
  }

  /** Every interleaving keeps the lock discipline, and the file is always what the completed
      turns leave when run one after another. */
  lemma {:induction false} EveryRunKeepsInv(file: File, events: seq<Event>)
    ensures Inv(file, After(file, events))
  {
    if events != [] {
      var s, e := After(file, events[..|events| - 1]), events[|events| - 1];
      EveryRunKeepsInv(file, events[..|events| - 1]);
      StepInv(file, s, e);
    }
  }

  lemma StepInv(file: File, s: State, e: Event)
    requires Inv(file, s)
    ensures Inv(file, Next(s, e))
  {
    hide ReadStore, WriteStore, Modified;
    if e.WriteDone? {
      WriteDoneInv(file, s, e);
    }
  }

  lemma WriteDoneInv(file: File, s: State, e: Event)
    requires Inv(file, s) && e.WriteDone?
    ensures Inv(file, Next(s, e))
  {
    hide ReadStore, WriteStore, Modified;
    if e.call < |s.calls| && s.calls[e.call].phase.Writing? {
      var t := Next(s, e);
      assert e.call == |s.turns|;
      assert t.turns[..|t.turns| - 1] == s.turns;
    }
  }

  predicate InCritical(c: Call) {
    c.phase.Reading? || c.phase.Writing?
  }

  /** At most one call is between the start of its read and the end of its write, and it is
      the oldest call that has not finished. */
  lemma MutualExclusion(file: File, events: seq<Event>, i: nat)
    requires i < |After(file, events).calls| && InCritical(After(file, events).calls[i])
    ensures var s := After(file, events);
      && (forall j :: 0 <= j < |s.calls| && j != i ==> !InCritical(s.calls[j]))
      && (forall j :: 0 <= j < i ==> s.calls[j].phase.Finished?)
      && (forall j :: i < j < |s.calls| ==> s.calls[j].phase.Waiting?)
  {
    EveryRunKeepsInv(file, events);
  }

  /** The turns are taken in call order, and the file is their sequential outcome. */
  lemma Serializable(file: File, events: seq<Event>)
    ensures var s := After(file, events);
      && |s.turns| <= |s.calls|
      && (forall i :: 0 <= i < |s.turns| ==> s.turns[i].toggle == s.calls[i].toggle)
      && s.file == Sequential(file, s.turns)
  {
    EveryRunKeepsInv(file, events);
  }

  /** A call that fails still hands the lock on: while some call has not finished, the oldest
      such call can move. */
  lemma NeverStuck(file: File, events: seq<Event>) returns (e: Event)
    requires exists i :: 0 <= i < |After(file, events).calls| && !After(file, events).calls[i].phase.Finished?
    ensures Next(After(file, events), e) != After(file, events) && !e.Start?
  {
    EveryRunKeepsInv(file, events);
    var s := After(file, events);
    var i := |s.turns|;
    if s.calls[i].phase.Waiting? {
      e := Acquire(i);
      assert Next(s, e).calls[i].phase.Reading?;
    } else if s.calls[i].phase.Reading? {
      e := ReadDone(i, true, 0);
      assert Next(s, e).calls[i].phase.Writing?;
    } else {
      e := WriteDone(i, true);
      assert Next(s, e).calls[i].phase.Finished?;
    }
  }

  /** `isSessionActiveMemoryDisabled` for a key that is already trimmed. */
  predicate IsDisabled(f: File, key: string) {
    key in ReadStore(f)
  }

  lemma ReadWritten(s: Store, key: string)
    requires !AllBlank(key)
    ensures IsDisabled(WriteStore(s), key) <==> key in s
  {
  }

  /** One turn whose read worked sets its own session and leaves every other one alone. */
  lemma ApplyKeepsOthers(f: File, t: Turn, key: string)
    requires t.readOk && !AllBlank(key)
    ensures IsDisabled(Apply(f, t), key)
      == (if t.writeOk && key == t.toggle.key then t.toggle.disable else IsDisabled(f, key))
  {
    ApplyToOne(f, t, key);
  }

  /** What the last completed toggle of a session asked for. */
  function LastRequest(turns: seq<Turn>, key: string, initial: bool): bool {
    if turns == [] then initial
    else
      var t := turns[|turns| - 1];
      if t.writeOk && t.toggle.key == key then t.toggle.disable
      else LastRequest(turns[..|turns| - 1], key, initial)
  }

  /** The turn of another session that could not read the file and still wrote it. */
  predicate Erases(t: Turn, key: string) {
    !t.readOk && t.writeOk && t.toggle.key != key
  }

  /** Since the key's last successful toggle, some turn of another session wrote the file
      without having read it. */
  ghost predicate ErasedSince(turns: seq<Turn>, key: string) {
    exists i :: 0 <= i < |turns| && Erases(turns[i], key) && Untouched(turns, i, key)
  }

  /** No turn from position i on toggles the key successfully. */
  ghost predicate Untouched(turns: seq<Turn>, i: nat, key: string) {
    forall j :: i <= j < |turns| ==> !(turns[j].writeOk && turns[j].toggle.key == key)
  }

  lemma ErasedSnoc(turns: seq<Turn>, key: string)
    requires turns != []
    ensures var n := |turns| - 1;
      ErasedSince(turns, key) <==>
        || Erases(turns[n], key)
        || (ErasedSince(turns[..n], key) && !(turns[n].writeOk && turns[n].toggle.key == key))
  {
    var n := |turns| - 1;
    var before := turns[..n];
    if ErasedSince(turns, key) {
      var i :| 0 <= i < |turns| && Erases(turns[i], key) && Untouched(turns, i, key);
      assert i < n ==> Erases(before[i], key) && Untouched(before, i, key);
    }
    if Erases(turns[n], key) {
      assert Untouched(turns, n, key);
    }
    if ErasedSince(before, key) && !(turns[n].writeOk && turns[n].toggle.key == key) {
      var i :| 0 <= i < n && Erases(before[i], key) && Untouched(before, i, key);
      assert forall j :: i <= j < n ==> before[j] == turns[j];
      assert Erases(turns[i], key) && Untouched(turns, i, key);
    }
  }

  /** The effect of any one turn, whether or not its read worked. */
  lemma ApplyToOne(f: File, t: Turn, key: string)
    requires !AllBlank(key)
    ensures IsDisabled(Apply(f, t), key)
      == (if t.writeOk && t.toggle.key == key then t.toggle.disable else IsDisabled(f, key) && !Erases(t, key))
  {
    ReadWritten(Modified(if t.readOk then ReadStore(f) else map[], t.toggle, t.now), key);
  }

  /** After any turns, a session is disabled exactly when its last successful toggle asked
      for that and it has not been erased since. */
  lemma {:induction false} SequentialKeepsLast(f: File, turns: seq<Turn>, key: string)
    requires !AllBlank(key)
    ensures IsDisabled(Sequential(f, turns), key)
      == (LastRequest(turns, key, IsDisabled(f, key)) && !ErasedSince(turns, key))
  {
    if turns != [] {
      var n := |turns| - 1;
      SequentialKeepsLast(f, turns[..n], key);
      ApplyToOne(Sequential(f, turns[..n]), turns[n], key);
      ErasedSnoc(turns, key);
    }
  }

  /** After every interleaving, with any reads and writes failing, each session's state. */
  lemma SessionAfterRun(file: File, events: seq<Event>, key: string)
    requires !AllBlank(key)
    ensures var s := After(file, events);
      IsDisabled(s.file, key)
        == (LastRequest(s.turns, key, IsDisabled(file, key)) && !ErasedSince(s.turns, key))
  {
    EveryRunKeepsInv(file, events);
    SequentialKeepsLast(file, After(file, events).turns, key);
  }

  /** No lost update, exactly: after every interleaving a session is in the state its last
      successful toggle asked for, unless it was to be disabled and has been erased since. */
  lemma NoLostUpdateIff(file: File, events: seq<Event>, key: string)
    requires !AllBlank(key)
    ensures var s := After(file, events);
      var asked := LastRequest(s.turns, key, IsDisabled(file, key));
      IsDisabled(s.file, key) == asked <==> !(asked && ErasedSince(s.turns, key))
  {
    SessionAfterRun(file, events, key);
  }

  /** In particular no update is lost in a run in which every turn that wrote had read. */
  lemma NoLostUpdate(file: File, events: seq<Event>, key: string)
    requires !AllBlank(key)
    requires forall t :: t in After(file, events).turns ==> t.readOk || !t.writeOk
    ensures IsDisabled(After(file, events).file, key)
      == LastRequest(After(file, events).turns, key, IsDisabled(file, key))
  {
    NoLostUpdateIff(file, events, key);
  }

  /** For one turn: a read error is swallowed and the turn starts from an empty store. A successful write
      then keeps the other sessions exactly when no other session was disabled. */
  lemma FailedReadKeepsOthersIff(f: File, t: Turn)
    requires !t.readOk && t.writeOk
    ensures (forall key :: !AllBlank(key) && key != t.toggle.key ==>
              (IsDisabled(Apply(f, t), key) <==> IsDisabled(f, key)))
      <==> (forall key :: key in ReadStore(f) ==> key == t.toggle.key)
  {
    forall key | !AllBlank(key) && key != t.toggle.key
      ensures !IsDisabled(Apply(f, t), key)
    {
      ReadWritten(Modified(map[], t.toggle, t.now), key);
    }
  }

  /** Two sessions, one of them already disabled: disabling the other while the file cannot
      be read loses the first. */
  lemma FailedReadLosesUpdate()
    ensures var f := Sessions(map["a" := Obj(true, None)]);
      && IsDisabled(f, "a")
      && !IsDisabled(Apply(f, Turn(Toggle("b", true), false, 0, true)), "a")
  {
    assert !AllBlank("a") by { assert !IsBlank("a"[0]); }
    ReadWritten(Modified(map[], Toggle("b", true), 0), "a");
  }

  // ---- the entries on disk ----

  /** The entry that makes a session disabled, as it stands in the file. */
  ghost function DisabledEntry(f: File, key: string): Option<RawEntry> {
    if f.Sessions? && key in f.entries && f.entries[key].Obj? && f.entries[key].disabled
       && (exists i :: 0 <= i < |key| && !IsBlank(key[i]))
    then Some(f.entries[key]) else None
  }

  /** A session is disabled exactly when its key is not blank and the file, present and
      readable, holds an object for it that says so. */
  lemma DisabledIff(f: File, key: string)
    ensures IsDisabled(f, key) <==> DisabledEntry(f, key).Some?
  {
    assert AllBlank(key) <==> !exists i :: 0 <= i < |key| && !IsBlank(key[i]);
  }

  /** What one turn does to every entry on disk. A failed write changes nothing. A successful
      one leaves the turn's own entry with the turn's time, or none; and of the other
      sessions, when the read worked, exactly the disabled ones with the entries they had,
      and when it failed none. */
  lemma TurnOnDisk(f: File, t: Turn, key: string)
    ensures !t.writeOk ==> Apply(f, t) == f
    ensures t.writeOk ==>
      && Apply(f, t).Sessions?
      && (key == t.toggle.key && t.toggle.disable ==>
            key in Apply(f, t).entries && Apply(f, t).entries[key] == Obj(true, Some(t.now)))
      && (key == t.toggle.key && !t.toggle.disable ==> key !in Apply(f, t).entries)
      && (key != t.toggle.key ==>
            (key in Apply(f, t).entries <==> t.readOk && DisabledEntry(f, key).Some?))
      && (key != t.toggle.key && key in Apply(f, t).entries ==>
            Some(Apply(f, t).entries[key]) == DisabledEntry(f, key))
  {
    DisabledIff(f, key);
  }

  /** The disabling entry that a session's last successful toggle left, or the one it had. */
  function LastEntry(turns: seq<Turn>, key: string, initial: Option<RawEntry>): Option<RawEntry> {
    if turns == [] then initial
    else
      var t := turns[|turns| - 1];
      if t.writeOk && t.toggle.key == key
      then if t.toggle.disable then Some(Obj(true, Some(t.now))) else None
      else LastEntry(turns[..|turns| - 1], key, initial)
  }

  lemma TurnOnEntry(f: File, t: Turn, key: string)
    requires !AllBlank(key)
    ensures DisabledEntry(Apply(f, t), key)
      == (if t.writeOk && t.toggle.key == key
          then if t.toggle.disable then Some(Obj(true, Some(t.now))) else None
          else if Erases(t, key) then None else DisabledEntry(f, key))
  {
    TurnOnDisk(f, t, key);
    DisabledIff(f, key);
  }

  lemma {:induction false} EntryAfterTurns(f: File, turns: seq<Turn>, key: string)
    requires !AllBlank(key)
    ensures DisabledEntry(Sequential(f, turns), key)
      == (if ErasedSince(turns, key) then None else LastEntry(turns, key, DisabledEntry(f, key)))
  {
    if turns != [] {
      var n := |turns| - 1;
      EntryAfterTurns(f, turns[..n], key);
      TurnOnEntry(Sequential(f, turns[..n]), turns[n], key);
      ErasedSnoc(turns, key);
      hide DisabledEntry, ErasedSince, Apply;
    }
  }

  /** No lost update on disk: after every interleaving the file holds for each session the
      entry, with its time, that the session's last successful toggle wrote, or the one the
      file had at first, unless it has been erased since. */
  lemma EntryAfterRun(file: File, events: seq<Event>, key: string)
    requires !AllBlank(key)
    ensures var s := After(file, events);
      DisabledEntry(s.file, key)
        == (if ErasedSince(s.turns, key) then None else LastEntry(s.turns, key, DisabledEntry(file, key)))
  {
    EveryRunKeepsInv(file, events);
    EntryAfterTurns(file, After(file, events).turns, key);
  }

  /** The lock, the store file and the calls made on one state path. */
  class ToggleLock {
    var lock: nat
    var resolved: set<nat>
    var calls: seq<Call>
    var file: File
    var readLog: seq<(bool, int)>
    var turns: seq<Turn>

    function Snap(): State
      reads this
    {
      State(lock, resolved, calls, file, readLog, turns)
    }

    constructor (file: File)
      ensures Snap() == After(file, [])
    {
      lock, resolved, calls := 0, {0}, [];
      this.file, readLog, turns := file, [], [];
    }

    /** A toggle is requested: its turn is chained behind the current lock promise. */
    method SetSessionDisabled(toggle: Toggle, ghost file0: File, ghost past: seq<Event>)
      requires Snap() == After(file0, past)
      modifies this
      ensures Snap() == After(file0, past + [Start(toggle)])
    {
      assert (past + [Start(toggle)])[..|past|] == past;
      var previous := lock;
      lock := |calls| + 1;
      calls := calls + [Call(toggle, Waiting(previous))];
    }

    /** The previous promise has resolved: the task starts its read. */
    method BeginTurn(call: nat, ghost file0: File, ghost past: seq<Event>)
      requires Snap() == After(file0, past)
      requires call < |calls| && calls[call].phase.Waiting? && calls[call].phase.previous in resolved
      modifies this
      ensures Snap() == After(file0, past + [Acquire(call)])
    {
      assert (past + [Acquire(call)])[..|past|] == past;
      calls := calls[call := calls[call].(phase := Reading)];
    }

    method FinishRead(call: nat, readOk: bool, now: int, ghost file0: File, ghost past: seq<Event>)
      requires Snap() == After(file0, past) && call < |calls| && calls[call].phase.Reading?
      modifies this
      ensures Snap() == After(file0, past + [ReadDone(call, readOk, now)])
    {
      assert (past + [ReadDone(call, readOk, now)])[..|past|] == past;
      var toggle := calls[call].toggle;
      var store: Store := map[];
      if readOk {
        store := ReadStore(file);
      }
      if toggle.disable {
        store := store[toggle.key := Some(now)];
      } else {
        store := store - {toggle.key};
      }
      calls := calls[call := calls[call].(phase := Writing(store))];
      readLog := readLog + [(readOk, now)];
    }

    /** The write ends; success or failure, the lock promise is released. */
    method FinishWrite(call: nat, writeOk: bool, ghost file0: File, ghost past: seq<Event>)
      requires Snap() == After(file0, past) && call < |calls| && calls[call].phase.Writing?
      modifies this
      ensures Snap() == After(file0, past + [WriteDone(call, writeOk)])
    {
      EveryRunKeepsInv(file0, past);
      assert (past + [WriteDone(call, writeOk)])[..|past|] == past;
      if writeOk {
        file := WriteStore(calls[call].phase.store);
      }
      turns := turns + [Turn(calls[call].toggle, readLog[|readLog| - 1].0, readLog[|readLog| - 1].1, writeOk)];
      calls := calls[call := calls[call].(phase := Finished(writeOk))];
      resolved := resolved + {call + 1};
    }
  }
}
