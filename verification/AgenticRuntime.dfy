/** The life of agentic runs and their recovery after a restart
    (tauri-app/src/agentic_runtime.rs), with what the engine writes into a run
    (crates/abigail-router/src/agentic.rs). */
module AgenticRuntime {
  import opened Wrappers

  datatype Status =
    | Pending | Running | WaitingForInput | WaitingForConfirmation
    | Completed | Failed | Cancelled

  datatype Event =
    | RunStarted | TurnStarted | LlmResponse | ToolExecuted | MentorAsk | ToolConfirmation
    | TurnCompleted | RunCompleted | RunFailed(error: string) | RunCancelled

  datatype AgenticRun = AgenticRun(taskId: string, status: Status, completedAt: Option<int>, events: seq<Event>)

  datatype Record = Record(run: AgenticRun, attribution: string)

  /** The run store. Older stores hold runs without attributions. */
  datatype File = NoFile | Unparseable | Envelope(records: seq<Record>) | LegacyRuns(runs: seq<AgenticRun>)

  /** `engines` are the runs whose engine is at work; `channels` hold the events that an
      engine has sent and the runtime has still to handle. */
  datatype World = World(runs: map<string, AgenticRun>, attribution: map<string, string>, recovered: nat, file: File,
                         engines: set<string>, channels: map<string, seq<Event>>)

  const GUI := "gui"
  const RECOVERY_FAILURE_REASON := "Run marked failed during startup recovery after process restart"

  predicate IsTerminal(s: Status) {
    s == Completed || s == Failed || s == Cancelled
  }

  // ---- Changes of one run ----

  function NextStatus(e: Event): Option<Status> {
    match e
    case RunStarted => Some(Running)
    case MentorAsk => Some(WaitingForInput)
    case ToolConfirmation => Some(WaitingForConfirmation)
    case RunCompleted => Some(Completed)
    case RunFailed(_) => Some(Failed)
    case RunCancelled => Some(Cancelled)
    case TurnStarted => Some(Running)
    case TurnCompleted => Some(Running)
    case LlmResponse => None
    case ToolExecuted => None
  }

  /** `enforce_status_transition`. */
  function Enforced(run: AgenticRun, e: Event, now: int): AgenticRun {
    match NextStatus(e)
    case None => run
    case Some(next) =>
      if IsTerminal(run.status) then run
      else run.(status := next,
                completedAt := if IsTerminal(next) && run.completedAt.None? then Some(now) else run.completedAt)
  }

  predicate Ends(e: Event) {
    e.RunCompleted? || e.RunFailed? || e.RunCancelled?
  }

  /** What the engine does to its run: it notes an event and sends it, or goes on after
      an answer without one. */
  datatype Act = Emits(event: Event) | Resumes

  /** Not every event that moves the status in the runtime does so in the engine. */
  function WrittenStatus(e: Event, status: Status): Status {
    if e.TurnStarted? || e.TurnCompleted? || NextStatus(e).None? then status else NextStatus(e).value
  }

  /** The engine writes without looking at the status it replaces. */
  function EngineWritten(run: AgenticRun, act: Act, now: int): AgenticRun {
    match act
    case Resumes => run.(status := Running)
    case Emits(e) =>
      run.(status := WrittenStatus(e, run.status), events := run.events + [e],
           completedAt := if Ends(e) then Some(now) else run.completedAt)
  }

  function MarkedFailed(run: AgenticRun, error: string, now: int): AgenticRun {
    if IsTerminal(run.status) then run
    else run.(status := Failed, completedAt := Some(now), events := run.events + [RunFailed(error)])
  }

  // ---- The store ----

  /** What writing the store does: it may fail and leave it as it was, or leave it torn. */
  datatype Write = Written | Untouched | Torn

  function RecordOf(runs: map<string, AgenticRun>, attribution: map<string, string>, id: string): Record
    requires id in runs
  {
    Record(runs[id], if id in attribution then attribution[id] else GUI)
  }

  /** The records when the map yields its keys in `order`. */
  function RecordsOf(runs: map<string, AgenticRun>, attribution: map<string, string>, order: seq<string>): seq<Record>
    requires forall id :: id in order ==> id in runs
  {
    if order == [] then []
    else
      var n := |order| - 1;
      assert order[n] in order;
      RecordsOf(runs, attribution, order[..n]) + [RecordOf(runs, attribution, order[n])]
  }

  function Persisted(w: World, order: seq<string>, write: Write): World
    requires forall id :: id in order ==> id in w.runs
  {
    match write
    case Written => w.(file := Envelope(RecordsOf(w.runs, w.attribution, order)))
    case Untouched => w
    case Torn => w.(file := Unparseable)
  }

  function Parsed(f: File): Option<seq<Record>> {
    match f
    case NoFile => None
    case Unparseable => None
    case Envelope(records) => Some(records)
    case LegacyRuns(runs) => Some(seq(|runs|, i requires 0 <= i < |runs| => Record(runs[i], GUI)))
  }

  // ---- Recovery ----

  function RecoveredRun(run: AgenticRun, now: int): AgenticRun {
    MarkedFailed(run, RECOVERY_FAILURE_REASON, now)
  }

  /** The runs of the first `n` records, by task; `now(i)` is read for the `i`-th. */
  function RecoveredRuns(records: seq<Record>, now: nat -> int): map<string, AgenticRun> {
    if records == [] then map[]
    else
      var n := |records| - 1;
      RecoveredRuns(records[..n], now)[records[n].run.taskId := RecoveredRun(records[n].run, now(n))]
  }

  function RecoveredAttribution(records: seq<Record>): map<string, string> {
    if records == [] then map[]
    else
      var n := |records| - 1;
      RecoveredAttribution(records[..n])[records[n].run.taskId := records[n].attribution]
  }

  /** How many records are of runs that had not ended. */
  function Unfinished(records: seq<Record>): nat {
    if records == [] then 0
    else
      var n := |records| - 1;
      Unfinished(records[..n]) + if IsTerminal(records[n].run.status) then 0 else 1
  }

  /** A new process, before anything is written. */
  function Recovered(f: File, now: nat -> int): World {
    match Parsed(f)
    case None => World(map[], map[], 0, f, {}, map[])
    case Some(records) =>
      World(RecoveredRuns(records, now), RecoveredAttribution(records), Unfinished(records), f, {}, map[])
  }

  class Runtime {
    var runs: map<string, AgenticRun>
    var attribution: map<string, string>
    var recoveredRuns: nat
    var file: File
    var engines: set<string>
    var channels: map<string, seq<Event>>

    ghost function State(): World
      reads this
    {
      World(runs, attribution, recoveredRuns, file, engines, channels)
    }

    constructor (file: File)
      ensures State() == World(map[], map[], 0, file, {}, map[])
    {
      runs, attribution, recoveredRuns := map[], map[], 0;
      this.file, engines, channels := file, {}, map[];
    }

    /** The map of runs yields its keys in any order. */
    method PersistAll(write: Write) returns (ghost order: seq<string>)
      modifies this`file
      ensures Enumerates(order, runs.Keys) && State() == Persisted(old(State()), order, write)
    {
      hide RecordOf;
      var records: seq<Record>, todo := [], runs.Keys;
      order := [];
      while todo != {}
        invariant todo <= runs.Keys && Enumerates(order, runs.Keys - todo)
        invariant State() == old(State()) && records == RecordsOf(runs, attribution, order)
        decreases todo
      {
        var id :| id in todo;
        todo := todo - {id};
        records := records + [RecordOf(runs, attribution, id)];
        assert (order + [id])[..|order|] == order;
        order := order + [id];
      }
      match write {
        case Written => file := Envelope(records);
        case Untouched =>
        case Torn => file := Unparseable;
      }
    }

    method EnforceStatusTransition(id: string, e: Event, now: int)
      requires id in runs
      modifies this`runs
      ensures runs == old(runs)[id := Enforced(old(runs)[id], e, now)]
    {
      var next := NextStatus(e);
      if next.None? || IsTerminal(runs[id].status) {
        return;
      }
      runs := runs[id := runs[id].(status := next.value)];
      if IsTerminal(runs[id].status) && runs[id].completedAt.None? {
        runs := runs[id := runs[id].(completedAt := Some(now))];
      }
    }

    /** The engine is spawned once the new run is on file. */
    method StartRun(id: string, origin: string, write: Write) returns (r: Result<string, ()>, ghost order: seq<string>)
      modifies this
      ensures Enumerates(order, old(runs).Keys + {id})
      ensures State() == Next(old(State()), Start(id, origin, order, write))
      ensures r == if write == Written then Ok(id) else Err(())
    {
      hide RecordsOf;
      runs := runs[id := AgenticRun(id, Pending, None, [])];
      attribution := attribution[id := origin];
      assert runs.Keys == old(runs).Keys + {id};
      order := PersistAll(write);
      if write != Written {
        return Err(()), order;
      }
      engines, channels := engines + {id}, channels[id := []];
      return Ok(id), order;
    }

    /** The engine's own writes; after an ending event it returns. */
    method EngineActs(id: string, act: Act, now: int)
      requires id in engines && id in runs && id in channels
      modifies this`runs, this`engines, this`channels
      ensures State() == Next(old(State()), Engine(id, act, now))
    {
      runs := runs[id := EngineWritten(runs[id], act, now)];
      if act.Emits? {
        channels := channels[id := channels[id] + [act.event]];
        if Ends(act.event) {
          engines := engines - {id};
        }
      }
    }

    /** The oldest event that a run's engine has sent. */
    method HandleEngineEvent(id: string, now: int, write: Write) returns (ghost order: seq<string>)
      requires id in channels && channels[id] != []
      modifies this
      ensures Enumerates(order, old(runs).Keys)
      ensures State() == Next(old(State()), Handle(id, now, order, write))
    {
      hide Enforced, RecordsOf;
      var e := channels[id][0];
      channels := channels[id := channels[id][1..]];
      if id in runs {
        EnforceStatusTransition(id, e, now);
      }
      assert runs.Keys == old(runs).Keys;
      order := PersistAll(write);
    }

    method MarkFailedIfNeeded(id: string, error: string, now: int)
      modifies this`runs
      ensures State() == Next(old(State()), Fail(id, error, now))
    {
      if id in runs && !IsTerminal(runs[id].status) {
        runs := runs[id := runs[id].(status := Failed, completedAt := Some(now),
                                     events := runs[id].events + [RunFailed(error)])];
      }
    }

    /** Called on a new runtime; no write is attempted when there is no file or it is unreadable. */
    method InitializeRecovery(now: nat -> int, write: Write) returns (ghost order: seq<string>)
      requires State() == World(map[], map[], 0, file, {}, map[])
      modifies this
      ensures Enumerates(order, Recovered(old(file), now).runs.Keys)
      ensures State() == Restarted(old(file), now, order, write)
    {
      hide RecoveredRun, RecordsOf;
      var parsed := Parsed(file);
      if parsed.None? {
        order := [];
        return;
      }
      var records, count := parsed.value, 0;
      for i := 0 to |records|
        invariant runs == RecoveredRuns(records[..i], now) && attribution == RecoveredAttribution(records[..i])
        invariant count == Unfinished(records[..i]) && recoveredRuns == 0 && file == old(file)
        invariant engines == {} && channels == map[]
      {
        assert records[..i + 1][..i] == records[..i];
        var run := records[i].run;
        if !IsTerminal(run.status) {
          count := count + 1;
        }
        attribution := attribution[run.taskId := records[i].attribution];
        runs := runs[run.taskId := RecoveredRun(run, now(i))];
      }
      assert records[..|records|] == records;
      recoveredRuns := count;
      order := PersistAll(write);
    }
  }

  /** Recovery and the write that ends it. */
  function Restarted(f: File, now: nat -> int, order: seq<string>, write: Write): World
    requires forall id :: id in order ==> id in Recovered(f, now).runs
  {
    var w := Recovered(f, now);
    if Parsed(f).None? then w else Persisted(w, order, write)
  }

  // ---- Steps ----

  datatype Step =
    | Start(id: string, attribution: string, order: seq<string>, write: Write)
    | Engine(id: string, act: Act, now: int)
    | Handle(id: string, now: int, order: seq<string>, write: Write)
    | Fail(id: string, error: string, now: int)
    | Persist(order: seq<string>, write: Write)
    | Restart(clock: nat -> int, order: seq<string>, write: Write)

  /** Steps that do not write the store. */
  predicate IsQuiet(s: Step) {
    s.Fail? || s.Engine?
  }

  /** The runs in memory after a step, before anything is written. */
  function InMemory(w: World, s: Step): World {
    match s
    case Start(id, attribution, _, write) =>
      w.(runs := w.runs[id := AgenticRun(id, Pending, None, [])],
         attribution := w.attribution[id := attribution],
         engines := if write == Written then w.engines + {id} else w.engines,
         channels := if write == Written then w.channels[id := []] else w.channels)
    case Engine(id, act, now) =>
      if id !in w.runs || id !in w.channels then w
      else
        w.(runs := w.runs[id := EngineWritten(w.runs[id], act, now)],
           engines := if act.Emits? && Ends(act.event) then w.engines - {id} else w.engines,
           channels := if act.Emits? then w.channels[id := w.channels[id] + [act.event]] else w.channels)
    case Handle(id, now, _, _) =>
      if id !in w.channels || w.channels[id] == [] then w
      else
        var w1 := w.(channels := w.channels[id := w.channels[id][1..]]);
        if id in w.runs then w1.(runs := w.runs[id := Enforced(w.runs[id], w.channels[id][0], now)]) else w1
    case Fail(id, error, now) =>
      if id in w.runs then w.(runs := w.runs[id := MarkedFailed(w.runs[id], error, now)]) else w
    case Persist(_, _) => w
    case Restart(clock, _, _) => Recovered(w.file, clock)
  }

  /** Task ids are new; an engine acts until it has sent an ending event, and a run is
      failed from outside only after its engine has returned; stores are written from
      the runs there are. */
  ghost predicate Allowed(w: World, s: Step) {
    && (s.Start? ==> s.id !in w.runs && s.id !in w.channels)
    && (s.Engine? ==> s.id in w.engines)
    && (s.Handle? ==> s.id in w.channels && w.channels[s.id] != [])
    && (s.Fail? ==> s.id in w.channels && s.id !in w.engines)
    && (!IsQuiet(s) ==> Enumerates(s.order, InMemory(w, s).runs.Keys))
  }

  function Next(w: World, s: Step): World
    requires !IsQuiet(s) ==> forall id :: id in s.order ==> id in InMemory(w, s).runs
  {
    match s
    case Fail(_, _, _) => InMemory(w, s)
    case Engine(_, _, _) => InMemory(w, s)
    case Restart(clock, order, write) =>
      assert InMemory(w, s) == Recovered(w.file, clock) && s.order == order;
      Restarted(w.file, clock, order, write)
    case _ => Persisted(InMemory(w, s), s.order, s.write)
  }

  // ---- Invariants ----

  /** A run has an end exactly when it has ended. */
  predicate Consistent(run: AgenticRun) {
    run.completedAt.Some? <==> IsTerminal(run.status)
  }

  ghost predicate ConsistentRuns(runs: map<string, AgenticRun>) {
    forall id :: id in runs ==> Consistent(runs[id]) && runs[id].taskId == id
  }

  /** On file, ended runs have an end, and each task has one record. */
  ghost predicate ConsistentFile(f: File) {
    Parsed(f).Some? ==> ConsistentRecords(Parsed(f).value) && OneEach(Parsed(f).value)
  }

  ghost predicate ConsistentRecords(records: seq<Record>) {
    forall i :: 0 <= i < |records| ==> (IsTerminal(records[i].run.status) ==> records[i].run.completedAt.Some?)
  }

  ghost predicate OneEach(records: seq<Record>) {
    forall i, j :: 0 <= i < j < |records| ==> records[i].run.taskId != records[j].run.taskId
  }

  ghost predicate EndsWith(events: seq<Event>, last: seq<Event>) {
    |last| <= |events| && events[|events| - |last|..] == last
  }

  /** While an engine is at work its run has not ended; a run has ended once its engine
      has sent the ending event; and what is still to be handled of a run's events are the
      last of them, in order. */
  ghost predicate EnginesMatch(w: World) {
    && (forall id :: id in w.engines ==> id in w.runs && id in w.channels && !IsTerminal(w.runs[id].status))
    && (forall id :: id in w.channels ==> id in w.runs && EndsWith(w.runs[id].events, w.channels[id]))
    && (forall id :: id in w.channels && id !in w.engines ==> IsTerminal(w.runs[id].status))
    && (forall id, k :: id in w.channels && 0 <= k < |w.channels[id]| && Ends(w.channels[id][k]) ==>
          IsTerminal(w.runs[id].status))
  }

  ghost predicate Inv(w: World) {
    ConsistentRuns(w.runs) && ConsistentFile(w.file) && EnginesMatch(w)
  }

  lemma ChangesKeepConsistency(run: AgenticRun, e: Event, error: string, now: int)
    requires Consistent(run)
    ensures Consistent(Enforced(run, e, now)) && Enforced(run, e, now).taskId == run.taskId
    ensures Consistent(MarkedFailed(run, error, now)) && MarkedFailed(run, error, now).taskId == run.taskId
  {
  }

  lemma EngineKeepsConsistency(run: AgenticRun, act: Act, now: int)
    requires Consistent(run) && !IsTerminal(run.status)
    ensures Consistent(EngineWritten(run, act, now)) && EngineWritten(run, act, now).taskId == run.taskId
    ensures IsTerminal(EngineWritten(run, act, now).status) <==> act.Emits? && Ends(act.event)
  {
  }

  lemma HandlingDoesNotEnd(run: AgenticRun, e: Event, now: int)
    requires Ends(e) ==> IsTerminal(run.status)
    ensures IsTerminal(Enforced(run, e, now).status) <==> IsTerminal(run.status)
  {
  }

  lemma EventsEndWith(events: seq<Event>, last: seq<Event>, e: Event)
    requires EndsWith(events, last)
    ensures EndsWith(events + [e], last + [e]) && (last != [] ==> EndsWith(events, last[1..]))
  {
  }

  lemma EventsWritten(run: AgenticRun, act: Act, now: int)
    ensures EngineWritten(run, act, now).events == run.events + if act.Emits? then [act.event] else []
  {
  }

  lemma {:induction false} RecordsAreOfRuns(w: World, order: seq<string>)
    requires forall id :: id in order ==> id in w.runs
    ensures |RecordsOf(w.runs, w.attribution, order)| == |order|
    ensures forall i :: 0 <= i < |order| ==> RecordsOf(w.runs, w.attribution, order)[i] == RecordOf(w.runs, w.attribution, order[i])
  {
    hide RecordOf;
    if order != [] {
      RecordsAreOfRuns(w, order[..|order| - 1]);
    }
  }

  lemma PersistedInv(w: World, order: seq<string>, write: Write)
    requires Inv(w) && Enumerates(order, w.runs.Keys)
    ensures Inv(Persisted(w, order, write))
  {
    hide RecordsOf;
    RecordsAreOfRuns(w, order);
    assert forall i :: 0 <= i < |order| ==> order[i] in order;
  }

  /** In the recovered map, each task of the file has its record, recovered. */
  lemma {:induction false} RecoveredAt(records: seq<Record>, now: nat -> int, i: nat)
    requires OneEach(records) && i < |records|
    ensures var id := records[i].run.taskId;
            && id in RecoveredRuns(records, now)
            && RecoveredRuns(records, now)[id] == RecoveredRun(records[i].run, now(i))
            && id in RecoveredAttribution(records) && RecoveredAttribution(records)[id] == records[i].attribution
    decreases |records|
  {
    hide RecoveredRun;
    var n := |records| - 1;
    if i < n {
      assert records[..n][i] == records[i];
      RecoveredAt(records[..n], now, i);
    }
  }

  lemma {:induction false} RecoveredIds(records: seq<Record>, now: nat -> int, id: string) returns (i: nat)
    requires id in RecoveredRuns(records, now)
    ensures i < |records| && records[i].run.taskId == id
  {
    var n := |records| - 1;
    if records[n].run.taskId == id {
      i := n;
    } else {
      i := RecoveredIds(records[..n], now, id);
    }
  }

  lemma RecoveredInv(f: File, now: nat -> int)
    requires ConsistentFile(f)
    ensures Inv(Recovered(f, now))
  {
    hide RecoveredRuns, RecoveredAttribution, Unfinished;
    if Parsed(f).Some? {
      var records := Parsed(f).value;
      forall id | id in RecoveredRuns(records, now)
        ensures Consistent(RecoveredRuns(records, now)[id]) && RecoveredRuns(records, now)[id].taskId == id
      {
        var i := RecoveredIds(records, now, id);
        RecoveredAt(records, now, i);
        RecoveredIsConsistent(records[i].run, now(i));
      }
    } else {
      assert forall id :: id !in Recovered(f, now).runs;
    }
  }

  lemma RecoveredIsConsistent(run: AgenticRun, now: int)
    requires IsTerminal(run.status) ==> run.completedAt.Some?
    ensures Consistent(RecoveredRun(run, now)) && RecoveredRun(run, now).taskId == run.taskId
  {
  }

  lemma StartKeepsInv(w: World, s: Step)
    requires Inv(w) && Allowed(w, s) && s.Start?
    ensures Inv(InMemory(w, s))
  {
    hide Consistent, ConsistentFile, EndsWith;
    NewIsConsistent(s.id);
    assert EndsWith([], []) by { NothingEnds(); }
  }

  lemma EngineKeepsInv(w: World, s: Step)
    requires Inv(w) && Allowed(w, s) && s.Engine?
    ensures Inv(InMemory(w, s))
  {
    hide Consistent, ConsistentFile, EngineWritten, EndsWith;
    EngineKeepsConsistency(w.runs[s.id], s.act, s.now);
    EventsWritten(w.runs[s.id], s.act, s.now);
    if s.act.Emits? {
      EventsEndWith(w.runs[s.id].events, w.channels[s.id], s.act.event);
    } else {
      assert w.runs[s.id].events + [] == w.runs[s.id].events;
    }
  }

  lemma HandleKeepsInv(w: World, s: Step)
    requires Inv(w) && Allowed(w, s) && s.Handle?
    ensures Inv(InMemory(w, s))
  {
    hide ConsistentRuns, ConsistentFile, EnginesMatch;
    HandleKeepsRuns(w, s);
    HandleKeepsEngines(w, s);
  }

  lemma HandleKeepsRuns(w: World, s: Step)
    requires Inv(w) && Allowed(w, s) && s.Handle?
    ensures ConsistentRuns(InMemory(w, s).runs)
  {
    hide Consistent, ConsistentFile, Enforced, EndsWith;
    ChangesKeepConsistency(w.runs[s.id], w.channels[s.id][0], "", s.now);
  }

  lemma HandleKeepsEngines(w: World, s: Step)
    requires Inv(w) && Allowed(w, s) && s.Handle?
    ensures EnginesMatch(InMemory(w, s))
  {
    hide ConsistentRuns, ConsistentFile, Enforced, EndsWith;
    var e := w.channels[s.id][0];
    HandlingDoesNotEnd(w.runs[s.id], e, s.now);
    EventsEndWith(w.runs[s.id].events, w.channels[s.id], e);
    EventsStay(w.runs[s.id], e, s.now);
  }

  lemma EventsStay(run: AgenticRun, e: Event, now: int)
    ensures Enforced(run, e, now).events == run.events
  {
  }

  /** An engine ends its run before it returns, so a forced failure finds nothing to do. */
  lemma ForcedFailureIsIdle(w: World, s: Step)
    requires Inv(w) && Allowed(w, s) && s.Fail?
    ensures Next(w, s) == w
  {
    hide Consistent, ConsistentFile, EndsWith;
    assert s.id in w.runs && IsTerminal(w.runs[s.id].status);
    assert w.runs[s.id := w.runs[s.id]] == w.runs;
  }

  /** Whatever happens, a run has an end exactly when it has ended, and no engine is at
      work on a run that has. */
  lemma NextKeepsInv(w: World, s: Step)
    requires Inv(w) && Allowed(w, s)
    ensures Inv(Next(w, s))
  {
    hide RecordsOf, Inv, Recovered, Consistent;
    match s {
      case Start(_, _, _, _) => StartKeepsInv(w, s);
      case Engine(_, _, _) => EngineKeepsInv(w, s);
      case Handle(_, _, _, _) => HandleKeepsInv(w, s);
      case Fail(_, _, _) => ForcedFailureIsIdle(w, s);
      case Persist(_, _) =>
      case Restart(clock, _, _) => FileOf(w); RecoveredInv(w.file, clock);
    }
    if !IsQuiet(s) {
      PersistedInv(InMemory(w, s), s.order, s.write);
    }
  }

  lemma FileOf(w: World)
    requires Inv(w)
    ensures ConsistentFile(w.file)
  {
  }

  lemma NothingEnds()
    ensures EndsWith([], [])
  {
  }

  lemma NewIsConsistent(id: string)
    ensures Consistent(AgenticRun(id, Pending, None, []))
  {
  }

  // ---- Ended runs stay as they are ----

  /** In one process, an ended run never changes again: not by its engine, not by events
      that are handled late, and not by a forced failure. */
  lemma EndedIsFinal(w: World, s: Step, id: string)
    requires Inv(w) && Allowed(w, s) && !s.Restart?
    requires id in w.runs && IsTerminal(w.runs[id].status)
    ensures id in Next(w, s).runs && Next(w, s).runs[id] == w.runs[id]
  {
    hide RecordsOf, EngineWritten, ConsistentRuns, ConsistentFile, EndsWith, Recovered;
  }

  /** The run after a series of events, the `i`-th at `now(i)`. */
  function EnforcedAll(run: AgenticRun, es: seq<Event>, now: nat -> int): AgenticRun {
    if es == [] then run
    else
      var n := |es| - 1;
      Enforced(EnforcedAll(run, es[..n], now), es[n], now(n))
  }

  /** The first event that ends a run. */
  function FirstEnd(es: seq<Event>): (r: Option<nat>)
    ensures r.Some? ==> r.value < |es| && (es[r.value].RunCompleted? || es[r.value].RunFailed? || es[r.value].RunCancelled?)
    ensures forall i :: 0 <= i < |es| && (r.Some? ==> i < r.value) ==>
              !es[i].RunCompleted? && !es[i].RunFailed? && !es[i].RunCancelled?
  {
    if es == [] then None
    else
      var n := |es| - 1;
      var before := FirstEnd(es[..n]);
      if before.Some? then before else if Ends(es[n]) then Some(n) else None
  }

  /** The last event that says anything of the status: a response or a tool's execution does not. */
  function LastWord(es: seq<Event>): (r: Option<nat>)
    ensures r.Some? ==> r.value < |es| && !es[r.value].LlmResponse? && !es[r.value].ToolExecuted?
    ensures forall i :: 0 <= i < |es| && (r.Some? ==> r.value < i) ==> es[i].LlmResponse? || es[i].ToolExecuted?
  {
    if es == [] then None
    else
      var n := |es| - 1;
      if es[n].LlmResponse? || es[n].ToolExecuted? then LastWord(es[..n]) else Some(n)
  }

  /** The first ending event decides how a run ends, and when; until one comes, it waits
      for input or for a confirmation when that was the last thing said, and is running
      when anything else was. */
  lemma {:induction false} EventsDecide(run: AgenticRun, es: seq<Event>, now: nat -> int)
    requires run.status !in {Completed, Failed, Cancelled} && run.completedAt == None
    ensures match FirstEnd(es)
            case Some(k) =>
              EnforcedAll(run, es, now)
              == run.(status := if es[k].RunCompleted? then Completed else if es[k].RunFailed? then Failed else Cancelled,
                      completedAt := Some(now(k)))
            case None =>
              EnforcedAll(run, es, now)
              == run.(status := match LastWord(es)
                                case None => run.status
                                case Some(k) => if es[k].MentorAsk? then WaitingForInput
                                                else if es[k].ToolConfirmation? then WaitingForConfirmation
                                                else Running)
  {
    if es != [] {
      var n := |es| - 1;
      EventsDecide(run, es[..n], now);
    }
  }

  // ---- What the engine writes ----

  /** The run after a series of its engine's acts, the `i`-th at `now(i)`. */
  function EngineWrittenAll(run: AgenticRun, acts: seq<Act>, now: nat -> int): AgenticRun {
    if acts == [] then run
    else
      var n := |acts| - 1;
      EngineWritten(EngineWrittenAll(run, acts[..n], now), acts[n], now(n))
  }

  predicate IsEnd(act: Act) {
    act.Emits? && (act.event.RunCompleted? || act.event.RunFailed? || act.event.RunCancelled?)
  }

  /** The engine writes no status with these. */
  predicate IsSilent(act: Act) {
    act.Emits? && (act.event.TurnStarted? || act.event.TurnCompleted? || act.event.LlmResponse? || act.event.ToolExecuted?)
  }

  function LastWritten(acts: seq<Act>): (r: Option<nat>)
    ensures r.Some? ==> r.value < |acts| && !IsSilent(acts[r.value])
    ensures forall i :: 0 <= i < |acts| && (r.Some? ==> r.value < i) ==> IsSilent(acts[i])
  {
    if acts == [] then None
    else
      var n := |acts| - 1;
      if IsSilent(acts[n]) then LastWritten(acts[..n]) else Some(n)
  }

  /** The events of the acts, in order. */
  function Emitted(acts: seq<Act>): seq<Event> {
    if acts == [] then []
    else
      var n := |acts| - 1;
      Emitted(acts[..n]) + if acts[n].Emits? then [acts[n].event] else []
  }

  /** An engine that returns when it has ended its run leaves it with the outcome of that
      last act and its time, or waiting or running as it last wrote, and with every event
      it has sent, in order. */
  lemma {:induction false} EngineDecides(run: AgenticRun, acts: seq<Act>, now: nat -> int)
    requires forall i :: 0 <= i < |acts| - 1 ==> !IsEnd(acts[i])
    ensures EngineWrittenAll(run, acts, now)
         == run.(status := match LastWritten(acts)
                           case None => run.status
                           case Some(k) =>
                             if acts[k] == Emits(RunCompleted) then Completed
                             else if acts[k] == Emits(RunCancelled) then Cancelled
                             else if acts[k].Emits? && acts[k].event.RunFailed? then Failed
                             else if acts[k] == Emits(MentorAsk) then WaitingForInput
                             else if acts[k] == Emits(ToolConfirmation) then WaitingForConfirmation
                             else Running,
                 completedAt := if acts != [] && IsEnd(acts[|acts| - 1]) then Some(now(|acts| - 1)) else run.completedAt,
                 events := run.events + Emitted(acts))
  {
    if acts != [] {
      var n := |acts| - 1;
      EngineDecides(run, acts[..n], now);
      assert 0 < n ==> acts[..n][n - 1] == acts[n - 1];
      assert run.events + Emitted(acts) == run.events + Emitted(acts[..n]) + if acts[n].Emits? then [acts[n].event] else [];
    }
  }

  // ---- Recovery ----

  lemma {:induction false} UnfinishedNone(records: seq<Record>)
    requires forall i :: 0 <= i < |records| ==> IsTerminal(records[i].run.status)
    ensures Unfinished(records) == 0
  {
    if records != [] {
      UnfinishedNone(records[..|records| - 1]);
    }
  }

  /** A restart ends every run: an ended one is as its record says, any other has failed
      with one more event; and the count is of those others. */
  lemma RecoveryEndsAll(f: File, now: nat -> int, order: seq<string>, write: Write)
    requires ConsistentFile(f) && Parsed(f).Some? && Enumerates(order, Recovered(f, now).runs.Keys)
    ensures var w, records := Restarted(f, now, order, write), Parsed(f).value;
            && w.recovered == |NotEnded(records)|
            && (forall id :: id in w.runs ==> IsTerminal(w.runs[id].status))
            && |w.runs| == |records|
            && forall i :: 0 <= i < |records| ==>
                 var run := records[i].run;
                 run.taskId in w.runs
                 && w.runs[run.taskId]
                    == if IsTerminal(run.status) then run
                       else AgenticRun(run.taskId, Failed, Some(now(i)),
                                       run.events + [RunFailed(RECOVERY_FAILURE_REASON)])
  {
    hide RecoveredRuns, RecoveredAttribution, Unfinished, RecordsOf;
    var records := Parsed(f).value;
    forall i | 0 <= i < |records|
      ensures records[i].run.taskId in RecoveredRuns(records, now)
      ensures RecoveredRuns(records, now)[records[i].run.taskId] == RecoveredRun(records[i].run, now(i))
    {
      RecoveredAt(records, now, i);
    }
    forall id | id in RecoveredRuns(records, now)
      ensures IsTerminal(RecoveredRuns(records, now)[id].status)
    {
      var i := RecoveredIds(records, now, id);
      RecoveredAt(records, now, i);
    }
    RecoveredSize(records, now);
    UnfinishedIs(records);
  }

  /** Where there is no store, or none that can be read, a restart finds nothing and
      leaves the file alone. */
  lemma NothingRecovered(f: File, now: nat -> int, order: seq<string>, write: Write)
    requires Parsed(f).None? && Enumerates(order, Recovered(f, now).runs.Keys)
    ensures var w := Restarted(f, now, order, write);
            w.runs == map[] && w.recovered == 0 && w.file == f && (f == NoFile || f == Unparseable)
  {
  }

  /** How many records are of runs that had not ended. */
  lemma {:induction false} UnfinishedIs(records: seq<Record>)
    ensures Unfinished(records) == |NotEnded(records)|
  {
    if records != [] {
      var n := |records| - 1;
      UnfinishedIs(records[..n]);
      assert NotEnded(records) == NotEnded(records[..n]) + if IsTerminal(records[n].run.status) then {} else {n};
    }
  }

  function NotEnded(records: seq<Record>): set<nat> {
    set i: nat | i < |records| && !IsTerminal(records[i].run.status)
  }

  lemma {:induction false} RecoveredSize(records: seq<Record>, now: nat -> int)
    requires OneEach(records)
    ensures |RecoveredRuns(records, now)| == |records|
  {
    if records != [] {
      var n := |records| - 1;
      RecoveredSize(records[..n], now);
      var before, id := RecoveredRuns(records[..n], now), records[n].run.taskId;
      if id in before {
        var i := RecoveredIds(records[..n], now, id);
        assert false;
      }
      assert before[id := RecoveredRun(records[n].run, now(n))].Keys == before.Keys + {id};
    }
  }

  lemma {:induction false} FileRoundTrip(w: World, order: seq<string>, now: nat -> int)
    requires ConsistentRuns(w.runs) && Enumerates(order, w.runs.Keys)
    requires forall id :: id in w.runs ==> IsTerminal(w.runs[id].status)
    ensures Recovered(Envelope(RecordsOf(w.runs, w.attribution, order)), now).runs == w.runs
    ensures Recovered(Envelope(RecordsOf(w.runs, w.attribution, order)), now).recovered == 0
  {
    hide RecordsOf, RecoveredRuns, Unfinished;
    var records := RecordsOf(w.runs, w.attribution, order);
    RecordsAreOfRuns(w, order);
    assert forall i :: 0 <= i < |order| ==> order[i] in order;
    UnfinishedNone(records);
    forall id | id in w.runs
      ensures id in RecoveredRuns(records, now) && RecoveredRuns(records, now)[id] == w.runs[id]
    {
      var i :| 0 <= i < |order| && order[i] == id;
      RecoveredAt(records, now, i);
    }
    forall id | id in RecoveredRuns(records, now)
      ensures id in w.runs
    {
      var i := RecoveredIds(records, now, id);
    }
  }

  /** Once the recovered store is written, the next restart recovers nothing and finds
      the same runs. */
  lemma SecondRestartFindsNone(f: File, now: nat -> int, order: seq<string>, later: nat -> int, order': seq<string>,
                               write: Write)
    requires ConsistentFile(f) && Parsed(f).Some? && Enumerates(order, Recovered(f, now).runs.Keys)
    requires Enumerates(order', Recovered(Restarted(f, now, order, Written).file, later).runs.Keys)
    ensures var w := Restarted(f, now, order, Written);
            var w' := Restarted(w.file, later, order', write);
            w'.recovered == 0 && w'.runs == w.runs
  {
    hide RecordsOf, RecoveredRuns, Unfinished, RecoveredAttribution;
    RecoveryEndsAll(f, now, order, Written);
    RecoveredInv(f, now);
    FileRoundTrip(Recovered(f, now), order, later);
  }

  // ---- What survives restarts ----

  /** Ended in memory, and on file with the same record. */
  ghost predicate Durable(w: World, id: string, run: AgenticRun) {
    && IsTerminal(run.status) && id in w.runs && w.runs[id] == run
    && Parsed(w.file).Some? && exists i :: 0 <= i < |Parsed(w.file).value| && Parsed(w.file).value[i].run == run
  }

  /** Once an ended run is on file, it never changes again, over any steps and
      restarts, unless a write tears the store. */
  lemma DurableIsFinal(w: World, s: Step, id: string, run: AgenticRun)
    requires Inv(w) && Allowed(w, s) && Durable(w, id, run)
    requires IsQuiet(s) || s.write != Torn
    ensures Durable(Next(w, s), id, run)
  {
    hide RecordsOf, Inv, Enumerates;
    var m := InMemory(w, s);
    assert id in m.runs && m.runs[id] == run && m.file == w.file by { DurableInMemory(w, s, id, run); }
    if !IsQuiet(s) && s.write == Written {
      hide InMemory;
      WritingMakesDurable(m, s.order, id);
    }
  }

  lemma DurableInMemory(w: World, s: Step, id: string, run: AgenticRun)
    requires Inv(w) && Allowed(w, s) && Durable(w, id, run)
    ensures var m := InMemory(w, s); id in m.runs && m.runs[id] == run && m.file == w.file
  {
    hide RecordsOf, Consistent, RecoveredRuns, RecoveredAttribution, Unfinished, Enforced, MarkedFailed, EngineWritten;
    match s
    case Restart(clock, _, _) =>
      var records := Parsed(w.file).value;
      var i :| 0 <= i < |records| && records[i].run == run;
      RecoveredAt(records, clock, i);
      EndedIsNotRecovered(run, clock(i));
    case Handle(i, now, _, _) => EndedIsKept(run, w.channels[i][0], "", now);
    case Fail(_, error, now) => EndedIsKept(run, RunStarted, error, now);
    case _ =>
  }

  lemma EndedIsNotRecovered(run: AgenticRun, now: int)
    requires IsTerminal(run.status)
    ensures RecoveredRun(run, now) == run
  {
  }

  lemma EndedIsKept(run: AgenticRun, e: Event, error: string, now: int)
    requires IsTerminal(run.status)
    ensures Enforced(run, e, now) == run && MarkedFailed(run, error, now) == run
  {
  }

  /** A successful write makes every ended run durable. */
  lemma WritingMakesDurable(w: World, order: seq<string>, id: string)
    requires Enumerates(order, w.runs.Keys) && id in w.runs && IsTerminal(w.runs[id].status)
    ensures Durable(Persisted(w, order, Written), id, w.runs[id])
  {
    hide RecordsOf;
    RecordsAreOfRuns(w, order);
    var k :| 0 <= k < |order| && order[k] == id;
    var records := Parsed(Persisted(w, order, Written).file).value;
    assert records == RecordsOf(w.runs, w.attribution, order) && records[k].run == w.runs[id];
  }

  ghost predicate AllowedRun(w: World, ss: seq<Step>)
    decreases |ss|
  {
    ss == [] || (Allowed(w, ss[0]) && AllowedRun(Next(w, ss[0]), ss[1..]))
  }

  ghost function After(w: World, ss: seq<Step>): World
    requires AllowedRun(w, ss)
    decreases |ss|
  {
    if ss == [] then w else After(Next(w, ss[0]), ss[1..])
  }

  /** Over any events, forced failures, writes and restarts: runs stay consistent, and
      an ended run that is on file keeps its status and everything else. */
  lemma {:induction false} DurableForever(w: World, ss: seq<Step>, id: string, run: AgenticRun)
    requires Inv(w) && AllowedRun(w, ss) && Durable(w, id, run)
    requires forall i :: 0 <= i < |ss| ==> IsQuiet(ss[i]) || ss[i].write != Torn
    ensures Inv(After(w, ss)) && Durable(After(w, ss), id, run)
    decreases |ss|
  {
    hide Inv, Durable, Next, InMemory;
    if ss != [] {
      NextKeepsInv(w, ss[0]);
      DurableIsFinal(w, ss[0], id, run);
      DurableForever(Next(w, ss[0]), ss[1..], id, run);
    }
  }

  /** Until the next restart, an ended run stays as it is over any steps. */
  lemma {:induction false} EndedUntilRestart(w: World, ss: seq<Step>, id: string)
    requires Inv(w) && AllowedRun(w, ss) && forall i :: 0 <= i < |ss| ==> !ss[i].Restart?
    requires id in w.runs && IsTerminal(w.runs[id].status)
    ensures id in After(w, ss).runs && After(w, ss).runs[id] == w.runs[id]
    decreases |ss|
  {
    hide Inv, Next, InMemory;
    if ss != [] {
      NextKeepsInv(w, ss[0]);
      EndedIsFinal(w, ss[0], id);
      EndedUntilRestart(Next(w, ss[0]), ss[1..], id);
    }
  }

  /** A status as a restart finds it on file. */
  function StatusFound(s: Status): Status {
    if IsTerminal(s) then s else Failed
  }

  ghost predicate FoundAs(records: seq<Record>, id: string, s: Status) {
    exists i :: 0 <= i < |records| && records[i].run.taskId == id && StatusFound(records[i].run.status) == s
  }

  /** A run keeps its status across a restart exactly when it is on file and its record
      has that status, or has not ended while the run has failed; a run without a record,
      or over a store that cannot be read, is gone. */
  lemma EndSurvivesExactly(w: World, now: nat -> int, id: string)
    requires Inv(w) && id in w.runs
    ensures var w' := Recovered(w.file, now);
            if Parsed(w.file).None? then w'.runs == map[]
            else (id in w'.runs && w'.runs[id].status == w.runs[id].status
                  <==> FoundAs(Parsed(w.file).value, id, w.runs[id].status))
                 && (id in w'.runs <==> exists i :: 0 <= i < |Parsed(w.file).value|
                                                   && Parsed(w.file).value[i].run.taskId == id)
  {
    hide RecoveredRuns, RecoveredAttribution, Unfinished, Consistent, EnginesMatch;
    if Parsed(w.file).Some? {
      var records := Parsed(w.file).value;
      assert Recovered(w.file, now).runs == RecoveredRuns(records, now);
      if id in RecoveredRuns(records, now) {
        var i := RecoveredIds(records, now, id);
        RecoveredStatus(records, now, i);
      }
      forall i | 0 <= i < |records| && records[i].run.taskId == id
        ensures id in RecoveredRuns(records, now)
        ensures RecoveredRuns(records, now)[id].status == StatusFound(records[i].run.status)
      {
        RecoveredStatus(records, now, i);
      }
    }
  }

  lemma RecoveredStatus(records: seq<Record>, now: nat -> int, i: nat)
    requires OneEach(records) && i < |records|
    ensures var id := records[i].run.taskId;
            id in RecoveredRuns(records, now)
            && RecoveredRuns(records, now)[id].status == StatusFound(records[i].run.status)
  {
    RecoveredAt(records, now, i);
  }

  /** So when the write that follows a failure tears the store, the failed run is lost. */
  lemma TornStoreLosesEnd(id: string, origin: string, error: string, now: int, later: nat -> int)
    ensures var w0 := World(map[], map[], 0, NoFile, {}, map[]);
            var s1, s2 := Start(id, origin, [id], Written), Engine(id, Emits(RunFailed(error)), now);
            var w1 := Next(w0, s1);
            var w2 := Next(w1, s2);
            var s3 := Handle(id, now, [id], Torn);
            && Inv(w0) && Allowed(w0, s1) && Allowed(w1, s2) && Allowed(w2, s3)
            && id in Next(w2, s3).runs && Next(w2, s3).runs[id].status == Failed
            && id !in Recovered(Next(w2, s3).file, later).runs
  {
    hide RecordsOf, Enforced, RecoveredRuns, Inv;
    var w0 := World(map[], map[], 0, NoFile, {}, map[]);
    var s1 := Start(id, origin, [id], Written);
    OneRun(id);
    NothingIsConsistent();
    var w1 := Next(w0, s1);
    assert w1.runs == map[id := AgenticRun(id, Pending, None, [])];
    assert w1.engines == {id} && w1.channels == map[id := []];
    FailureTorn(w1, id, error, now);
  }

  lemma NothingIsConsistent()
    ensures Inv(World(map[], map[], 0, NoFile, {}, map[]))
  {
  }

  lemma OneRun(id: string)
    ensures Enumerates([id], {id})
  {
    assert id in [id];
  }

  lemma FailureTorn(w: World, id: string, error: string, now: int)
    requires w.runs.Keys == {id} && w.engines == {id} && w.channels == map[id := []]
    ensures var s2, s3 := Engine(id, Emits(RunFailed(error)), now), Handle(id, now, [id], Torn);
            && Allowed(w, s2) && Allowed(Next(w, s2), s3)
            && id in Next(Next(w, s2), s3).runs && Next(Next(w, s2), s3).runs[id].status == Failed
            && Next(Next(w, s2), s3).file == Unparseable
  {
    OneRun(id);
  }
}
