/** What the answer of an `open_entity` call says of the run it was made in
    (hive-app/src/lib.rs). */
module OpenEntityAnswers {
  import opened Wrappers
  import opened OpenEntity

  /** The call entered while another held its entity's slot. */
  ghost predicate Skipped(steps: seq<Step>, t: nat) {
    exists i :: 0 <= i < |steps| && steps[i] == Enter(t) && Run(steps[..i]).Some?
                && t in Run(steps[..i]).value.calls
                && Run(steps[..i]).value.calls[t].entity in Run(steps[..i]).value.open
  }

  // ---- The steps a call has taken ----

  /** The steps of a call; `skipped` tells whether its entering found the slot held. */
  datatype Trace = Trace(taken: set<Step>, skipped: bool)

  ghost function TraceOf(steps: seq<Step>, t: nat): Trace {
    Trace((set step | step in steps && step.call == t), Skipped(steps, t))
  }

  ghost predicate Held(d: Desktop, t: nat) {
    t in d.calls && d.calls[t].entity in d.open
  }

  /** The trace of a call once it has taken one more step. */
  ghost function Longer(tr: Trace, d: Desktop, step: Step): Trace {
    Trace(tr.taken + {step}, tr.skipped || (step.Enter? && Held(d, step.call)))
  }

  lemma SkippedOneMore(steps: seq<Step>, step: Step, t: nat)
    requires Run(steps).Some?
    ensures Skipped(steps + [step], t) <==>
            Skipped(steps, t)
            || (step == Enter(t) && t in Run(steps).value.calls
                && Run(steps).value.calls[t].entity in Run(steps).value.open)
  {
    var more := steps + [step];
    forall i | 0 <= i <= |steps|
      ensures more[..i] == steps[..i]
    {
    }
    assert steps[..|steps|] == steps;
    if Skipped(steps, t) {
      var i :| 0 <= i < |steps| && steps[i] == Enter(t) && Run(steps[..i]).Some?
               && t in Run(steps[..i]).value.calls
               && Run(steps[..i]).value.calls[t].entity in Run(steps[..i]).value.open;
      assert more[i] == Enter(t) && more[..i] == steps[..i];
    }
    if step == Enter(t) {
      assert more[|steps|] == Enter(t) && more[..|steps|] == steps;
    }
  }

  lemma TraceOneMore(steps: seq<Step>, step: Step, t: nat)
    requires Run(steps).Some?
    ensures TraceOf(steps + [step], t)
         == if step.call == t then Longer(TraceOf(steps, t), Run(steps).value, step) else TraceOf(steps, t)
  {
    hide Skipped, Run;
    SkippedOneMore(steps, step, t);
  }

  // ---- What the trace tells of the state ----

  /** Where a call has got to, told from its trace. */
  ghost predicate Told(tr: Trace, t: nat, c: Call) {
    CommandTold(tr, t, c.command) && WatcherTold(tr, t, c.watcher)
  }

  ghost predicate CommandTold(tr: Trace, t: nat, command: Command) {
    var taken := tr.taken;
    && (command == Called <==> Locate(t, true) !in taken && Locate(t, false) !in taken)
    && (command == Located <==> Locate(t, true) in taken && Enter(t) !in taken)
    && (command == Opening <==>
          Enter(t) in taken && !tr.skipped && DaemonReply(t, true) !in taken && DaemonReply(t, false) !in taken)
    && (command == Launching <==>
          DaemonReply(t, true) in taken && Spawn(t, true) !in taken && Spawn(t, false) !in taken)
    && (command == Failing(false) <==> DaemonReply(t, false) in taken && GiveUp(t) !in taken)
    && (command == Failing(true) <==> Spawn(t, false) in taken && GiveUp(t) !in taken)
    && (command == Closing <==> Spawn(t, false) in taken && GiveUp(t) in taken && CloseSent(t) !in taken)
    && (command == Returned(true) <==> tr.skipped || Spawn(t, true) in taken)
    && (command == Returned(false) <==>
          Locate(t, false) in taken || (DaemonReply(t, false) in taken && GiveUp(t) in taken) || CloseSent(t) in taken)
  }

  ghost predicate WatcherTold(tr: Trace, t: nat, watcher: Watcher) {
    var taken := tr.taken;
    && (watcher == Absent <==> Spawn(t, true) !in taken)
    && (watcher == Waiting <==> Spawn(t, true) in taken && ChildExits(t) !in taken)
    && (watcher == Reporting <==> ChildExits(t) in taken && Reported(t) !in taken)
    && (watcher == Forgetting <==> Reported(t) in taken && WatcherForgets(t) !in taken)
    && (watcher == Finished <==> WatcherForgets(t) in taken)
  }

  /** Each step has its own before it, and two outcomes of one step exclude each other. */
  ghost predicate InOrder(tr: Trace, t: nat) {
    var taken := tr.taken;
    && (Enter(t) in taken ==> Locate(t, true) in taken)
    && (tr.skipped ==> Enter(t) in taken)
    && !(Locate(t, true) in taken && Locate(t, false) in taken)
    && (DaemonReply(t, true) in taken || DaemonReply(t, false) in taken ==> Enter(t) in taken && !tr.skipped)
    && !(DaemonReply(t, true) in taken && DaemonReply(t, false) in taken)
    && (Spawn(t, true) in taken || Spawn(t, false) in taken ==> DaemonReply(t, true) in taken)
    && !(Spawn(t, true) in taken && Spawn(t, false) in taken)
    && (GiveUp(t) in taken ==> DaemonReply(t, false) in taken || Spawn(t, false) in taken)
    && (CloseSent(t) in taken ==> Spawn(t, false) in taken && GiveUp(t) in taken)
    && (ChildExits(t) in taken ==> Spawn(t, true) in taken)
    && (Reported(t) in taken ==> ChildExits(t) in taken)
    && (WatcherForgets(t) in taken ==> Reported(t) in taken)
  }

  ghost predicate ToldIn(tr: Trace, d: Desktop, t: nat) {
    if t in d.calls then Told(tr, t, d.calls[t]) && InOrder(tr, t) else tr == Trace({}, false)
  }

  lemma BeginIsTold(tr: Trace, d: Desktop, step: Step)
    requires step.Begin? && Next(d, step).Some? && tr == Trace({}, false)
    ensures ToldIn(Longer(tr, d, step), Next(d, step).value, step.call)
  {
  }

  lemma OrderIsKept(tr: Trace, d: Desktop, step: Step)
    requires Next(d, step).Some? && !step.Begin? && Told(tr, step.call, d.calls[step.call]) && InOrder(tr, step.call)
    ensures InOrder(Longer(tr, d, step), step.call)
  {
  }

  lemma CommandIsKept(tr: Trace, d: Desktop, step: Step)
    requires Next(d, step).Some? && !step.Begin? && Told(tr, step.call, d.calls[step.call]) && InOrder(tr, step.call)
    ensures step.call in Next(d, step).value.calls
    ensures CommandTold(Longer(tr, d, step), step.call, Next(d, step).value.calls[step.call].command)
  {
  }

  lemma WatcherIsKept(tr: Trace, d: Desktop, step: Step)
    requires Next(d, step).Some? && !step.Begin? && Told(tr, step.call, d.calls[step.call]) && InOrder(tr, step.call)
    ensures step.call in Next(d, step).value.calls
    ensures WatcherTold(Longer(tr, d, step), step.call, Next(d, step).value.calls[step.call].watcher)
  {
  }

  lemma StepKeepsTold(tr: Trace, d: Desktop, step: Step)
    requires Next(d, step).Some? && ToldIn(tr, d, step.call)
    ensures ToldIn(Longer(tr, d, step), Next(d, step).value, step.call)
  {
    hide Longer, InOrder, CommandTold, WatcherTold, Next;
    if step.call !in d.calls {
      OnlyBegins(d, step);
      BeginIsTold(tr, d, step);
    } else {
      OnlyNewBegins(d, step);
      OrderIsKept(tr, d, step);
      CommandIsKept(tr, d, step);
      WatcherIsKept(tr, d, step);
    }
  }

  lemma OnlyBegins(d: Desktop, step: Step)
    requires Next(d, step).Some? && step.call !in d.calls
    ensures step.Begin?
  {
  }

  lemma OnlyNewBegins(d: Desktop, step: Step)
    requires Next(d, step).Some? && step.call in d.calls
    ensures !step.Begin?
  {
  }

  lemma OthersAreLeft(d: Desktop, step: Step, t: nat)
    requires Next(d, step).Some? && step.call != t
    ensures t in Next(d, step).value.calls <==> t in d.calls
    ensures t in d.calls ==> Next(d, step).value.calls[t] == d.calls[t]
  {
  }

  lemma EmptyTrace(t: nat)
    ensures TraceOf([], t) == Trace({}, false)
  {
  }

  /** Over every run, the state of each call is what its own steps say. */
  lemma {:induction false} StateIsTold(steps: seq<Step>, t: nat)
    requires Run(steps).Some?
    ensures ToldIn(TraceOf(steps, t), Run(steps).value, t)
  {
    hide TraceOf, Told, InOrder, Longer, Next, Held;
    if steps == [] {
      EmptyTrace(t);
    } else {
      var n := |steps| - 1;
      var d := Run(steps[..n]).value;
      StateIsTold(steps[..n], t);
      TraceOneMore(steps[..n], steps[n], t);
      assert steps[..n] + [steps[n]] == steps;
      if steps[n].call == t {
        StepKeepsTold(TraceOf(steps[..n], t), d, steps[n]);
      } else {
        OthersAreLeft(d, steps[n], t);
      }
    }
  }

  // ---- The answers ----

  /** A call answers with success exactly when another held its slot or its Runtime child
      was launched. */
  lemma SuccessExactly(steps: seq<Step>, t: nat)
    requires Run(steps).Some? && t in Run(steps).value.calls
    ensures Run(steps).value.calls[t].command == Returned(true) <==> Skipped(steps, t) || Spawn(t, true) in steps
  {
    StateIsTold(steps, t);
  }

  /** It answers with an error exactly when, in the end, something it needs has failed: the
      binary was not found, or the daemon refused or the launch failed and the slot was
      given back, and for a failed launch the daemon was asked to close. */
  lemma ErrorExactly(steps: seq<Step>, t: nat)
    requires Run(steps).Some? && t in Run(steps).value.calls
    ensures Run(steps).value.calls[t].command == Returned(false) <==>
            || Locate(t, false) in steps
            || (DaemonReply(t, false) in steps && GiveUp(t) in steps)
            || (Spawn(t, false) in steps && GiveUp(t) in steps && CloseSent(t) in steps)
  {
    StateIsTold(steps, t);
  }

  /** The daemon is asked to close only after a failed launch, and after every one by the
      time the call has answered. */
  lemma CloseFollowsFailedLaunch(steps: seq<Step>, t: nat)
    requires Run(steps).Some?
    ensures CloseSent(t) in steps ==> Spawn(t, false) in steps
    ensures t in Run(steps).value.calls && Run(steps).value.calls[t].command.Returned? ==>
              (CloseSent(t) in steps <==> Spawn(t, false) in steps)
  {
    StateIsTold(steps, t);
  }

  /** A call has a watcher exactly when it launched a child; so one that took its slot and
      answered with success has one. */
  lemma WatcherExactly(steps: seq<Step>, t: nat)
    requires Run(steps).Some? && t in Run(steps).value.calls
    ensures Run(steps).value.calls[t].watcher != Absent <==> Spawn(t, true) in steps
    ensures Run(steps).value.calls[t].command == Returned(true)
            && Acquired(t, Run(steps).value.calls[t].entity) in Run(steps).value.history ==>
              Run(steps).value.calls[t].watcher != Absent
  {
    hide Skipped, Next, Run;
    StateIsTold(steps, t);
    AcquiredIsNotSkipped(steps, t);
  }

  lemma {:induction false} AcquiredIsNotSkipped(steps: seq<Step>, t: nat)
    requires Run(steps).Some?
    ensures forall e :: Acquired(t, e) in Run(steps).value.history ==> Enter(t) in steps && !Skipped(steps, t)
  {
    hide Skipped;
    if steps != [] {
      var n := |steps| - 1;
      AcquiredIsNotSkipped(steps[..n], t);
      StateIsTold(steps[..n], t);
      SkippedOneMore(steps[..n], steps[n], t);
      assert steps[..n] + [steps[n]] == steps;
    }
  }
}
