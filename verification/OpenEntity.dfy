/** The one-window-per-entity protocol of the Hive app (hive-app/src/lib.rs):
    any number of `open_entity` calls and watcher tasks, interleaved. */
module OpenEntity {
  import opened Wrappers

  // ---- The shared set and its two critical sections ----

  class OpenEntities {
    var open: set<string>

    constructor ()
      ensures open == {}
    {
      open := {};
    }

    /** The check-and-insert at the head of `open_entity`. */
    method TryInsert(entity: string) returns (inserted: bool)
      modifies this
      ensures inserted == (entity !in old(open))
      ensures open == old(open) + {entity}
    {
      if entity in open {
        return false;
      }
      open := open + {entity};
      return true;
    }

    method Forget(entity: string)
      modifies this
      ensures open == old(open) - {entity}
    {
      open := open - {entity};
    }
  }

  // ---- One call of `open_entity`, with the watcher task it may leave behind ----

  datatype Command =
    | Called                          // entered
    | Located                         // runtime binary found, lock not yet taken
    | Opening                         // slot taken, waiting for the daemon
    | Launching                       // daemon URL known, about to spawn
    | Failing(spawning: bool)         // about to forget the entity
    | Closing                         // spawn failed, slot forgotten, asking the daemon to close
    | Returned(ok: bool)

  datatype Watcher =
    | Absent
    | Waiting                         // the Runtime child is alive
    | Reporting                       // child gone, asking the daemon to close
    | Forgetting                      // about to forget the entity
    | Finished

  datatype Call = Call(entity: string, command: Command, watcher: Watcher) {
    predicate Holds() {
      || command in {Opening, Launching} || command.Failing?
      || watcher in {Waiting, Reporting, Forgetting}
    }

    /** The check-and-insert is still to come. */
    predicate Early() {
      command in {Called, Located}
    }

    predicate Done() {
      command.Returned? && watcher in {Absent, Finished}
    }

    /** Steps the call may still take. */
    function Rank(): nat {
      (match command
       case Called => 9
       case Located => 8
       case Opening => 7
       case Launching => 6
       case Failing(_) => 2
       case Closing => 1
       case Returned(_) => 0)
      + (match watcher
         case Waiting => 3
         case Reporting => 2
         case Forgetting => 1
         case _ => 0)
    }
  }

  // ---- The protocol ----

  datatype SlotEvent = Acquired(call: nat, entity: string) | Released(call: nat, entity: string)

  /** The shared set, every call ever made, and the history of the slots. */
  datatype Desktop = Desktop(open: set<string>, calls: map<nat, Call>, history: seq<SlotEvent>)

  const START := Desktop({}, map[], [])

  datatype Step =
    | Begin(call: nat, entity: string)
    | Locate(call: nat, found: bool)
    | Enter(call: nat)                          // critical section: check and insert
    | DaemonReply(call: nat, hasUrl: bool)      // false: no URL, a refusal or a transport error
    | Spawn(call: nat, spawned: bool)
    | GiveUp(call: nat)                         // critical section: forget after a failure
    | CloseSent(call: nat)
    | ChildExits(call: nat)
    | Reported(call: nat)
    | WatcherForgets(call: nat)                 // critical section: forget after the child

  function Updated(d: Desktop, t: nat, c: Call): Desktop {
    d.(calls := d.calls[t := c])
  }

  function WithSlot(d: Desktop, t: nat, c: Call): Desktop {
    Desktop(d.open + {c.entity}, d.calls[t := c], d.history + [Acquired(t, c.entity)])
  }

  function WithoutSlot(d: Desktop, t: nat, c: Call): Desktop {
    Desktop(d.open - {c.entity}, d.calls[t := c], d.history + [Released(t, c.entity)])
  }

  /** The effect of a step; `None` when the step cannot happen. */
  function Next(d: Desktop, step: Step): Option<Desktop> {
    var t := step.call;
    if step.Begin? then
      if t in d.calls then None else Some(Updated(d, t, Call(step.entity, Called, Absent)))
    else if t !in d.calls then None
    else
      var c := d.calls[t];
      match step
      case Locate(_, found) =>
        if c.command != Called then None
        else Some(Updated(d, t, c.(command := if found then Located else Returned(false))))
      case Enter(_) =>
        if c.command != Located then None
        else if c.entity in d.open then Some(Updated(d, t, c.(command := Returned(true))))
        else Some(WithSlot(d, t, c.(command := Opening)))
      case DaemonReply(_, hasUrl) =>
        if c.command != Opening then None
        else Some(Updated(d, t, c.(command := if hasUrl then Launching else Failing(false))))
      case Spawn(_, spawned) =>
        if c.command != Launching then None
        else if spawned then Some(Updated(d, t, c.(command := Returned(true), watcher := Waiting)))
        else Some(Updated(d, t, c.(command := Failing(true))))
      case GiveUp(_) =>
        if !c.command.Failing? then None
        else Some(WithoutSlot(d, t, c.(command :=
                  if c.command.spawning then Closing else Returned(false))))
      case CloseSent(_) =>
        if c.command != Closing then None
        else Some(Updated(d, t, c.(command := Returned(false))))
      case ChildExits(_) =>
        if c.watcher != Waiting then None
        else Some(Updated(d, t, c.(watcher := Reporting)))
      case Reported(_) =>
        if c.watcher != Reporting then None
        else Some(Updated(d, t, c.(watcher := Forgetting)))
      case WatcherForgets(_) =>
        if c.watcher != Forgetting then None
        else Some(WithoutSlot(d, t, c.(watcher := Finished)))
  }

  /** What a step does to the shared set, on the set itself: the critical sections are
      the only steps that change it, and the first tells whether the call goes on. */
  method Perform(shared: OpenEntities, entity: string, step: Step, ghost d: Desktop) returns (goesOn: bool)
    requires Next(d, step).Some? && shared.open == d.open
    requires !step.Begin? ==> d.calls[step.call].entity == entity
    modifies shared
    ensures shared.open == Next(d, step).value.open
    ensures step.Enter? ==> (goesOn <==> Next(d, step).value.calls[step.call].command == Opening)
  {
    goesOn := true;
    match step {
      case Enter(_) => goesOn := shared.TryInsert(entity);
      case GiveUp(_) => shared.Forget(entity);
      case WatcherForgets(_) => shared.Forget(entity);
      case _ =>
    }
  }

  /** The state after a run; `None` when some step of it cannot happen. */
  function Run(steps: seq<Step>): Option<Desktop> {
    if steps == [] then Some(START)
    else match Run(steps[..|steps| - 1])
         case None => None
         case Some(d) => Next(d, steps[|steps| - 1])
  }

  // ---- Safety ----

  /** Who holds which slot according to the history, reading it as a lock: a slot
      is acquired only when free and released only by its holder. */
  function Holders(history: seq<SlotEvent>): Option<map<string, nat>> {
    if history == [] then Some(map[])
    else
      match Holders(history[..|history| - 1])
      case None => None
      case Some(h) =>
        match history[|history| - 1]
        case Acquired(t, e) => if e in h then None else Some(h[e := t])
        case Released(t, e) => if e in h && h[e] == t then Some(h - {e}) else None
  }

  ghost predicate Inv(d: Desktop) {
    && Holders(d.history).Some?
    && var h := Holders(d.history).value;
    && h.Keys == d.open
    && (forall e :: e in h ==> h[e] in d.calls && d.calls[h[e]].entity == e && d.calls[h[e]].Holds())
    && (forall t :: t in d.calls && d.calls[t].Holds() ==>
          d.calls[t].entity in h && h[d.calls[t].entity] == t)
    && (forall t :: t in d.calls ==> Coherent(d.calls[t]))
  }

  /** The command and its watcher are never both at work. */
  predicate Coherent(c: Call) {
    c.watcher == Absent || c.command == Returned(true)
  }

  lemma HoldersOfOneMore(history: seq<SlotEvent>, ev: SlotEvent)
    requires Holders(history).Some?
    ensures Holders(history + [ev])
         == var h := Holders(history).value;
            match ev
            case Acquired(t, e) => if e in h then None else Some(h[e := t])
            case Released(t, e) => if e in h && h[e] == t then Some(h - {e}) else None
  {
    assert (history + [ev])[..|history|] == history;
  }

  predicate IsUpdate(d: Desktop, t: nat, c: Call) {
    if t in d.calls
    then c.entity == d.calls[t].entity && c.Holds() == d.calls[t].Holds()
         && (c.Early() ==> d.calls[t].Early())
    else !c.Holds()
  }

  predicate IsTaking(d: Desktop, t: nat, c: Call) {
    && c.Holds() && !c.Early() && c.entity !in d.open
    && t in d.calls && c.entity == d.calls[t].entity
    && d.calls[t].Early() && !d.calls[t].Holds()
  }

  predicate IsReleasing(d: Desktop, t: nat, c: Call) {
    && !c.Holds() && !c.Early()
    && t in d.calls && c.entity == d.calls[t].entity
    && !d.calls[t].Early() && d.calls[t].Holds()
  }

  lemma UpdateKeepsInv(d: Desktop, t: nat, c: Call)
    requires Inv(d) && Coherent(c) && IsUpdate(d, t, c)
    ensures Inv(Updated(d, t, c))
  {
  }

  lemma TakingKeepsInv(d: Desktop, t: nat, c: Call)
    requires Inv(d) && Coherent(c) && IsTaking(d, t, c)
    ensures Inv(WithSlot(d, t, c))
  {
    HoldersOfOneMore(d.history, Acquired(t, c.entity));
  }

  lemma ReleasingKeepsInv(d: Desktop, t: nat, c: Call)
    requires Inv(d) && Coherent(c) && IsReleasing(d, t, c)
    ensures Inv(WithoutSlot(d, t, c))
  {
    HoldersOfOneMore(d.history, Released(t, c.entity));
  }

  /** Every step updates one call, takes a free slot for it or gives its own back. */
  lemma EffectOfNext(d: Desktop, step: Step)
    requires step.call in d.calls ==> Coherent(d.calls[step.call])
    requires Next(d, step).Some?
    ensures var t, d' := step.call, Next(d, step).value;
            && t in d'.calls && Coherent(d'.calls[t])
            && (|| (IsUpdate(d, t, d'.calls[t]) && d' == Updated(d, t, d'.calls[t]))
                || (IsTaking(d, t, d'.calls[t]) && d' == WithSlot(d, t, d'.calls[t]))
                || (IsReleasing(d, t, d'.calls[t]) && d' == WithoutSlot(d, t, d'.calls[t])))
  {
  }

  lemma CallIsCoherent(d: Desktop, t: nat)
    requires Inv(d)
    ensures t in d.calls ==> Coherent(d.calls[t])
  {
  }

  lemma NextKeepsInv(d: Desktop, step: Step)
    requires Inv(d) && Next(d, step).Some?
    ensures Inv(Next(d, step).value)
  {
    hide Inv, Next;
    var t, d' := step.call, Next(d, step).value;
    CallIsCoherent(d, t);
    EffectOfNext(d, step);
    var c := d'.calls[t];
    if IsUpdate(d, t, c) && d' == Updated(d, t, c) {
      UpdateKeepsInv(d, t, c);
    } else if IsTaking(d, t, c) && d' == WithSlot(d, t, c) {
      TakingKeepsInv(d, t, c);
    } else {
      ReleasingKeepsInv(d, t, c);
    }
  }

  lemma {:induction false} RunKeepsInv(steps: seq<Step>)
    requires Run(steps).Some?
    ensures Inv(Run(steps).value)
  {
    if steps != [] {
      RunKeepsInv(steps[..|steps| - 1]);
      NextKeepsInv(Run(steps[..|steps| - 1]).value, steps[|steps| - 1]);
    }
  }

  /** In every reachable state an entity is in the set exactly when one call holds
      its slot; so at most one Runtime child per entity is alive. */
  lemma SlotsAreExclusive(steps: seq<Step>)
    requires Run(steps).Some?
    ensures var d := Run(steps).value;
            && (forall e :: e in d.open <==>
                  exists t :: t in d.calls && d.calls[t].entity == e && d.calls[t].Holds())
            && (forall t, t' | t in d.calls && t' in d.calls
                               && d.calls[t].entity == d.calls[t'].entity ::
                  && (d.calls[t].Holds() && d.calls[t'].Holds() ==> t == t')
                  && (d.calls[t].watcher == d.calls[t'].watcher == Waiting ==> t == t'))
  {
    RunKeepsInv(steps);
  }

  /** The history of the slots is that of one lock per entity. */
  lemma HistoryIsALock(steps: seq<Step>)
    requires Run(steps).Some?
    ensures Holders(Run(steps).value.history).Some?
    ensures Holders(Run(steps).value.history).value.Keys == Run(steps).value.open
  {
    RunKeepsInv(steps);
  }

  /** A call returns success without a window of its own only while another call
      holds the entity's slot. */
  lemma SkippedOnlyWhenHeld(steps: seq<Step>, t: nat)
    requires Run(steps + [Enter(t)]).Some?
    ensures var d := Run(steps + [Enter(t)]).value;
            d.calls[t].command == Returned(true) <==>
            exists t' :: t' in d.calls && t' != t && d.calls[t'].Holds()
                         && d.calls[t'].entity == d.calls[t].entity
  {
    assert (steps + [Enter(t)])[..|steps|] == steps;
    RunKeepsInv(steps);
    var d, d' := Run(steps).value, Run(steps + [Enter(t)]).value;
    assert d' == Next(d, Enter(t)).value;
    var e := d.calls[t].entity;
    if e in d.open {
      var t' := Holders(d.history).value[e];
      assert t' != t && d'.calls[t'] == d.calls[t'];
    }
    forall t' | t' in d'.calls && t' != t && d'.calls[t'].Holds() && d'.calls[t'].entity == e
      ensures e in d.open
    {
      assert d'.calls[t'] == d.calls[t'];
    }
  }

  // ---- Every acquisition is released once, by its own call ----

  ghost predicate Balanced(d: Desktop, t: nat, e: string) {
    var taken, given := multiset(d.history)[Acquired(t, e)], multiset(d.history)[Released(t, e)];
    if t !in d.calls || d.calls[t].entity != e || d.calls[t].Early()
    then taken == 0 && given == 0
    else taken <= 1 && taken == given + if d.calls[t].Holds() then 1 else 0
  }

  lemma HistoryGrows(d: Desktop, d': Desktop, ev: SlotEvent)
    requires d'.history == d.history + [ev]
    ensures multiset(d'.history) == multiset(d.history) + multiset{ev}
  {
  }

  lemma NextKeepsBalance(d: Desktop, step: Step, t: nat, e: string)
    requires Inv(d) && Balanced(d, t, e) && Next(d, step).Some?
    ensures Balanced(Next(d, step).value, t, e)
  {
    hide Inv, Holders, Next;
    var u, d' := step.call, Next(d, step).value;
    CallIsCoherent(d, u);
    EffectOfNext(d, step);
    var c := d'.calls[u];
    if IsUpdate(d, u, c) && d' == Updated(d, u, c) {
    } else if IsTaking(d, u, c) && d' == WithSlot(d, u, c) {
      HistoryGrows(d, d', Acquired(u, c.entity));
    } else {
      HistoryGrows(d, d', Released(u, c.entity));
    }
  }

  /** Each call acquires its slot at most once, and at any time has released it
      exactly as often as it acquired it, but for the slot it still holds. */
  lemma {:induction false} SlotsAreBalanced(steps: seq<Step>, t: nat, e: string)
    requires Run(steps).Some?
    ensures Balanced(Run(steps).value, t, e)
  {
    if steps == [] {
    } else {
      var before := steps[..|steps| - 1];
      SlotsAreBalanced(before, t, e);
      RunKeepsInv(before);
      NextKeepsBalance(Run(before).value, steps[|steps| - 1], t, e);
    }
  }

  // ---- Every call comes to its end ----

  /** How many steps of a run belong to a call. */
  function StepsOf(steps: seq<Step>, t: nat): nat {
    if steps == [] then 0
    else StepsOf(steps[..|steps| - 1], t) + if steps[|steps| - 1].call == t then 1 else 0
  }

  lemma {:induction false} RankFalls(steps: seq<Step>, t: nat)
    requires Run(steps).Some?
    ensures if t in Run(steps).value.calls
            then StepsOf(steps, t) + Run(steps).value.calls[t].Rank() <= 10
            else StepsOf(steps, t) == 0
  {
    if steps != [] {
      RankFalls(steps[..|steps| - 1], t);
    }
  }

  /** The places of a call's steps in a run. */
  function PlacesOf(steps: seq<Step>, t: nat): set<nat> {
    set i: nat | i < |steps| && steps[i].call == t
  }

  lemma {:induction false} StepsOfIs(steps: seq<Step>, t: nat)
    ensures StepsOf(steps, t) == |PlacesOf(steps, t)|
  {
    if steps != [] {
      var n := |steps| - 1;
      StepsOfIs(steps[..n], t);
      assert PlacesOf(steps, t) == PlacesOf(steps[..n], t) + if steps[n].call == t then {n} else {};
    }
  }

  /** No call takes more than ten steps, whatever the others do. */
  lemma CallsAreBounded(steps: seq<Step>, t: nat)
    requires Run(steps).Some?
    ensures |PlacesOf(steps, t)| <= 10
    ensures t !in Run(steps).value.calls ==> PlacesOf(steps, t) == {}
  {
    RankFalls(steps, t);
    StepsOfIs(steps, t);
  }

  /** A call that is not done has a step of its own to take, in any state. */
  lemma NotStuck(d: Desktop, t: nat) returns (step: Step)
    requires t in d.calls && !d.calls[t].Done()
    ensures step.call == t && !step.Begin? && Next(d, step).Some?
  {
    var c := d.calls[t];
    step := match c.command
            case Called => Locate(t, true)
            case Located => Enter(t)
            case Opening => DaemonReply(t, true)
            case Launching => Spawn(t, true)
            case Failing(_) => GiveUp(t)
            case Closing => CloseSent(t)
            case Returned(_) =>
              (match c.watcher
               case Waiting => ChildExits(t)
               case Reporting => Reported(t)
               case _ => WatcherForgets(t));
  }

  /** When nothing but a new call can happen, no slot is held and every
      acquisition in the history has been released by the call that made it. */
  lemma QuietMeansReleased(steps: seq<Step>)
    requires Run(steps).Some?
    requires forall step: Step :: !step.Begin? ==> Next(Run(steps).value, step).None?
    ensures Run(steps).value.open == {}
    ensures forall t, e :: multiset(Run(steps).value.history)[Acquired(t, e)]
                        == multiset(Run(steps).value.history)[Released(t, e)] <= 1
  {
    var d := Run(steps).value;
    RunKeepsInv(steps);
    forall t | t in d.calls
      ensures d.calls[t].Done()
    {
      if !d.calls[t].Done() {
        var step := NotStuck(d, t);
      }
    }
    forall t: nat, e
      ensures multiset(d.history)[Acquired(t, e)] == multiset(d.history)[Released(t, e)] <= 1
    {
      SlotsAreBalanced(steps, t, e);
    }
    assert forall e :: e in Holders(d.history).value ==> false;
  }
}
