/** The bounded ring of captured log entries and its cursor reads
    (tauri-app/src/log_capture.rs). */
module LogCapture {
  datatype Message = Message(timestamp: string, level: string, target: string, text: string)

  datatype Entry = Entry(index: nat, message: Message)

  datatype Ring = Ring(entries: seq<Entry>, next: nat)

  const MAX_LOG_ENTRIES := 2000

  /** The index of the oldest entry, or the next index when there is none. */
  function First(r: Ring): nat {
    if r.entries == [] then r.next else r.entries[0].index
  }

  /** The entries are the last ones of the log, at most `MAX_LOG_ENTRIES` of them. */
  ghost predicate IsTail(r: Ring, log: seq<Message>) {
    && r.next == |log|
    && |r.entries| <= MAX_LOG_ENTRIES && |r.entries| <= |log|
    && forall i :: 0 <= i < |r.entries| ==>
         var at := |log| - |r.entries| + i; r.entries[i] == Entry(at, log[at])
  }

  /** Indices count up to the last one given out. */
  ghost predicate Contiguous(r: Ring) {
    && |r.entries| <= MAX_LOG_ENTRIES && |r.entries| <= r.next
    && forall i :: 0 <= i < |r.entries| ==> r.entries[i].index == r.next - |r.entries| + i
  }

  function Pushed(r: Ring, message: Message): Ring {
    var kept := if |r.entries| >= MAX_LOG_ENTRIES then r.entries[1..] else r.entries;
    Ring(kept + [Entry(r.next, message)], r.next + 1)
  }

  function Cleared(r: Ring): Ring {
    Ring([], r.next)
  }

  /** The entries from index `i` on. */
  function From(es: seq<Entry>, i: nat): (r: seq<Entry>)
    ensures forall e :: e in r <==> e in es && i <= e.index
  {
    if es == [] then []
    else (if i <= es[0].index then [es[0]] else []) + From(es[1..], i)
  }

  class LogRing {
    var entries: seq<Entry>
    var nextIndex: nat

    ghost function Contents(): Ring
      reads this
    {
      Ring(entries, nextIndex)
    }

    /** The class invariant. */
    ghost predicate Valid()
      reads this
    {
      Contiguous(Contents())
    }

    constructor ()
      ensures Valid() && Contents() == Ring([], 0)
    {
      entries, nextIndex := [], 0;
    }

    method Push(message: Message)
      requires Valid()
      modifies this
      ensures Valid() && Contents() == Pushed(old(Contents()), message)
    {
      var entry := Entry(nextIndex, message);
      nextIndex := nextIndex + 1;
      if |entries| >= MAX_LOG_ENTRIES {
        entries := entries[1..];
      }
      entries := entries + [entry];
    }

    method Clear()
      requires Valid()
      modifies this`entries
      ensures Valid() && Contents() == Cleared(old(Contents()))
    {
      entries := [];
    }

    /** The buffer is stored in two slices, cut at `cut`; the result is what of each is
        at `index` or later, and the index to ask for next. */
    method Since(index: nat, cut: nat) returns (a: seq<Entry>, b: seq<Entry>, next: nat)
      requires Valid() && cut <= |entries|
      ensures a + b == From(entries, index) && next == nextIndex
      ensures |a| <= cut && |b| <= |entries| - cut
    {
      hide From;
      a, b := entries[..cut], entries[cut..];
      FromIsDrop(Contents(), index);
      var firstIndex := if entries == [] then nextIndex else entries[0].index;
      if index >= nextIndex {
        return [], [], nextIndex;
      }
      var skip := if firstIndex <= index then index - firstIndex else 0;
      if skip >= |a| + |b| {
        return [], [], nextIndex;
      }
      if skip < |a| {
        assert a[skip..] + b == entries[skip..];
        return a[skip..], b, nextIndex;
      } else {
        assert b[skip - |a|..] == entries[skip..];
        return [], b[skip - |a|..], nextIndex;
      }
    }
  }

  /** In a contiguous ring, the entries from `i` on are a suffix. */
  lemma FromIsDrop(r: Ring, i: nat)
    requires Contiguous(r)
    ensures From(r.entries, i)
         == if r.next <= i then [] else r.entries[if i <= First(r) then 0 else i - First(r)..]
  {
    FromSuffix(r.entries, r.next - |r.entries|, i);
  }

  lemma {:induction false} FromSuffix(es: seq<Entry>, first: nat, i: nat)
    requires forall k :: 0 <= k < |es| ==> es[k].index == first + k
    ensures From(es, i) == if first + |es| <= i then [] else es[if i <= first then 0 else i - first..]
  {
    if es != [] {
      FromSuffix(es[1..], first + 1, i);
    }
  }

  // ---- Runs ----

  lemma PushedIsTail(r: Ring, log: seq<Message>, message: Message)
    requires IsTail(r, log)
    ensures IsTail(Pushed(r, message), log + [message])
  {
  }

  lemma TailIsContiguous(r: Ring, log: seq<Message>)
    requires IsTail(r, log)
    ensures Contiguous(r) && First(r) == |log| - |r.entries|
  {
  }

  datatype Event = Push(message: Message) | Clear | Poll

  /** The ring, everything ever pushed, and a client: the cursor it polls with, what
      it has been given, and what was evicted or cleared before it asked. */
  datatype Watch = Watch(ring: Ring, log: seq<Message>, cursor: nat, seen: seq<Entry>, lost: set<nat>)

  function Dropped(before: Ring, after: Ring, cursor: nat): set<nat> {
    set e | e in before.entries && e !in after.entries && cursor <= e.index :: e.index
  }

  function Next(w: Watch, e: Event): Watch {
    match e
    case Push(message) =>
      var r := Pushed(w.ring, message);
      w.(ring := r, log := w.log + [message], lost := w.lost + Dropped(w.ring, r, w.cursor))
    case Clear =>
      var r := Cleared(w.ring);
      w.(ring := r, lost := w.lost + Dropped(w.ring, r, w.cursor))
    case Poll =>
      w.(seen := w.seen + From(w.ring.entries, w.cursor), cursor := w.ring.next)
  }

  function Run(es: seq<Event>): Watch {
    if es == [] then Watch(Ring([], 0), [], 0, [], {})
    else Next(Run(es[..|es| - 1]), es[|es| - 1])
  }

  ghost predicate Increasing(es: seq<Entry>) {
    forall j, k :: 0 <= j < k < |es| ==> es[j].index < es[k].index
  }

  ghost predicate Genuine(es: seq<Entry>, log: seq<Message>) {
    forall k :: 0 <= k < |es| ==> es[k].index < |log| && es[k] == Entry(es[k].index, log[es[k].index])
  }

  /** Given to the client. */
  ghost predicate Seen(w: Watch, i: nat) {
    i < |w.log| && Entry(i, w.log[i]) in w.seen
  }

  /** Still to be given to the client by its next poll. */
  ghost predicate Waiting(w: Watch, i: nat) {
    w.cursor <= i && First(w.ring) <= i
  }

  ghost predicate Accounted(w: Watch) {
    forall i :: 0 <= i < |w.log| ==>
      (Seen(w, i) <==> !Waiting(w, i) && i !in w.lost)
  }

  ghost predicate Inv(w: Watch) {
    && IsTail(w.ring, w.log) && w.cursor <= |w.log|
    && Increasing(w.seen) && Genuine(w.seen, w.log)
    && (forall e :: e in w.seen ==> e.index < w.cursor)
    && (forall i :: i in w.lost ==> i < First(w.ring))
    && Accounted(w)
  }

  lemma KeptByPush(r: Ring, message: Message, k: nat)
    requires k < |r.entries| <= MAX_LOG_ENTRIES
    ensures r.entries[k] in Pushed(r, message).entries || (k == 0 && |r.entries| == MAX_LOG_ENTRIES)
  {
  }

  lemma PushDrops(w: Watch, message: Message)
    requires IsTail(w.ring, w.log)
    ensures var r := Pushed(w.ring, message);
            First(r) == First(w.ring) + (if |w.ring.entries| == MAX_LOG_ENTRIES then 1 else 0)
            && forall i: nat :: i in Dropped(w.ring, r, w.cursor)
                 <==> w.cursor <= i && First(w.ring) <= i < First(r)
  {
    var r := Pushed(w.ring, message);
    PushedIsTail(w.ring, w.log, message);
    forall i: nat | w.cursor <= i && First(w.ring) <= i < First(r)
      ensures i in Dropped(w.ring, r, w.cursor)
    {
      assert w.ring.entries[0].index == i;
      assert w.ring.entries[0] in w.ring.entries && w.ring.entries[0] !in r.entries;
    }
    forall e | e in w.ring.entries && e !in r.entries
      ensures First(w.ring) <= e.index < First(r)
    {
      var k :| 0 <= k < |w.ring.entries| && w.ring.entries[k] == e;
      KeptByPush(w.ring, message, k);
    }
  }

  lemma ClearDrops(w: Watch)
    requires IsTail(w.ring, w.log)
    ensures var r := Cleared(w.ring);
            First(r) == |w.log|
            && forall i: nat :: i in Dropped(w.ring, r, w.cursor)
                 <==> w.cursor <= i && First(w.ring) <= i < First(r)
  {
    forall i: nat | w.cursor <= i && First(w.ring) <= i < |w.log|
      ensures i in Dropped(w.ring, Cleared(w.ring), w.cursor)
    {
      var e := w.ring.entries[i - First(w.ring)];
      assert e in w.ring.entries && e.index == i;
    }
  }

  /** A step that only moves the start of the ring forward. */
  lemma DropKeepsInv(w: Watch, w': Watch)
    requires Inv(w) && IsTail(w'.ring, w'.log)
    requires w.log <= w'.log && w'.cursor == w.cursor && w'.seen == w.seen
    requires First(w.ring) <= First(w'.ring)
    requires forall i: nat :: i in w'.lost
               <==> i in w.lost || (w.cursor <= i && First(w.ring) <= i < First(w'.ring))
    ensures Inv(w')
  {
  }

  lemma PollGives(w: Watch, i: nat)
    requires IsTail(w.ring, w.log) && i < |w.log|
    ensures Entry(i, w.log[i]) in From(w.ring.entries, w.cursor) <==> Waiting(w, i)
  {
    if Waiting(w, i) {
      assert w.ring.entries[i - First(w.ring)] == Entry(i, w.log[i]);
    }
  }

  lemma PollKeepsInv(w: Watch)
    requires Inv(w)
    ensures Inv(Next(w, Poll))
  {
    hide From;
    var w' := Next(w, Poll);
    TailIsContiguous(w.ring, w.log);
    FromIsDrop(w.ring, w.cursor);
    forall i | 0 <= i < |w'.log|
      ensures Seen(w', i) <==> !Waiting(w', i) && i !in w'.lost
    {
      PollGives(w, i);
      assert Seen(w', i) <==> Seen(w, i) || Waiting(w, i);
    }
  }

  lemma NextKeepsInv(w: Watch, e: Event)
    requires Inv(w)
    ensures Inv(Next(w, e))
  {
    hide Inv, Dropped, From;
    assert IsTail(w.ring, w.log) by { TailOf(w); }
    match e
    case Push(message) =>
      PushedIsTail(w.ring, w.log, message);
      PushDrops(w, message);
      DropKeepsInv(w, Next(w, e));
    case Clear =>
      ClearDrops(w);
      TailIsContiguous(w.ring, w.log);
      DropKeepsInv(w, Next(w, e));
    case Poll => PollKeepsInv(w);
  }

  lemma TailOf(w: Watch)
    requires Inv(w)
    ensures IsTail(w.ring, w.log)
  {
  }

  lemma {:induction false} RunKeepsInv(es: seq<Event>)
    ensures Inv(Run(es))
    decreases |es|
  {
    hide Inv, Next;
    if es == [] {
      StartInv();
    } else {
      RunKeepsInv(es[..|es| - 1]);
      NextKeepsInv(Run(es[..|es| - 1]), es[|es| - 1]);
    }
  }

  lemma StartInv()
    ensures Inv(Watch(Ring([], 0), [], 0, [], {}))
  {
  }

  /** After any run of pushes, clears and polls: the ring is the end of the log with
      its own indices; the client has been given genuine entries, none twice, in order;
      and each index ever given out is in exactly one of three places: seen, waiting in
      the ring, or lost to an eviction or a clear before the client asked for it. */
  lemma PollingIsExact(es: seq<Event>)
    ensures var w := Run(es);
            && IsTail(w.ring, w.log) && Contiguous(w.ring)
            && Increasing(w.seen) && Genuine(w.seen, w.log)
            && (forall i :: i in w.lost ==> i < |w.log|)
            && forall i :: 0 <= i < |w.log| ==>
                 && (Seen(w, i) || Waiting(w, i) || i in w.lost)
                 && !(Seen(w, i) && Waiting(w, i)) && !(Seen(w, i) && i in w.lost)
                 && !(Waiting(w, i) && i in w.lost)
  {
    hide Run, Seen;
    RunKeepsInv(es);
    TailIsContiguous(Run(es).ring, Run(es).log);
  }

  /** A client that polls while nothing is evicted or cleared misses nothing. */
  lemma NothingLost(es: seq<Event>)
    requires Run(es).lost == {} && es != [] && es[|es| - 1] == Poll
    ensures var w := Run(es);
            w.seen == seq(|w.log|, i requires 0 <= i < |w.log| => Entry(i, w.log[i]))
  {
    hide Run;
    var w := Run(es);
    RunKeepsInv(es);
    assert w.cursor == |w.log| by { LastPoll(es); }
    forall i | 0 <= i < |w.log|
      ensures Entry(i, w.log[i]) in w.seen
    {
      assert Seen(w, i);
    }
    IncreasingIsAll(w.seen, w.log);
  }

  lemma LastPoll(es: seq<Event>)
    requires es != [] && es[|es| - 1] == Poll
    ensures Run(es).cursor == |Run(es).log|
  {
    RunKeepsInv(es[..|es| - 1]);
  }

  lemma {:induction false} IncreasingIsAll(es: seq<Entry>, log: seq<Message>)
    requires Increasing(es) && Genuine(es, log)
    requires forall i :: 0 <= i < |log| ==> Entry(i, log[i]) in es
    ensures es == seq(|log|, i requires 0 <= i < |log| => Entry(i, log[i]))
  {
    forall k | 0 <= k < |es|
      ensures es[k].index == k
    {
      IncreasingAt(es, log, k);
    }
    assert |es| > 0 ==> es[|es| - 1].index < |log|;
    if log != [] {
      var j :| 0 <= j < |es| && es[j] == Entry(|log| - 1, log[|log| - 1]);
      assert es[j].index == j;
    }
  }

  lemma {:induction false} IncreasingAt(es: seq<Entry>, log: seq<Message>, k: nat)
    requires Increasing(es) && Genuine(es, log) && k < |es|
    requires forall i :: 0 <= i < |log| ==> Entry(i, log[i]) in es
    ensures es[k].index == k
    decreases k
  {
    if k > 0 {
      IncreasingAt(es, log, k - 1);
      assert es[k - 1].index < es[k].index;
    }
    assert k <= es[k].index < |log|;
    var j :| 0 <= j < |es| && es[j] == Entry(k, log[k]);
    if j < k {
      IncreasingAt(es, log, j);
    }
  }
}
