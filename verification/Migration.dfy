/** The rerunnable import of legacy SQLite files
    (crates/abigail-persistence/src/migration.rs). */
module Migration {
  import opened Wrappers

  // ---- Legacy files and the shared store ----

  datatype Row = Row(id: string, content: string)

  /** A legacy database; tables it does not have are empty. */
  datatype Database =
    | Unreadable
    | Readable(memories: seq<Row>, turns: seq<Row>, jobs: seq<Row>, events: seq<Row>, entries: seq<Row>)

  datatype FilePath = FilePath(dir: string, name: string)

  /** A name has an extension when a dot follows its first character. */
  predicate HasExtension(name: string) {
    name != [] && '.' in name[1..]
  }

  const SUFFIX := ".legacy-imported"

  /** `with_extension("<ext>.legacy-imported")`. */
  function Archived(p: FilePath): FilePath {
    FilePath(p.dir, p.name + (if HasExtension(p.name) then "" else ".") + SUFFIX)
  }

  /** The archived name goes on where the file's own name ends; without an extension it
      gets an empty one. */
  lemma ArchivedName(p: FilePath)
    ensures Archived(p).dir == p.dir && p.name <= Archived(p).name
    ensures Archived(p).name[|p.name|..]
         == if exists i :: 0 < i < |p.name| && p.name[i] == '.' then ".legacy-imported" else "..legacy-imported"
  {
    var a := Archived(p).name;
    if HasExtension(p.name) {
      var k :| 0 <= k < |p.name[1..]| && p.name[1..][k] == '.';
      assert p.name[k + 1] == '.';
      assert a == p.name + ".legacy-imported";
    } else {
      forall i | 0 < i < |p.name|
        ensures p.name[i] != '.'
      {
        assert p.name[1..][i - 1] in p.name[1..];
      }
      assert "." + SUFFIX == "..legacy-imported" && a == p.name + ("." + SUFFIX);
    }
  }

  datatype Table = MemoryEntry | ConversationTurn | JobRecord | CalendarEvent | KbEntry

  datatype Key = Key(scope: Option<string>, table: Table, id: string)

  datatype World = World(store: map<Key, Row>, files: map<FilePath, Database>)

  /** `entity` is the data directory's name, `None` for the Hive itself. */
  datatype Config = Config(entity: Option<string>, dataDir: string, db: FilePath)

  datatype Kind = MemoryDb | JobsDb | CalendarDb | KnowledgeDb

  function PathOf(c: Config, kind: Kind): FilePath {
    match kind
    case MemoryDb => c.db
    case JobsDb => FilePath(c.dataDir, "jobs.db")
    case CalendarDb => FilePath(c.dataDir, "calendar.db")
    case KnowledgeDb => FilePath(c.dataDir, "kb.db")
  }

  /** The sources, in the order in which they are imported. */
  const KINDS: seq<Kind> := [MemoryDb, JobsDb, CalendarDb, KnowledgeDb]

  /** The source is there to be imported; the shared store itself is not a source. */
  predicate Pending(c: Config, kind: Kind, files: map<FilePath, Database>) {
    PathOf(c, kind) in files && (kind == MemoryDb ==> c.db.name != "memory.db")
  }

  // ---- What a run does ----

  datatype Effect = Upsert(key: Key, row: Row) | Archive(path: FilePath)

  /** `archive_legacy_source`: the file gets its archived name, if it is there. */
  function Renamed(files: map<FilePath, Database>, p: FilePath): map<FilePath, Database> {
    if p in files then (files - {p})[Archived(p) := files[p]] else files
  }

  function Applied(w: World, e: Effect): World {
    match e
    case Upsert(key, row) => w.(store := w.store[key := row])
    case Archive(p) => w.(files := Renamed(w.files, p))
  }

  function AppliedAll(w: World, es: seq<Effect>): World
    decreases |es|
  {
    if es == [] then w else AppliedAll(Applied(w, es[0]), es[1..])
  }

  function Upserts(scope: Option<string>, table: Table, rows: seq<Row>): (es: seq<Effect>)
    ensures |es| == |rows|
    ensures forall e :: e in es ==> e.Upsert?
  {
    seq(|rows|, i requires 0 <= i < |rows| => Upsert(Key(scope, table, rows[i].id), rows[i]))
  }

  /** The upserts importing one database; jobs go to the Hive, the rest to the scope. */
  function Imports(c: Config, kind: Kind, db: Database): (es: seq<Effect>)
    requires db.Readable?
    ensures forall e :: e in es ==> e.Upsert?
  {
    match kind
    case MemoryDb => Upserts(c.entity, MemoryEntry, db.memories)
                     + Upserts(c.entity, ConversationTurn, db.turns)
    case JobsDb => Upserts(None, JobRecord, db.jobs)
    case CalendarDb => Upserts(c.entity, CalendarEvent, db.events)
    case KnowledgeDb => Upserts(c.entity, KbEntry, db.entries)
  }

  /** Everything a run does from the `n`-th source on: a source is imported row by
      row and then archived; an unreadable one ends the run. */
  function Plan(c: Config, n: nat, files: map<FilePath, Database>): seq<Effect>
    requires n <= |KINDS|
    decreases |KINDS| - n
  {
    if n == |KINDS| then []
    else if !Pending(c, KINDS[n], files) then Plan(c, n + 1, files)
    else
      var p := PathOf(c, KINDS[n]);
      if files[p].Unreadable? then []
      else Imports(c, KINDS[n], files[p]) + ([Archive(p)] + Plan(c, n + 1, Renamed(files, p)))
  }

  function Finished(c: Config, w: World): World {
    AppliedAll(w, Plan(c, 0, w.files))
  }

  /** From the `n`-th source on, a run archives a file under the name of the main database. */
  ghost predicate Revives(c: Config, n: nat, files: map<FilePath, Database>)
    requires n <= |KINDS|
  {
    && c.db.name != "memory.db"
    && exists p :: Archive(p) in Plan(c, n, files) && Archived(p) == c.db
  }

  // ---- Effects ----

  lemma {:induction false} AppliedConcat(w: World, a: seq<Effect>, b: seq<Effect>)
    ensures AppliedAll(w, a + b) == AppliedAll(AppliedAll(w, a), b)
    decreases |a|
  {
    if a == [] {
      assert a + b == b;
    } else {
      assert (a + b)[1..] == a[1..] + b;
      AppliedConcat(Applied(w, a[0]), a[1..], b);
    }
  }

  ghost predicate OnlyUpserts(es: seq<Effect>) {
    forall e :: e in es ==> e.Upsert?
  }

  /** What a series of upserts writes. */
  function Written(es: seq<Effect>): map<Key, Row> {
    if es == [] then map[]
    else
      match es[|es| - 1]
      case Upsert(key, row) => Written(es[..|es| - 1])[key := row]
      case Archive(_) => Written(es[..|es| - 1])
  }

  lemma MergesOneMore<K, V>(m: map<K, V>, n: map<K, V>, k: K, v: V)
    ensures (m + n)[k := v] == m + n[k := v]
  {
  }

  lemma {:induction false} UpsertsMerge(w: World, es: seq<Effect>)
    requires OnlyUpserts(es)
    ensures AppliedAll(w, es) == w.(store := w.store + Written(es))
    decreases |es|
  {
    if es != [] {
      var init, last := es[..|es| - 1], es[|es| - 1];
      assert es == init + [last];
      AppliedConcat(w, init, [last]);
      UpsertsMerge(w, init);
      assert AppliedAll(w, es) == Applied(AppliedAll(w, init), last);
      assert last in es;
      MergesOneMore(w.store, Written(init), last.key, last.row);
    }
  }

  lemma {:induction false} WrittenKeysGrow(a: seq<Effect>, b: seq<Effect>)
    ensures Written(a).Keys <= Written(a + b).Keys
    decreases |b|
  {
    if b == [] {
      assert a + b == a;
    } else {
      WrittenKeysGrow(a, b[..|b| - 1]);
      assert (a + b)[..|a + b| - 1] == a + b[..|b| - 1];
    }
  }

  /** Redoing a series of upserts after part of it changes nothing. */
  lemma UpsertsRedo(w: World, es: seq<Effect>, k: nat)
    requires OnlyUpserts(es) && k <= |es|
    ensures AppliedAll(AppliedAll(w, es[..k]), es) == AppliedAll(w, es)
  {
    hide AppliedAll, Written;
    UpsertsMerge(w, es[..k]);
    UpsertsMerge(w, es);
    UpsertsMerge(AppliedAll(w, es[..k]), es);
    assert es == es[..k] + es[k..];
    WrittenKeysGrow(es[..k], es[k..]);
    assert w.store + Written(es[..k]) + Written(es) == w.store + Written(es);
  }

  // ---- Where rows land ----

  function KindOf(t: Table): Kind {
    match t
    case MemoryEntry => MemoryDb
    case ConversationTurn => MemoryDb
    case JobRecord => JobsDb
    case CalendarEvent => CalendarDb
    case KbEntry => KnowledgeDb
  }

  /** Jobs belong to the Hive, all else to the configured scope. */
  function ScopeOf(c: Config, t: Table): Option<string> {
    if t == JobRecord then None else c.entity
  }

  function RowsOf(db: Database, t: Table): seq<Row>
    requires db.Readable?
  {
    match t
    case MemoryEntry => db.memories
    case ConversationTurn => db.turns
    case JobRecord => db.jobs
    case CalendarEvent => db.events
    case KbEntry => db.entries
  }

  /** Of rows with the same id the last one counts. */
  function LastRow(rows: seq<Row>, id: string): (r: Option<Row>)
    ensures r.Some? ==> r.value in rows && r.value.id == id
    ensures r.None? ==> forall row :: row in rows ==> row.id != id
  {
    if rows == [] then None
    else if rows[|rows| - 1].id == id then Some(rows[|rows| - 1])
    else LastRow(rows[..|rows| - 1], id)
  }

  lemma {:induction false} UpsertsLand(scope: Option<string>, table: Table, rows: seq<Row>, key: Key)
    ensures key in Written(Upserts(scope, table, rows))
       <==> key.scope == scope && key.table == table && LastRow(rows, key.id).Some?
    ensures key in Written(Upserts(scope, table, rows)) ==>
              Written(Upserts(scope, table, rows))[key] == LastRow(rows, key.id).value
    decreases |rows|
  {
    if rows != [] {
      var n := |rows| - 1;
      UpsertsLand(scope, table, rows[..n], key);
      assert Upserts(scope, table, rows)[..n] == Upserts(scope, table, rows[..n]);
    }
  }

  lemma {:induction false} WrittenConcat(a: seq<Effect>, b: seq<Effect>)
    ensures Written(a + b) == Written(a) + Written(b)
    decreases |b|
  {
    if b == [] {
      assert a + b == a;
    } else {
      var n := |b| - 1;
      assert (a + b)[..|a + b| - 1] == a + b[..n];
      WrittenConcat(a, b[..n]);
    }
  }

  /** Importing a database writes, for each of its tables, the last row of every id under
      that table and its scope, and nothing else. */
  lemma ImportsLandExactly(c: Config, kind: Kind, db: Database, key: Key)
    requires db.Readable?
    ensures var written := Written(Imports(c, kind, db));
            && (key in written <==>
                  KindOf(key.table) == kind && key.scope == ScopeOf(c, key.table)
                  && LastRow(RowsOf(db, key.table), key.id).Some?)
            && (key in written ==> written[key] == LastRow(RowsOf(db, key.table), key.id).value)
  {
    hide Written, LastRow, Upserts;
    match kind
    case MemoryDb =>
      WrittenConcat(Upserts(c.entity, MemoryEntry, db.memories), Upserts(c.entity, ConversationTurn, db.turns));
      UpsertsLand(c.entity, MemoryEntry, db.memories, key);
      UpsertsLand(c.entity, ConversationTurn, db.turns, key);
    case JobsDb => UpsertsLand(None, JobRecord, db.jobs, key);
    case CalendarDb => UpsertsLand(c.entity, CalendarEvent, db.events, key);
    case KnowledgeDb => UpsertsLand(c.entity, KbEntry, db.entries, key);
  }

  // ---- Crash and rerun ----

  predicate Importable(c: Config, n: nat, w: World)
    requires n < |KINDS|
  {
    Pending(c, KINDS[n], w.files) && w.files[PathOf(c, KINDS[n])].Readable?
  }

  function ImportsOf(c: Config, n: nat, w: World): (es: seq<Effect>)
    requires n < |KINDS| && Importable(c, n, w)
    ensures OnlyUpserts(es)
  {
    Imports(c, KINDS[n], w.files[PathOf(c, KINDS[n])])
  }

  /** The world once the `n`-th source is imported and archived. */
  function AfterSource(c: Config, n: nat, w: World): World
    requires n < |KINDS| && Importable(c, n, w)
  {
    World(w.store + Written(ImportsOf(c, n, w)), Renamed(w.files, PathOf(c, KINDS[n])))
  }

  /** The plan imports a source, archives it and goes on from there. */
  lemma PlanSplits(c: Config, n: nat, w: World)
    requires n < |KINDS| && Importable(c, n, w)
    ensures Plan(c, n, w.files)
         == ImportsOf(c, n, w) + ([Archive(PathOf(c, KINDS[n]))]
                                  + Plan(c, n + 1, AfterSource(c, n, w).files))
    ensures AppliedAll(w, ImportsOf(c, n, w) + [Archive(PathOf(c, KINDS[n]))]) == AfterSource(c, n, w)
  {
    hide Imports, Renamed, Pending, Written;
    var us, p := ImportsOf(c, n, w), PathOf(c, KINDS[n]);
    UpsertsMerge(w, us);
    AppliedConcat(w, us, [Archive(p)]);
    AppliedOne(w.(store := w.store + Written(us)), Archive(p));
  }

  lemma AppliedOne(w: World, e: Effect)
    ensures AppliedAll(w, [e]) == Applied(w, e)
  {
    assert [e][1..] == [];
  }

  /** Where a run stopped after `k` effects has got to: within the imports of the
      `n`-th source, or `k - |imports| - 1` effects past its archiving. */
  lemma StoppedPlan(c: Config, n: nat, w: World, k: nat)
    requires n < |KINDS| && Importable(c, n, w) && k <= |Plan(c, n, w.files)|
    ensures var us, rest := ImportsOf(c, n, w), Plan(c, n + 1, AfterSource(c, n, w).files);
            && |Plan(c, n, w.files)| == |us| + 1 + |rest|
            && AppliedAll(w, Plan(c, n, w.files)[..k])
            == if k <= |us| then w.(store := w.store + Written(us[..k]))
               else AppliedAll(AfterSource(c, n, w), rest[..k - |us| - 1])
  {
    hide Plan, Pending, AppliedAll, Written;
    var us, rest := ImportsOf(c, n, w), Plan(c, n + 1, AfterSource(c, n, w).files);
    var step := [Archive(PathOf(c, KINDS[n]))];
    PlanSplits(c, n, w);
    if k <= |us| {
      assert (us + (step + rest))[..k] == us[..k];
      UpsertsMerge(w, us[..k]);
    } else {
      var j := k - |us| - 1;
      assert (us + (step + rest))[..k] == (us + step) + rest[..j];
      AppliedConcat(w, us + step, rest[..j]);
    }
  }

  /** A source that is gone stays gone unless an archived file takes its name. */
  lemma {:induction false} GoneStaysGone(c: Config, kind: Kind, w: World, es: seq<Effect>)
    requires !Pending(c, kind, w.files)
    requires (kind == MemoryDb && c.db.name == "memory.db") ||
             forall p :: Archive(p) in es ==> Archived(p) != PathOf(c, kind)
    ensures !Pending(c, kind, AppliedAll(w, es).files)
    decreases |es|
  {
    hide Archived, PathOf;
    if es != [] {
      assert es[0] in es;
      GoneStaysGone(c, kind, Applied(w, es[0]), es[1..]);
    }
  }

  /** A source archived from the `n`-th on is the `n`-th or one archived after it. */
  lemma ArchiveSplits(c: Config, n: nat, w: World, p: FilePath)
    requires n < |KINDS| && Archive(p) in Plan(c, n, w.files)
    ensures if !Pending(c, KINDS[n], w.files) then Archive(p) in Plan(c, n + 1, w.files)
            else Importable(c, n, w)
                 && (p == PathOf(c, KINDS[n]) || Archive(p) in Plan(c, n + 1, AfterSource(c, n, w).files))
  {
  }

  lemma {:induction false} PlanArchives(c: Config, n: nat, w: World, p: FilePath) returns (m: nat)
    requires n <= |KINDS| && Archive(p) in Plan(c, n, w.files)
    ensures n <= m < |KINDS| && p == PathOf(c, KINDS[m])
    decreases |KINDS| - n
  {
    hide Pending, Imports, PathOf, Written, Renamed, Importable;
    ArchiveSplits(c, n, w, p);
    if !Pending(c, KINDS[n], w.files) {
      m := PlanArchives(c, n + 1, w, p);
    } else if p == PathOf(c, KINDS[n]) {
      m := n;
    } else {
      m := PlanArchives(c, n + 1, AfterSource(c, n, w), p);
    }
  }

  /** The sources after the main database and their archived names never clash. */
  lemma NamesApart(c: Config, n: nat, m: nat)
    requires 0 < n < |KINDS| && 0 < m < |KINDS| && n != m
    ensures PathOf(c, KINDS[m]) != Archived(PathOf(c, KINDS[n]))
    ensures Archived(PathOf(c, KINDS[m])) != Archived(PathOf(c, KINDS[n]))
  {
    var a, b := PathOf(c, KINDS[n]).name, PathOf(c, KINDS[m]).name;
    assert a[0] != b[0];
    assert Archived(PathOf(c, KINDS[n])).name[0] == a[0];
    assert Archived(PathOf(c, KINDS[m])).name[0] == b[0];
  }

  /** The part of a run from the `n`-th source on brings back no earlier source. */
  lemma EarlierStaysGone(c: Config, m: nat, n: nat, w: World, k: nat)
    requires m < n <= |KINDS| && (m == 0 ==> !Revives(c, n, w.files))
    requires !Pending(c, KINDS[m], w.files)
    requires k <= |Plan(c, n, w.files)|
    ensures !Pending(c, KINDS[m], AppliedAll(w, Plan(c, n, w.files)[..k]).files)
  {
    hide Plan, Pending, Archived;
    var es := Plan(c, n, w.files)[..k];
    if m != 0 {
      forall p | Archive(p) in es
        ensures Archived(p) != PathOf(c, KINDS[m])
      {
        var x := PlanArchives(c, n, w, p);
        NamesApart(c, x, m);
      }
    }
    GoneStaysGone(c, KINDS[m], w, es);
  }

  lemma SourceGoneAfter(c: Config, n: nat, w: World)
    requires n < |KINDS| && Importable(c, n, w)
    ensures !Pending(c, KINDS[n], AfterSource(c, n, w).files)
  {
  }

  /** What revives the main database later on also does so in the whole plan. */
  lemma RevivesLater(c: Config, n: nat, w: World)
    requires n < |KINDS| && !Revives(c, n, w.files)
    ensures !Pending(c, KINDS[n], w.files) ==> !Revives(c, n + 1, w.files)
    ensures Importable(c, n, w) ==> !Revives(c, n + 1, AfterSource(c, n, w).files)
  {
  }

  /** The world of a run from the `n`-th source on, stopped after `k` effects. */
  function Stopped(c: Config, n: nat, w: World, k: nat): World
    requires n <= |KINDS| && k <= |Plan(c, n, w.files)|
  {
    AppliedAll(w, Plan(c, n, w.files)[..k])
  }

  /** What is left for the `n`-th source once it is gone or a stopped run is past it. */
  lemma StoppedPastSource(c: Config, n: nat, w: World, k: nat)
    requires n < |KINDS| && (n == 0 ==> !Revives(c, n, w.files))
    requires k <= |Plan(c, n, w.files)|
    ensures !Pending(c, KINDS[n], w.files) ==> !Pending(c, KINDS[n], Stopped(c, n, w, k).files)
    ensures Importable(c, n, w) && |ImportsOf(c, n, w)| < k ==> !Pending(c, KINDS[n], Stopped(c, n, w, k).files)
  {
    hide Plan, Revives, Imports, Written, Applied, AppliedAll, Renamed, PathOf;
    if n == 0 { RevivesLater(c, n, w); }
    if !Pending(c, KINDS[n], w.files) {
      SkippedPlan(c, n, w);
      EarlierStaysGone(c, n, n + 1, w, k);
    } else if Importable(c, n, w) && |ImportsOf(c, n, w)| < k {
      StoppedPlan(c, n, w, k);
      SourceGoneAfter(c, n, w);
      EarlierStaysGone(c, n, n + 1, AfterSource(c, n, w), k - |ImportsOf(c, n, w)| - 1);
    }
  }

  lemma SkippedPlan(c: Config, n: nat, w: World)
    requires n < |KINDS| && !Pending(c, KINDS[n], w.files)
    ensures Plan(c, n, w.files) == Plan(c, n + 1, w.files)
  {
  }

  /** An unreadable source ends the run at once. */
  lemma UnreadableStops(c: Config, n: nat, w: World)
    requires n < |KINDS| && Pending(c, KINDS[n], w.files) && !Importable(c, n, w)
    ensures Plan(c, n, w.files) == [] && Stopped(c, n, w, 0) == w
  {
  }

  lemma NothingApplied(w: World)
    ensures AppliedAll(w, []) == w
  {
  }

  /** A run stopped after any effect and then run again ends in the same world. */
  lemma {:induction false} RerunFrom(c: Config, n: nat, w: World, k: nat)
    requires n <= |KINDS| && (n == 0 ==> !Revives(c, n, w.files)) && k <= |Plan(c, n, w.files)|
    ensures var w1 := Stopped(c, n, w, k);
            AppliedAll(w1, Plan(c, n, w1.files)) == AppliedAll(w, Plan(c, n, w.files))
    decreases |KINDS| - n
  {
    hide Revives, Imports, Written, Applied, Renamed, PathOf, AppliedAll;
    if n == |KINDS| {
      NothingApplied(w);
    } else if !Pending(c, KINDS[n], w.files) {
      StoppedPastSource(c, n, w, k);
      RerunFrom(c, n + 1, w, k);
    } else if Importable(c, n, w) {
      RerunSource(c, n, w, k);
      StoppedPastSource(c, n, w, k);
      if |ImportsOf(c, n, w)| < k {
        SkippedPlan(c, n, Stopped(c, n, w, k));
        RerunFrom(c, n + 1, AfterSource(c, n, w), k - |ImportsOf(c, n, w)| - 1);
      }
    } else {
      UnreadableStops(c, n, w);
    }
  }

  /** The second run archives nothing that the first would not have. */
  lemma {:induction false} RerunArchives(c: Config, n: nat, w: World, k: nat, p: FilePath)
    requires n <= |KINDS| && (n == 0 ==> !Revives(c, n, w.files)) && k <= |Plan(c, n, w.files)|
    requires Archive(p) in Plan(c, n, Stopped(c, n, w, k).files)
    ensures Archive(p) in Plan(c, n, w.files)
    decreases |KINDS| - n
  {
    hide Revives, Imports, Written, Applied, Renamed, PathOf, AppliedAll;
    if n == |KINDS| {
    } else if !Pending(c, KINDS[n], w.files) {
      StoppedPastSource(c, n, w, k);
      RerunArchives(c, n + 1, w, k, p);
    } else if Importable(c, n, w) {
      StoppedPlan(c, n, w, k);
      StoppedPastSource(c, n, w, k);
      if |ImportsOf(c, n, w)| < k {
        SkippedPlan(c, n, Stopped(c, n, w, k));
        RerunArchives(c, n + 1, AfterSource(c, n, w), k - |ImportsOf(c, n, w)| - 1, p);
        PlanSplits(c, n, w);
      }
    } else {
      UnreadableStops(c, n, w);
    }
  }

  lemma RerunSource(c: Config, n: nat, w: World, k: nat)
    requires n < |KINDS| && Importable(c, n, w) && k <= |Plan(c, n, w.files)|
    ensures var w1 := AppliedAll(w, Plan(c, n, w.files)[..k]);
            var us, rest := ImportsOf(c, n, w), Plan(c, n + 1, AfterSource(c, n, w).files);
            if k <= |us|
            then AppliedAll(w1, Plan(c, n, w1.files)) == AppliedAll(w, Plan(c, n, w.files))
            else && k - |us| - 1 <= |rest|
                 && w1 == AppliedAll(AfterSource(c, n, w), rest[..k - |us| - 1])
                 && AppliedAll(w, Plan(c, n, w.files)) == AppliedAll(AfterSource(c, n, w), rest)
  {
    hide Plan, Pending, AppliedAll, Written;
    var us, rest := ImportsOf(c, n, w), Plan(c, n + 1, AfterSource(c, n, w).files);
    var step := [Archive(PathOf(c, KINDS[n]))];
    StoppedPlan(c, n, w, k);
    PlanSplits(c, n, w);
    AppliedConcat(w, us, step + rest);
    if k <= |us| {
      var w1 := AppliedAll(w, Plan(c, n, w.files)[..k]);
      UpsertsMerge(w, us[..k]);
      AppliedConcat(w1, us, step + rest);
      UpsertsRedo(w, us, k);
    } else {
      assert us + (step + rest) == (us + step) + rest;
      AppliedConcat(w, us + step, rest);
    }
  }

  /** The world after runs stopped after `stops[0]`, `stops[1]`, ... effects. */
  function Interrupted(c: Config, w: World, stops: seq<nat>): World
    decreases |stops|
  {
    if stops == [] then w
    else
      var plan := Plan(c, 0, w.files);
      var k := if stops[0] <= |plan| then stops[0] else |plan|;
      Interrupted(c, AppliedAll(w, plan[..k]), stops[1..])
  }

  lemma StillNotRevives(c: Config, w: World, k: nat)
    requires !Revives(c, 0, w.files) && k <= |Plan(c, 0, w.files)|
    ensures !Revives(c, 0, Stopped(c, 0, w, k).files)
  {
    hide Plan, Archived, Stopped;
    forall p | Archive(p) in Plan(c, 0, Stopped(c, 0, w, k).files)
      ensures Archive(p) in Plan(c, 0, w.files)
    {
      RerunArchives(c, 0, w, k, p);
    }
  }

  /** However often a run is stopped, and wherever, one that is left to finish
      ends in the world of a single uninterrupted run. */
  lemma {:induction false} CrashesDoNotMatter(c: Config, w: World, stops: seq<nat>)
    requires !Revives(c, 0, w.files)
    ensures Finished(c, Interrupted(c, w, stops)) == Finished(c, w)
    decreases |stops|
  {
    hide Plan, Archived, Revives;
    if stops != [] {
      var plan := Plan(c, 0, w.files);
      var k := if stops[0] <= |plan| then stops[0] else |plan|;
      RerunFrom(c, 0, w, k);
      StillNotRevives(c, w, k);
      CrashesDoNotMatter(c, AppliedAll(w, plan[..k]), stops[1..]);
    }
  }

  // ---- A further run ----

  /** From the `n`-th source on, a finished run leaves nothing to import. */
  lemma {:induction false} NothingLeftFrom(c: Config, n: nat, w: World)
    requires n <= |KINDS| && (n == 0 ==> !Revives(c, n, w.files))
    ensures Plan(c, n, AppliedAll(w, Plan(c, n, w.files)).files) == []
    decreases |KINDS| - n
  {
    hide Revives, Imports, Written, Applied, Renamed, PathOf;
    var plan := Plan(c, n, w.files);
    assert plan[..|plan|] == plan;
    if n == |KINDS| {
    } else if !Pending(c, KINDS[n], w.files) {
      if n == 0 { RevivesLater(c, n, w); }
      EarlierStaysGone(c, n, n + 1, w, |plan|);
      NothingLeftFrom(c, n + 1, w);
    } else if Importable(c, n, w) {
      if n == 0 { RevivesLater(c, n, w); }
      var w' := AfterSource(c, n, w);
      var rest := Plan(c, n + 1, w'.files);
      assert rest[..|rest|] == rest;
      StoppedPlan(c, n, w, |plan|);
      SourceGoneAfter(c, n, w);
      EarlierStaysGone(c, n, n + 1, w', |rest|);
      NothingLeftFrom(c, n + 1, w');
    }
  }

  /** An archived file keeps its name and content to the end of the run. */
  lemma {:induction false} ArchivedIsKept(c: Config, n: nat, w: World, q: FilePath)
    requires n <= |KINDS| && q in w.files && w.files[q].Readable?
    requires forall m :: n <= m < |KINDS| ==>
               PathOf(c, KINDS[m]) != q && Archived(PathOf(c, KINDS[m])) != q
    ensures var w' := AppliedAll(w, Plan(c, n, w.files)); q in w'.files && w'.files[q].Readable?
    decreases |KINDS| - n
  {
    hide Imports, Written, Archived, PathOf;
    var plan := Plan(c, n, w.files);
    assert plan[..|plan|] == plan;
    if n == |KINDS| {
    } else if !Pending(c, KINDS[n], w.files) {
      ArchivedIsKept(c, n + 1, w, q);
    } else if Importable(c, n, w) {
      var rest := Plan(c, n + 1, AfterSource(c, n, w).files);
      assert rest[..|rest|] == rest;
      StoppedPlan(c, n, w, |plan|);
      ArchivedIsKept(c, n + 1, AfterSource(c, n, w), q);
    }
  }

  lemma SourceIsKept(c: Config, n: nat, w: World)
    requires 0 < n < |KINDS| && Importable(c, n, w)
    ensures var q := Archived(PathOf(c, KINDS[n]));
            var w' := AppliedAll(AfterSource(c, n, w), Plan(c, n + 1, AfterSource(c, n, w).files));
            q in w'.files && w'.files[q].Readable?
  {
    hide Plan, Imports, Written, Archived, PathOf, AppliedAll;
    forall m | n < m < |KINDS|
      ensures PathOf(c, KINDS[m]) != Archived(PathOf(c, KINDS[n]))
      ensures Archived(PathOf(c, KINDS[m])) != Archived(PathOf(c, KINDS[n]))
    {
      NamesApart(c, n, m);
    }
    ArchivedIsKept(c, n + 1, AfterSource(c, n, w), Archived(PathOf(c, KINDS[n])));
  }

  /** What a run archives is there under its archived name at the end. */
  lemma {:induction false} ArchivedIsThere(c: Config, n: nat, w: World, p: FilePath)
    requires 0 < n <= |KINDS| && Archive(p) in Plan(c, n, w.files)
    ensures var w' := AppliedAll(w, Plan(c, n, w.files));
            Archived(p) in w'.files && w'.files[Archived(p)].Readable?
    decreases |KINDS| - n
  {
    hide Imports, Written, Archived, PathOf, AppliedAll, Renamed, Importable, AfterSource;
    ArchiveSplits(c, n, w, p);
    if !Pending(c, KINDS[n], w.files) {
      ArchivedIsThere(c, n + 1, w, p);
    } else {
      var plan, rest := Plan(c, n, w.files), Plan(c, n + 1, AfterSource(c, n, w).files);
      assert plan[..|plan|] == plan && rest[..|rest|] == rest;
      StoppedPlan(c, n, w, |plan|);
      if p == PathOf(c, KINDS[n]) {
        SourceIsKept(c, n, w);
      } else {
        ArchivedIsThere(c, n + 1, AfterSource(c, n, w), p);
      }
    }
  }

  lemma ArchivedAtEnd(c: Config, w: World, p: FilePath)
    requires Archive(p) in Plan(c, 0, w.files) && p != c.db
    ensures Archived(p) in Finished(c, w).files && Finished(c, w).files[Archived(p)].Readable?
  {
    hide Imports, Written, Renamed, AppliedAll, Applied, Archived, PathOf, KINDS;
    ArchiveSplits(c, 0, w, p);
    MainIsFirst(c);
    if !Pending(c, KINDS[0], w.files) {
      ArchivedIsThere(c, 1, w, p);
    } else {
      var plan, rest := Plan(c, 0, w.files), Plan(c, 1, AfterSource(c, 0, w).files);
      assert plan[..|plan|] == plan && rest[..|rest|] == rest;
      StoppedPlan(c, 0, w, |plan|);
      ArchivedIsThere(c, 1, AfterSource(c, 0, w), p);
    }
  }

  lemma RevivedIsPending(c: Config, w: World)
    ensures Revives(c, 0, w.files) ==> Plan(c, 0, Finished(c, w).files) != []
  {
    hide Plan, Finished, Archived;
    if Revives(c, 0, w.files) {
      var p :| Archive(p) in Plan(c, 0, w.files) && Archived(p) == c.db;
      ArchivedIsLonger(p);
      ArchivedAtEnd(c, w, p);
      MainIsPending(c, Finished(c, w));
    }
  }

  lemma ArchivedIsLonger(p: FilePath)
    ensures Archived(p) != p
  {
    assert |Archived(p).name| > |p.name|;
  }

  lemma MainIsFirst(c: Config)
    ensures |KINDS| == 4 && PathOf(c, KINDS[0]) == c.db
  {
  }

  lemma MainIsPending(c: Config, w: World)
    requires c.db.name != "memory.db" && c.db in w.files && w.files[c.db].Readable?
    ensures Plan(c, 0, w.files) != []
  {
    PlanSplits(c, 0, w);
  }

  /** A further run imports nothing, exactly when no archived file has taken the
      name of the main database. */
  lemma SecondRunExact(c: Config, w: World)
    ensures Plan(c, 0, Finished(c, w).files) == [] <==> !Revives(c, 0, w.files)
  {
    hide Plan, Archived, Revives;
    if Revives(c, 0, w.files) {
      RevivedIsPending(c, w);
    } else {
      NothingLeftFrom(c, 0, w);
    }
  }

  /** Whatever a finished run leaves of the main database, no later source is left. */
  lemma LaterPlanIsEmpty(c: Config, w: World)
    requires !Pending(c, KINDS[0], w.files) || Importable(c, 0, w)
    ensures Plan(c, 1, Finished(c, w).files) == []
  {
    hide Imports, Written, Renamed, PathOf, Applied;
    if !Pending(c, KINDS[0], w.files) {
      SkippedPlan(c, 0, w);
      NothingLeftFrom(c, 1, w);
    } else {
      var plan, rest := Plan(c, 0, w.files), Plan(c, 1, AfterSource(c, 0, w).files);
      assert plan[..|plan|] == plan && rest[..|rest|] == rest;
      StoppedPlan(c, 0, w, |plan|);
      NothingLeftFrom(c, 1, AfterSource(c, 0, w));
    }
  }

  /** With nothing to import, taking away a readable file leaves nothing to import. */
  lemma {:induction false} StillNothing(c: Config, n: nat, f: map<FilePath, Database>, g: map<FilePath, Database>)
    requires n <= |KINDS| && Plan(c, n, f) == []
    requires forall m :: n <= m < |KINDS| ==> OnlyReadableGone(PathOf(c, KINDS[m]), f, g)
    ensures Plan(c, n, g) == []
    decreases |KINDS| - n
  {
    hide Imports, PathOf, Renamed;
    if n < |KINDS| && !Pending(c, KINDS[n], f) {
      StillNothing(c, n + 1, f, g);
    }
  }

  predicate OnlyReadableGone(p: FilePath, f: map<FilePath, Database>, g: map<FilePath, Database>) {
    && (p in g ==> p in f && g[p] == f[p])
    && (p in f && f[p].Unreadable? ==> p in g)
  }

  lemma MainIsTaken(c: Config, v: World)
    requires c.db.name != "memory.db" && c.db in v.files && v.files[c.db].Readable?
    requires Plan(c, 1, v.files) == []
    ensures c.db !in Finished(c, v).files
  {
    hide Imports, Written, HasExtension;
    var v' := AfterSource(c, 0, v);
    PlanSplits(c, 0, v);
    forall m | 1 <= m < |KINDS|
      ensures OnlyReadableGone(PathOf(c, KINDS[m]), v.files, v'.files)
    {
      assert |Archived(c.db).name| >= |SUFFIX| > |PathOf(c, KINDS[m]).name|;
    }
    StillNothing(c, 1, v.files, v'.files);
    assert ImportsOf(c, 0, v) + ([Archive(c.db)] + []) == ImportsOf(c, 0, v) + [Archive(c.db)];
    ArchivedIsLonger(c.db);
  }

  /** A main database brought back is imported and taken away by the next run. */
  lemma RevivedIsTaken(c: Config, w: World)
    ensures Revives(c, 0, w.files) ==> Finished(c, Finished(c, w)) != Finished(c, w)
  {
    hide Finished, Archived, Applied, Written, Imports;
    if Revives(c, 0, w.files) {
      var p :| Archive(p) in Plan(c, 0, w.files) && Archived(p) == c.db;
      ArchivedIsLonger(p);
      ArchivedAtEnd(c, w, p);
      ArchiveSplits(c, 0, w, p);
      LaterPlanIsEmpty(c, w);
      MainIsTaken(c, Finished(c, w));
    }
  }

  /** Stopping does no harm exactly when no archived file takes the name of the
      main database; otherwise even a second full run changes the outcome. */
  lemma CrashesExact(c: Config, w: World)
    ensures (forall stops :: Finished(c, Interrupted(c, w, stops)) == Finished(c, w))
        <==> !Revives(c, 0, w.files)
  {
    hide Finished, Revives;
    if Revives(c, 0, w.files) {
      RevivedIsTaken(c, w);
      InterruptedAtEnd(c, w);
    } else {
      forall stops
        ensures Finished(c, Interrupted(c, w, stops)) == Finished(c, w)
      {
        CrashesDoNotMatter(c, w, stops);
      }
    }
  }

  lemma InterruptedAtEnd(c: Config, w: World)
    ensures Interrupted(c, w, [|Plan(c, 0, w.files)|]) == Finished(c, w)
  {
    hide Plan, AppliedAll;
    var plan := Plan(c, 0, w.files);
    assert plan[..|plan|] == plan && [|plan|][1..] == [];
  }

  lemma JobsRevive(c: Config, w: World)
    requires c.db == Archived(PathOf(c, JobsDb)) && c.db.name != "memory.db"
    requires c.db !in w.files && Importable(c, 1, w)
    ensures Revives(c, 0, w.files)
  {
  }

  lemma ArchivedJobs(dir: string)
    ensures Archived(FilePath(dir, "jobs.db")) == FilePath(dir, "jobs.db" + SUFFIX)
    ensures "jobs.db" + SUFFIX != "memory.db"
  {
  }

  /** A main database that bears the archived name of the jobs file is such a case. */
  lemma RevivalExample(dir: string, jobs: Database)
    requires jobs.Readable?
    ensures var c := Config(None, dir, FilePath(dir, "jobs.db" + SUFFIX));
            Revives(c, 0, map[FilePath(dir, "jobs.db") := jobs])
  {
    hide Archived, Revives;
    var c := Config(None, dir, FilePath(dir, "jobs.db" + SUFFIX));
    ArchivedJobs(dir);
    ArchivedIsLonger(FilePath(dir, "jobs.db"));
    JobsRevive(c, World(map[], map[FilePath(dir, "jobs.db") := jobs]));
  }

  // ---- The report and the migration log ----

  datatype Report = Report(memories: nat, turns: nat, jobs: nat, events: nat, entries: nat,
                           sources: seq<FilePath>)

  const EMPTY_REPORT := Report(0, 0, 0, 0, 0, [])

  function Counted(r: Report, e: Effect): Report {
    match e
    case Archive(p) => r.(sources := r.sources + [p])
    case Upsert(key, _) =>
      match key.table
      case MemoryEntry => r.(memories := r.memories + 1)
      case ConversationTurn => r.(turns := r.turns + 1)
      case JobRecord => r.(jobs := r.jobs + 1)
      case CalendarEvent => r.(events := r.events + 1)
      case KbEntry => r.(entries := r.entries + 1)
  }

  function CountedAll(r: Report, es: seq<Effect>): Report
    decreases |es|
  {
    if es == [] then r else CountedAll(Counted(r, es[0]), es[1..])
  }

  lemma {:induction false} CountedConcat(r: Report, a: seq<Effect>, b: seq<Effect>)
    ensures CountedAll(r, a + b) == CountedAll(CountedAll(r, a), b)
    decreases |a|
  {
    if a == [] {
      assert a + b == b;
    } else {
      assert (a + b)[1..] == a[1..] + b;
      CountedConcat(Counted(r, a[0]), a[1..], b);
    }
  }

  /** The archived sources, in order. */
  function Archives(es: seq<Effect>): seq<FilePath> {
    if es == [] then []
    else
      match es[0]
      case Archive(p) => [p] + Archives(es[1..])
      case Upsert(_, _) => Archives(es[1..])
  }

  /** Every effect of a run is in its report once. */
  lemma {:induction false} ReportCoversAll(r: Report, es: seq<Effect>)
    ensures Total(CountedAll(r, es)) == Total(r) + |es|
    ensures CountedAll(r, es).sources == r.sources + Archives(es)
    decreases |es|
  {
    if es != [] {
      ReportCoversAll(Counted(r, es[0]), es[1..]);
    }
  }

  function Total(r: Report): nat {
    r.memories + r.turns + r.jobs + r.events + r.entries + |r.sources|
  }

  /** From the `n`-th source on, a run comes to an unreadable one. */
  predicate Blocked(c: Config, n: nat, files: map<FilePath, Database>)
    requires n <= |KINDS|
    decreases |KINDS| - n
  {
    n < |KINDS| &&
    if !Pending(c, KINDS[n], files) then Blocked(c, n + 1, files)
    else files[PathOf(c, KINDS[n])].Unreadable?
         || Blocked(c, n + 1, Renamed(files, PathOf(c, KINDS[n])))
  }

  /** A run that is left to finish writes the migration log. */
  predicate Logs(c: Config, files: map<FilePath, Database>) {
    !Blocked(c, 0, files) && CountedAll(EMPTY_REPORT, Plan(c, 0, files)).sources != []
  }

  /** A run stopped short of the end of an unblocked plan has something left, and is not
      blocked when it is run again; one stopped at the end has nothing left. */
  lemma {:induction false} StoppedHasMore(c: Config, n: nat, w: World, k: nat)
    requires n <= |KINDS| && (n == 0 ==> !Revives(c, n, w.files)) && k <= |Plan(c, n, w.files)|
    requires !Blocked(c, n, w.files)
    ensures !Blocked(c, n, Stopped(c, n, w, k).files)
    ensures Plan(c, n, Stopped(c, n, w, k).files) == [] <==> k == |Plan(c, n, w.files)|
    decreases |KINDS| - n
  {
    hide Plan, Blocked, Revives, Imports, Written, Applied, Renamed, PathOf, AppliedAll;
    if n == |KINDS| {
      PlanEnd(c, w.files);
      PlanEnd(c, Stopped(c, n, w, k).files);
    } else {
      var w1 := Stopped(c, n, w, k);
      PlanStep(c, n, w);
      PlanStep(c, n, w1);
      StoppedPastSource(c, n, w, k);
      if !Pending(c, KINDS[n], w.files) {
        if n == 0 { RevivesLater(c, n, w); }
        StoppedHasMore(c, n + 1, w, k);
      } else {
        StoppedPlan(c, n, w, k);
        if |ImportsOf(c, n, w)| < k {
          StoppedHasMore(c, n + 1, AfterSource(c, n, w), k - |ImportsOf(c, n, w)| - 1);
        }
      }
    }
  }

  /** Whatever is left of an unblocked run, it ends by archiving a source. */
  lemma {:induction false} UnblockedArchives(c: Config, n: nat, w: World)
    requires n <= |KINDS| && !Blocked(c, n, w.files)
    ensures Archives(Plan(c, n, w.files)) != [] <==> Plan(c, n, w.files) != []
    decreases |KINDS| - n
  {
    hide Plan, Blocked, Imports, Written, Renamed, PathOf;
    if n == |KINDS| {
      PlanEnd(c, w.files);
    } else {
      PlanStep(c, n, w);
      if !Pending(c, KINDS[n], w.files) {
        UnblockedArchives(c, n + 1, w);
      } else {
        ArchivesConcat(SourceEffects(c, n, w), Plan(c, n + 1, AfterSource(c, n, w).files));
        ArchivesConcat(ImportsOf(c, n, w), [Archive(PathOf(c, KINDS[n]))]);
      }
    }
  }

  lemma {:induction false} ArchivesConcat(a: seq<Effect>, b: seq<Effect>)
    ensures Archives(a + b) == Archives(a) + Archives(b)
  {
    if a == [] {
      assert a + b == b;
    } else {
      assert (a + b)[1..] == a[1..] + b;
      ArchivesConcat(a[1..], b);
    }
  }

  /** A run that would be logged and dies before its log entry: the run that follows
      writes one exactly when an effect was still missing, so a crash between the last
      rename and the entry loses it for good. */
  lemma LogSurvivesExactly(c: Config, w: World, k: nat)
    requires Logs(c, w.files) && !Revives(c, 0, w.files) && k <= |Plan(c, 0, w.files)|
    ensures Logs(c, Stopped(c, 0, w, k).files) <==> k < |Plan(c, 0, w.files)|
  {
    hide Plan, Blocked, Revives, Stopped, CountedAll, Archives;
    var w1 := Stopped(c, 0, w, k);
    StoppedHasMore(c, 0, w, k);
    UnblockedArchives(c, 0, w1);
    ReportCoversAll(EMPTY_REPORT, Plan(c, 0, w1.files));
  }

  // ---- The run, step by step ----

  /** The world, and how many more effects the process lives to see. */
  datatype Machine = Machine(world: World, left: nat)

  function RunFor(m: Machine, es: seq<Effect>): Machine
    decreases |es|
  {
    if es == [] || m.left == 0 then m else RunFor(Machine(Applied(m.world, es[0]), m.left - 1), es[1..])
  }

  lemma {:induction false} RunForConcat(m: Machine, a: seq<Effect>, b: seq<Effect>)
    ensures RunFor(m, a + b) == RunFor(RunFor(m, a), b)
    decreases |a|
  {
    if a == [] {
      assert a + b == b;
    } else if 0 < m.left {
      assert (a + b)[1..] == a[1..] + b;
      RunForConcat(Machine(Applied(m.world, a[0]), m.left - 1), a[1..], b);
    }
  }

  /** A process that lives to see `left` effects is a run stopped after as many. */
  lemma {:induction false} RunForIsStopped(m: Machine, es: seq<Effect>)
    ensures var k := if m.left <= |es| then m.left else |es|;
            RunFor(m, es) == Machine(AppliedAll(m.world, es[..k]), m.left - k)
    decreases |es|
  {
    var k := if m.left <= |es| then m.left else |es|;
    if es != [] && 0 < m.left {
      RunForIsStopped(Machine(Applied(m.world, es[0]), m.left - 1), es[1..]);
      assert es[..k] == [es[0]] + es[1..][..k - 1];
    }
  }

  lemma OneMore(m: Machine, r: Report, es: seq<Effect>, i: nat)
    requires i < |es|
    ensures var m' := RunFor(m, es[..i]);
            RunFor(m, es[..i + 1])
            == if m'.left == 0 then m' else Machine(Applied(m'.world, es[i]), m'.left - 1)
    ensures CountedAll(r, es[..i + 1]) == Counted(CountedAll(r, es[..i]), es[i])
  {
    assert es[..i + 1] == es[..i] + [es[i]];
    RunForConcat(m, es[..i], [es[i]]);
    CountedConcat(r, es[..i], [es[i]]);
    assert [es[i]][1..] == [];
  }

  /** Once the process is dead, the rest of its plan has no effect. */
  lemma SpentRun(m: Machine, a: seq<Effect>, b: seq<Effect>)
    requires RunFor(m, a).left == 0
    ensures RunFor(m, a + b) == RunFor(m, a)
  {
    RunForConcat(m, a, b);
  }

  datatype Outcome = Completed(report: Report) | Failed(source: FilePath) | Crashed

  /** What is done about one source. */
  function SourceEffects(c: Config, n: nat, w: World): seq<Effect>
    requires n < |KINDS| && Importable(c, n, w)
  {
    ImportsOf(c, n, w) + [Archive(PathOf(c, KINDS[n]))]
  }

  lemma PlanStep(c: Config, n: nat, w: World)
    requires n < |KINDS|
    ensures if !Pending(c, KINDS[n], w.files)
            then Plan(c, n, w.files) == Plan(c, n + 1, w.files)
                 && Blocked(c, n, w.files) == Blocked(c, n + 1, w.files)
            else if Importable(c, n, w) then
              var files := Renamed(w.files, PathOf(c, KINDS[n]));
              && Plan(c, n, w.files) == SourceEffects(c, n, w) + Plan(c, n + 1, files)
              && Blocked(c, n, w.files) == Blocked(c, n + 1, files)
            else Plan(c, n, w.files) == [] && Blocked(c, n, w.files)
  {
    hide Imports, PathOf, Renamed;
  }

  lemma PlanEnd(c: Config, files: map<FilePath, Database>)
    ensures Plan(c, |KINDS|, files) == [] && !Blocked(c, |KINDS|, files)
  {
  }

  lemma NothingDone(m: Machine, r: Report)
    ensures RunFor(m, []) == m && CountedAll(r, []) == r
  {
  }

  lemma OneEffect(m: Machine, r: Report, e: Effect)
    ensures RunFor(m, [e]) == if m.left == 0 then m else Machine(Applied(m.world, e), m.left - 1)
    ensures CountedAll(r, [e]) == Counted(r, e)
  {
    assert [e][1..] == [];
  }

  lemma AppliedArchive(w: World, p: FilePath)
    ensures Applied(w, Archive(p)) == World(w.store, Renamed(w.files, p))
  {
  }

  /** The world of a run by a process that lives to see `left` effects. */
  function StoppedWithin(c: Config, w: World, left: nat): World {
    var plan := Plan(c, 0, w.files);
    AppliedAll(w, plan[..if left <= |plan| then left else |plan|])
  }

  class LegacyImport {
    const config: Config
    var store: map<Key, Row>
    var files: map<FilePath, Database>
    var log: Option<Report>
    var report: Report
    var left: nat

    constructor (config: Config, store: map<Key, Row>, files: map<FilePath, Database>, left: nat)
      ensures this.config == config && State() == Machine(World(store, files), left)
      ensures log == None
    {
      this.config, this.store, this.files, this.left := config, store, files, left;
      log, report := None, EMPTY_REPORT;
    }

    ghost function State(): Machine
      reads this
    {
      Machine(World(store, files), left)
    }

    /** The rows of one table, one upsert each, counted as they are written. */
    method ImportRows(scope: Option<string>, table: Table, rows: seq<Row>) returns (alive: bool)
      modifies this`store, this`left, this`report
      ensures State() == RunFor(old(State()), Upserts(scope, table, rows))
      ensures alive <==> |rows| <= old(left)
      ensures alive ==> left == old(left) - |rows|
      ensures alive ==> report == CountedAll(old(report), Upserts(scope, table, rows))
    {
      ghost var es := Upserts(scope, table, rows);
      alive := true;
      for i := 0 to |rows|
        invariant left == old(left) - i
        invariant State() == RunFor(old(State()), es[..i])
        invariant report == CountedAll(old(report), es[..i])
      {
        OneMore(old(State()), old(report), es, i);
        if left == 0 {
          SpentRun(old(State()), es[..i], es[i..]);
          assert es[..i] + es[i..] == es;
          return false;
        }
        store, left := store[Key(scope, table, rows[i].id) := rows[i]], left - 1;
        report := Counted(report, Upsert(Key(scope, table, rows[i].id), rows[i]));
      }
      assert es[..|rows|] == es;
    }

    /** One database, table by table. */
    method ImportSource(kind: Kind, db: Database) returns (alive: bool)
      requires db.Readable?
      modifies this`store, this`left, this`report
      ensures State() == RunFor(old(State()), Imports(config, kind, db))
      ensures alive <==> |Imports(config, kind, db)| <= old(left)
      ensures alive ==> left == old(left) - |Imports(config, kind, db)|
      ensures alive ==> report == CountedAll(old(report), Imports(config, kind, db))
    {
      match kind
      case MemoryDb =>
        ghost var us, vs := Upserts(config.entity, MemoryEntry, db.memories),
                            Upserts(config.entity, ConversationTurn, db.turns);
        RunForConcat(State(), us, vs);
        CountedConcat(report, us, vs);
        alive := ImportRows(config.entity, MemoryEntry, db.memories);
        if alive {
          alive := ImportRows(config.entity, ConversationTurn, db.turns);
        } else {
          RunForIsStopped(old(State()), us);
        }
      case JobsDb => alive := ImportRows(None, JobRecord, db.jobs);
      case CalendarDb => alive := ImportRows(config.entity, CalendarEvent, db.events);
      case KnowledgeDb => alive := ImportRows(config.entity, KbEntry, db.entries);
    }

    /** One source: its rows are imported, it is noted in the report, and it is archived. */
    method MigrateSource(n: nat) returns (alive: bool)
      requires n < |KINDS| && Importable(config, n, State().world)
      modifies this
      ensures State() == RunFor(old(State()), SourceEffects(config, n, old(State()).world))
      ensures alive <==> |SourceEffects(config, n, old(State()).world)| <= old(left)
      ensures alive ==> left == old(left) - |SourceEffects(config, n, old(State()).world)|
      ensures alive ==> report == CountedAll(old(report), SourceEffects(config, n, old(State()).world))
      ensures log == old(log) && (alive ==> files == Renamed(old(files), PathOf(config, KINDS[n])))
      ensures !alive ==> left == 0
    {
      hide Plan, Imports, PathOf, RunFor, Applied, CountedAll;
      var p := PathOf(config, KINDS[n]);
      ghost var us := ImportsOf(config, n, State().world);
      RunForConcat(State(), us, [Archive(p)]);
      CountedConcat(report, us, [Archive(p)]);
      alive := ImportSource(KINDS[n], files[p]);
      OneEffect(State(), report, Archive(p));
      RunForIsStopped(old(State()), us);
      if !alive || left == 0 {
        return false;
      }
      report := report.(sources := report.sources + [p]);
      files, left := Renamed(files, p), left - 1;
      AppliedArchive(World(store, old(files)), p);
    }

    /** A whole run: it stops at an unreadable source, or when the process dies,
        and otherwise logs its report if it imported anything. */
    method MigrateLegacyLayout() returns (outcome: Outcome)
      modifies this
      ensures World(store, files) == StoppedWithin(config, old(State()).world, old(left))
      ensures var plan := Plan(config, 0, old(files));
              && (outcome.Failed? <==> |plan| <= old(left) && Blocked(config, 0, old(files)))
              && (outcome.Completed? <==>
                    |plan| + (if Logs(config, old(files)) then 1 else 0) <= old(left)
                    && !Blocked(config, 0, old(files)))
              && (outcome.Completed? ==> outcome.report == CountedAll(EMPTY_REPORT, plan))
      ensures log == if outcome.Completed? && Logs(config, old(files)) then Some(outcome.report)
                     else old(log)
    {
      hide Plan, Imports, PathOf, RunFor, CountedAll, SourceEffects, Blocked;
      ghost var done, m := [], old(State());
      ghost var plan := Plan(config, 0, files);
      report := EMPTY_REPORT;
      NothingDone(m, EMPTY_REPORT);
      for n := 0 to |KINDS|
        invariant plan == done + Plan(config, n, files)
        invariant Blocked(config, 0, old(files)) == Blocked(config, n, files)
        invariant State() == RunFor(m, done) && left == m.left - |done|
        invariant report == CountedAll(EMPTY_REPORT, done)
        invariant log == old(log)
      {
        ghost var w := State().world;
        PlanStep(config, n, w);
        if Pending(config, KINDS[n], files) {
          if files[PathOf(config, KINDS[n])].Unreadable? {
            assert done + [] == done;
            RunForIsStopped(m, done);
            return Failed(PathOf(config, KINDS[n]));
          }
          ghost var es, rest := SourceEffects(config, n, w),
                                Plan(config, n + 1, Renamed(files, PathOf(config, KINDS[n])));
          RunForConcat(m, done, es);
          CountedConcat(EMPTY_REPORT, done, es);
          assert done + (es + rest) == (done + es) + rest;
          var alive := MigrateSource(n);
          if !alive {
            SpentRun(m, done + es, rest);
            RunForIsStopped(m, plan);
            return Crashed;
          }
          done := done + es;
        }
      }
      PlanEnd(config, files);
      assert done + [] == done;
      RunForIsStopped(m, done);
      if report.sources != [] {
        if left == 0 {
          return Crashed;
        }
        log, left := Some(report), left - 1;
      }
      return Completed(report);
    }
  }
}
