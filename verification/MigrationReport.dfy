/** What the report of a finished import says, table by table, in terms of the legacy
    files that were there (crates/abigail-persistence/src/migration.rs). */
module MigrationReport {
  import opened Wrappers
  import opened Migration

  /** How many of the effects write a row of the table. */
  function Number(es: seq<Effect>, t: Table): nat {
    if es == [] then 0
    else (if es[0].Upsert? && es[0].key.table == t then 1 else 0) + Number(es[1..], t)
  }

  /** Each counter of the report is the number of rows written to its table. */
  lemma {:induction false} CountersAreNumbers(r: Report, es: seq<Effect>)
    ensures CountedAll(r, es).memories == r.memories + Number(es, MemoryEntry)
    ensures CountedAll(r, es).turns == r.turns + Number(es, ConversationTurn)
    ensures CountedAll(r, es).jobs == r.jobs + Number(es, JobRecord)
    ensures CountedAll(r, es).events == r.events + Number(es, CalendarEvent)
    ensures CountedAll(r, es).entries == r.entries + Number(es, KbEntry)
    decreases |es|
  {
    if es != [] {
      CountersAreNumbers(Counted(r, es[0]), es[1..]);
    }
  }

  // ---- Which sources a run imports ----

  /** A source is imported when it is there, unless it is the main database's file, which
      is archived before its turn comes. */
  predicate Imported(c: Config, kind: Kind, files: map<FilePath, Database>) {
    Pending(c, kind, files) && (kind == MemoryDb || PathOf(c, kind) != c.db || !Pending(c, MemoryDb, files))
  }

  /** When its turn comes, a source is as it was at the start. */
  ghost predicate AsAtStart(c: Config, m: nat, start: map<FilePath, Database>, files: map<FilePath, Database>)
    requires m < |KINDS|
  {
    var kind := KINDS[m];
    && (Pending(c, kind, files) <==> Imported(c, kind, start))
    && (Pending(c, kind, files) ==> PathOf(c, kind) in start && files[PathOf(c, kind)] == start[PathOf(c, kind)])
  }

  lemma ArchivedIsNoSource(c: Config, p: FilePath, m: nat)
    requires 0 < m < |KINDS|
    ensures Archived(p) != PathOf(c, KINDS[m])
  {
    var a, b := Archived(p).name, PathOf(c, KINDS[m]).name;
    assert SUFFIX[|SUFFIX| - 1] == 'd' && a[|a| - 1] == 'd';
    assert b[|b| - 1] == 'b';
  }

  lemma SourcesDiffer(c: Config, n: nat, m: nat)
    requires 0 < n < |KINDS| && 0 < m < |KINDS| && n != m
    ensures PathOf(c, KINDS[n]) != PathOf(c, KINDS[m])
  {
    assert PathOf(c, KINDS[n]).name[0] != PathOf(c, KINDS[m]).name[0];
  }

  lemma OtherFileStays(files: map<FilePath, Database>, p: FilePath, q: FilePath)
    requires q != p && q != Archived(p)
    ensures q in Renamed(files, p) <==> q in files
    ensures q in files ==> Renamed(files, p)[q] == files[q]
  {
  }

  lemma ArchivedIsGone(c: Config, files: map<FilePath, Database>, p: FilePath)
    requires p in files
    ensures p !in Renamed(files, p)
  {
    assert |Archived(p).name| > |p.name|;
  }

  /** Archiving a source leaves the later ones as they were, but for one file with the
      main database's path. */
  lemma LaterStay(c: Config, n: nat, m: nat, start: map<FilePath, Database>, files: map<FilePath, Database>)
    requires n < m < |KINDS| && Pending(c, KINDS[n], files)
    requires AsAtStart(c, m, start, files) || (n == 0 && files == start)
    ensures AsAtStart(c, m, start, Renamed(files, PathOf(c, KINDS[n])))
  {
    hide Archived, Renamed;
    var p, q := PathOf(c, KINDS[n]), PathOf(c, KINDS[m]);
    ArchivedIsNoSource(c, p, m);
    if 0 < n {
      SourcesDiffer(c, n, m);
      OtherFileStays(files, p, q);
    } else if p == q {
      ArchivedIsGone(c, files, p);
    } else {
      OtherFileStays(files, p, q);
    }
  }

  // ---- The report ----

  /** A report with the rows of one database, and the database among the sources. */
  function WithSource(r: Report, kind: Kind, p: FilePath, db: Database): Report
    requires db.Readable?
  {
    Report(r.memories + (if kind == MemoryDb then |db.memories| else 0),
           r.turns + (if kind == MemoryDb then |db.turns| else 0),
           r.jobs + (if kind == JobsDb then |db.jobs| else 0),
           r.events + (if kind == CalendarDb then |db.events| else 0),
           r.entries + (if kind == KnowledgeDb then |db.entries| else 0),
           r.sources + [p])
  }

  lemma {:induction false} NumberOfUpserts(scope: Option<string>, table: Table, rows: seq<Row>, t: Table)
    ensures Number(Upserts(scope, table, rows), t) == if t == table then |rows| else 0
    decreases |rows|
  {
    if rows != [] {
      assert Upserts(scope, table, rows)[1..] == Upserts(scope, table, rows[1..]);
      NumberOfUpserts(scope, table, rows[1..], t);
    }
  }

  lemma {:induction false} NumberConcat(a: seq<Effect>, b: seq<Effect>, t: Table)
    ensures Number(a + b, t) == Number(a, t) + Number(b, t)
  {
    if a == [] {
      assert a + b == b;
    } else {
      assert (a + b)[1..] == a[1..] + b;
      NumberConcat(a[1..], b, t);
    }
  }

  lemma {:induction false} UpsertsArchiveNothing(es: seq<Effect>)
    requires OnlyUpserts(es)
    ensures Archives(es) == []
  {
    if es != [] {
      UpsertsArchiveNothing(es[1..]);
    }
  }

  /** How many rows of a table a database of a kind has to import. */
  function RowCount(kind: Kind, db: Database, t: Table): nat
    requires db.Readable?
  {
    match t
    case MemoryEntry => if kind == MemoryDb then |db.memories| else 0
    case ConversationTurn => if kind == MemoryDb then |db.turns| else 0
    case JobRecord => if kind == JobsDb then |db.jobs| else 0
    case CalendarEvent => if kind == CalendarDb then |db.events| else 0
    case KbEntry => if kind == KnowledgeDb then |db.entries| else 0
  }

  lemma NumberOfImports(c: Config, kind: Kind, db: Database, t: Table)
    requires db.Readable?
    ensures Number(Imports(c, kind, db), t) == RowCount(kind, db, t)
  {
    hide Number, Upserts;
    match kind
    case MemoryDb =>
      NumberConcat(Upserts(c.entity, MemoryEntry, db.memories), Upserts(c.entity, ConversationTurn, db.turns), t);
      NumberOfUpserts(c.entity, MemoryEntry, db.memories, t);
      NumberOfUpserts(c.entity, ConversationTurn, db.turns, t);
    case JobsDb => NumberOfUpserts(None, JobRecord, db.jobs, t);
    case CalendarDb => NumberOfUpserts(c.entity, CalendarEvent, db.events, t);
    case KnowledgeDb => NumberOfUpserts(c.entity, KbEntry, db.entries, t);
  }

  lemma SourceIsReported(c: Config, n: nat, w: World, r: Report)
    requires n < |KINDS| && Importable(c, n, w)
    ensures var p := PathOf(c, KINDS[n]);
            CountedAll(r, SourceEffects(c, n, w)) == WithSource(r, KINDS[n], p, w.files[p])
  {
    hide Number, Imports, CountedAll, Archives, Counted;
    var p, es := PathOf(c, KINDS[n]), ImportsOf(c, n, w);
    var kind, db := KINDS[n], w.files[p];
    CountedConcat(r, es, [Archive(p)]);
    OneArchive(CountedAll(r, es), p);
    CountersAreNumbers(r, es);
    ReportCoversAll(r, es);
    UpsertsArchiveNothing(es);
    NumberOfImports(c, kind, db, MemoryEntry);
    NumberOfImports(c, kind, db, ConversationTurn);
    NumberOfImports(c, kind, db, JobRecord);
    NumberOfImports(c, kind, db, CalendarEvent);
    NumberOfImports(c, kind, db, KbEntry);
  }

  lemma OneArchive(r: Report, p: FilePath)
    ensures CountedAll(r, [Archive(p)]) == r.(sources := r.sources + [p])
  {
    assert [Archive(p)][1..] == [];
  }

  /** The report of the sources from the `n`-th on, as they were at the start. */
  function ReportFrom(r: Report, c: Config, n: nat, start: map<FilePath, Database>): Report
    requires n <= |KINDS|
    requires forall m :: n <= m < |KINDS| && Imported(c, KINDS[m], start) ==> start[PathOf(c, KINDS[m])].Readable?
    decreases |KINDS| - n
  {
    if n == |KINDS| then r
    else if !Imported(c, KINDS[n], start) then ReportFrom(r, c, n + 1, start)
    else
      var p := PathOf(c, KINDS[n]);
      ReportFrom(WithSource(r, KINDS[n], p, start[p]), c, n + 1, start)
  }

  lemma {:induction false} ReportIsOfSources(r: Report, c: Config, n: nat, start: map<FilePath, Database>,
                                             files: map<FilePath, Database>)
    requires n <= |KINDS| && !Blocked(c, n, files)
    requires forall m :: n <= m < |KINDS| ==> AsAtStart(c, m, start, files) || (n == 0 && files == start)
    ensures forall m :: n <= m < |KINDS| && Imported(c, KINDS[m], start) ==> start[PathOf(c, KINDS[m])].Readable?
    ensures CountedAll(r, Plan(c, n, files)) == ReportFrom(r, c, n, start)
    decreases |KINDS| - n
  {
    hide Plan, Blocked, Pending, PathOf, Renamed, CountedAll, SourceEffects;
    var w := World(map[], files);
    if n == |KINDS| {
      PlanEnd(c, files);
      NothingDone(Machine(w, 0), r);
    } else {
      FirstIsAsAtStart(c, n, start, files);
      PlanStep(c, n, w);
      if !Pending(c, KINDS[n], files) {
        forall m | n < m < |KINDS|
          ensures AsAtStart(c, m, start, files)
        {
          WithoutMain(c, n, m, start, files);
        }
        ReportIsOfSources(r, c, n + 1, start, files);
      } else {
        var p := PathOf(c, KINDS[n]);
        forall m | n < m < |KINDS|
          ensures AsAtStart(c, m, start, Renamed(files, p))
        {
          LaterStay(c, n, m, start, files);
        }
        SourceIsReported(c, n, w, r);
        CountedConcat(r, SourceEffects(c, n, w), Plan(c, n + 1, Renamed(files, p)));
        ReportIsOfSources(WithSource(r, KINDS[n], p, w.files[p]), c, n + 1, start, Renamed(files, p));
      }
    }
  }

  lemma FirstIsAsAtStart(c: Config, n: nat, start: map<FilePath, Database>, files: map<FilePath, Database>)
    requires n < |KINDS| && (AsAtStart(c, n, start, files) || (n == 0 && files == start))
    ensures AsAtStart(c, n, start, files) && (Pending(c, KINDS[n], files) ==> PathOf(c, KINDS[n]) in files)
  {
  }

  lemma WithoutMain(c: Config, n: nat, m: nat, start: map<FilePath, Database>, files: map<FilePath, Database>)
    requires n < m < |KINDS| && !Pending(c, KINDS[n], files)
    requires AsAtStart(c, m, start, files) || (n == 0 && files == start)
    ensures AsAtStart(c, m, start, files)
  {
  }

  ghost predicate AllReadable(c: Config, start: map<FilePath, Database>) {
    forall kind: Kind :: Imported(c, kind, start) ==> start[PathOf(c, kind)].Readable?
  }

  lemma EveryKind(c: Config, start: map<FilePath, Database>)
    requires forall m :: 0 <= m < |KINDS| && Imported(c, KINDS[m], start) ==> start[PathOf(c, KINDS[m])].Readable?
    ensures AllReadable(c, start)
  {
    hide PathOf;
    forall kind: Kind | Imported(c, kind, start)
      ensures start[PathOf(c, kind)].Readable?
    {
      var m := match kind case MemoryDb => 0 case JobsDb => 1 case CalendarDb => 2 case KnowledgeDb => 3;
      assert KINDS[m] == kind;
    }
  }

  lemma FourSources(c: Config, start: map<FilePath, Database>)
    requires AllReadable(c, start)
    ensures var r0 := EMPTY_REPORT;
            var r1 := if Imported(c, MemoryDb, start) then WithSource(r0, MemoryDb, c.db, start[c.db]) else r0;
            var jobs := PathOf(c, JobsDb);
            var r2 := if Imported(c, JobsDb, start) then WithSource(r1, JobsDb, jobs, start[jobs]) else r1;
            var calendar := PathOf(c, CalendarDb);
            var r3 := if Imported(c, CalendarDb, start) then WithSource(r2, CalendarDb, calendar, start[calendar]) else r2;
            var entries := PathOf(c, KnowledgeDb);
            ReportFrom(r0, c, 0, start)
            == if Imported(c, KnowledgeDb, start) then WithSource(r3, KnowledgeDb, entries, start[entries]) else r3
  {
  }

  lemma MainCounters(c: Config, start: map<FilePath, Database>)
    requires AllReadable(c, start)
    ensures var r := ReportFrom(EMPTY_REPORT, c, 0, start);
            if Imported(c, MemoryDb, start)
            then start[c.db].Readable? && r.memories == |start[c.db].memories| && r.turns == |start[c.db].turns|
            else r.memories == r.turns == 0
  {
    hide ReportFrom, Imported;
    FourSources(c, start);
  }

  lemma OtherCounters(c: Config, start: map<FilePath, Database>)
    requires AllReadable(c, start)
    ensures var r := ReportFrom(EMPTY_REPORT, c, 0, start);
            var jobs, calendar, entries := PathOf(c, JobsDb), PathOf(c, CalendarDb), PathOf(c, KnowledgeDb);
            && r.jobs == (if Imported(c, JobsDb, start) then |start[jobs].jobs| else 0)
            && r.events == (if Imported(c, CalendarDb, start) then |start[calendar].events| else 0)
            && r.entries == (if Imported(c, KnowledgeDb, start) then |start[entries].entries| else 0)
  {
    hide ReportFrom, Imported, PathOf;
    FourSources(c, start);
  }

  lemma SourcesInOrder(c: Config, start: map<FilePath, Database>)
    requires AllReadable(c, start)
    ensures ReportFrom(EMPTY_REPORT, c, 0, start).sources
         == (if Imported(c, MemoryDb, start) then [c.db] else [])
            + (if Imported(c, JobsDb, start) then [PathOf(c, JobsDb)] else [])
            + (if Imported(c, CalendarDb, start) then [PathOf(c, CalendarDb)] else [])
            + (if Imported(c, KnowledgeDb, start) then [PathOf(c, KnowledgeDb)] else [])
  {
    hide ReportFrom, Imported, PathOf;
    FourSources(c, start);
  }

  /** The report of a run that comes to its end: each counter is the number of rows in its
      table of the file that was imported, and the sources are those files, in order. */
  lemma ReportExactly(c: Config, files: map<FilePath, Database>)
    requires !Blocked(c, 0, files)
    ensures var r := CountedAll(EMPTY_REPORT, Plan(c, 0, files));
            var jobs, calendar, entries :=
              FilePath(c.dataDir, "jobs.db"), FilePath(c.dataDir, "calendar.db"), FilePath(c.dataDir, "kb.db");
            && (if Imported(c, MemoryDb, files)
                then files[c.db].Readable? && r.memories == |files[c.db].memories| && r.turns == |files[c.db].turns|
                else r.memories == r.turns == 0)
            && (if Imported(c, JobsDb, files) then files[jobs].Readable? && r.jobs == |files[jobs].jobs| else r.jobs == 0)
            && (if Imported(c, CalendarDb, files)
                then files[calendar].Readable? && r.events == |files[calendar].events| else r.events == 0)
            && (if Imported(c, KnowledgeDb, files)
                then files[entries].Readable? && r.entries == |files[entries].entries| else r.entries == 0)
            && r.sources == (if Imported(c, MemoryDb, files) then [c.db] else [])
                            + (if Imported(c, JobsDb, files) then [jobs] else [])
                            + (if Imported(c, CalendarDb, files) then [calendar] else [])
                            + (if Imported(c, KnowledgeDb, files) then [entries] else [])
  {
    hide Plan, Blocked, CountedAll, Imported, ReportFrom;
    ReportIsOfSources(EMPTY_REPORT, c, 0, files, files);
    EveryKind(c, files);
    MainCounters(c, files);
    OtherCounters(c, files);
    SourcesInOrder(c, files);
  }

  // ---- The store ----

  /** The row that an import leaves under a key: the last one of its id in its table of the
      file that was there, under the one scope for that table. */
  function Landed(c: Config, start: map<FilePath, Database>, key: Key): Option<Row> {
    var kind := KindOf(key.table);
    if Imported(c, kind, start) && start[PathOf(c, kind)].Readable? && key.scope == ScopeOf(c, key.table)
    then LastRow(RowsOf(start[PathOf(c, kind)], key.table), key.id)
    else None
  }

  /** What is under a key, or nothing. */
  function Under(store: map<Key, Row>, key: Key): Option<Row> {
    if key in store then Some(store[key]) else None
  }

  function KindIndex(kind: Kind): (m: nat)
    ensures m < |KINDS| && KINDS[m] == kind
  {
    match kind case MemoryDb => 0 case JobsDb => 1 case CalendarDb => 2 case KnowledgeDb => 3
  }

  lemma IndexIsOne(m: nat)
    requires m < |KINDS|
    ensures KindIndex(KINDS[m]) == m
  {
  }

  lemma SourceLands(c: Config, n: nat, w: World, key: Key)
    requires n < |KINDS| && Importable(c, n, w)
    ensures var db := w.files[PathOf(c, KINDS[n])];
            var row := if KindOf(key.table) == KINDS[n] && key.scope == ScopeOf(c, key.table)
                       then LastRow(RowsOf(db, key.table), key.id) else None;
            Under(AfterSource(c, n, w).store, key) == if row.Some? then row else Under(w.store, key)
    ensures AfterSource(c, n, w).files == Renamed(w.files, PathOf(c, KINDS[n]))
    ensures AppliedAll(w, SourceEffects(c, n, w)) == AfterSource(c, n, w)
  {
    hide Imports, Written, LastRow, RowsOf, Renamed, PathOf, AppliedAll;
    ImportsLandExactly(c, KINDS[n], w.files[PathOf(c, KINDS[n])], key);
    PlanSplits(c, n, w);
  }

  lemma {:induction false} StoreIsOfSources(c: Config, n: nat, start: map<FilePath, Database>, w: World, key: Key)
    requires n <= |KINDS| && !Blocked(c, n, w.files)
    requires forall m :: n <= m < |KINDS| ==> AsAtStart(c, m, start, w.files) || (n == 0 && w.files == start)
    ensures Under(AppliedAll(w, Plan(c, n, w.files)).store, key)
         == if n <= KindIndex(KindOf(key.table)) && Landed(c, start, key).Some? then Landed(c, start, key)
            else Under(w.store, key)
    decreases |KINDS| - n
  {
    hide Plan, Blocked, Pending, PathOf, Renamed, SourceEffects, AppliedAll, LastRow, RowsOf, Importable, Under,
         Landed, KindOf, KindIndex, AsAtStart;
    if n == |KINDS| {
      PlanEnd(c, w.files);
      NoEffects(w);
    } else {
      FirstIsAsAtStart(c, n, start, w.files);
      IndexIsOne(n);
      PlanStep(c, n, w);
      if !Pending(c, KINDS[n], w.files) {
        forall m | n < m < |KINDS|
          ensures AsAtStart(c, m, start, w.files)
        {
          WithoutMain(c, n, m, start, w.files);
        }
        NothingLands(c, n, start, w, key);
        StoreIsOfSources(c, n + 1, start, w, key);
      } else {
        var p := PathOf(c, KINDS[n]);
        forall m | n < m < |KINDS|
          ensures AsAtStart(c, m, start, Renamed(w.files, p))
        {
          LaterStay(c, n, m, start, w.files);
        }
        var w1 := AfterSource(c, n, w);
        SourceLands(c, n, w, key);
        LandsFromHere(c, n, start, w, key);
        AppliedConcat(w, SourceEffects(c, n, w), Plan(c, n + 1, Renamed(w.files, p)));
        StoreIsOfSources(c, n + 1, start, w1, key);
      }
    }
  }

  lemma LandsFromHere(c: Config, n: nat, start: map<FilePath, Database>, w: World, key: Key)
    requires n < |KINDS| && AsAtStart(c, n, start, w.files) && Importable(c, n, w)
    ensures KindOf(key.table) == KINDS[n] <==> KindIndex(KindOf(key.table)) == n
    ensures KindOf(key.table) == KINDS[n] ==>
              Landed(c, start, key)
              == if key.scope == ScopeOf(c, key.table)
                 then LastRow(RowsOf(w.files[PathOf(c, KINDS[n])], key.table), key.id) else None
  {
    hide LastRow, RowsOf, PathOf;
    IndexIsOne(n);
  }

  lemma NothingLands(c: Config, n: nat, start: map<FilePath, Database>, w: World, key: Key)
    requires n < |KINDS| && AsAtStart(c, n, start, w.files) && !Pending(c, KINDS[n], w.files)
    ensures KindIndex(KindOf(key.table)) == n ==> Landed(c, start, key).None?
  {
  }

  lemma NoEffects(w: World)
    ensures AppliedAll(w, []) == w
  {
  }

  /** After a run that comes to its end each key holds the last row of its id in its table
      of the file that was there, if one was imported and the key has that table's scope,
      and otherwise what it held before. */
  lemma StoreExactly(c: Config, w: World, key: Key)
    requires !Blocked(c, 0, w.files)
    ensures Under(Finished(c, w).store, key)
         == if Landed(c, w.files, key).Some? then Landed(c, w.files, key) else Under(w.store, key)
  {
    hide Plan, Blocked, Landed, Under;
    StoreIsOfSources(c, 0, w.files, w, key);
  }
}
