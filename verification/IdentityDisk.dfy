/** What the calls of the identity manager do to the directories on the disk. */
module IdentityDisk {
  import opened Wrappers
  import opened PathGuard
  import opened GlobalConfig
  import opened DirTree
  import opened Identity

  // ---- What a call leaves alone ----

  /** What becomes of the disk, by call. */
  ghost function DiskAfter(w: World, c: Call, hive: Agent): Dir {
    match c
    case Create(name, id, dir, config, _) => Provisioned(w, id, name, dir, config).disk
    case Delete(id, save, left) =>
      if !IsRegistered(w.agents, id) || id == hive.id || save != Done || HomeDir(w, id).None? then w.disk
      else if left.Some? then Placed(w, id, left.value).disk
      else Pruned(w.disk, HomeAt(w.root, id))
    case Archive(id, backup, _, _) =>
      if !Archivable(w, c, hive) then w.disk
      else Grafted(Pruned(w.disk, HomeAt(w.root, id)), BackupAt(w.root, backup), HomeDir(w, id).value)
    case Restore(path, _, _, _, _, _) =>
      if Located(w, path).None? then w.disk else AfterMove(w, c, Located(w, path).value).disk
    case Migrate(id, failed, _) =>
      if !w.legacy.LegacyRoot? || !w.legacy.birthComplete || failed == Some(None) then w.disk
      else if failed.Some? then Placed(w, id, failed.value.value).disk
      else Placed(w, id, w.legacy.data.(config := Readable(w.legacy.agentName, IdentityDir(id)))).disk
    case _ => w.disk
  }

  predicate Archivable(w: World, c: Call, hive: Agent)
    requires c.Archive?
  {
    && IsRegistered(w.agents, c.id) && c.id != hive.id && c.save == Done
    && HomeDir(w, c.id).Some? && c.renameOk && !Taken(w, c.backup)
  }

  lemma NextDisk(w: World, c: Call, hive: Agent)
    requires Inv(w, hive)
    ensures Next(w, c).world.disk == DiskAfter(w, c, hive)
    ensures Next(w, c).world.root == w.root && Next(w, c).world.legacy == w.legacy
  {
    hide Sound, IsRegistered, Unregistered, Registered, Renamed, Reopened, Located, Removed, RenamedIn, SourceOf, Sub,
         Grafted, Pruned, MoveOf;
    match c
    case Create(name, id, dir, config, save) =>
      RegisteredIs(Provisioned(w, id, name, dir, config), Agent(id, name, false, IdentityDir(id)), save, hive);
    case Rename(id, name, save) => RenamedIs(w, c, hive);
    case Delete(id, save, _) => UnregisteredIs(w, id, save, hive);
    case Archive(id, _, save, _) => UnregisteredIs(w, id, save, hive);
    case Restore(_, id, _, _, _, save) =>
      if Located(w, c.path).Some? {
        var d := Located(w, c.path).value;
        RegisteredIs(AfterMove(w, c, d), Agent(id, RestoredName(d), false, IdentityDir(id)), save, hive);
      }
    case Migrate(id, _, save) =>
      if w.legacy.LegacyRoot? {
        var name := if w.legacy.agentName.Some? then w.legacy.agentName.value else LEGACY_NAME;
        RegisteredIs(Placed(w, id, w.legacy.data.(config := Readable(w.legacy.agentName, IdentityDir(id)))),
                     Agent(id, name, false, IdentityDir(id)), save, hive);
      }
    case Reopen(_, _, _, _, _) => ReopenedIs(w, c, hive);
  }

  predicate SameHome(w: World, w': World, id: string) {
    HomeDir(w', id) == HomeDir(w, id)
  }

  lemma HomesApart(root: Place, id: string, other: string)
    requires id != other
    ensures Apart(HomeAt(root, id), HomeAt(root, other))
  {
    assert [IDENTITIES, id][1] != [IDENTITIES, other][1];
    NamesApart(root, [IDENTITIES, id], [IDENTITIES, other]);
  }

  lemma BackupIsNotAHome(root: Place, backup: string, id: string)
    ensures Apart(BackupAt(root, backup), HomeAt(root, id))
  {
    assert [BACKUPS, backup][0][0] != [IDENTITIES, id][0][0];
    NamesApart(root, [BACKUPS, backup], [IDENTITIES, id]);
  }

  lemma PlacedAt(w: World, id: string, d: Dir, other: string)
    ensures HomeDir(Placed(w, id, d), other) == if other == id then Some(d) else HomeDir(w, other)
  {
    hide Sub, Grafted;
    SubOfGrafted(w.disk, HomeAt(w.root, id), d, HomeAt(w.root, other));
    if other == id {
      assert HomeAt(w.root, id)[|HomeAt(w.root, id)|..] == [];
      SubOfItself(d);
    } else {
      HomesApart(w.root, id, other);
    }
  }

  lemma SubOfItself(d: Dir)
    ensures Sub(d, []) == Some(d)
  {
  }

  /** The call leaves the directory of `other` alone: it is not to make, remove or move
      it, and gives no path that leads to it. */
  predicate Spares(root: Place, c: Call, other: string, hive: Agent) {
    match c
    case Create(_, id, _, _, _) => id != other
    case Migrate(id, _, _) => id != other
    case Restore(path, id, _, _, _, _) => id != other && !(HomeAt(root, other) <= SourceOf(root, path))
    case Delete(id, _, _) => id != other || other == hive.id
    case Archive(id, _, _, _) => id != other || other == hive.id
    case _ => true
  }

  /** A path that does not lead to the home either leads elsewhere or above it, and what
      is above it cannot be moved. */
  lemma RestoreSpares(w: World, c: Call, d: Dir, other: string)
    requires c.Restore? && other != c.id && !(HomeAt(w.root, other) <= SourceOf(w.root, c.path))
    ensures SameHome(w, AfterMove(w, c, d), other)
  {
    hide Sub, Grafted, Pruned, SourceOf;
    var p, home := SourceOf(w.root, c.path), HomeAt(w.root, other);
    if p < home {
      AboveOneAboveAll(w.root, p, other, c.id);
    }
    HomesApart(w.root, c.id, other);
    match MoveOf(w, c)
    case CopyFailed(partial) =>
      if partial.Some? {
        PlacedAt(w, c.id, partial.value, other);
      }
    case OriginalKept(rest) =>
      PlacedAt(w, c.id, d, other);
      SubOfGrafted(Placed(w, c.id, d).disk, p, rest, home);
    case Moved =>
      if p != RegistryAt(w.root) {
        SubOfPruned(w.disk, p, home);
      }
      PlacedAt(Without(w, p), c.id, if c.configOk then Rehomed(d, c.id) else d, other);
  }

  lemma AboveOneAboveAll(root: Place, p: Place, id: string, other: string)
    requires p < HomeAt(root, id)
    ensures p < HomeAt(root, other)
  {
    assert HomeAt(root, id)[..|root| + 1] == root + [IDENTITIES] == HomeAt(root, other)[..|root| + 1];
    assert p == HomeAt(root, id)[..|root| + 1][..|p|];
  }

  lemma OtherDirsAreKept(w: World, c: Call, hive: Agent, other: string)
    requires Inv(w, hive) && Spares(w.root, c, other, hive)
    ensures SameHome(w, Next(w, c).world, other)
  {
    hide Sound, Next, IsRegistered, Sub, Grafted, Pruned, AfterMove, Located, SourceOf, Provided;
    NextDisk(w, c, hive);
    match c
    case Create(name, id, dir, config, _) =>
      PlacedAt(w, id, Provided(HomeDir(w, id), id, name, dir, config), other);
    case Delete(id, _, left) =>
      if id != other {
        HomesApart(w.root, id, other);
        SubOfPruned(w.disk, HomeAt(w.root, id), HomeAt(w.root, other));
        if left.Some? {
          PlacedAt(w, id, left.value, other);
        }
      }
    case Archive(id, backup, _, _) =>
      if id != other && Archivable(w, c, hive) {
        HomesApart(w.root, id, other);
        BackupIsNotAHome(w.root, backup, other);
        var home := HomeAt(w.root, other);
        SubOfPruned(w.disk, HomeAt(w.root, id), home);
        SubOfGrafted(Pruned(w.disk, HomeAt(w.root, id)), BackupAt(w.root, backup), HomeDir(w, id).value, home);
      }
    case Restore(path, _, _, _, _, _) =>
      if Located(w, path).Some? {
        RestoreSpares(w, c, Located(w, path).value, other);
        MovesStay(w, c, Located(w, path).value);
      }
    case Migrate(id, failed, _) =>
      if failed.Some? && failed.value.Some? {
        PlacedAt(w, id, failed.value.value, other);
      }
      if w.legacy.LegacyRoot? {
        PlacedAt(w, id, w.legacy.data.(config := Readable(w.legacy.agentName, IdentityDir(id))), other);
      }
    case _ =>
  }

  lemma MovesStay(w: World, c: Call, d: Dir)
    requires c.Restore?
    ensures AfterMove(w, c, d).root == w.root
  {
  }

  /** Over any run of calls that spare an agent, and the registry's file, the agent's
      directory stays as it is, whatever becomes of all others; and so does the Hive's,
      which need not be spared by deletions and archives. */
  lemma {:induction false} RunLeavesAlone(w: World, cs: seq<Call>, hive: Agent, other: string)
    requires Inv(w, hive)
    requires forall c :: c in cs ==> Spares(w.root, c, other, hive) && SparesRegistry(w.root, c)
    ensures SameHome(w, Run(w, cs), other)
  {
    hide Inv, Next, Spares, SparesRegistry, Sub;
    if cs != [] {
      var n := |cs| - 1;
      RunLeavesAlone(w, cs[..n], hive, other);
      RunKeepsInv(w, cs[..n], hive);
      assert cs[n] in cs;
      OtherDirsAreKept(Run(w, cs[..n]), cs[n], hive, other);
    }
  }

  // ---- What a restore reaches ----

  /** Under identities/, at an agent's directory or in one. */
  predicate InIdentities(root: Place, p: Place) {
    root + [IDENTITIES] < p
  }

  lemma InAHome(root: Place, p: Place)
    requires InIdentities(root, p)
    ensures HomeAt(root, p[|root| + 1]) <= p
    ensures p != RegistryAt(root) && forall id :: !(p < HomeAt(root, id))
  {
    assert p[|root|] == (root + [IDENTITIES])[|root|];
    assert IDENTITIES[0] != REGISTRY[0] && RegistryAt(root)[|root|] == REGISTRY;
    assert p[..|root|] == (root + [IDENTITIES])[..|root|] == root;
    assert p[..|root| + 2] == HomeAt(root, p[|root| + 1]);
  }

  lemma HomesAreInIdentities(root: Place, p: Place, id: string)
    requires HomeAt(root, id) <= p
    ensures InIdentities(root, p)
  {
    assert HomeAt(root, id)[..|root| + 1] == root + [IDENTITIES];
    assert p[..|root| + 1] == root + [IDENTITIES];
  }

  ghost predicate LeavesHomesAlone(w: World, w': World, newId: string) {
    forall id :: id != newId ==> SameHome(w, w', id)
  }

  /** A restore under a new id leaves the directory of every identity alone exactly when
      it finds nothing or copying fails, or when the name it was given does not lead into
      identities/, or when what it leaves there is all that was there. */
  lemma RestoreTouchesExactly(w: World, c: Call, hive: Agent)
    requires Inv(w, hive) && c.Restore? && HomeDir(w, c.id).None?
    ensures LeavesHomesAlone(w, Next(w, c).world, c.id)
       <==> Located(w, c.path).None? || c.move.CopyFailed? || !InIdentities(w.root, SourceOf(w.root, c.path))
            || c.move == OriginalKept(Located(w, c.path).value)
  {
    hide Inv, Next, Located, SourceOf, Sub, SameHome, AfterMove, InIdentities;
    var w', p := Next(w, c).world, SourceOf(w.root, c.path);
    NextDisk(w, c, hive);
    if Located(w, c.path).None? {
      SameDiskSameHomes(w, w', c.id);
    } else {
      var d := Located(w, c.path).value;
      MovesStay(w, c, d);
      SameDiskSameHomes(AfterMove(w, c, d), w', c.id);
      if !InIdentities(w.root, p) {
        forall id | id != c.id
          ensures SameHome(w, AfterMove(w, c, d), id)
        {
          if HomeAt(w.root, id) <= p {
            HomesAreInIdentities(w.root, p, id);
          }
          RestoreSpares(w, c, d, id);
        }
        HomesCompose(w, AfterMove(w, c, d), w', c.id);
      } else {
        LocatedIsThere(w, c.path);
        InAHome(w.root, p);
        RestoreTakes(w, c, d);
        HomesCompose(w, AfterMove(w, c, d), w', c.id);
      }
    }
  }

  lemma SameDiskSameHomes(w: World, w': World, id: string)
    requires w'.disk == w.disk && w'.root == w.root
    ensures LeavesHomesAlone(w, w', id)
  {
  }

  lemma HomesCompose(w: World, w1: World, w2: World, id: string)
    requires LeavesHomesAlone(w1, w2, id)
    ensures LeavesHomesAlone(w, w1, id) <==> LeavesHomesAlone(w, w2, id)
  {
    hide HomeDir;
    if LeavesHomesAlone(w, w2, id) {
      forall x | x != id
        ensures SameHome(w, w1, x)
      {
        assert SameHome(w1, w2, x) && SameHome(w, w2, x);
      }
    }
    if LeavesHomesAlone(w, w1, id) {
      forall x | x != id
        ensures SameHome(w, w2, x)
      {
        assert SameHome(w1, w2, x) && SameHome(w, w1, x);
      }
    }
  }

  lemma LocatedIsThere(w: World, path: Path)
    ensures Located(w, path).Some? && SourceOf(w.root, path) != RegistryAt(w.root) ==>
              Sub(w.disk, SourceOf(w.root, path)) == Located(w, path)
  {
  }

  /** What a move takes from a home is missing there afterwards. */
  lemma RestoreTakes(w: World, c: Call, d: Dir)
    requires c.Restore? && HomeDir(w, c.id).None? && InIdentities(w.root, SourceOf(w.root, c.path))
    requires Sub(w.disk, SourceOf(w.root, c.path)) == Some(d)
    ensures LeavesHomesAlone(w, AfterMove(w, c, d), c.id) <==> c.move.CopyFailed? || c.move == OriginalKept(d)
  {
    hide Sub, SourceOf, Grafted, Pruned, InIdentities, LeavesHomesAlone;
    var p := SourceOf(w.root, c.path);
    var w1 := AfterMove(w, c, d);
    InAHome(w.root, p);
    var id := p[|w.root| + 1];
    if id == c.id {
      PrefixExists(w.disk, HomeAt(w.root, id), p);
    }
    HomesApart(w.root, c.id, id);
    TargetIsApart(HomeAt(w.root, c.id), HomeAt(w.root, id), p);
    if c.move.CopyFailed? {
      CopyLeavesHomes(w, c, d);
    } else {
      SourceAfter(w, c, d);
      if c.move == OriginalKept(d) {
        PutBackIsSame(w, c, d);
      } else if LeavesHomesAlone(w, w1, c.id) {
        HomesDecide(w, w1, c.id, id, p);
      }
    }
  }

  lemma HomesDecide(w: World, w1: World, newId: string, id: string, p: Place)
    requires LeavesHomesAlone(w, w1, newId) && id != newId && HomeAt(w.root, id) <= p && w1.root == w.root
    ensures Sub(w1.disk, p) == Sub(w.disk, p)
  {
    hide Sub;
    var home := HomeAt(w.root, id);
    assert SameHome(w, w1, id);
    SubOfSub(w.disk, home, p[|home|..]);
    SubOfSub(w1.disk, home, p[|home|..]);
    assert home + p[|home|..] == p;
  }

  lemma TargetIsApart(t: Place, home: Place, p: Place)
    requires Apart(t, home) && home <= p && |t| == |home|
    ensures Apart(t, p) && Apart(p, t)
  {
    assert p[..|home|] == home;
  }

  lemma CopyLeavesHomes(w: World, c: Call, d: Dir)
    requires c.Restore? && c.move.CopyFailed?
    ensures LeavesHomesAlone(w, AfterMove(w, c, d), c.id)
  {
    hide Sub, SourceOf, Grafted;
    forall id | id != c.id
      ensures SameHome(w, AfterMove(w, c, d), id)
    {
      if c.move.partial.Some? {
        PlacedAt(w, c.id, c.move.partial.value, id);
      }
    }
  }

  /** What is at the source after a move that took place. */
  lemma SourceAfter(w: World, c: Call, d: Dir)
    requires c.Restore? && !c.move.CopyFailed?
    requires var p := SourceOf(w.root, c.path);
             p != RegistryAt(w.root) && p != [] && Apart(HomeAt(w.root, c.id), p)
    ensures Sub(AfterMove(w, c, d).disk, SourceOf(w.root, c.path))
         == if c.move.Moved? then None else Some(c.move.rest)
    ensures AfterMove(w, c, d).root == w.root
  {
    hide Sub, SourceOf, Grafted, Pruned;
    var p, home := SourceOf(w.root, c.path), HomeAt(w.root, c.id);
    match c.move
    case Moved =>
      SubOfPruned(w.disk, p, p);
      SubOfGrafted(Pruned(w.disk, p), home, if c.configOk then Rehomed(d, c.id) else d, p);
    case OriginalKept(rest) =>
      SubOfGrafted(Grafted(w.disk, home, d), p, rest, p);
      assert p[|p|..] == [];
      SubOfItself(rest);
  }

  /** Putting back what was there changes no home. */
  lemma PutBackIsSame(w: World, c: Call, d: Dir)
    requires c.Restore? && c.move == OriginalKept(d)
    requires var p := SourceOf(w.root, c.path);
             InIdentities(w.root, p) && Apart(HomeAt(w.root, c.id), p) && Sub(w.disk, p) == Some(d)
    ensures LeavesHomesAlone(w, AfterMove(w, c, d), c.id)
  {
    hide Sub, SourceOf, Grafted, InIdentities;
    var p, home := SourceOf(w.root, c.path), HomeAt(w.root, c.id);
    InAHome(w.root, p);
    var w1 := Placed(w, c.id, d);
    SubOfGrafted(w.disk, home, d, p);
    GraftingTheSame(w1.disk, p, d);
    forall id | id != c.id
      ensures SameHome(w, AfterMove(w, c, d), id)
    {
      PlacedAt(w, c.id, d, id);
    }
  }

  lemma {:induction false} GraftingTheSame(d: Dir, p: Place, x: Dir)
    requires Sub(d, p) == Some(x)
    ensures Grafted(d, p, x) == d
    decreases |p|
  {
    if p != [] {
      GraftingTheSame(d.subs[p[0]], p[1..], x);
      assert d.subs[p[0] := d.subs[p[0]]] == d.subs;
    }
  }

  /** The name `../identities/<hive>` moves the Hive's own directory, in use, into that of
      a new agent; the Hive stays registered without one. */
  lemma HiveCanBeMoved(w: World, c: Call, hive: Agent)
    requires Inv(w, hive) && c.Restore? && c.path == [ParentDir, Normal(IDENTITIES), Normal(hive.id)]
    requires c.move.Moved? && HomeDir(w, c.id).None?
    requires HomeDir(w, hive.id).Some? && Sub(w.disk, w.root + [BACKUPS]).Some?
    ensures var w' := Next(w, c).world;
            var d := HomeDir(w, hive.id).value;
            && HomeDir(w', hive.id).None? && hive in w'.agents
            && HomeDir(w', c.id) == Some(if c.configOk then Rehomed(d, c.id) else d)
    ensures Next(w, c).answer.Ok? <==> c.signOk && c.save == Done && !IsRegistered(w.agents, c.id)
  {
    hide Sub, Located, SourceOf, Grafted, Pruned, IsRegistered, AfterMove, Registered, Sound, Next, MoveOf, Rehomed;
    HiveIsLocated(w, c, hive);
    var d, p := HomeDir(w, hive.id).value, HomeAt(w.root, hive.id);
    NextDisk(w, c, hive);
    NextKeepsInv(w, c, hive);
    HiveIsIn(Next(w, c).world.agents, hive);
    HomesApart(w.root, c.id, hive.id);
    RegistryIsNotAHome(w.root, hive.id);
    SourceAfter(w, c, d);
    TargetAfter(w, c, d);
    RestoreAnswers(w, c, hive);
  }

  lemma HiveIsIn(agents: seq<Agent>, hive: Agent)
    requires Sound(agents, hive)
    ensures hive in agents
  {
  }

  lemma RestoreAnswers(w: World, c: Call, hive: Agent)
    requires Inv(w, hive) && c.Restore? && Located(w, c.path).Some?
    ensures Next(w, c).answer.Ok?
       <==> MoveOf(w, c).Moved? && c.signOk && c.save == Done && !IsRegistered(w.agents, c.id)
    ensures Next(w, c).answer.Ok? ==>
              var d := Located(w, c.path).value;
              var all := w.agents + [Agent(c.id, RestoredName(d), false, IdentityDir(c.id))];
              Next(w, c).world.agents == all && Next(w, c).world.saved == Some(all)
  {
    hide Sub, Located, SourceOf, Grafted, Pruned, IsRegistered, Registered, Sound, MoveOf;
    var d := Located(w, c.path).value;
    RegisteredIs(AfterMove(w, c, d), Agent(c.id, RestoredName(d), false, IdentityDir(c.id)), c.save, hive);
  }

  lemma TargetAfter(w: World, c: Call, d: Dir)
    requires c.Restore? && MoveOf(w, c).Moved?
    ensures HomeDir(AfterMove(w, c, d), c.id) == Some(if c.configOk then Rehomed(d, c.id) else d)
  {
    hide Sub, SourceOf, Grafted, Pruned, Rehomed, MoveOf;
    PlacedAt(Without(w, SourceOf(w.root, c.path)), c.id, if c.configOk then Rehomed(d, c.id) else d, c.id);
  }

  lemma HiveIsLocated(w: World, c: Call, hive: Agent)
    requires c.Restore? && c.path == [ParentDir, Normal(IDENTITIES), Normal(hive.id)] && c.move.Moved?
    requires HomeDir(w, c.id).None? && HomeDir(w, hive.id).Some? && Sub(w.disk, w.root + [BACKUPS]).Some?
    ensures SourceOf(w.root, c.path) == HomeAt(w.root, hive.id)
    ensures Located(w, c.path) == HomeDir(w, hive.id) && MoveOf(w, c).Moved? && c.id != hive.id
  {
    hide Sub;
    var home := HomeAt(w.root, hive.id);
    Sideways(w.root, IDENTITIES);
    assert c.path[..0] == [] && c.path[..1] == [ParentDir] && c.path[..2] == [ParentDir, Normal(IDENTITIES)];
    assert w.root + [IDENTITIES] + [hive.id] == home;
    PrefixExists(w.disk, w.root, w.root + [BACKUPS]);
    assert w.root + [IDENTITIES] == home[..|w.root| + 1];
    PrefixExists(w.disk, w.root + [IDENTITIES], home);
    RegistryIsNotAHome(w.root, hive.id);
    HomesApart(w.root, c.id, hive.id);
  }

  // ---- What each call achieves ----

  /** What a successful call leaves in memory is what it leaves on file. */
  lemma SuccessIsSaved(w: World, c: Call, hive: Agent)
    requires Inv(w, hive) && Next(w, c).answer.Ok?
    ensures var w' := Next(w, c).world;
            w'.saved == Some(w'.agents) || w' == w
  {
    hide Sound, IsRegistered, Unregistered, Registered, Renamed, Reopened, Located, Removed, RenamedIn, SourceOf, Sub,
         Grafted, Pruned, MoveOf;
    match c
    case Create(name, id, dir, config, save) =>
      RegisteredIs(Provisioned(w, id, name, dir, config), Agent(id, name, false, IdentityDir(id)), save, hive);
    case Rename(_, _, _) => RenamedIs(w, c, hive);
    case Delete(id, save, _) => UnregisteredIs(w, id, save, hive);
    case Archive(id, _, save, _) => UnregisteredIs(w, id, save, hive);
    case Restore(_, _, _, _, _, _) => RestoreAnswers(w, c, hive);
    case Migrate(id, _, save) =>
      if w.legacy.LegacyRoot? {
        var name := if w.legacy.agentName.Some? then w.legacy.agentName.value else LEGACY_NAME;
        RegisteredIs(Placed(w, id, w.legacy.data.(config := Readable(w.legacy.agentName, IdentityDir(id)))),
                     Agent(id, name, false, IdentityDir(id)), save, hive);
      }
    case Reopen(_, _, _, _, _) => ReopenedIs(w, c, hive);
  }

  /** Which error a call answers with: each has its one condition, and what remains are
      failures of the disk. */
  lemma ErrorsExactly(w: World, c: Call, hive: Agent)
    requires Inv(w, hive)
    ensures var names, answer := c.Rename? || c.Delete? || c.Archive?, Next(w, c).answer;
            && (answer == Err(NotRegistered) <==> names && !IsRegistered(w.agents, c.id))
            && (answer == Err(HiveIsLocked) <==> names && c.id == hive.id)
            && (answer == Err(AlreadyRegistered) <==>
                  !names && !c.Reopen? && IsRegistered(w.agents, c.id) && ReachesRegistry(w, c))
            && (answer == Err(DirectoryNotFound) <==>
                  c.Archive? && IsRegistered(w.agents, c.id) && c.id != hive.id && c.save == Done
                  && HomeDir(w, c.id).None?)
            && (answer == Err(BackupNotFound) <==> c.Restore? && Located(w, c.path).None?)
            && (answer == Err(BadLegacyConfig) <==> c.Migrate? && w.legacy.BadLegacy?)
            && (answer.Err? ==> !answer.error.BadDirectory?)
  {
    hide Sound, Unregistered, Registered, Renamed, Reopened, Located, Removed, RenamedIn, SourceOf, Sub, Grafted,
         Pruned, MoveOf, AfterMove, IsRegistered, Provisioned;
    HiveIsHere(w, hive);
    match c
    case Create(name, id, dir, config, save) =>
      ProvisioningKeepsRegistry(w, id, name, dir, config);
      RegisteredIs(Provisioned(w, id, name, dir, config), Agent(id, name, false, IdentityDir(id)), save, hive);
    case Rename(_, _, _) => RenamedIs(w, c, hive);
    case Delete(id, save, _) => UnregisteredIs(w, id, save, hive);
    case Archive(id, _, save, _) => UnregisteredIs(w, id, save, hive);
    case Restore(_, id, _, _, _, save) =>
      if Located(w, c.path).Some? {
        var d := Located(w, c.path).value;
        AfterMoveKeepsAgents(w, c, d);
        RegisteredIs(AfterMove(w, c, d), Agent(id, RestoredName(d), false, IdentityDir(id)), save, hive);
      }
    case Migrate(id, _, save) =>
      if w.legacy.LegacyRoot? {
        var name := if w.legacy.agentName.Some? then w.legacy.agentName.value else LEGACY_NAME;
        RegisteredIs(Placed(w, id, w.legacy.data.(config := Readable(w.legacy.agentName, IdentityDir(id)))),
                     Agent(id, name, false, IdentityDir(id)), save, hive);
      }
    case Reopen(_, _, _, _, _) => ReopenedIs(w, c, hive);
  }

  /** A call that adds an agent has everything ready for it. */
  predicate ReachesRegistry(w: World, c: Call) {
    match c
    case Create(_, _, dir, config, _) => dir == Done && config == Done
    case Restore(path, _, _, _, signOk, _) => Located(w, path).Some? && MoveOf(w, c).Moved? && signOk
    case Migrate(_, failed, _) => w.legacy.LegacyRoot? && w.legacy.birthComplete && failed.None?
    case _ => false
  }

  lemma HiveIsHere(w: World, hive: Agent)
    requires Inv(w, hive)
    ensures IsRegistered(w.agents, hive.id)
  {
  }

  lemma AfterMoveKeepsAgents(w: World, c: Call, d: Dir)
    requires c.Restore?
    ensures AfterMove(w, c, d).agents == w.agents
  {
  }

  /** An agent is created exactly when its id is new and everything is written; its
      directory then holds its config and documents, and it is the last on the registry. */
  lemma CreatedExactly(w: World, c: Call, hive: Agent)
    requires Inv(w, hive) && c.Create?
    ensures Next(w, c).answer.Ok?
       <==> c.dir == Done && c.config == Done && c.save == Done && !IsRegistered(w.agents, c.id)
    ensures Next(w, c).answer.Ok? ==>
              var w' := Next(w, c).world;
              && w'.agents == w.agents + [Agent(c.id, c.name, false, IdentityDir(c.id))]
              && w'.saved == Some(w'.agents)
              && HomeDir(w', c.id).Some?
              && var d := HomeDir(w', c.id).value;
              && d.config == Readable(Some(c.name), IdentityDir(c.id)) && DOCS in d.subs
              && d.files == if HomeDir(w, c.id).Some? then HomeDir(w, c.id).value.files else ""
  {
    hide Sound, IsRegistered, Registered, Sub, Grafted;
    var entry := Agent(c.id, c.name, false, IdentityDir(c.id));
    RegisteredIs(Provisioned(w, c.id, c.name, c.dir, c.config), entry, c.save, hive);
    PlacedAt(w, c.id, Provided(HomeDir(w, c.id), c.id, c.name, c.dir, c.config), c.id);
  }

  /** What a first opening leaves on the disk, whether it succeeds or not: nothing when the
      Hive's directory cannot be made, and otherwise the directory, with its documents and
      its config as far as they came. */
  lemma FirstOpeningLeaves(w: World, c: Call)
    requires c.Reopen? && (w.saved == Some([]) || (w.saved == None && c.first == Done)) && HomeDir(w, c.id).None?
    ensures c.dir == Kept ==> Next(w, c).world.disk == w.disk
    ensures c.dir != Kept ==>
              HomeDir(Next(w, c).world, c.id)
              == Some(Dir(if c.dir == Done && c.config != Kept then Readable(Some("Abigail Hive"), IdentityDir(c.id))
                          else Missing, "", if c.dir == Done then map[DOCS := EMPTY] else map[]))
  {
    hide NormalizedAll, Registered, Saved, Sub, Grafted;
    NothingNormalized();
    var w0 := w.(agents := []);
    SavedIs(w0, None, c.first);
    var w1 := if w.saved.None? then WithRegistry(w0, [], c.first) else w0;
    var entry := Agent(c.id, HIVE_NAME, true, IdentityDir(c.id));
    var w2 := Provisioned(w1, c.id, HIVE_NAME, c.dir, c.config);
    ProvisioningKeepsRegistry(w1, c.id, HIVE_NAME, c.dir, c.config);
    NewRegistryIs(w2, entry, c.save);
    PlacedAt(w1, c.id, Provided(HomeDir(w1, c.id), c.id, HIVE_NAME, c.dir, c.config), c.id);
  }

  /** An agent is renamed exactly when it is registered, not the Hive, and saved; only
      its name changes. */
  lemma RenamedExactly(w: World, c: Call, hive: Agent)
    requires Inv(w, hive) && c.Rename?
    ensures Next(w, c).answer.Ok? <==> IsRegistered(w.agents, c.id) && c.id != hive.id && c.save == Done
    ensures Next(w, c).answer.Ok? ==>
              var w' := Next(w, c).world;
              && w' == w.(agents := w'.agents, saved := Some(w'.agents)) && |w'.agents| == |w.agents|
              && forall i :: 0 <= i < |w.agents| ==>
                   w'.agents[i] == if w.agents[i].id == c.id then w.agents[i].(name := c.name) else w.agents[i]
  {
    hide Renamed;
    RenamedIs(w, c, hive);
    if IsRegistered(w.agents, c.id) {
      FoundAt(w.agents, c.id);
    }
  }

  /** An agent is deleted exactly when it is registered, not the Hive, the registry is
      saved, and its directory is gone; nobody else's entry or directory is. */
  lemma DeletedExactly(w: World, c: Call, hive: Agent)
    requires Inv(w, hive) && c.Delete?
    ensures Next(w, c).answer.Ok?
       <==> IsRegistered(w.agents, c.id) && c.id != hive.id && c.save == Done
            && (HomeDir(w, c.id).Some? ==> c.left.None?)
    ensures Next(w, c).answer.Ok? ==>
              && Next(w, c).world.agents == Removed(w.agents, c.id)
              && Next(w, c).world.saved == Some(Removed(w.agents, c.id))
              && forall p :: Sub(Next(w, c).world.disk, p).Some? ==> !(HomeAt(w.root, c.id) <= p)
  {
    hide Sound, IsRegistered, Removed, Unregistered, Sub, Pruned, Grafted;
    UnregisteredIs(w, c.id, c.save, hive);
    if Next(w, c).answer.Ok? {
      var home := HomeAt(w.root, c.id);
      forall p | home <= p
        ensures Sub(Next(w, c).world.disk, p).None?
      {
        SubOfPruned(w.disk, home, p);
        if Sub(w.disk, p).Some? {
          PrefixExists(w.disk, home, p);
        }
      }
    }
  }

  /** A deletion loses nothing but what is in the directory of the agent it names. */
  lemma DeletionKeepsOthers(w: World, c: Call, hive: Agent, p: Place)
    requires Inv(w, hive) && c.Delete? && Sub(w.disk, p).Some? && !(HomeAt(w.root, c.id) <= p)
    ensures HasFiles(Next(w, c).world.disk, p, Sub(w.disk, p).value.files)
  {
    hide Inv, Next, Sub, Grafted, Pruned, IsRegistered;
    var files, home := Sub(w.disk, p).value.files, HomeAt(w.root, c.id);
    NextDisk(w, c, hive);
    PruningKeeps(w.disk, home, p, files);
    if c.left.Some? {
      GraftingKeeps(w.disk, home, c.left.value, p, files);
    }
  }

  // ---- Archiving and restoring ----

  /** An agent is archived exactly when it is a registered agent other than the Hive,
      the registry is saved, its directory is there, and the backup's name is free. */
  lemma ArchivedExactly(w: World, c: Call, hive: Agent)
    requires Inv(w, hive) && c.Archive?
    ensures Next(w, c).answer.Ok? <==> Archivable(w, c, hive)
    ensures Next(w, c).answer.Ok? ==>
              var w' := Next(w, c).world;
              && w'.agents == Removed(w.agents, c.id) && w'.saved == Some(w'.agents)
              && HomeDir(w', c.id).None? && Sub(w'.disk, BackupAt(w.root, c.backup)) == HomeDir(w, c.id)
  {
    hide Sound, IsRegistered, Removed, Unregistered, Sub, Pruned, Grafted;
    UnregisteredIs(w, c.id, c.save, hive);
    if Archivable(w, c, hive) {
      var home, backup, d := HomeAt(w.root, c.id), BackupAt(w.root, c.backup), HomeDir(w, c.id).value;
      BackupIsNotAHome(w.root, c.backup, c.id);
      SubOfPruned(w.disk, home, home);
      SubOfGrafted(Pruned(w.disk, home), backup, d, home);
      SubOfGrafted(Pruned(w.disk, home), backup, d, backup);
      assert backup[|backup|..] == [];
      SubOfItself(d);
    }
  }

  /** An archive that fails leaves the directory in place without an agent exactly when
      the registry could not be written or the move failed. */
  lemma ArchiveAbandonsExactly(w: World, c: Call, hive: Agent)
    requires Inv(w, hive) && c.Archive? && IsRegistered(w.agents, c.id) && HomeDir(w, c.id).Some?
    ensures SameHome(w, Next(w, c).world, c.id) && !IsRegistered(Next(w, c).world.agents, c.id)
       <==> c.id != hive.id && (c.save != Done || !c.renameOk || Taken(w, c.backup))
  {
    hide Sound, Removed, Unregistered, Sub, Pruned, Grafted;
    UnregisteredIs(w, c.id, c.save, hive);
    ArchivedExactly(w, c, hive);
  }

  /** A plain name leads to the backup of that name. */
  lemma PlainNameIsLocated(w: World, name: string)
    ensures SourceOf(w.root, [Normal(name)]) == BackupAt(w.root, name)
    ensures Located(w, [Normal(name)]) == Sub(w.disk, BackupAt(w.root, name))
  {
    hide Sub;
    var path, at := [Normal(name)], w.root + [BACKUPS];
    assert path[..0] == [] && Reached(at, []) == at && at + [name] == BackupAt(w.root, name);
    assert BackupAt(w.root, name)[|w.root|] == BACKUPS && RegistryAt(w.root)[|w.root|] == REGISTRY;
    assert BACKUPS[0] != REGISTRY[0];
    assert BackupAt(w.root, name)[..|at|] == at;
    if Sub(w.disk, BackupAt(w.root, name)).Some? {
      PrefixExists(w.disk, at, BackupAt(w.root, name));
    }
  }

  /** A name that is an absolute path leads to that place of the disk, whatever is in
      backups/; the registry's file is found where it is. */
  lemma AbsoluteIsLocated(w: World, p: Place)
    ensures SourceOf(w.root, Absolute(p)) == p
    ensures p != RegistryAt(w.root) ==> Located(w, Absolute(p)) == Sub(w.disk, p)
  {
    hide Sub;
    var at, path := w.root + [BACKUPS], Absolute(p);
    AbsoluteIsPlain(p);
    AbsoluteLeads(at, p);
    if p != RegistryAt(w.root) && Sub(w.disk, p).Some? {
      forall i | 1 <= i < |path|
        ensures Sub(w.disk, Reached(at, path[..i])).Some?
      {
        AbsolutePrefix(p, i - 1);
        AbsoluteLeads(at, p[..i - 1]);
        PrefixExists(w.disk, p[..i - 1], p);
      }
    }
  }

  lemma {:induction false} AbsoluteLeads(at: Place, p: Place)
    ensures Reached(at, Absolute(p)) == p
  {
    if p == [] {
      assert [RootDir][..0] == [];
    } else {
      AbsoluteLeads(at, p[..|p| - 1]);
    }
  }

  lemma {:induction false} AbsolutePrefix(p: Place, i: nat)
    requires i <= |p|
    ensures |Absolute(p)| == |p| + 1 && Absolute(p)[..i + 1] == Absolute(p[..i])
  {
    AbsoluteIsPlain(p);
    if i == |p| {
      assert p[..i] == p;
    } else {
      AbsolutePrefix(p[..|p| - 1], i);
      assert p[..|p| - 1][..i] == p[..i];
    }
  }

  /** A relative name leads nowhere when there is no backups/. */
  lemma RelativeNeedsBackups(w: World, path: Path)
    requires !IsAbsolute(path) && Sub(w.disk, w.root + [BACKUPS]).None?
    ensures Located(w, path).None?
  {
    hide Sub;
    assert BACKUPS[0] != REGISTRY[0];
    assert (w.root + [BACKUPS])[|w.root|] != RegistryAt(w.root)[|w.root|];
    if path != [] {
      assert path[..0] == [];
      assert Reached(w.root + [BACKUPS], path[..0]) == w.root + [BACKUPS];
    }
  }

  /** An archived agent comes back under a new id with all that it had, its config at its
      new place, and the backup gone; it has the name that its config gives. */
  lemma ArchiveThenRestore(w: World, a: Call, r: Call, hive: Agent)
    requires Inv(w, hive) && a.Archive? && Archivable(w, a, hive) && r.Restore?
    requires r.path == [Normal(a.backup)] && r.move.Moved? && r.configOk && r.signOk && r.save == Done
    requires r.id != a.id && !IsRegistered(w.agents, r.id) && HomeDir(w, r.id).None?
    ensures var d := HomeDir(w, a.id).value;
            var named := d.config.Readable? && d.config.agentName.Some?;
            var name := if named then d.config.agentName.value else "Restored Entity";
            var all := Removed(w.agents, a.id) + [Agent(r.id, name, false, IdentityDir(r.id))];
            var s := Next(Next(w, a).world, r);
            && s.answer.Ok? && s.world.agents == all && s.world.saved == Some(all)
            && HomeDir(s.world, r.id).Some?
            && HomeDir(s.world, r.id).value.files == d.files && HomeDir(s.world, r.id).value.subs == d.subs
            && HomeDir(s.world, r.id).value.config
               == (if d.config.Readable? then Readable(d.config.agentName, IdentityDir(r.id)) else d.config)
            && HomeDir(s.world, a.id).None? && !Taken(s.world, a.backup)
  {
    hide Inv, Next, Removed, Located, SourceOf, AfterMove, Grafted, Pruned, Sub, MoveOf;
    ArchivedExactly(w, a, hive);
    var w1, d := Next(w, a).world, HomeDir(w, a.id).value;
    NextKeepsInv(w, a, hive);
    PlainNameIsLocated(w1, a.backup);
    BackupMoves(w1, r, a.backup);
    RestoreAnswers(w1, r, hive);
    NextDisk(w1, r, hive);
    TargetAfter(w1, r, d);
    SourceAfter(w1, r, d);
    BackupIsNotAHome(w.root, a.backup, a.id);
    RestoreSpares(w1, r, d, a.id);
  }

  lemma BackupMoves(w: World, c: Call, backup: string)
    requires c.Restore? && c.move.Moved? && SourceOf(w.root, c.path) == BackupAt(w.root, backup)
    ensures MoveOf(w, c) == Moved && Apart(HomeAt(w.root, c.id), BackupAt(w.root, backup))
    ensures BackupAt(w.root, backup) != RegistryAt(w.root)
  {
    BackupIsNotAHome(w.root, backup, c.id);
  }

  // ---- Migration ----

  /** A migration makes an agent exactly when there is a legacy identity that was born,
      everything is copied and saved, and the id is new; the agent has the legacy data. */
  lemma MigratedExactly(w: World, c: Call, hive: Agent)
    requires Inv(w, hive) && c.Migrate?
    ensures Next(w, c).answer == Ok(Some(c.id))
       <==> w.legacy.LegacyRoot? && w.legacy.birthComplete && c.failed.None? && c.save == Done
            && !IsRegistered(w.agents, c.id)
    ensures Next(w, c).answer == Ok(Some(c.id)) ==>
              var w' := Next(w, c).world;
              && |w'.agents| == |w.agents| + 1 && w'.agents[..|w.agents|] == w.agents
              && w'.agents[|w.agents|]
                 == Agent(c.id, if w.legacy.agentName.Some? then w.legacy.agentName.value else "Legacy Agent", false,
                          IdentityDir(c.id))
              && w'.saved == Some(w'.agents) && w'.legacy == w.legacy
              && HomeDir(w', c.id) == Some(w.legacy.data.(config := Readable(w.legacy.agentName, IdentityDir(c.id))))
  {
    hide Sound, IsRegistered, Registered, Sub, Grafted;
    if w.legacy.LegacyRoot? {
      var name := if w.legacy.agentName.Some? then w.legacy.agentName.value else LEGACY_NAME;
      var d := w.legacy.data.(config := Readable(w.legacy.agentName, IdentityDir(c.id)));
      RegisteredIs(Placed(w, c.id, d), Agent(c.id, name, false, IdentityDir(c.id)), c.save, hive);
      PlacedAt(w, c.id, d, c.id);
    }
  }

  /** Two agents with the same legacy data. */
  predicate TwiceMigrated(w: World, s: Step, first: string, second: string) {
    && s.answer == Ok(Some(second)) && w.legacy.LegacyRoot?
    && HomeDir(s.world, first) == Some(w.legacy.data.(config := Readable(w.legacy.agentName, IdentityDir(first))))
    && HomeDir(s.world, second) == Some(w.legacy.data.(config := Readable(w.legacy.agentName, IdentityDir(second))))
  }

  /** A migration does not take the legacy files away: after one that made an agent, a
      second makes one more exactly when nothing fails in it and its id is new again. */
  lemma MigratingAgainExactly(w: World, a: Call, b: Call, hive: Agent)
    requires Inv(w, hive) && a.Migrate? && b.Migrate? && Next(w, a).answer == Ok(Some(a.id))
    ensures TwiceMigrated(w, Next(Next(w, a).world, b), a.id, b.id)
       <==> b.failed.None? && b.save == Done && b.id != a.id && !IsRegistered(w.agents, b.id)
  {
    hide Inv, Next, Sub;
    var w1 := Next(w, a).world;
    MigratedExactly(w, a, hive);
    NextKeepsInv(w, a, hive);
    MigratedExactly(w1, b, hive);
    OneMoreId(w.agents, w1.agents, b.id);
    if a.id != b.id {
      OtherDirsAreKept(w1, b, hive, a.id);
    }
  }

  lemma OneMoreId(agents: seq<Agent>, more: seq<Agent>, id: string)
    requires |more| == |agents| + 1 && more[..|agents|] == agents
    ensures IsRegistered(more, id) <==> IsRegistered(agents, id) || more[|agents|].id == id
  {
    assert more == agents + [more[|agents|]];
  }

  // ---- Nothing but a deletion loses files ----

  function Rebased(p: Place, from: Place, to: Place): Place {
    if from <= p then to + p[|from|..] else p
  }

  /** Where the directory at `p` is after a call: with what was moved, or where it was. */
  function NewPlace(w: World, c: Call, p: Place): Place {
    match c
    case Archive(id, backup, _, _) =>
      if Next(w, c).answer.Ok? then Rebased(p, HomeAt(w.root, id), BackupAt(w.root, backup)) else p
    case Restore(path, id, _, _, _, _) =>
      if Located(w, path).None? || MoveOf(w, c).CopyFailed? || SourceOf(w.root, path) == RegistryAt(w.root) then p
      else Rebased(p, SourceOf(w.root, path), HomeAt(w.root, id))
    case _ => p
  }

  predicate HasFiles(d: Dir, p: Place, files: string) {
    Sub(d, p).Some? && Sub(d, p).value.files == files
  }

  lemma GraftingKeeps(d: Dir, p: Place, x: Dir, q: Place, files: string)
    requires HasFiles(d, q, files) && (p <= q ==> HasFiles(x, q[|p|..], files))
    ensures HasFiles(Grafted(d, p, x), q, files)
  {
    hide Sub, Grafted;
    SubOfGrafted(d, p, x, q);
  }

  lemma PruningKeeps(d: Dir, p: Place, q: Place, files: string)
    requires HasFiles(d, q, files) && p != [] && !(p <= q)
    ensures HasFiles(Pruned(d, p), q, files)
  {
    hide Sub, Pruned;
    SubOfPruned(d, p, q);
  }

  /** What was under one place is under another, once it is put there. */
  lemma GraftedHas(d: Dir, p: Place, x: Dir, q: Place, from: Place, files: string)
    requires p <= q && HasFiles(x, q[|p|..], files)
    ensures HasFiles(Grafted(d, from, x), from + q[|p|..], files)
  {
    hide Sub, Grafted;
    SubOfGrafted(d, from, x, from + q[|p|..]);
    assert (from + q[|p|..])[|from|..] == q[|p|..];
  }

  lemma UnderHas(d: Dir, p: Place, q: Place, files: string)
    requires p <= q && HasFiles(d, q, files)
    ensures Sub(d, p).Some? && HasFiles(Sub(d, p).value, q[|p|..], files)
  {
    hide Sub;
    SubOfSub(d, p, q[|p|..]);
    assert p + q[|p|..] == q;
  }

  lemma ProvidedHas(before: Option<Dir>, id: string, name: string, dir: AtomicWrite, config: AtomicWrite, r: Place,
                    files: string)
    requires before.Some? && HasFiles(before.value, r, files)
    ensures HasFiles(Provided(before, id, name, dir, config), r, files)
  {
  }

  lemma RehomedHas(d: Dir, id: string, r: Place, files: string)
    requires HasFiles(d, r, files)
    ensures HasFiles(Rehomed(d, id), r, files)
  {
  }

  lemma PlacingKeeps(w: World, id: string, d: Dir, p: Place, files: string)
    requires HasFiles(w.disk, p, files) && HomeDir(w, id).None?
    ensures HasFiles(Placed(w, id, d).disk, p, files) && !(HomeAt(w.root, id) <= p)
  {
    hide Sub, Grafted;
    if HomeAt(w.root, id) <= p {
      PrefixExists(w.disk, HomeAt(w.root, id), p);
    }
    GraftingKeeps(w.disk, HomeAt(w.root, id), d, p, files);
  }

  lemma CreatingKeeps(w: World, c: Call, p: Place, files: string)
    requires c.Create? && HasFiles(w.disk, p, files)
    ensures HasFiles(Provisioned(w, c.id, c.name, c.dir, c.config).disk, p, files)
  {
    hide Sub, Grafted, Provided;
    var home := HomeAt(w.root, c.id);
    if home <= p {
      UnderHas(w.disk, home, p, files);
      ProvidedHas(HomeDir(w, c.id), c.id, c.name, c.dir, c.config, p[|home|..], files);
    }
    GraftingKeeps(w.disk, home, Provided(HomeDir(w, c.id), c.id, c.name, c.dir, c.config), p, files);
  }

  lemma MovingKeeps(d: Dir, from: Place, to: Place, x: Dir, p: Place, files: string)
    requires HasFiles(d, p, files) && Sub(d, from).Some? && Sub(d, to).None? && from != []
    requires from <= p ==> HasFiles(x, p[|from|..], files)
    ensures HasFiles(Grafted(Pruned(d, from), to, x), Rebased(p, from, to), files)
  {
    hide Sub, Grafted, Pruned;
    if to <= p {
      PrefixExists(d, to, p);
    }
    if from <= p {
      GraftedHas(Pruned(d, from), from, x, p, to, files);
    } else {
      PruningKeeps(d, from, p, files);
      GraftingKeeps(Pruned(d, from), to, x, p, files);
    }
  }

  lemma RestoringKeeps(w: World, c: Call, d: Dir, p: Place, files: string)
    requires c.Restore? && Located(w, c.path) == Some(d) && HomeDir(w, c.id).None? && HasFiles(w.disk, p, files)
    ensures HasFiles(AfterMove(w, c, d).disk, NewPlace(w, c, p), files)
  {
    hide Sub, Grafted, Pruned, Located, SourceOf, Rehomed;
    var from, to := SourceOf(w.root, c.path), HomeAt(w.root, c.id);
    LocatedIsThere(w, c.path);
    var d1 := if c.configOk then Rehomed(d, c.id) else d;
    if from == RegistryAt(w.root) {
      if c.move.CopyFailed? && c.move.partial.Some? {
        PlacingKeeps(w, c.id, c.move.partial.value, p, files);
      }
      PlacingKeeps(w.(saved := None), c.id, d1, p, files);
    } else {
      if from <= p {
        UnderHas(w.disk, from, p, files);
        RehomedHas(d, c.id, p[|from|..], files);
      }
      if to <= from {
        PrefixExists(w.disk, to, from);
      }
      match MoveOf(w, c)
      case CopyFailed(partial) =>
        if partial.Some? {
          PlacingKeeps(w, c.id, partial.value, p, files);
        }
      case Moved => MovingKeeps(w.disk, from, to, d1, p, files);
      case OriginalKept(rest) =>
        var w1 := Placed(w, c.id, d);
        if from <= p {
          GraftedHas(w.disk, from, d, p, to, files);
          var q := to + p[|from|..];
          PrefixesCompare(from, to, q);
          GraftingKeeps(w1.disk, from, rest, q, files);
        } else {
          PlacingKeeps(w, c.id, d, p, files);
          GraftingKeeps(w1.disk, from, rest, p, files);
        }
    }
  }

  lemma PrefixesCompare(from: Place, to: Place, q: Place)
    requires to <= q
    ensures from <= q ==> from <= to || to <= from
  {
    if from <= q {
      assert from == q[..|from|] && to == q[..|to|];
    }
  }

  /** Whatever fails in it, no call but a deletion loses a directory's files: they are
      where they were, or where the directory was moved. */
  lemma OnlyDeletionLoses(w: World, c: Call, hive: Agent, p: Place)
    requires Inv(w, hive) && !c.Delete? && Sub(w.disk, p).Some?
    requires c.Restore? || c.Migrate? ==> HomeDir(w, c.id).None?
    ensures HasFiles(Next(w, c).world.disk, NewPlace(w, c, p), Sub(w.disk, p).value.files)
  {
    hide Inv, Next, Sub, Grafted, Pruned, Located, SourceOf, AfterMove, Provisioned, MoveOf;
    var files := Sub(w.disk, p).value.files;
    NextDisk(w, c, hive);
    match c
    case Create(_, _, _, _, _) => CreatingKeeps(w, c, p, files);
    case Archive(id, backup, _, _) =>
      ArchivedExactly(w, c, hive);
      if Archivable(w, c, hive) {
        var home := HomeAt(w.root, id);
        if home <= p {
          UnderHas(w.disk, home, p, files);
        }
        MovingKeeps(w.disk, home, BackupAt(w.root, backup), HomeDir(w, id).value, p, files);
      }
    case Restore(path, _, _, _, _, _) =>
      if Located(w, path).Some? {
        RestoringKeeps(w, c, Located(w, path).value, p, files);
      }
    case Migrate(id, failed, _) =>
      if failed.Some? && failed.value.Some? {
        PlacingKeeps(w, id, failed.value.value, p, files);
      }
      if w.legacy.LegacyRoot? {
        PlacingKeeps(w, id, w.legacy.data.(config := Readable(w.legacy.agentName, IdentityDir(id))), p, files);
      }
    case _ =>
  }

  /** Directories are made for new ids only. */
  ghost predicate NewIds(w: World, cs: seq<Call>) {
    cs == [] ||
    var before, c := Run(w, cs[..|cs| - 1]), cs[|cs| - 1];
    NewIds(w, cs[..|cs| - 1]) && (c.Restore? || c.Migrate? ==> HomeDir(before, c.id).None?)
  }

  /** So over any run without deletions each directory's files are still somewhere. */
  lemma {:induction false} FilesSurvive(w: World, cs: seq<Call>, hive: Agent, p: Place)
    requires Inv(w, hive) && Sub(w.disk, p).Some? && NewIds(w, cs)
    requires forall c :: c in cs ==> SparesRegistry(w.root, c) && !c.Delete?
    ensures exists q :: HasFiles(Run(w, cs).disk, q, Sub(w.disk, p).value.files)
  {
    hide Inv, Next, Sub, SparesRegistry;
    var files := Sub(w.disk, p).value.files;
    if cs == [] {
      assert Run(w, cs) == w && HasFiles(w.disk, p, files);
    } else {
      var n := |cs| - 1;
      FilesSurvive(w, cs[..n], hive, p);
      RunKeepsInv(w, cs[..n], hive);
      var q :| HasFiles(Run(w, cs[..n]).disk, q, files);
      assert cs[n] in cs;
      var w1 := Run(w, cs[..n]);
      OnlyDeletionLoses(w1, cs[n], hive, q);
      assert HasFiles(Run(w, cs).disk, NewPlace(w1, cs[n], q), files);
    }
  }
}
