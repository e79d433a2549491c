/** The registry of agents and their directories (crates/abigail-identity/src/lib.rs,
    with the entry of the Hive itself from crates/abigail-identity/src/hive.rs). */
module Identity {
  import opened Wrappers
  import opened PathGuard
  import opened GlobalConfig
  import opened DirTree

  // ---- The registry, its file and the directories ----

  /** An installation from before there was a registry, with the data that is migrated. */
  datatype Legacy = NoLegacy | BadLegacy | LegacyRoot(birthComplete: bool, agentName: Option<string>, data: Dir)

  /** `saved` is the registry file, if there is one; it and the legacy files are kept
      apart from the directories of the disk. `root` is where the data directory is. */
  datatype World = World(agents: seq<Agent>, saved: Option<seq<Agent>>, disk: Dir, root: Place, legacy: Legacy)

  datatype Error =
    | NotRegistered | AlreadyRegistered | HiveIsLocked | BadDirectory(error: PathError)
    | BackupNotFound | DirectoryNotFound | BadLegacyConfig | IoFailed

  /** The world after a call, and its answer: an agent's id or nothing. */
  datatype Step = Step(world: World, answer: Result<Option<string>, Error>)

  const HIVE_NAME := "Abigail Hive"
  const LEGACY_NAME := "Legacy Agent"
  const RESTORED_NAME := "Restored Entity"
  const BACKUPS := "backups"
  const REGISTRY := "global_settings.json"
  const DOCS := "docs"

  function HomeAt(root: Place, id: string): Place {
    root + [IDENTITIES, id]
  }

  function BackupAt(root: Place, backup: string): Place {
    root + [BACKUPS, backup]
  }

  function RegistryAt(root: Place): Place {
    root + [REGISTRY]
  }

  function HomeDir(w: World, id: string): Option<Dir> {
    Sub(w.disk, HomeAt(w.root, id))
  }

  // ---- Calls ----

  /** How a directory was moved or copied into place. */
  datatype Move = Moved | CopyFailed(partial: Option<Dir>) | OriginalKept(rest: Dir)

  datatype Call =
    /* `dir`, `config`, `save`: making the directory, writing its config and saving the
       registry. */
    | Create(name: string, id: string, dir: AtomicWrite, config: AtomicWrite, save: AtomicWrite)
    | Rename(id: string, name: string, save: AtomicWrite)
    /* `left`: what a failed removal leaves of the directory. */
    | Delete(id: string, save: AtomicWrite, left: Option<Dir>)
    | Archive(id: string, backup: string, save: AtomicWrite, renameOk: bool)
    /* `path`: what the caller gives for the backup's name. */
    | Restore(path: Path, id: string, move: Move, configOk: bool, signOk: bool, save: AtomicWrite)
    /* `failed`: copying failed, with this much copied. */
    | Migrate(id: string, failed: Option<Option<Dir>>, save: AtomicWrite)
    /* `first`: writing a new registry file where there is none. */
    | Reopen(id: string, first: AtomicWrite, dir: AtomicWrite, config: AtomicWrite, save: AtomicWrite)

  /** `gc.save`: the file gets the registry with its directories normalised. */
  function Saved(w: World, answer: Option<string>, save: AtomicWrite): Step {
    match NormalizedAll(w.agents)
    case Err(e) => Step(w, Err(BadDirectory(e)))
    case Ok(all) =>
      Step(if save == Kept then w else w.(saved := Some(all)), if save == Done then Ok(answer) else Err(IoFailed))
  }

  /** An entry is added in memory and then saved. */
  function Registered(w: World, entry: Agent, save: AtomicWrite): Step {
    if IsRegistered(w.agents, entry.id) then Step(w, Err(AlreadyRegistered))
    else Saved(w.(agents := w.agents + [entry]), Some(entry.id), save)
  }

  function Placed(w: World, id: string, d: Dir): World {
    w.(disk := Grafted(w.disk, HomeAt(w.root, id), d))
  }

  function WithDocs(d: Dir): Dir {
    if DOCS in d.subs then d else d.(subs := d.subs[DOCS := EMPTY])
  }

  /** A directory that is made if it is not there, and its config.json written. */
  function Provided(before: Option<Dir>, id: string, name: string, dir: AtomicWrite, config: AtomicWrite): Dir {
    var d := if before.Some? then before.value else EMPTY;
    if dir != Done then d
    else if config == Kept then WithDocs(d)
    else WithDocs(d).(config := Readable(Some(name), IdentityDir(id)))
  }

  function Provisioned(w: World, id: string, name: string, dir: AtomicWrite, config: AtomicWrite): World {
    if dir == Kept then w else Placed(w, id, Provided(HomeDir(w, id), id, name, dir, config))
  }

  /** The directory's name under identities/. */
  function HomeName(entry: Agent): Result<string, Error> {
    match NormalizeAgentDirectory(entry.directory)
    case Err(e) => Err(BadDirectory(e))
    case Ok(d) => if |d| == 2 && d[1].Normal? then Ok(d[1].name) else Err(BadDirectory(NotAnIdentity))
  }

  function Created(w: World, c: Call): Step
    requires c.Create?
  {
    var w1 := Provisioned(w, c.id, c.name, c.dir, c.config);
    if c.dir != Done || c.config != Done then Step(w1, Err(IoFailed))
    else Registered(w1, Agent(c.id, c.name, false, IdentityDir(c.id)), c.save)
  }

  /** The place of the first entry of `id`, or the end. */
  function IndexOf(agents: seq<Agent>, id: string): (i: nat)
    ensures i <= |agents| && (i < |agents| ==> agents[i].id == id)
    ensures forall j :: 0 <= j < i ==> agents[j].id != id
  {
    if agents == [] || agents[0].id == id then 0 else IndexOf(agents[1..], id) + 1
  }

  function RenamedIn(agents: seq<Agent>, id: string, name: string): seq<Agent> {
    var i := IndexOf(agents, id);
    if i == |agents| then agents else agents[i := agents[i].(name := name)]
  }

  function Renamed(w: World, c: Call): Step
    requires c.Rename?
  {
    match Find(w.agents, c.id)
    case None => Step(w, Err(NotRegistered))
    case Some(entry) =>
      if entry.isHive then Step(w, Err(HiveIsLocked))
      else Saved(w.(agents := RenamedIn(w.agents, c.id, c.name)), None, c.save)
  }

  /** The agent is taken off the registry; the answer is its directory's name. */
  function Unregistered(w: World, id: string, save: AtomicWrite): Step {
    match Find(w.agents, id)
    case None => Step(w, Err(NotRegistered))
    case Some(entry) =>
      if entry.isHive then Step(w, Err(HiveIsLocked))
      else
        match HomeName(entry)
        case Err(e) => Step(w, Err(e))
        case Ok(dir) => Saved(w.(agents := Removed(w.agents, id)), Some(dir), save)
  }

  function Deleted(w: World, c: Call): Step
    requires c.Delete?
  {
    match Unregistered(w, c.id, c.save)
    case Step(w1, Ok(Some(dir))) =>
      if HomeDir(w1, dir).None? then Step(w1, Ok(None))
      else if c.left.Some? then Step(Placed(w1, dir, c.left.value), Err(IoFailed))
      else Step(w1.(disk := Pruned(w1.disk, HomeAt(w1.root, dir))), Ok(None))
    case step => step
  }

  /** A backup's name must be free, or the move fails; the agent is off the registry by then. */
  function Archived(w: World, c: Call): Step
    requires c.Archive?
  {
    match Unregistered(w, c.id, c.save)
    case Step(w1, Ok(Some(dir))) =>
      if HomeDir(w1, dir).None? then Step(w1, Err(DirectoryNotFound))
      else if !c.renameOk || Taken(w1, c.backup) then Step(w1, Err(IoFailed))
      else
        Step(w1.(disk := Grafted(Pruned(w1.disk, HomeAt(w1.root, dir)), BackupAt(w1.root, c.backup),
                                 HomeDir(w1, dir).value)),
             Ok(Some(c.backup)))
    case step => step
  }

  predicate Taken(w: World, backup: string) {
    Sub(w.disk, BackupAt(w.root, backup)).Some?
  }

  /** A restored directory's config points to its new place. */
  function Rehomed(d: Dir, id: string): Dir {
    if d.config.Readable? then d.(config := d.config.(dataDir := IdentityDir(id))) else d
  }

  function RestoredName(d: Dir): string {
    if d.config.Readable? && d.config.agentName.Some? then d.config.agentName.value else RESTORED_NAME
  }

  /** Where a backup's name leads: it is joined to backups/ as it is. */
  function SourceOf(root: Place, path: Path): Place {
    Reached(root + [BACKUPS], path)
  }

  /** What is found there, if every step on the way leads through a directory. */
  function Located(w: World, path: Path): Option<Dir> {
    if forall i | (if IsAbsolute(path) then 1 else 0) <= i < |path| ::
         Sub(w.disk, Reached(w.root + [BACKUPS], path[..i])).Some?
    then Found(w, SourceOf(w.root, path)) else None
  }

  /** The registry file counts as a directory without anything in it. */
  function Found(w: World, p: Place): Option<Dir> {
    if p == RegistryAt(w.root) then (if w.saved.Some? then Some(EMPTY) else None) else Sub(w.disk, p)
  }

  function Without(w: World, p: Place): World {
    if p == RegistryAt(w.root) then w.(saved := None) else w.(disk := Pruned(w.disk, p))
  }

  /** A directory cannot be moved or copied into itself, and a file is moved at once or
      not at all. */
  function MoveOf(w: World, c: Call): Move
    requires c.Restore?
  {
    var p := SourceOf(w.root, c.path);
    if c.move.CopyFailed? then c.move
    else if p < HomeAt(w.root, c.id) || (p == RegistryAt(w.root) && c.move.OriginalKept?) then CopyFailed(None)
    else c.move
  }

  /** The world once the move is done, or has failed. */
  function AfterMove(w: World, c: Call, d: Dir): World
    requires c.Restore?
  {
    var p := SourceOf(w.root, c.path);
    match MoveOf(w, c)
    case CopyFailed(partial) => if partial.Some? then Placed(w, c.id, partial.value) else w
    case OriginalKept(rest) => var w1 := Placed(w, c.id, d); w1.(disk := Grafted(w1.disk, p, rest))
    case Moved => Placed(Without(w, p), c.id, if c.configOk then Rehomed(d, c.id) else d)
  }

  function Restored(w: World, c: Call): Step
    requires c.Restore?
  {
    match Located(w, c.path)
    case None => Step(w, Err(BackupNotFound))
    case Some(d) =>
      var w1 := AfterMove(w, c, d);
      if !MoveOf(w, c).Moved? || !c.signOk then Step(w1, Err(IoFailed))
      else Registered(w1, Agent(c.id, RestoredName(d), false, IdentityDir(c.id)), c.save)
  }

  function Migrated(w: World, c: Call): Step
    requires c.Migrate?
  {
    match w.legacy
    case NoLegacy => Step(w, Ok(None))
    case BadLegacy => Step(w, Err(BadLegacyConfig))
    case LegacyRoot(birthComplete, agentName, data) =>
      if !birthComplete then Step(w, Ok(None))
      else
        match c.failed
        case Some(partial) => Step(if partial.Some? then Placed(w, c.id, partial.value) else w, Err(IoFailed))
        case None =>
          var name := if agentName.Some? then agentName.value else LEGACY_NAME;
          Registered(Placed(w, c.id, data.(config := Readable(agentName, IdentityDir(c.id)))),
                     Agent(c.id, name, false, IdentityDir(c.id)), c.save)
  }

  predicate HasHive(agents: seq<Agent>) {
    exists a :: a in agents && a.isHive
  }

  /** `ensure_hive_entity`. */
  function HiveEnsured(w: World, c: Call): Step
    requires c.Reopen?
  {
    if HasHive(w.agents) then Step(w, Ok(None))
    else
      var w1 := Provisioned(w, c.id, HIVE_NAME, c.dir, c.config);
      if c.dir != Done || c.config != Done then Step(w1, Err(IoFailed))
      else Registered(w1, Agent(c.id, HIVE_NAME, true, IdentityDir(c.id)), c.save)
  }

  /** A restart: the registry is what its file says, or a new one without agents. */
  function Reopened(w: World, c: Call): Step
    requires c.Reopen?
  {
    match w.saved
    case None =>
      var first := Saved(w.(agents := []), None, c.first);
      if first.answer.Err? then first else HiveEnsured(first.world, c)
    case Some(file) =>
      match Load(file)
      case Err(e) => Step(w, Err(BadDirectory(e)))
      case Ok(all) => HiveEnsured(w.(agents := all), c)
  }

  function Next(w: World, c: Call): Step {
    match c
    case Create(_, _, _, _, _) => Created(w, c)
    case Rename(_, _, _) => Renamed(w, c)
    case Delete(_, _, _) => Deleted(w, c)
    case Archive(_, _, _, _) => Archived(w, c)
    case Restore(_, _, _, _, _, _) => Restored(w, c)
    case Migrate(_, _, _) => Migrated(w, c)
    case Reopen(_, _, _, _, _) => Reopened(w, c)
  }

  function Run(w: World, cs: seq<Call>): World {
    if cs == [] then w else Next(Run(w, cs[..|cs| - 1]), cs[|cs| - 1]).world
  }

  // ---- The manager ----

  class IdentityManager {
    const root: Place
    const global: Registry
    var saved: Option<seq<Agent>>
    var disk: Dir
    var legacy: Legacy

    ghost function State(): World
      reads this, global
    {
      World(global.agents, saved, disk, root, legacy)
    }

    constructor (w: World)
      ensures State() == w && fresh(global)
    {
      global := new Registry(w.agents);
      saved, disk, root, legacy := w.saved, w.disk, w.root, w.legacy;
    }

    /** A clone of the registry is normalised and written; the registry itself is not changed. */
    method Save(answer: Option<string>, save: AtomicWrite) returns (r: Result<Option<string>, Error>)
      modifies this`saved
      ensures Step(State(), r) == Saved(old(State()), answer, save)
    {
      var normalized := new Registry(global.agents);
      var n := normalized.NormalizeAgentDirectories();
      match n {
        case Err(e) => return Err(BadDirectory(e));
        case Ok(_) =>
      }
      if save != Kept {
        saved := Some(normalized.agents);
      }
      return if save == Done then Ok(answer) else Err(IoFailed);
    }

    method Register(entry: Agent, save: AtomicWrite) returns (r: Result<Option<string>, Error>)
      modifies this`saved, global
      ensures Step(State(), r) == Registered(old(State()), entry, save)
    {
      var ok := global.RegisterAgent(entry);
      if !ok {
        return Err(AlreadyRegistered);
      }
      r := Save(Some(entry.id), save);
    }

    method Provision(id: string, name: string, dir: AtomicWrite, config: AtomicWrite) returns (ok: bool)
      modifies this`disk
      ensures State() == Provisioned(old(State()), id, name, dir, config)
      ensures ok <==> dir == Done && config == Done
    {
      if dir == Kept {
        return false;
      }
      var home := HomeAt(root, id);
      var before := Sub(disk, home);
      var d := if before.Some? then before.value else EMPTY;
      if dir == Done {
        d := WithDocs(d);
        if config != Kept {
          d := d.(config := Readable(Some(name), IdentityDir(id)));
        }
      }
      disk := Grafted(disk, home, d);
      return dir == Done && config == Done;
    }

    method CreateAgent(c: Call) returns (r: Result<Option<string>, Error>)
      requires c.Create?
      modifies this, global
      ensures Step(State(), r) == Next(old(State()), c)
    {
      hide Registered, Provisioned;
      var ok := Provision(c.id, c.name, c.dir, c.config);
      if !ok {
        return Err(IoFailed);
      }
      r := Register(Agent(c.id, c.name, false, IdentityDir(c.id)), c.save);
    }

    method UpdateAgentName(c: Call) returns (r: Result<Option<string>, Error>)
      requires c.Rename?
      modifies this, global
      ensures Step(State(), r) == Next(old(State()), c)
    {
      hide Saved, Find, IndexOf;
      var agents := global.agents;
      FoundAt(agents, c.id);
      for i := 0 to |agents|
        invariant State() == old(State())
        invariant forall j :: 0 <= j < i ==> agents[j].id != c.id
      {
        if agents[i].id == c.id {
          if agents[i].isHive {
            return Err(HiveIsLocked);
          }
          global.agents := agents[i := agents[i].(name := c.name)];
          r := Save(None, c.save);
          return;
        }
      }
      return Err(NotRegistered);
    }

    /** What deletion and archiving have in common. */
    method Unregister(id: string, save: AtomicWrite) returns (r: Result<Option<string>, Error>)
      modifies this`saved, global
      ensures Step(State(), r) == Unregistered(old(State()), id, save)
    {
      hide Saved, Removed, NormalizeAgentDirectory;
      var entry := Find(global.agents, id);
      if entry.None? {
        return Err(NotRegistered);
      }
      if entry.value.isHive {
        return Err(HiveIsLocked);
      }
      var home := HomeName(entry.value);
      match home {
        case Err(e) => return Err(e);
        case Ok(dir) =>
          var _ := global.RemoveAgent(id);
          r := Save(Some(dir), save);
      }
    }

    method DeleteAgent(c: Call) returns (r: Result<Option<string>, Error>)
      requires c.Delete?
      modifies this, global
      ensures Step(State(), r) == Next(old(State()), c)
    {
      hide Unregistered;
      r := Unregister(c.id, c.save);
      UnregisteredAnswers(old(State()), c.id, c.save);
      if r.Err? {
        return;
      }
      var home := HomeAt(root, r.value.value);
      if Sub(disk, home).Some? {
        if c.left.Some? {
          disk := Grafted(disk, home, c.left.value);
          return Err(IoFailed);
        }
        disk := Pruned(disk, home);
      }
      return Ok(None);
    }

    method ArchiveAgent(c: Call) returns (r: Result<Option<string>, Error>)
      requires c.Archive?
      modifies this, global
      ensures Step(State(), r) == Next(old(State()), c)
    {
      hide Unregistered;
      r := Unregister(c.id, c.save);
      UnregisteredAnswers(old(State()), c.id, c.save);
      if r.Err? {
        return;
      }
      var home := HomeAt(root, r.value.value);
      var d := Sub(disk, home);
      if d.None? {
        return Err(DirectoryNotFound);
      }
      var backup := BackupAt(root, c.backup);
      if !c.renameOk || Sub(disk, backup).Some? {
        return Err(IoFailed);
      }
      disk := Pruned(disk, home);
      disk := Grafted(disk, backup, d.value);
      return Ok(Some(c.backup));
    }

    /** Moving what is at `p` to the new agent's home. */
    method Move(c: Call, p: Place, d: Dir) returns (ok: bool)
      requires c.Restore? && p == SourceOf(root, c.path)
      modifies this`disk, this`saved
      ensures State() == AfterMove(old(State()), c, d)
      ensures ok <==> MoveOf(old(State()), c).Moved?
    {
      var home := HomeAt(root, c.id);
      match c.move {
        case CopyFailed(partial) =>
          if partial.Some? {
            disk := Grafted(disk, home, partial.value);
          }
          return false;
        case OriginalKept(rest) =>
          if !(p < home) && p != RegistryAt(root) {
            disk := Grafted(disk, home, d);
            disk := Grafted(disk, p, rest);
          }
          return false;
        case Moved =>
          if p < home {
            return false;
          }
          if p == RegistryAt(root) {
            saved := None;
          } else {
            disk := Pruned(disk, p);
          }
          disk := Grafted(disk, home, if c.configOk then Rehomed(d, c.id) else d);
          return true;
      }
    }

    method RestoreBackup(c: Call) returns (r: Result<Option<string>, Error>)
      requires c.Restore?
      modifies this, global
      ensures Step(State(), r) == Next(old(State()), c)
    {
      hide Registered, Located, AfterMove, MoveOf;
      var d := Located(World(global.agents, saved, disk, root, legacy), c.path);
      if d.None? {
        return Err(BackupNotFound);
      }
      var name := RestoredName(d.value);
      var ok := Move(c, SourceOf(root, c.path), d.value);
      if !ok || !c.signOk {
        return Err(IoFailed);
      }
      r := Register(Agent(c.id, name, false, IdentityDir(c.id)), c.save);
    }

    method MigrateLegacyIdentity(c: Call) returns (r: Result<Option<string>, Error>)
      requires c.Migrate?
      modifies this, global
      ensures Step(State(), r) == Next(old(State()), c)
    {
      hide Registered;
      if legacy.NoLegacy? {
        return Ok(None);
      }
      if legacy.BadLegacy? {
        return Err(BadLegacyConfig);
      }
      if !legacy.birthComplete {
        return Ok(None);
      }
      var home := HomeAt(root, c.id);
      if c.failed.Some? {
        if c.failed.value.Some? {
          disk := Grafted(disk, home, c.failed.value.value);
        }
        return Err(IoFailed);
      }
      var name := if legacy.agentName.Some? then legacy.agentName.value else LEGACY_NAME;
      disk := Grafted(disk, home, legacy.data.(config := Readable(legacy.agentName, IdentityDir(c.id))));
      r := Register(Agent(c.id, name, false, IdentityDir(c.id)), c.save);
    }

    /** A restart: the file is read back, or a new one written, and the Hive's own entry
        is ensured. */
    method Reopen(c: Call) returns (r: Result<Option<string>, Error>)
      requires c.Reopen?
      modifies this, global
      ensures Step(State(), r) == Next(old(State()), c)
    {
      hide NormalizedAll, Registered, Provisioned, Saved;
      if saved.None? {
        global.agents := [];
        r := Save(None, c.first);
        if r.Err? {
          return;
        }
      } else {
        var loaded := Load(saved.value);
        match loaded {
          case Err(e) => return Err(BadDirectory(e));
          case Ok(all) => global.agents := all;
        }
      }
      if HasHive(global.agents) {
        return Ok(None);
      }
      var ok := Provision(c.id, HIVE_NAME, c.dir, c.config);
      if !ok {
        return Err(IoFailed);
      }
      r := Register(Agent(c.id, HIVE_NAME, true, IdentityDir(c.id)), c.save);
    }
  }

  lemma {:induction false} FoundAt(agents: seq<Agent>, id: string)
    ensures var i := IndexOf(agents, id);
            Find(agents, id) == if i < |agents| then Some(agents[i]) else None
  {
    if agents != [] && agents[0].id != id {
      FoundAt(agents[1..], id);
    }
  }

  lemma UnregisteredAnswers(w: World, id: string, save: AtomicWrite)
    ensures Unregistered(w, id, save).answer.Ok? ==> Unregistered(w, id, save).answer.value.Some?
  {
  }

  // ---- Invariants ----

  ghost predicate DistinctIds(agents: seq<Agent>) {
    forall i, j :: 0 <= i < j < |agents| ==> agents[i].id != agents[j].id
  }

  /** The ids are distinct, each agent has its own directory, and `hive` is there and the only Hive. */
  ghost predicate Sound(agents: seq<Agent>, hive: Agent) {
    && DistinctIds(agents) && HomesAreOwn(agents)
    && hive in agents && hive.isHive && hive.name == HIVE_NAME
    && forall a :: a in agents && a.isHive ==> a == hive
  }

  ghost predicate Inv(w: World, hive: Agent) {
    Sound(w.agents, hive) && w.saved.Some? && Sound(w.saved.value, hive)
  }

  /** The world with a registry that was written, unless the write kept the old file. */
  function WithRegistry(w: World, agents: seq<Agent>, save: AtomicWrite): World {
    w.(agents := agents, saved := if save == Kept then w.saved else Some(agents))
  }

  function Answered(answer: Option<string>, save: AtomicWrite): Result<Option<string>, Error> {
    if save == Done then Ok(answer) else Err(IoFailed)
  }

  lemma SavedIs(w: World, answer: Option<string>, save: AtomicWrite)
    requires HomesAreOwn(w.agents)
    ensures Saved(w, answer, save) == Step(WithRegistry(w, w.agents, save), Answered(answer, save))
  {
    OwnHomesAreNormal(w.agents);
  }

  lemma AddedIsSound(agents: seq<Agent>, entry: Agent, hive: Agent)
    requires Sound(agents, hive) && !IsRegistered(agents, entry.id)
    requires !entry.isHive && entry.directory == IdentityDir(entry.id)
    ensures Sound(agents + [entry], hive)
  {
  }

  lemma RegisteredIs(w: World, entry: Agent, save: AtomicWrite, hive: Agent)
    requires Sound(w.agents, hive) && !entry.isHive && entry.directory == IdentityDir(entry.id)
    ensures Registered(w, entry, save)
         == if IsRegistered(w.agents, entry.id) then Step(w, Err(AlreadyRegistered))
            else Step(WithRegistry(w, w.agents + [entry], save), Answered(Some(entry.id), save))
    ensures Sound(Registered(w, entry, save).world.agents, hive)
  {
    if !IsRegistered(w.agents, entry.id) {
      AddedIsSound(w.agents, entry, hive);
      SavedIs(w.(agents := w.agents + [entry]), Some(entry.id), save);
    }
  }

  lemma {:induction false} RemovedIsDistinct(agents: seq<Agent>, id: string)
    requires DistinctIds(agents)
    ensures DistinctIds(Removed(agents, id))
  {
    if agents != [] {
      var n := |agents| - 1;
      RemovedIsDistinct(agents[..n], id);
      forall i | 0 <= i < |Removed(agents[..n], id)|
        ensures Removed(agents[..n], id)[i].id != agents[n].id
      {
        assert Removed(agents[..n], id)[i] in agents[..n];
      }
    }
  }

  lemma UnregisteredIs(w: World, id: string, save: AtomicWrite, hive: Agent)
    requires Sound(w.agents, hive)
    ensures Unregistered(w, id, save)
         == if !IsRegistered(w.agents, id) then Step(w, Err(NotRegistered))
            else if id == hive.id then Step(w, Err(HiveIsLocked))
            else Step(WithRegistry(w, Removed(w.agents, id), save), Answered(Some(id), save))
    ensures Sound(Unregistered(w, id, save).world.agents, hive)
  {
    hide DistinctIds, NormalizeAgentDirectory;
    match Find(w.agents, id) {
      case None =>
      case Some(entry) =>
        HiveIsById(w.agents, entry, hive);
        if !entry.isHive {
          IdentityDirIsAccepted(id);
          assert HomeName(entry) == Ok(id);
          RemovedIsDistinct(w.agents, id);
          SavedIs(w.(agents := Removed(w.agents, id)), Some(id), save);
        }
    }
  }

  lemma HiveIsById(agents: seq<Agent>, a: Agent, hive: Agent)
    requires Sound(agents, hive) && a in agents
    ensures a.isHive <==> a.id == hive.id
  {
  }

  lemma RenamedIsSound(agents: seq<Agent>, id: string, name: string, hive: Agent)
    requires Sound(agents, hive) && id != hive.id
    ensures Sound(RenamedIn(agents, id, name), hive)
  {
  }

  lemma RenamedIs(w: World, c: Call, hive: Agent)
    requires Sound(w.agents, hive) && c.Rename?
    ensures Renamed(w, c)
         == if !IsRegistered(w.agents, c.id) then Step(w, Err(NotRegistered))
            else if c.id == hive.id then Step(w, Err(HiveIsLocked))
            else Step(WithRegistry(w, RenamedIn(w.agents, c.id, c.name), c.save), Answered(None, c.save))
    ensures Sound(Renamed(w, c).world.agents, hive)
  {
    hide Saved, NormalizedAll;
    match Find(w.agents, c.id) {
      case None =>
      case Some(entry) =>
        HiveIsById(w.agents, entry, hive);
        if !entry.isHive {
          RenamedIsSound(w.agents, c.id, c.name, hive);
          SavedIs(w.(agents := RenamedIn(w.agents, c.id, c.name)), None, c.save);
        }
    }
  }

  lemma ReopenedIs(w: World, c: Call, hive: Agent)
    requires Inv(w, hive) && c.Reopen?
    ensures Reopened(w, c) == Step(w.(agents := w.saved.value), Ok(None))
  {
    OwnHomesAreNormal(w.saved.value);
  }

  // ---- What every run keeps ----

  /** The restore takes the registry's own file, and does not write a new one. */
  predicate LosesRegistry(w: World, c: Call) {
    && c.Restore? && Located(w, c.path).Some? && SourceOf(w.root, c.path) == RegistryAt(w.root) && c.move.Moved?
    && (!c.signOk || IsRegistered(w.agents, c.id) || c.save == Kept)
  }

  /** Every call, whatever fails in it, keeps the ids distinct, the Hive's entry as it
      is, and every directory entry equal to identities/<id>, in memory and on file,
      exactly unless it takes the file away. */
  lemma NextKeepsInv(w: World, c: Call, hive: Agent)
    requires Inv(w, hive)
    ensures Inv(Next(w, c).world, hive) <==> !LosesRegistry(w, c)
    ensures LosesRegistry(w, c) ==> Next(w, c).world.saved.None?
    ensures Sound(Next(w, c).world.agents, hive) && Next(w, c).world.root == w.root
  {
    hide Sound, IsRegistered, Unregistered, Registered, Renamed, Reopened, Located, Removed, RenamedIn, SourceOf, Sub,
         Grafted, Pruned;
    match c
    case Create(name, id, dir, config, save) =>
      RegisteredIs(Provisioned(w, id, name, dir, config), Agent(id, name, false, IdentityDir(id)), save, hive);
    case Rename(id, name, save) => RenamedIs(w, c, hive);
    case Delete(id, save, _) => UnregisteredIs(w, id, save, hive);
    case Archive(id, _, save, _) => UnregisteredIs(w, id, save, hive);
    case Restore(_, id, _, _, _, save) =>
      if Located(w, c.path).Some? {
        var d := Located(w, c.path).value;
        RegisteredIs(AfterMove(w, c, d), Agent(id, RestoredName(d), false, IdentityDir(id)), save, hive);
        RegistryIsNotAHome(w.root, id);
      }
    case Migrate(id, _, save) =>
      if w.legacy.LegacyRoot? {
        var name := if w.legacy.agentName.Some? then w.legacy.agentName.value else LEGACY_NAME;
        RegisteredIs(Placed(w, id, w.legacy.data.(config := Readable(w.legacy.agentName, IdentityDir(id)))),
                     Agent(id, name, false, IdentityDir(id)), save, hive);
      }
    case Reopen(_, _, _, _, _) => ReopenedIs(w, c, hive);
  }

  lemma RegistryIsNotAHome(root: Place, id: string)
    ensures Apart(RegistryAt(root), HomeAt(root, id))
  {
    assert HomeAt(root, id)[|root|] == IDENTITIES && RegistryAt(root)[|root|] == REGISTRY;
    assert IDENTITIES[0] == 'i' && REGISTRY[0] == 'g';
  }

  /** The call does not name the registry's own file as a backup. */
  predicate SparesRegistry(root: Place, c: Call) {
    c.Restore? ==> SourceOf(root, c.path) != RegistryAt(root)
  }

  /** From any registry with its one Hive, every run of such calls keeps the invariants. */
  lemma {:induction false} RunKeepsInv(w: World, cs: seq<Call>, hive: Agent)
    requires Inv(w, hive) && forall c :: c in cs ==> SparesRegistry(w.root, c)
    ensures Inv(Run(w, cs), hive) && Run(w, cs).root == w.root
  {
    hide Inv, Next;
    if cs != [] {
      RunKeepsInv(w, cs[..|cs| - 1], hive);
      assert SparesRegistry(w.root, cs[|cs| - 1]);
      NextKeepsInv(Run(w, cs[..|cs| - 1]), cs[|cs| - 1], hive);
    }
  }

  lemma ProvisioningKeepsRegistry(w: World, id: string, name: string, dir: AtomicWrite, config: AtomicWrite)
    ensures Provisioned(w, id, name, dir, config) == w.(disk := Provisioned(w, id, name, dir, config).disk)
  {
  }

  lemma NewRegistryIs(w: World, entry: Agent, save: AtomicWrite)
    requires w.agents == [] && entry.directory == IdentityDir(entry.id)
    ensures Registered(w, entry, save) == Step(WithRegistry(w, [entry], save), Answered(Some(entry.id), save))
  {
    assert [] + [entry] == [entry];
    SavedIs(w.(agents := [entry]), Some(entry.id), save);
  }

  /** Opening without a registry, or with an empty one, provides the Hive exactly when
      its files can be written. */
  lemma FirstOpening(w: World, c: Call)
    requires (w.saved == None || w.saved == Some([])) && c.Reopen?
    ensures Next(w, c).answer.Ok?
       <==> (w.saved.None? ==> c.first == Done) && c.dir == Done && c.config == Done && c.save == Done
    ensures Next(w, c).answer.Err? ==> Next(w, c).answer.error == IoFailed
    ensures Next(w, c).answer.Ok? ==>
              var hive := Agent(c.id, HIVE_NAME, true, IdentityDir(c.id));
              Inv(Next(w, c).world, hive) && Next(w, c).world.agents == [hive]
  {
    hide NormalizedAll, HIVE_NAME, Provisioned, Registered, Saved;
    var hive := Agent(c.id, HIVE_NAME, true, IdentityDir(c.id));
    assert hive in [hive];
    NothingNormalized();
    var w0 := w.(agents := []);
    SavedIs(w0, None, c.first);
    var w1 := if w.saved.None? then WithRegistry(w0, [], c.first) else w0;
    ProvisioningKeepsRegistry(w1, c.id, HIVE_NAME, c.dir, c.config);
    NewRegistryIs(Provisioned(w1, c.id, HIVE_NAME, c.dir, c.config), hive, c.save);
  }

  /** A file that is lost so is replaced at the next opening by a registry of a new Hive
      alone: every agent is forgotten. */
  lemma LostRegistryForgetsAll(w: World, c: Call, r: Call, hive: Agent)
    requires Inv(w, hive) && LosesRegistry(w, c)
    requires r.Reopen? && r.first == r.dir == r.config == r.save == Done
    ensures Next(Next(w, c).world, r).world.agents == [Agent(r.id, HIVE_NAME, true, IdentityDir(r.id))]
  {
    hide Next, LosesRegistry;
    NextKeepsInv(w, c, hive);
    FirstOpening(Next(w, c).world, r);
  }

  /** Where `..` and then a name lead from backups/. */
  lemma Sideways(root: Place, name: string)
    ensures Reached(root + [BACKUPS], []) == root + [BACKUPS]
    ensures Reached(root + [BACKUPS], [ParentDir]) == root
    ensures SourceOf(root, [ParentDir, Normal(name)]) == root + [name]
  {
    var at := root + [BACKUPS];
    assert [ParentDir][..0] == [] && [ParentDir, Normal(name)][..1] == [ParentDir];
    assert at[..|at| - 1] == root;
  }

  /** The name `../global_settings.json` does it, when the new registry cannot be written. */
  lemma RegistryCanBeTaken(w: World, c: Call)
    requires c.Restore? && c.path == [ParentDir, Normal(REGISTRY)] && c.move.Moved? && c.save == Kept
    requires w.saved.Some? && Sub(w.disk, w.root + [BACKUPS]).Some?
    ensures LosesRegistry(w, c)
  {
    Sideways(w.root, REGISTRY);
    PrefixExists(w.disk, w.root, w.root + [BACKUPS]);
    assert c.path[..0] == [] && c.path[..1] == [ParentDir];
  }
}
