/** The registry file of a Hive (crates/abigail-core/src/global_config.rs). */
module GlobalConfig {
  import opened Wrappers
  import opened PathGuard

  datatype Agent = Agent(id: string, name: string, isHive: bool, directory: Path)

  predicate IsRegistered(agents: seq<Agent>, id: string) {
    exists a :: a in agents && a.id == id
  }

  /** The first agent registered as `id`. */
  function Find(agents: seq<Agent>, id: string): (r: Option<Agent>)
    ensures r.None? <==> !IsRegistered(agents, id)
    ensures r.Some? ==> r.value in agents && r.value.id == id
  {
    if agents == [] then None
    else if agents[0].id == id then Some(agents[0])
    else Find(agents[1..], id)
  }

  function Removed(agents: seq<Agent>, id: string): (r: seq<Agent>)
    ensures forall a :: a in r <==> a in agents && a.id != id
  {
    if agents == [] then []
    else
      var n := |agents| - 1;
      Removed(agents[..n], id) + if agents[n].id != id then [agents[n]] else []
  }

  /** Every directory normalised, or the first error. */
  function NormalizedAll(agents: seq<Agent>): (r: Result<seq<Agent>, PathError>)
    ensures r.Ok? ==> |r.value| == |agents|
  {
    if agents == [] then Ok([])
    else
      var n := |agents| - 1;
      match NormalizedAll(agents[..n])
      case Err(e) => Err(e)
      case Ok(before) =>
        match NormalizeAgentDirectory(agents[n].directory)
        case Err(e) => Err(e)
        case Ok(d) => Ok(before + [agents[n].(directory := d)])
  }

  class Registry {
    var agents: seq<Agent>

    constructor (agents: seq<Agent>)
      ensures this.agents == agents
    {
      this.agents := agents;
    }

    method RegisterAgent(entry: Agent) returns (ok: bool)
      modifies this
      ensures ok <==> !IsRegistered(old(agents), entry.id)
      ensures agents == if ok then old(agents) + [entry] else old(agents)
    {
      if IsRegistered(agents, entry.id) {
        return false;
      }
      agents := agents + [entry];
      return true;
    }

    method RemoveAgent(id: string) returns (found: bool)
      modifies this
      ensures agents == Removed(old(agents), id)
      ensures found <==> IsRegistered(old(agents), id)
    {
      var before := |agents|;
      agents := Removed(agents, id);
      RemovedIsShorter(old(agents), id);
      return |agents| < before;
    }

    /** In place; what follows a directory that is refused is left as it was. */
    method NormalizeAgentDirectories() returns (r: Result<(), PathError>)
      modifies this
      ensures match NormalizedAll(old(agents))
              case Ok(all) => r == Ok(()) && agents == all
              case Err(e) => r == Err(e) && StoppedAtError(old(agents), agents, e)
    {
      hide NormalizedAll, NormalizeAgentDirectory, StopsAt;
      ghost var was, done := agents, [];
      NothingNormalized();
      for i := 0 to |agents|
        invariant |was| == |agents| && agents == done + was[i..]
        invariant |done| == i && NormalizedAll(was[..i]) == Ok(done)
      {
        NormalizedOneMore(was, i, done);
        assert agents[i] == was[i];
        match NormalizeAgentDirectory(agents[i].directory) {
          case Err(e) =>
            ErrorSpreads(was, i + 1);
            StopsHere(was, agents, e, i);
            return Err(e);
          case Ok(d) =>
            agents := agents[i := agents[i].(directory := d)];
            done := done + [agents[i]];
        }
      }
      assert was[..|agents|] == was;
      return Ok(());
    }
  }

  lemma NothingNormalized()
    ensures NormalizedAll([]) == Ok([])
  {
  }

  lemma NormalizedOneMore(agents: seq<Agent>, i: nat, done: seq<Agent>)
    requires i < |agents| && NormalizedAll(agents[..i]) == Ok(done)
    ensures NormalizedAll(agents[..i + 1])
         == match NormalizeAgentDirectory(agents[i].directory)
            case Err(e) => Err(e)
            case Ok(d) => Ok(done + [agents[i].(directory := d)])
  {
    hide NormalizeAgentDirectory;
    assert agents[..i + 1][..i] == agents[..i];
  }

  lemma StopsHere(before: seq<Agent>, after: seq<Agent>, e: PathError, i: nat)
    requires i < |before| && NormalizeAgentDirectory(before[i].directory) == Err(e)
    requires NormalizedAll(before[..i]).Ok? && after == NormalizedAll(before[..i]).value + before[i..]
    ensures StoppedAtError(before, after, e)
  {
    hide NormalizeAgentDirectory, NormalizedAll;
    assert StopsAt(before, after, e, i);
  }

  ghost predicate StopsAt(before: seq<Agent>, after: seq<Agent>, e: PathError, i: nat) {
    && i < |before| && NormalizeAgentDirectory(before[i].directory) == Err(e)
    && NormalizedAll(before[..i]).Ok?
    && after == NormalizedAll(before[..i]).value + before[i..]
  }

  ghost predicate StoppedAtError(before: seq<Agent>, after: seq<Agent>, e: PathError) {
    exists i :: StopsAt(before, after, e, i)
  }

  lemma {:induction false} RemovedIsShorter(agents: seq<Agent>, id: string)
    ensures |Removed(agents, id)| <= |agents|
    ensures |Removed(agents, id)| == |agents| <==> !IsRegistered(agents, id)
  {
    if agents != [] {
      var n := |agents| - 1;
      RemovedIsShorter(agents[..n], id);
      assert agents == agents[..n] + [agents[n]];
      assert agents[n] in agents;
    }
  }

  lemma {:induction false} ErrorSpreads(agents: seq<Agent>, i: nat)
    requires i <= |agents| && NormalizedAll(agents[..i]).Err?
    ensures NormalizedAll(agents) == NormalizedAll(agents[..i])
    decreases |agents| - i
  {
    if i == |agents| {
      assert agents[..i] == agents;
    } else {
      assert agents[..i + 1][..i] == agents[..i];
      ErrorSpreads(agents, i + 1);
    }
  }

  // ---- Saving and loading ----

  /** Every agent's directory is its own. */
  ghost predicate HomesAreOwn(agents: seq<Agent>) {
    forall a :: a in agents ==> a.directory == IdentityDir(a.id)
  }

  lemma {:induction false} OwnHomesAreNormal(agents: seq<Agent>)
    requires HomesAreOwn(agents)
    ensures NormalizedAll(agents) == Ok(agents)
  {
    if agents != [] {
      var n := |agents| - 1;
      assert agents[n] in agents && agents == agents[..n] + [agents[n]];
      OwnHomesAreNormal(agents[..n]);
      IdentityDirIsAccepted(agents[n].id);
      assert agents[n].(directory := IdentityDir(agents[n].id)) == agents[n];
    }
  }

  /** What `save` writes, or refuses to: `load` then normalises what it reads. */
  function Load(file: seq<Agent>): Result<seq<Agent>, PathError> {
    NormalizedAll(file)
  }

  /** What is saved loads back as it was written, and holds only identity
      directories; nothing else about an agent changes. */
  lemma {:induction false} SavedLoadsBack(agents: seq<Agent>)
    requires NormalizedAll(agents).Ok?
    ensures var file := NormalizedAll(agents).value;
            && Load(file) == Ok(file)
            && forall i :: 0 <= i < |agents| ==>
                 && file[i] == agents[i].(directory := Normalize(agents[i].directory))
                 && exists x :: file[i].directory == IdentityDir(x)
  {
    hide NormalizeAgentDirectory, Normalize;
    if agents != [] {
      var n := |agents| - 1;
      SavedLoadsBack(agents[..n]);
      AgentDirectoryExactly(agents[n].directory);
      var file := NormalizedAll(agents).value;
      assert file[..n] == NormalizedAll(agents[..n]).value;
      assert file[n].(directory := file[n].directory) == file[n];
      forall i | 0 <= i < |agents|
        ensures file[i] == agents[i].(directory := Normalize(agents[i].directory))
        ensures exists x :: file[i].directory == IdentityDir(x)
      {
        if i < n {
          assert file[i] == file[..n][i] && agents[i] == agents[..n][i];
        }
      }
    }
  }
}
