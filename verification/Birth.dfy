/** The first-run state machine (crates/abigail-birth/src/stages.rs), with key generation
    from crates/abigail-core/src/keyring.rs. */
module Birth {
  import opened Wrappers
  import opened Signing

  datatype Stage = Darkness | Ignition | Connectivity | Crystallization | Emergence

  function NextStage(s: Stage): Option<Stage> {
    match s
    case Darkness => Some(Ignition)
    case Ignition => Some(Connectivity)
    case Connectivity => Some(Crystallization)
    case Crystallization => Some(Emergence)
    case Emergence => None
  }

  function Rank(s: Stage): nat {
    match s
    case Darkness => 0
    case Ignition => 1
    case Connectivity => 2
    case Crystallization => 3
    case Emergence => 4
  }

  /** What the configuration says of the birth. */
  datatype Config = Config(birthComplete: bool, birthStage: Option<Stage>)

  /** The orchestrator, and on disk: the configuration, the public key, the documents
      with their signatures, and the birth records of the store. */
  datatype World = World(
    stage: Stage, signingKey: Option<SigningKey>, presentedKey: Option<SigningKey>, config: Config,
    savedConfig: Config, pubkey: Option<PublicKey>, docs: Docs, sigs: Sigs, births: nat)

  datatype BirthError = AlreadyBorn | StageGuard(stage: Stage) | NoSigningKey | SigningFailed(error: Error) | BirthIoFailed

  datatype Outcome = Outcome(world: World, answer: Result<(), BirthError>)

  /** How each piece of I/O goes: `save` is that of the configuration, and an `...Ok`
      tells whether the others succeed. */
  datatype Call =
    | GenerateIdentity(key: SigningKey, write: AtomicWrite, save: AtomicWrite, dirOk: bool)
    | AdvancePastDarkness(save: AtomicWrite)
    | AdvanceToConnectivity(save: AtomicWrite)
    | AdvanceToCrystallization(save: AtomicWrite)
    /* `left`: what a failed write leaves in the soul document. */
    | CrystallizeSoul(soul: string, dirOk: bool, left: Option<Option<DocFile>>, growthOk: bool, save: AtomicWrite)
    | SkipToEmergence
    | CompleteEmergence(writes: nat -> AtomicWrite, storeOk: bool, recordOk: bool, save: AtomicWrite)
    | CompleteBirth(writes: nat -> AtomicWrite, storeOk: bool, recordOk: bool, save: AtomicWrite)

  const SOUL := REQUIRED_DOCS[0]

  function Saved(w: World, save: AtomicWrite): Outcome {
    Outcome(if save == Kept then w else w.(savedConfig := w.config),
            if save == Done then Ok(()) else Err(BirthIoFailed))
  }

  function Generated(w: World, c: Call): Outcome
    requires c.GenerateIdentity?
  {
    if w.stage != Darkness then Outcome(w, Err(StageGuard(w.stage)))
    else if w.pubkey.Some? && w.signingKey.Some? then Outcome(w, Ok(()))
    else if c.write == Kept then Outcome(w, Err(BirthIoFailed))
    else if c.write == Replaced then Outcome(w.(pubkey := Some(PublicOf(c.key))), Err(BirthIoFailed))
    else
      var w1 := w.(pubkey := Some(PublicOf(c.key)), signingKey := Some(c.key), presentedKey := Some(c.key));
      var saved := Saved(w1, c.save);
      if saved.answer.Err? || c.dirOk then saved else Outcome(saved.world, Err(BirthIoFailed))
  }

  /** The stage changes even when it cannot be saved. */
  function Entered(w: World, stage: Stage, save: AtomicWrite): Outcome {
    Saved(w.(stage := stage, config := w.config.(birthStage := Some(stage))), save)
  }

  function Advanced(w: World, from: Stage, save: AtomicWrite): Outcome
    requires from != Emergence
  {
    if w.stage != from then Outcome(w, Err(StageGuard(w.stage)))
    else Entered(w, NextStage(from).value, save)
  }

  function Crystallized(w: World, c: Call): Outcome
    requires c.CrystallizeSoul?
  {
    if w.stage != Connectivity && w.stage != Crystallization then Outcome(w, Err(StageGuard(w.stage)))
    else if !c.dirOk then Outcome(w, Err(BirthIoFailed))
    else
      match c.left
      case Some(torn) =>
        Outcome(if torn.Some? then w.(docs := w.docs[SOUL := torn.value]) else w, Err(BirthIoFailed))
      case None =>
        var w1 := w.(docs := w.docs[SOUL := Text(c.soul)]);
        if !c.growthOk then Outcome(w1, Err(BirthIoFailed)) else Entered(w1, Emergence, c.save)
  }

  /** The birth is recorded once; then the configuration says so. */
  function Recorded(w: World, storeOk: bool, recordOk: bool, save: AtomicWrite): Outcome {
    if !storeOk then Outcome(w, Err(BirthIoFailed))
    else if 0 < w.births then Outcome(w, Err(AlreadyBorn))
    else if !recordOk then Outcome(w, Err(BirthIoFailed))
    else Saved(w.(births := w.births + 1, config := Config(true, None)), save)
  }

  /** The held key is taken out before anything can fail. */
  function Emerged(w: World, c: Call): Outcome
    requires c.CompleteEmergence?
  {
    if w.stage != Emergence then Outcome(w, Err(StageGuard(w.stage)))
    else if w.signingKey.None? then Outcome(w, Err(NoSigningKey))
    else
      var (sigs, error) := SignedFrom(w.signingKey.value, w.docs, w.sigs, c.writes, 0);
      var w1 := w.(signingKey := None, sigs := sigs);
      if error.Some? then Outcome(w1, Err(SigningFailed(error.value)))
      else Recorded(w1.(presentedKey := None), c.storeOk, c.recordOk, c.save)
  }

  /** The older way: what cannot be signed stays unsigned. */
  function Born(w: World, c: Call): Outcome
    requires c.CompleteBirth?
  {
    if !c.storeOk then Outcome(w, Err(BirthIoFailed))
    else if 0 < w.births then Outcome(w, Err(AlreadyBorn))
    else
      var w1 := if w.signingKey.Some? && SOUL in w.docs
                then w.(sigs := SignedFrom(w.signingKey.value, w.docs, w.sigs, c.writes, 0).0) else w;
      Recorded(w1.(signingKey := None, presentedKey := None), true, c.recordOk, c.save)
  }

  function Next(w: World, c: Call): Outcome {
    match c
    case GenerateIdentity(_, _, _, _) => Generated(w, c)
    case AdvancePastDarkness(save) => Advanced(w, Darkness, save)
    case AdvanceToConnectivity(save) => Advanced(w, Ignition, save)
    case AdvanceToCrystallization(save) => Advanced(w, Connectivity, save)
    case CrystallizeSoul(_, _, _, _, _) => Crystallized(w, c)
    case SkipToEmergence => Outcome(w.(stage := Emergence), Ok(()))
    case CompleteEmergence(_, _, _, _) => Emerged(w, c)
    case CompleteBirth(_, _, _, _) => Born(w, c)
  }

  function Run(w: World, cs: seq<Call>): World {
    if cs == [] then w else Next(Run(w, cs[..|cs| - 1]), cs[|cs| - 1]).world
  }

  /** A new orchestrator over what is on disk; there is none once the birth is recorded. */
  function Bootstrap(disk: World, storeOk: bool): Result<World, BirthError> {
    if !storeOk then Err(BirthIoFailed)
    else if 0 < disk.births then Err(AlreadyBorn)
    else Ok(disk.(stage := Darkness, signingKey := None, presentedKey := None, config := disk.savedConfig))
  }

  class BirthOrchestrator {
    var stage: Stage
    var signingKey: Option<SigningKey>
    var privateKeyBase64: Option<SigningKey>
    var config: Config
    var savedConfig: Config
    var pubkey: Option<PublicKey>
    var docs: Docs
    var sigs: Sigs
    var births: nat

    ghost function State(): World
      reads this
    {
      World(stage, signingKey, privateKeyBase64, config, savedConfig, pubkey, docs, sigs, births)
    }

    constructor (w: World)
      requires Bootstrap(w, true).Ok?
      ensures State() == Bootstrap(w, true).value
    {
      stage, signingKey, privateKeyBase64, config := Darkness, None, None, w.savedConfig;
      savedConfig, pubkey, docs, sigs, births := w.savedConfig, w.pubkey, w.docs, w.sigs, w.births;
    }

    method Save(save: AtomicWrite) returns (r: Result<(), BirthError>)
      modifies this`savedConfig
      ensures Outcome(State(), r) == Saved(old(State()), save)
    {
      if save != Kept {
        savedConfig := config;
      }
      return if save == Done then Ok(()) else Err(BirthIoFailed);
    }

    method Generate(c: Call) returns (r: Result<(), BirthError>)
      requires c.GenerateIdentity?
      modifies this
      ensures Outcome(State(), r) == Next(old(State()), c)
    {
      if stage != Darkness {
        return Err(StageGuard(stage));
      }
      if pubkey.Some? && signingKey.Some? {
        return Ok(());
      }
      if c.write != Kept {
        pubkey := Some(PublicOf(c.key));
      }
      if c.write != Done {
        return Err(BirthIoFailed);
      }
      signingKey := Some(c.key);
      privateKeyBase64 := Some(c.key);
      r := Save(c.save);
      if r.Ok? && !c.dirOk {
        return Err(BirthIoFailed);
      }
    }

    /** The three explicit advances, each from its own stage. */
    method Advance(from: Stage, save: AtomicWrite) returns (r: Result<(), BirthError>)
      requires from != Emergence
      modifies this
      ensures Outcome(State(), r) == Advanced(old(State()), from, save)
    {
      if stage != from {
        return Err(StageGuard(stage));
      }
      stage := NextStage(from).value;
      r := PersistStage(save);
    }

    method PersistStage(save: AtomicWrite) returns (r: Result<(), BirthError>)
      modifies this`config, this`savedConfig
      ensures Outcome(State(), r) == Entered(old(State()), stage, save)
    {
      config := config.(birthStage := Some(stage));
      r := Save(save);
    }

    method Crystallize(c: Call) returns (r: Result<(), BirthError>)
      requires c.CrystallizeSoul?
      modifies this
      ensures Outcome(State(), r) == Next(old(State()), c)
    {
      hide Saved;
      if stage != Connectivity && stage != Crystallization {
        return Err(StageGuard(stage));
      }
      if !c.dirOk {
        return Err(BirthIoFailed);
      }
      if c.left.Some? {
        if c.left.value.Some? {
          docs := docs[SOUL := c.left.value.value];
        }
        return Err(BirthIoFailed);
      }
      docs := docs[SOUL := Text(c.soul)];
      if !c.growthOk {
        return Err(BirthIoFailed);
      }
      stage := Emergence;
      r := PersistStage(c.save);
    }

    method Skip()
      modifies this`stage
      ensures State() == Next(old(State()), SkipToEmergence).world
    {
      if stage != Emergence {
        stage := Emergence;
      }
    }

    method Record(storeOk: bool, recordOk: bool, save: AtomicWrite) returns (r: Result<(), BirthError>)
      modifies this
      ensures Outcome(State(), r) == Recorded(old(State()), storeOk, recordOk, save)
    {
      if !storeOk {
        return Err(BirthIoFailed);
      }
      if 0 < births {
        return Err(AlreadyBorn);
      }
      if !recordOk {
        return Err(BirthIoFailed);
      }
      births := births + 1;
      config := Config(true, None);
      r := Save(save);
    }

    method Emerge(c: Call) returns (r: Result<(), BirthError>)
      requires c.CompleteEmergence?
      modifies this
      ensures Outcome(State(), r) == Next(old(State()), c)
    {
      hide SignedFrom, Recorded;
      if stage != Emergence {
        return Err(StageGuard(stage));
      }
      if signingKey.None? {
        return Err(NoSigningKey);
      }
      var key := signingKey.value;
      signingKey := None;
      var signed, error := SignConstitutionalDocuments(key, docs, sigs, c.writes);
      sigs := signed;
      if error.Some? {
        return Err(SigningFailed(error.value));
      }
      privateKeyBase64 := None;
      r := Record(c.storeOk, c.recordOk, c.save);
    }

    method Complete(c: Call) returns (r: Result<(), BirthError>)
      requires c.CompleteBirth?
      modifies this
      ensures Outcome(State(), r) == Next(old(State()), c)
    {
      hide SignedFrom, Recorded;
      if !c.storeOk {
        return Err(BirthIoFailed);
      }
      if 0 < births {
        return Err(AlreadyBorn);
      }
      if signingKey.Some? {
        var key := signingKey.value;
        signingKey := None;
        if SOUL in docs {
          var signed, _ := SignConstitutionalDocuments(key, docs, sigs, c.writes);
          sigs := signed;
        }
      }
      privateKeyBase64 := None;
      r := Record(true, c.recordOk, c.save);
    }
  }

  // ---- Invariants of every run ----

  ghost predicate Inv(w: World) {
    && (w.signingKey.Some? ==> w.pubkey == Some(PublicOf(w.signingKey.value)) && w.presentedKey == w.signingKey)
    && w.births <= 1
    && (w.config.birthComplete ==> w.births == 1)
    && (w.savedConfig.birthComplete ==> w.births == 1)
  }

  lemma NextKeepsInv(w: World, c: Call)
    requires Inv(w)
    ensures Inv(Next(w, c).world)
  {
    hide SignedFrom;
  }

  /** No call goes back a stage, and only the skip, the crystallisation and an advance
      leave one. */
  lemma StagesGoUp(w: World, c: Call)
    ensures Rank(w.stage) <= Rank(Next(w, c).world.stage)
    ensures Next(w, c).world.stage != w.stage ==>
              Next(w, c).world.stage == Emergence || NextStage(w.stage) == Some(Next(w, c).world.stage)
    ensures w.births <= Next(w, c).world.births <= w.births + 1
  {
    hide SignedFrom;
  }

  /** The stages a call is for. */
  predicate InItsStage(stage: Stage, c: Call) {
    match c
    case GenerateIdentity(_, _, _, _) => stage == Darkness
    case AdvancePastDarkness(_) => stage == Darkness
    case AdvanceToConnectivity(_) => stage == Ignition
    case AdvanceToCrystallization(_) => stage == Connectivity
    case CrystallizeSoul(_, _, _, _, _) => stage == Connectivity || stage == Crystallization
    case SkipToEmergence => true
    case CompleteEmergence(_, _, _, _) => stage == Emergence
    case CompleteBirth(_, _, _, _) => true
  }

  /** A call out of its stage is refused for that, and changes nothing; no other is. */
  lemma OutOfStageIsRefused(w: World, c: Call)
    ensures Next(w, c).answer == Err(StageGuard(w.stage)) <==> !InItsStage(w.stage, c)
    ensures !InItsStage(w.stage, c) ==> Next(w, c).world == w
  {
    hide SignedFrom;
  }

  /** Of the documents only the soul is ever written, and only by a crystallisation in one
      of its two stages; when it succeeds is told exactly, and then the soul is the given
      text and the stage the last one. */
  lemma SoulIsWrittenExactly(w: World, c: Call)
    ensures forall name :: name != SOUL ==>
              (name in Next(w, c).world.docs <==> name in w.docs)
              && (name in w.docs ==> Next(w, c).world.docs[name] == w.docs[name])
    ensures Next(w, c).world.docs != w.docs ==> c.CrystallizeSoul? && InItsStage(w.stage, c) && c.dirOk
    ensures c.CrystallizeSoul? ==>
              (Next(w, c).answer.Ok? <==>
                 InItsStage(w.stage, c) && c.dirOk && c.left.None? && c.growthOk && c.save == Done)
              && (Next(w, c).answer.Ok? ==>
                    && SOUL in Next(w, c).world.docs && Next(w, c).world.docs[SOUL] == Text(c.soul)
                    && Next(w, c).world.stage == Emergence)
  {
    hide SignedFrom;
  }

  /** From a start with no record and no flag, over every run and whatever fails: a held
      key matches the public key on disk, the birth is recorded at most once, and the
      flag, in memory or saved, implies the record; the stage never goes back. */
  lemma {:induction false} RunKeepsInv(disk: World, cs: seq<Call>)
    requires Bootstrap(disk, true).Ok? && !disk.savedConfig.birthComplete
    ensures Inv(Run(Bootstrap(disk, true).value, cs))
    ensures cs != [] ==>
              Rank(Run(Bootstrap(disk, true).value, cs[..|cs| - 1]).stage)
              <= Rank(Run(Bootstrap(disk, true).value, cs).stage)
    decreases |cs|
  {
    hide Next, Rank;
    if cs != [] {
      var before := Run(Bootstrap(disk, true).value, cs[..|cs| - 1]);
      RunKeepsInv(disk, cs[..|cs| - 1]);
      NextKeepsInv(before, cs[|cs| - 1]);
      StagesGoUp(before, cs[|cs| - 1]);
    }
  }

  /** The start does not look at the saved flag: the flag implies the record over every
      run exactly when it was not set to begin with. */
  lemma FlagImpliesRecordExactly(disk: World)
    requires Bootstrap(disk, true).Ok?
    ensures (forall cs :: var w := Run(Bootstrap(disk, true).value, cs); w.config.birthComplete ==> w.births == 1)
       <==> !disk.savedConfig.birthComplete
  {
    hide Next;
    var start := Bootstrap(disk, true).value;
    assert Run(start, []) == start;
    if !disk.savedConfig.birthComplete {
      forall cs
        ensures Run(start, cs).config.birthComplete ==> Run(start, cs).births == 1
      {
        RunKeepsInv(disk, cs);
      }
    }
  }

  /** One process: whether its store opens, and the calls made until it ends. */
  datatype Life = Life(storeOk: bool, calls: seq<Call>)

  /** The world after any number of processes over the same disk. */
  function Lived(disk: World, lives: seq<Life>): World {
    if lives == [] then disk
    else
      var w := Lived(disk, lives[..|lives| - 1]);
      var life := lives[|lives| - 1];
      match Bootstrap(w, life.storeOk)
      case Ok(start) => Run(start, life.calls)
      case Err(_) => w
  }

  lemma {:induction false} BornStaysBorn(w: World, lives: seq<Life>)
    requires 0 < w.births
    ensures Lived(w, lives) == w
  {
    hide Run;
    if lives != [] {
      BornStaysBorn(w, lives[..|lives| - 1]);
    }
  }

  /** Over any number of processes, whatever fails in them and wherever they end, at most
      one birth is recorded, and the saved flag implies the record. */
  lemma {:induction false} AtMostOneBirthEver(disk: World, lives: seq<Life>)
    requires disk.births <= 1 && (disk.savedConfig.birthComplete ==> disk.births == 1)
    ensures var w := Lived(disk, lives); w.births <= 1 && (w.savedConfig.birthComplete ==> w.births == 1)
  {
    hide Run, Inv;
    if lives != [] {
      var w, life := Lived(disk, lives[..|lives| - 1]), lives[|lives| - 1];
      AtMostOneBirthEver(disk, lives[..|lives| - 1]);
      if Bootstrap(w, life.storeOk).Ok? {
        RunKeepsInv(w, life.calls);
        InvBounds(Run(Bootstrap(w, true).value, life.calls));
      }
    }
  }

  lemma InvBounds(w: World)
    requires Inv(w)
    ensures w.births <= 1 && (w.savedConfig.birthComplete ==> w.births == 1)
  {
  }

  lemma {:induction false} LivedConcat(disk: World, lives: seq<Life>, later: seq<Life>)
    ensures Lived(disk, lives + later) == Lived(Lived(disk, lives), later)
  {
    hide Run;
    var n := |later| - 1;
    if later == [] {
      assert lives + later == lives;
    } else {
      assert (lives + later)[..|lives| + n] == lives + later[..n];
      LivedConcat(disk, lives, later[..n]);
    }
  }

  /** Once any process has recorded the birth, no later one starts: nothing changes. */
  lemma BirthEndsAll(disk: World, lives: seq<Life>, later: seq<Life>)
    requires 0 < Lived(disk, lives).births
    ensures Lived(disk, lives + later) == Lived(disk, lives)
  {
    hide Lived;
    LivedConcat(disk, lives, later);
    BornStaysBorn(Lived(disk, lives), later);
  }

  // ---- The held key ----

  lemma KeyStepIsStable(w: World, c: Call)
    requires Inv(w) && w.signingKey.Some? && !c.CompleteEmergence? && !c.CompleteBirth?
    ensures SameKeys(w, Next(w, c).world)
  {
  }

  ghost predicate SameKeys(a: World, b: World) {
    a.signingKey == b.signingKey && a.presentedKey == b.presentedKey && a.pubkey == b.pubkey
  }

  /** Until a completion takes it, a held key stays the one held, shown to the user and
      matched on disk, however often an identity is asked for again and whatever fails. */
  lemma {:induction false} HeldKeyIsStable(w: World, cs: seq<Call>)
    requires Inv(w) && w.signingKey.Some?
    requires forall c :: c in cs ==> !c.CompleteEmergence? && !c.CompleteBirth?
    ensures Inv(Run(w, cs)) && SameKeys(w, Run(w, cs))
  {
    hide Next, Inv;
    if cs != [] {
      var n := |cs| - 1;
      HeldKeyIsStable(w, cs[..n]);
      NextKeepsInv(Run(w, cs[..n]), cs[n]);
      KeyStepIsStable(Run(w, cs[..n]), cs[n]);
    }
  }

  // ---- The first run ----

  /** The whole first run, nothing failing, through every stage. */
  function FirstRun(key: SigningKey, soul: string): seq<Call> {
    [GenerateIdentity(key, Done, Done, true), AdvancePastDarkness(Done), AdvanceToConnectivity(Done),
     AdvanceToCrystallization(Done), CrystallizeSoul(soul, true, None, true, Done),
     CompleteEmergence(_ => Done, true, true, Done)]
  }

  lemma RunOneMore(w: World, cs: seq<Call>, c: Call)
    ensures Run(w, cs + [c]) == Next(Run(w, cs), c).world
  {
    assert (cs + [c])[..|cs|] == cs;
  }

  /** Over a disk without a birth and with the two other documents, the first run leads
      from darkness to life: the soul written is the one that verifies under the key. */
  lemma FirstRunGivesLife(disk: World, key: SigningKey, soul: string)
    requires Bootstrap(disk, true).Ok?
    requires forall i :: 0 < i < |REQUIRED_DOCS| ==> REQUIRED_DOCS[i] in disk.docs && disk.docs[REQUIRED_DOCS[i]].Text?
    ensures var w := Run(Bootstrap(disk, true).value, FirstRun(key, soul));
            Alive(w) && w.pubkey == Some(PublicOf(key)) && w.docs == disk.docs[SOUL := Text(soul)]
  {
    hide Run, SoulAccepted, SignedFrom;
    var w := Bootstrap(disk, true).value;
    var cs := FirstRun(key, soul);
    NoCalls(w);
    assert [] + [cs[0]] == cs[..1];
    RunOneMore(w, [], cs[0]);
    assert cs[..1] + [cs[1]] == cs[..2];
    RunOneMore(w, cs[..1], cs[1]);
    assert cs[..2] + [cs[2]] == cs[..3];
    RunOneMore(w, cs[..2], cs[2]);
    assert cs[..3] + [cs[3]] == cs[..4];
    RunOneMore(w, cs[..3], cs[3]);
    assert cs[..4] + [cs[4]] == cs[..5];
    RunOneMore(w, cs[..4], cs[4]);
    assert cs[..5] + [cs[5]] == cs;
    RunOneMore(w, cs[..5], cs[5]);
    var w5 := Run(w, cs[..5]);
    forall i | 0 <= i < |REQUIRED_DOCS|
      ensures SigningError(w5.docs, i, Done).None?
    {
      if 0 < i { RequiredNamesDiffer(0, i); }
    }
    SigningExactly(key, w5.docs, w5.sigs, cs[5].writes);
  }

  lemma NoCalls(w: World)
    ensures Run(w, []) == w
  {
  }

  // ---- Emergence ----

  /** Emergence succeeds exactly in its stage, with a key, all three documents readable
      and signed, no earlier birth, and the record and the configuration written. */
  lemma EmergenceExactly(w: World, c: Call)
    requires c.CompleteEmergence?
    ensures Next(w, c).answer.Ok?
       <==> w.stage == Emergence && w.signingKey.Some?
            && (forall i :: 0 <= i < |REQUIRED_DOCS| ==> SigningError(w.docs, i, c.writes(i)).None?)
            && c.storeOk && w.births == 0 && c.recordOk && c.save == Done
  {
  }

  /** Born for good: no key material is left, and the soul verifies. */
  ghost predicate Alive(w: World) {
    && w.stage == Emergence && w.signingKey.None? && w.presentedKey.None?
    && w.births == 1 && w.config.birthComplete && w.savedConfig.birthComplete
    && w.pubkey.Some? && SoulAccepted(w.pubkey.value, w.docs, w.sigs)
  }

  lemma EmergenceGivesLife(w: World, c: Call)
    requires Inv(w) && c.CompleteEmergence? && Next(w, c).answer.Ok?
    ensures Alive(Next(w, c).world)
  {
    hide SignedFrom, SoulAccepted, SigningError;
    SigningExactly(w.signingKey.value, w.docs, w.sigs, c.writes);
  }

  ghost predicate Spent(w: World) {
    w.stage == Emergence && w.signingKey.None?
  }

  /** Emerged with no key held, and recorded: the end of the machine. */
  ghost predicate Settled(w: World) {
    Spent(w) && 0 < w.births
  }

  lemma SettledIsFixed(w: World, c: Call)
    requires Settled(w)
    ensures Next(w, c).world == w
  {
    hide SignedFrom;
  }

  lemma {:induction false} SettledForever(w: World, cs: seq<Call>)
    requires Settled(w)
    ensures Run(w, cs) == w
  {
    hide Next, Settled;
    if cs != [] {
      SettledForever(w, cs[..|cs| - 1]);
      SettledIsFixed(w, cs[|cs| - 1]);
    }
  }

  /** A successful emergence, in any process of any history, leaves no key material and a
      soul that verifies under the public key on disk; no later call and no later process
      changes anything of it. */
  lemma EmergenceIsForGood(disk: World, cs: seq<Call>, c: Call, later: seq<Call>, lives: seq<Life>)
    requires Bootstrap(disk, true).Ok? && !disk.savedConfig.birthComplete
    requires c.CompleteEmergence? && Next(Run(Bootstrap(disk, true).value, cs), c).answer.Ok?
    ensures var w := Next(Run(Bootstrap(disk, true).value, cs), c).world;
            Alive(w) && Run(w, later) == w && Lived(w, lives) == w
  {
    hide Next, Run, Lived, SoulAccepted;
    var w := Run(Bootstrap(disk, true).value, cs);
    RunKeepsInv(disk, cs);
    EmergenceGivesLife(w, c);
    SettledForever(Next(w, c).world, later);
    BornStaysBorn(Next(w, c).world, lives);
  }

  // ---- What a failed emergence costs ----

  lemma SpentStaysSpent(w: World, c: Call)
    requires Spent(w)
    ensures Spent(Next(w, c).world)
    ensures c.CompleteEmergence? ==> Next(w, c) == Outcome(w, Err(NoSigningKey))
  {
    hide SignedFrom;
  }

  /** The key is gone after one attempt: if it failed, emergence never succeeds in any
      later call of this orchestrator. */
  lemma {:induction false} FailedEmergenceIsFinal(w: World, c: Call, later: seq<Call>, again: Call)
    requires w.stage == Emergence && c.CompleteEmergence? && again.CompleteEmergence?
    ensures Spent(Run(Next(w, c).world, later))
    ensures Next(Run(Next(w, c).world, later), again).answer == Err(NoSigningKey)
    decreases |later|
  {
    hide SignedFrom, Recorded;
    if later != [] {
      var n := |later| - 1;
      FailedEmergenceIsFinal(w, c, later[..n], again);
      SpentStaysSpent(Run(Next(w, c).world, later[..n]), later[n]);
    } else {
      EmergenceSpends(w, c);
    }
    SpentStaysSpent(Run(Next(w, c).world, later), again);
  }

  lemma EmergenceSpends(w: World, c: Call)
    requires w.stage == Emergence && c.CompleteEmergence?
    ensures Spent(Next(w, c).world)
  {
    hide SignedFrom;
  }

  // ---- The older completion ----

  /** It records the birth whatever it could sign. Whatever it answers, the soul then
      verifies under the public key on disk exactly when each document was signed with the
      held key in its turn, or verified before. */
  lemma CompletionVerifiesExactly(w: World, c: Call)
    requires Inv(w) && c.CompleteBirth? && w.pubkey.Some?
    ensures SoulAccepted(w.pubkey.value, Next(w, c).world.docs, Next(w, c).world.sigs)
       <==> forall j :: 0 <= j < |REQUIRED_DOCS| ==>
              (w.signingKey.Some? && c.storeOk && w.births == 0 && SignsThrough(w.docs, c.writes, 0, j))
              || Accepted(w.pubkey.value, w.docs, w.sigs, REQUIRED_DOCS[j])
  {
    hide SignedFrom, Accepted, SignsThrough;
    if w.signingKey.Some? && c.storeOk && w.births == 0 {
      forall j | 0 <= j < |REQUIRED_DOCS|
        ensures Accepted(w.pubkey.value, w.docs, Next(w, c).world.sigs, REQUIRED_DOCS[j])
           <==> SignsThrough(w.docs, c.writes, 0, j) || Accepted(w.pubkey.value, w.docs, w.sigs, REQUIRED_DOCS[j])
      {
        SignedIsAcceptedExactly(w.signingKey.value, w.docs, w.sigs, c.writes, 0, j);
        SoulSignsFirst(w.docs, c.writes, j);
      }
    }
  }

  lemma SoulSignsFirst(docs: Docs, writes: nat -> AtomicWrite, j: nat)
    requires j < |REQUIRED_DOCS|
    ensures SignsThrough(docs, writes, 0, j) ==> SOUL in docs
  {
    if 0 < j && SignsThrough(docs, writes, 0, j) {
      assert SigningError(docs, 0, writes(0)).None?;
    }
  }

  /** Outside the last stage the completion does not end the machine: what a recorded
      birth left on disk stays over every later run exactly when it was recorded there. */
  lemma BornIsSettledExactly(w: World)
    requires 0 < w.births && w.signingKey.None?
    ensures (forall cs :: SameSoul(w, Run(w, cs))) <==> w.stage == Emergence
  {
    hide Run;
    if w.stage == Emergence {
      forall cs
        ensures SameSoul(w, Run(w, cs))
      {
        SettledForever(w, cs);
      }
    } else {
      var soul := OtherSoul(w.docs);
      SoulIsOverwritten(w, soul);
      assert !SameSoul(w, Run(w, Overwriting(w.stage, soul)));
    }
  }

  ghost predicate SameSoul(a: World, b: World) {
    a.pubkey == b.pubkey && a.docs == b.docs && a.sigs == b.sigs
  }

  function OtherSoul(docs: Docs): (soul: string)
    ensures SOUL in docs ==> docs[SOUL] != Text(soul)
  {
    if SOUL in docs && docs[SOUL] == Text("") then "." else ""
  }

  /** The calls that lead from a stage to the crystallisation of a soul. */
  function Overwriting(stage: Stage, soul: string): seq<Call>
    requires stage != Emergence
  {
    var last := [CrystallizeSoul(soul, true, None, true, Done)];
    match stage
    case Darkness => [AdvancePastDarkness(Done), AdvanceToConnectivity(Done)] + last
    case Ignition => [AdvanceToConnectivity(Done)] + last
    case _ => last
  }

  lemma SoulIsOverwritten(w: World, soul: string)
    requires w.stage != Emergence
    ensures SOUL in Run(w, Overwriting(w.stage, soul)).docs && Run(w, Overwriting(w.stage, soul)).docs[SOUL] == Text(soul)
  {
    hide Run;
    var cs := Overwriting(w.stage, soul);
    NoCalls(w);
    assert [] + [cs[0]] == cs[..1];
    RunOneMore(w, [], cs[0]);
    if 1 < |cs| {
      assert cs[..1] + [cs[1]] == cs[..2];
      RunOneMore(w, cs[..1], cs[1]);
    }
    if 2 < |cs| {
      assert cs[..2] + [cs[2]] == cs[..3];
      RunOneMore(w, cs[..2], cs[2]);
    }
    assert cs[..|cs|] == cs;
  }
}
