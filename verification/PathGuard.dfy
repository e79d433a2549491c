/** Lexical path normalisation and the checks built on it
    (crates/abigail-core/src/path_guard.rs, and `normalize_agent_directory` of
    crates/abigail-core/src/global_config.rs). */
module PathGuard {
  import opened Wrappers

  datatype Component = RootDir | CurDir | ParentDir | Normal(name: string)

  /** A path as its components. */
  type Path = seq<Component>

  /** Only the first component can be the root or `.`, as in what a path's text yields. */
  ghost predicate WellFormed(p: Path) {
    forall i :: 0 < i < |p| ==> p[i] != RootDir && p[i] != CurDir
  }

  predicate IsAbsolute(p: Path) {
    p != [] && p[0] == RootDir
  }

  /** `root.join(q)`: an absolute `q` replaces `p`, and a leading `.` of `q` is absorbed. */
  function Join(p: Path, q: Path): Path {
    if IsAbsolute(q) || p == [] then q
    else if q != [] && q[0] == CurDir then p + q[1..]
    else p + q
  }

  /** `PathBuf::pop`: neither the root nor the empty path has a parent. */
  function Popped(p: Path): Path {
    if p == [] || p[|p| - 1] == RootDir then p else p[..|p| - 1]
  }

  /** `PathBuf::push` of one component. */
  function PushedOn(p: Path, c: Component): Path {
    if c == RootDir then [RootDir] else p + [c]
  }

  function Stepped(p: Path, c: Component): Path {
    match c
    case CurDir => p
    case ParentDir => Popped(p)
    case RootDir => PushedOn(p, c)
    case Normal(_) => PushedOn(p, c)
  }

  /** The path reached from `start` by the components of `p`. */
  function Walk(start: Path, p: Path): Path {
    if p == [] then start else Stepped(Walk(start, p[..|p| - 1]), p[|p| - 1])
  }

  function Normalize(p: Path): Path {
    Walk([], p)
  }

  method NormalizePath(path: Path) returns (normalized: Path)
    ensures normalized == Normalize(path)
  {
    normalized := [];
    for i := 0 to |path|
      invariant normalized == Walk([], path[..i])
    {
      assert path[..i + 1][..i] == path[..i];
      match path[i] {
        case CurDir =>
        case ParentDir => normalized := Popped(normalized);
        case other => normalized := PushedOn(normalized, other);
      }
    }
    assert path[..|path|] == path;
  }

  datatype PathError = NotRelative | HasTraversal | EscapesRoot | NotAnIdentity

  method EnsureRelativeNoTraversal(path: Path) returns (r: Result<(), PathError>)
    requires WellFormed(path)
    ensures r == CheckedRelative(path)
  {
    if IsAbsolute(path) {
      return Err(NotRelative);
    }
    for i := 0 to |path|
      invariant ParentDir !in path[..i]
    {
      match path[i] {
        case CurDir | Normal(_) =>
        case ParentDir => return Err(HasTraversal);
        case RootDir => return Err(NotRelative);
      }
    }
    assert path[..|path|] == path;
    return Ok(());
  }

  function CheckedRelative(path: Path): Result<(), PathError> {
    if IsAbsolute(path) then Err(NotRelative)
    else if ParentDir in path then Err(HasTraversal)
    else Ok(())
  }

  function CheckedWithin(root: Path, path: Path): Result<(), PathError> {
    if Normalize(root) <= Normalize(path) then Ok(()) else Err(EscapesRoot)
  }

  function ResolveWithinRoot(root: Path, relative: Path): Result<Path, PathError> {
    match CheckedRelative(relative)
    case Err(e) => Err(e)
    case Ok(_) =>
      match CheckedWithin(root, Join(root, relative))
      case Err(e) => Err(e)
      case Ok(_) => Ok(Join(root, relative))
  }

  const IDENTITIES := "identities"

  function IdentityDir(id: string): Path {
    [Normal(IDENTITIES), Normal(id)]
  }

  function NormalizeAgentDirectory(directory: Path): Result<Path, PathError> {
    var normalized := Normalize(directory);
    match CheckedRelative(normalized)
    case Err(e) => Err(e)
    case Ok(_) =>
      if |normalized| == 2 && normalized[0] == Normal(IDENTITIES) && normalized[1].Normal?
      then Ok(Join([normalized[0]], [normalized[1]]))
      else Err(NotAnIdentity)
  }

  // ---- Normal forms ----

  /** Nothing but names, after the root of an absolute path. */
  ghost predicate Plain(p: Path) {
    forall i :: 0 <= i < |p| ==> p[i].Normal? || (i == 0 && p[i] == RootDir)
  }

  lemma SteppedIsPlain(p: Path, c: Component)
    requires Plain(p)
    ensures Plain(Stepped(p, c))
  {
  }

  lemma {:induction false} WalkIsPlain(start: Path, p: Path)
    requires Plain(start)
    ensures Plain(Walk(start, p))
  {
    hide Plain, Stepped;
    if p != [] {
      WalkIsPlain(start, p[..|p| - 1]);
      SteppedIsPlain(Walk(start, p[..|p| - 1]), p[|p| - 1]);
    }
  }

  lemma NormalIsPlain(p: Path)
    ensures Plain(Normalize(p))
  {
    WalkIsPlain([], p);
  }

  /** Plain paths are the normal forms. */
  lemma {:induction false} NormalizeFixes(p: Path)
    requires Plain(p)
    ensures Normalize(p) == p
  {
    if p != [] {
      var n := |p| - 1;
      NormalizeFixes(p[..n]);
      assert p == p[..n] + [p[n]];
    }
  }

  lemma NormalizeIsIdempotent(p: Path)
    ensures Normalize(Normalize(p)) == Normalize(p)
    ensures Normalize(p) == p <==> Plain(p)
  {
    hide *;
    NormalIsPlain(p);
    NormalizeFixes(Normalize(p));
    if Plain(p) {
      NormalizeFixes(p);
    }
  }

  lemma {:induction false} WalkConcat(start: Path, p: Path, q: Path)
    ensures Walk(start, p + q) == Walk(Walk(start, p), q)
    decreases |q|
  {
    if q == [] {
      assert p + q == p;
    } else {
      assert (p + q)[..|p + q| - 1] == p + q[..|q| - 1];
      WalkConcat(start, p, q[..|q| - 1]);
    }
  }

  /** Joining a relative path is walking on from where the first path leads. */
  lemma NormalizeJoined(p: Path, q: Path)
    requires !IsAbsolute(q)
    ensures Normalize(Join(p, q)) == Walk(Normalize(p), q)
  {
    if p == [] {
    } else if q != [] && q[0] == CurDir {
      WalkConcat([], p, q[1..]);
      assert q == [CurDir] + q[1..];
      WalkConcat(Normalize(p), [CurDir], q[1..]);
      assert [CurDir][..0] == [];
    } else {
      WalkConcat([], p, q);
    }
  }

  /** A prefix may be normalised before a relative path is joined to it. */
  lemma NormalizeComposes(p: Path, q: Path)
    requires !IsAbsolute(q)
    ensures Normalize(Join(p, q)) == Normalize(Join(Normalize(p), q))
  {
    NormalizeJoined(p, q);
    NormalizeJoined(Normalize(p), q);
    NormalizeIsIdempotent(p);
  }

  // ---- Staying within a root ----

  /** The names of a path, in order. */
  function Names(p: Path): Path {
    if p == [] then []
    else Names(p[..|p| - 1]) + if p[|p| - 1].Normal? then [p[|p| - 1]] else []
  }

  lemma {:induction false} WalkDown(start: Path, p: Path)
    requires forall i :: 0 <= i < |p| ==> p[i] == CurDir || p[i].Normal?
    ensures Walk(start, p) == start + Names(p)
  {
    if p != [] {
      WalkDown(start, p[..|p| - 1]);
    }
  }

  /** A path is resolved exactly when it is relative and has no `..`, and what it
      resolves to lies under the root, at the path's own names. */
  lemma ResolveExactly(root: Path, relative: Path)
    requires WellFormed(relative)
    ensures ResolveWithinRoot(root, relative).Ok? <==> !IsAbsolute(relative) && ParentDir !in relative
    ensures ResolveWithinRoot(root, relative).Err? ==>
              ResolveWithinRoot(root, relative).error == if IsAbsolute(relative) then NotRelative else HasTraversal
    ensures ResolveWithinRoot(root, relative).Ok? ==>
              Normalize(ResolveWithinRoot(root, relative).value) == Normalize(root) + Names(relative)
  {
    hide Normalize, Names;
    if !IsAbsolute(relative) && ParentDir !in relative {
      NormalizeJoined(root, relative);
      forall i | 0 <= i < |relative|
        ensures relative[i] == CurDir || relative[i].Normal?
      {
        assert relative[i] in relative;
      }
      WalkDown(Normalize(root), relative);
    }
  }

  /** The number of steps `p` takes above where it starts, at its highest. */
  function Climb(p: Path): nat {
    if p == [] then 0
    else
      var n := |p| - 1;
      var d := Depth(p[..n]) - 1;
      if p[n] == ParentDir && Climb(p[..n]) < -d then -d else Climb(p[..n])
  }

  function Depth(p: Path): int {
    if p == [] then 0
    else
      Depth(p[..|p| - 1]) + (match p[|p| - 1] case Normal(_) => 1 case ParentDir => -1 case CurDir => 0 case RootDir => 0)
  }

  lemma {:induction false} WalkStaysUnder(start: Path, p: Path)
    requires WellFormed(p) && !IsAbsolute(p) && Climb(p) == 0
    ensures start <= Walk(start, p) && |Walk(start, p)| == |start| + Depth(p)
    ensures 0 <= Depth(p) && forall i :: |start| <= i < |Walk(start, p)| ==> Walk(start, p)[i].Normal?
  {
    if p != [] {
      var n := |p| - 1;
      assert p[..n] == [] || p[..n][0] == p[0];
      WalkStaysUnder(start, p[..n]);
    }
  }

  /** A relative path that never climbs above its start stays within any root. */
  lemma NoClimbStaysWithin(root: Path, p: Path)
    requires WellFormed(p) && !IsAbsolute(p) && Climb(p) == 0
    ensures CheckedWithin(root, Join(root, p)).Ok?
  {
    hide Walk, Climb;
    NormalizeJoined(root, p);
    WalkStaysUnder(Normalize(root), p);
  }

  /** One that leads above its start first stays within exactly when it leads back to where
      it came from. */
  lemma ClimbEscapes(root: Path, p: Path)
    requires Normalize(root) != [] && Normalize(root) != [RootDir]
    requires forall i :: 0 <= i < |p| ==> p[i] == CurDir || p[i].Normal?
    ensures var start := Normalize(root);
            CheckedWithin(root, Join(root, [ParentDir] + p))
            == if start <= start[..|start| - 1] + Names(p) then Ok(()) else Err(EscapesRoot)
  {
    hide Walk, Names, Join, Plain;
    var start := Normalize(root);
    NormalizeJoined(root, [ParentDir] + p);
    WalkConcat(start, [ParentDir], p);
    NormalIsPlain(root);
    OneStepUp(start);
    WalkDown(start[..|start| - 1], p);
  }

  lemma OneStepUp(start: Path)
    requires start != [] && start != [RootDir] && Plain(start)
    ensures Walk(start, [ParentDir]) == start[..|start| - 1]
  {
    assert [ParentDir][..0] == [];
  }

  // ---- Agent directories ----

  /** A directory is accepted exactly when it normalises to `identities/<id>`, and
      that is what it becomes; it is then accepted as it is. */
  lemma AgentDirectoryExactly(directory: Path)
    ensures match NormalizeAgentDirectory(directory)
            case Ok(d) => (exists id :: d == IdentityDir(id)) && d == Normalize(directory)
                          && NormalizeAgentDirectory(d) == Ok(d)
            case Err(e) => (forall id :: Normalize(directory) != IdentityDir(id))
                           && e == if IsAbsolute(Normalize(directory)) then NotRelative else NotAnIdentity
  {
    hide Normalize;
    NormalizeIsIdempotent(directory);
    NormalIsPlain(directory);
    var d := Normalize(directory);
    if |d| == 2 && d[0] == Normal(IDENTITIES) && d[1].Normal? {
      assert d == IdentityDir(d[1].name);
    }
  }

  lemma IdentityDirIsAccepted(id: string)
    ensures NormalizeAgentDirectory(IdentityDir(id)) == Ok(IdentityDir(id))
  {
    hide Normalize;
    var d := IdentityDir(id);
    NormalizeIsIdempotent(d);
    assert Normalize(d) == d;
    assert [d[0]] + [d[1]] == d;
    assert d[0] != ParentDir && d[1] != ParentDir;
  }
}
