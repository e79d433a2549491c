/** Directories as trees, what moving one changes, and how a path leads through them. */
module DirTree {
  import opened Wrappers
  import opened PathGuard

  /** What reading an agent's config.json gives. */
  datatype ConfigFile = Missing | Broken | Readable(agentName: Option<string>, dataDir: Path)

  /** A directory: its config.json, the other files in it, and the directories in it. */
  datatype Dir = Dir(config: ConfigFile, files: string, subs: map<string, Dir>)

  const EMPTY := Dir(Missing, "", map[])

  /** The names that lead to a place from the root of the disk. */
  type Place = seq<string>

  function Sub(d: Dir, p: Place): Option<Dir> {
    if p == [] then Some(d)
    else if p[0] in d.subs then Sub(d.subs[p[0]], p[1..])
    else None
  }

  /** `x` put at `p`, with the directories that lead there made where missing. */
  function Grafted(d: Dir, p: Place, x: Dir): Dir
    decreases |p|
  {
    if p == [] then x
    else
      var next := if p[0] in d.subs then d.subs[p[0]] else EMPTY;
      d.(subs := d.subs[p[0] := Grafted(next, p[1..], x)])
  }

  /** What is at `p` taken away. */
  function Pruned(d: Dir, p: Place): Dir {
    if p == [] || p[0] !in d.subs then d
    else if |p| == 1 then d.(subs := d.subs - {p[0]})
    else d.(subs := d.subs[p[0] := Pruned(d.subs[p[0]], p[1..])])
  }

  /** Neither leads through the other. */
  predicate Apart(p: Place, q: Place) {
    !(p <= q) && !(q <= p)
  }

  /** The same config and files, whatever became of the directories in it. */
  predicate SameFiles(d: Dir, e: Option<Dir>) {
    e.Some? && e.value.config == d.config && e.value.files == d.files
  }

  lemma {:induction false} SubOfGrafted(d: Dir, p: Place, x: Dir, q: Place)
    ensures p <= q ==> Sub(Grafted(d, p, x), q) == Sub(x, q[|p|..])
    ensures Apart(p, q) ==> Sub(Grafted(d, p, x), q) == Sub(d, q)
    ensures q < p && Sub(d, q).Some? ==> SameFiles(Sub(d, q).value, Sub(Grafted(d, p, x), q))
    decreases |p|
  {
    if p == [] || q == [] {
    } else if p[0] == q[0] {
      var next := if p[0] in d.subs then d.subs[p[0]] else EMPTY;
      SubOfGrafted(next, p[1..], x, q[1..]);
      TailsOf(p, q);
      if p[0] !in d.subs && q[1..] != [] {
        assert Sub(EMPTY, q[1..]).None?;
      }
    }
  }

  lemma {:induction false} SubOfPruned(d: Dir, p: Place, q: Place)
    requires p != []
    ensures p <= q ==> Sub(Pruned(d, p), q).None?
    ensures Apart(p, q) ==> Sub(Pruned(d, p), q) == Sub(d, q)
    ensures q < p && Sub(d, q).Some? ==> SameFiles(Sub(d, q).value, Sub(Pruned(d, p), q))
  {
    if q != [] && p[0] == q[0] && p[0] in d.subs && 1 < |p| {
      SubOfPruned(d.subs[p[0]], p[1..], q[1..]);
      TailsOf(p, q);
    }
  }

  /** Whether one place leads through another is decided after a common first name. */
  lemma TailsOf(p: Place, q: Place)
    requires p != [] && q != [] && p[0] == q[0]
    ensures p <= q <==> p[1..] <= q[1..]
    ensures q <= p <==> q[1..] <= p[1..]
    ensures p <= q ==> q[|p|..] == q[1..][|p[1..]|..]
  {
    assert p == [p[0]] + p[1..] && q == [q[0]] + q[1..];
  }

  lemma {:induction false} SubOfSub(d: Dir, p: Place, q: Place)
    ensures Sub(d, p + q) == match Sub(d, p) case Some(x) => Sub(x, q) case None => None
  {
    if p == [] {
      assert p + q == q;
    } else if p[0] in d.subs {
      assert (p + q)[1..] == p[1..] + q;
      SubOfSub(d.subs[p[0]], p[1..], q);
    }
  }

  /** What leads to something that is there is there. */
  lemma PrefixExists(d: Dir, p: Place, q: Place)
    requires p <= q && Sub(d, q).Some?
    ensures Sub(d, p).Some?
  {
    SubOfSub(d, p, q[|p|..]);
    assert p + q[|p|..] == q;
  }

  /** Different names under the same place are apart. */
  lemma NamesApart(root: Place, x: Place, y: Place)
    requires |x| == |y| && x != y
    ensures Apart(root + x, root + y)
  {
    assert (root + x)[|root|..] == x && (root + y)[|root|..] == y;
  }

  // ---- Where a path leads ----

  function Went(at: Place, c: Component): Place {
    match c
    case CurDir => at
    case ParentDir => if at == [] then [] else at[..|at| - 1]
    case RootDir => []
    case Normal(name) => at + [name]
  }

  /** The place a path leads to from `at`; the root is its own parent. */
  function Reached(at: Place, path: Path): Place {
    if path == [] then at else Went(Reached(at, path[..|path| - 1]), path[|path| - 1])
  }

  function Absolute(p: Place): (r: Path)
    ensures r != [] && r[0] == RootDir
  {
    if p == [] then [RootDir] else Absolute(p[..|p| - 1]) + [Normal(p[|p| - 1])]
  }

  lemma {:induction false} AbsoluteIsPlain(p: Place)
    ensures Plain(Absolute(p)) && |Absolute(p)| == |p| + 1
  {
    if p != [] {
      AbsoluteIsPlain(p[..|p| - 1]);
    }
  }

  lemma {:induction false} WalkIsReached(at: Place, path: Path)
    ensures Walk(Absolute(at), path) == Absolute(Reached(at, path))
  {
    if path != [] {
      var n := |path| - 1;
      WalkIsReached(at, path[..n]);
      var here := Reached(at, path[..n]);
      AbsoluteIsPlain(here);
      match path[n] {
        case Normal(name) => assert (here + [name])[..|here|] == here;
        case _ =>
      }
    }
  }

  /** Where a path joined to a place leads, step by step, is what its normal form says. */
  lemma ReachedIsNormalized(at: Place, path: Path)
    ensures Normalize(Join(Absolute(at), path)) == Absolute(Reached(at, path))
  {
    hide Walk, Reached, Absolute;
    WalkIsReached(at, path);
    if IsAbsolute(path) {
      assert path == [path[0]] + path[1..];
      WalkConcat([], [path[0]], path[1..]);
      WalkConcat(Absolute(at), [path[0]], path[1..]);
      RootForgets(Absolute(at));
    } else {
      AbsoluteIsPlain(at);
      NormalizeFixes(Absolute(at));
      NormalizeJoined(Absolute(at), path);
    }
  }

  lemma RootForgets(start: Path)
    ensures Walk(start, [RootDir]) == Walk([], [RootDir])
  {
    assert [RootDir][..0] == [];
  }
}
