/** API-key detection and redaction (crates/abigail-core/src/key_detection.rs).

    Every pattern of the source is a literal prefix followed by a repeated
    character class, so a match is found without backtracking: the leftmost
    start wins, and the class is consumed greedily. */
module KeyDetection {
  import opened Wrappers

  /** `prefix[class]{min,}` when `unbounded`, `prefix[class]{min}` otherwise;
      the class is [a-zA-Z0-9], plus `_` and `-` when `dashed`. */
  datatype Pattern = Pattern(prefix: string, dashed: bool, min: nat, unbounded: bool)

  const ANTHROPIC := Pattern("sk-ant-", true, 20, true)
  const OPENAI := Pattern("sk-", false, 20, true)
  const XAI := Pattern("xai-", true, 20, true)
  const PERPLEXITY := Pattern("pplx-", true, 20, true)
  const GOOGLE := Pattern("AIza", true, 35, false)
  const TAVILY := Pattern("tvly-", true, 20, true)

  const KEY_PATTERNS: seq<(Pattern, string)> := [
    (ANTHROPIC, "anthropic"), (OPENAI, "openai"), (XAI, "xai"),
    (PERPLEXITY, "perplexity"), (GOOGLE, "google"), (TAVILY, "tavily")]

  const MASK := "***"

  predicate IsAlphanumeric(c: char) {
    'a' <= c <= 'z' || 'A' <= c <= 'Z' || '0' <= c <= '9'
  }

  predicate IsBody(p: Pattern, c: char) {
    IsAlphanumeric(c) || (p.dashed && (c == '_' || c == '-'))
  }

  /** The shortest text a pattern matches. */
  function CoreLength(p: Pattern): nat {
    |p.prefix| + p.min
  }

  // ---- The pattern language, defined without reference to any search ----

  ghost predicate InLanguage(p: Pattern, w: string) {
    && CoreLength(p) <= |w|
    && (!p.unbounded ==> |w| == CoreLength(p))
    && w[..|p.prefix|] == p.prefix
    && forall k :: |p.prefix| <= k < |w| ==> IsBody(p, w[k])
  }

  // ---- The matcher ----

  /** `w` is a shortest match: the prefix and `min` characters of the class. */
  predicate IsCore(p: Pattern, w: string) {
    && |w| == CoreLength(p)
    && w[..|p.prefix|] == p.prefix
    && forall k :: |p.prefix| <= k < |w| ==> IsBody(p, w[k])
  }

  predicate MatchesAt(p: Pattern, t: string, i: nat) {
    i + CoreLength(p) <= |t| && IsCore(p, t[i..i + CoreLength(p)])
  }

  predicate HasMatch(p: Pattern, t: string) {
    exists i | 0 <= i <= |t| :: MatchesAt(p, t, i)
  }

  /** First position at or after `i` that the class does not accept. */
  function RunEnd(p: Pattern, t: string, i: nat): (e: nat)
    requires i <= |t|
    ensures i <= e <= |t|
    ensures forall k :: i <= k < e ==> IsBody(p, t[k])
    ensures e < |t| ==> !IsBody(p, t[e])
    decreases |t| - i
  {
    if i < |t| && IsBody(p, t[i]) then RunEnd(p, t, i + 1) else i
  }

  function MatchEnd(p: Pattern, t: string, i: nat): (e: nat)
    requires MatchesAt(p, t, i)
    ensures i + CoreLength(p) <= e <= |t|
  {
    if p.unbounded then RunEnd(p, t, i + CoreLength(p)) else i + CoreLength(p)
  }

  /** The text matched at `i` is in the language. */
  lemma MatchIsInLanguage(p: Pattern, t: string, i: nat)
    requires MatchesAt(p, t, i)
    ensures InLanguage(p, t[i..MatchEnd(p, t, i)])
  {
    var c, w := t[i..i + CoreLength(p)], t[i..MatchEnd(p, t, i)];
    assert w[..CoreLength(p)] == c;
    assert w[..|p.prefix|] == c[..|p.prefix|];
    forall k | |p.prefix| <= k < |w|
      ensures IsBody(p, w[k])
    {
      assert k < CoreLength(p) ==> w[k] == c[k];
    }
  }

  /** A text of the language starting at `i` is a match, and no longer than the
      one the matcher takes. */
  lemma MatchIsGreedy(p: Pattern, t: string, i: nat, e: nat)
    requires i <= e <= |t| && InLanguage(p, t[i..e])
    ensures MatchesAt(p, t, i) && e <= MatchEnd(p, t, i)
  {
    var w, c := t[i..e], t[i..i + CoreLength(p)];
    assert c == w[..CoreLength(p)];
    assert c[..|p.prefix|] == w[..|p.prefix|];
    assert forall k :: i + |p.prefix| <= k < e ==> t[k] == w[k - i];
  }

  /** Leftmost match starting at or after `i`. */
  function FindFrom(p: Pattern, t: string, i: nat): (r: Option<nat>)
    requires i <= |t|
    ensures r.Some? ==> i <= r.value && MatchesAt(p, t, r.value)
    ensures forall j :: i <= j && (r.Some? ==> j < r.value) ==> !MatchesAt(p, t, j)
    decreases |t| - i
  {
    if MatchesAt(p, t, i) then Some(i)
    else if i == |t| then None
    else FindFrom(p, t, i + 1)
  }

  // ---- What redaction shows of a match ----

  function FirstDash(w: string): (r: Option<nat>)
    ensures r.Some? ==> r.value < |w| && w[r.value] == '-'
    ensures forall k :: 0 <= k < |w| && (r.Some? ==> k < r.value) ==> w[k] != '-'
  {
    if w == [] then None
    else if w[0] == '-' then Some(0)
    else match FirstDash(w[1..])
         case None => None
         case Some(d) => Some(d + 1)
  }

  function Min(a: nat, b: nat): nat {
    if a <= b then a else b
  }

  /** How many leading characters of a matched key stay visible. */
  function VisibleLength(w: string): (n: nat)
    ensures n <= |w|
  {
    match FirstDash(w)
    case Some(d) => Min(d + 4, |w|)
    case None => Min(4, |w|)
  }

  // ---- The matches of a text ----

  /** A match `t[start..end]`; redaction would show `t[start..shown]`. */
  datatype Match = Match(start: nat, shown: nat, end: nat)

  function MatchFrom(t: string, s: nat, e: nat): (m: Match)
    requires s <= e <= |t|
    ensures m.start == s <= m.shown <= m.end == e
  {
    Match(s, s + VisibleLength(t[s..e]), e)
  }

  /** Non-overlapping intervals of `t[i..]`, left to right. */
  ghost predicate Ordered(t: string, i: nat, ms: seq<Match>)
    decreases ms
  {
    if ms == [] then i <= |t|
    else i <= ms[0].start <= ms[0].shown <= ms[0].end <= |t| && Ordered(t, ms[0].end, ms[1..])
  }

  lemma {:induction false} OrderedBounds(t: string, i: nat, ms: seq<Match>)
    requires Ordered(t, i, ms)
    ensures i <= |t|
    ensures forall m | m in ms :: i <= m.start <= m.shown <= m.end <= |t|
    ensures forall m, m' | m in ms && m' in ms :: m == m' || m.end <= m'.start || m'.end <= m.start
    decreases ms
  {
    if ms != [] {
      OrderedBounds(t, ms[0].end, ms[1..]);
      assert ms == [ms[0]] + ms[1..];
    }
  }

  /** The successive non-overlapping matches. */
  function FindAll(p: Pattern, t: string, i: nat): (ms: seq<Match>)
    requires i <= |t| && 0 < CoreLength(p)
    ensures Ordered(t, i, ms)
    ensures forall m | m in ms ::
              MatchesAt(p, t, m.start) && m == MatchFrom(t, m.start, MatchEnd(p, t, m.start))
    decreases |t| - i
  {
    match FindFrom(p, t, i)
    case None => []
    case Some(s) =>
      var e := MatchEnd(p, t, s);
      [MatchFrom(t, s, e)] + FindAll(p, t, e)
  }

  /** Every place where the pattern matches lies in one of the matches found. */
  lemma {:induction false} FindAllCovers(p: Pattern, t: string, i: nat, j: nat)
    returns (m: Match)
    requires i <= |t| && 0 < CoreLength(p)
    requires i <= j && MatchesAt(p, t, j)
    ensures m in FindAll(p, t, i) && m.start <= j < m.end
    decreases |t| - i
  {
    var s := FindFrom(p, t, i).value;
    var e := MatchEnd(p, t, s);
    m := MatchFrom(t, s, e);
    assert FindAll(p, t, i)[0] == m;
    if e <= j {
      m := FindAllCovers(p, t, e, j);
    }
  }

  // ---- Redaction ----

  /** Copies `t[i..]`, cutting each match down to its visible prefix and the mask. */
  function Splice(t: string, i: nat, ms: seq<Match>): string
    requires Ordered(t, i, ms)
    decreases ms
  {
    if ms == [] then t[i..]
    else t[i..ms[0].shown] + (MASK + Splice(t, ms[0].end, ms[1..]))
  }

  /** One `replace_all`. */
  function Pass(p: Pattern, t: string): string
    requires 0 < CoreLength(p)
  {
    Splice(t, 0, FindAll(p, t, 0))
  }

  /** The window of length `n` at `a` meets no match but in its visible prefix. */
  ghost predicate Clear(a: nat, n: nat, ms: seq<Match>) {
    forall m | m in ms :: a + n <= m.shown || m.end <= a
  }

  lemma SliceOfSlice(t: string, i: nat, v: nat, j: nat, n: nat)
    requires i <= v <= |t| && j + n <= v - i
    ensures t[i..v][j..j + n] == t[i + j..i + j + n]
  {
    var w := t[i..v];
    var l, r := w[j..j + n], t[i + j..i + j + n];
    forall k | 0 <= k < n
      ensures l[k] == r[k]
    {
      assert w[j + k] == t[i + (j + k)];
    }
  }

  lemma TailWindow(head: string, tail: string, k: nat, n: nat)
    requires k + n <= |tail|
    ensures (head + tail)[|head| + k..|head| + k + n] == tail[k..k + n]
  {
  }

  /** A window of the output before the first mask. */
  lemma SpliceHead(t: string, i: nat, ms: seq<Match>, j: nat, n: nat)
    requires Ordered(t, i, ms)
    requires i + j + n <= if ms == [] then |t| else ms[0].shown
    ensures j + n <= |Splice(t, i, ms)| && Splice(t, i, ms)[j..j + n] == t[i + j..i + j + n]
  {
    var v := if ms == [] then |t| else ms[0].shown;
    assert t[i..] == t[i..|t|];
    SliceOfSlice(t, i, v, j, n);
    assert Splice(t, i, ms)[j..j + n] == t[i..v][j..j + n];
  }

  /** A window of the output after the first mask. */
  lemma SpliceRest(t: string, i: nat, ms: seq<Match>, k: nat, n: nat)
    requires Ordered(t, i, ms) && ms != [] && k + n <= |Splice(t, ms[0].end, ms[1..])|
    ensures var o := ms[0].shown - i + |MASK|;
            && o + k + n <= |Splice(t, i, ms)|
            && Splice(t, i, ms)[o + k..o + k + n] == Splice(t, ms[0].end, ms[1..])[k..k + n]
  {
    var head, rest := t[i..ms[0].shown], Splice(t, ms[0].end, ms[1..]);
    assert head + (MASK + rest) == (head + MASK) + rest;
    TailWindow(head + MASK, rest, k, n);
  }

  /** A window of the output that meets the first mask contains a `*`. */
  lemma SpliceMask(t: string, i: nat, ms: seq<Match>, j: nat, n: nat)
    requires Ordered(t, i, ms) && ms != [] && 0 < n && j + n <= |Splice(t, i, ms)|
    requires ms[0].shown < i + j + n && i + j < ms[0].shown + |MASK|
    ensures '*' in Splice(t, i, ms)[j..j + n]
  {
    var out, head := Splice(t, i, ms), t[i..ms[0].shown];
    var star := if j <= |head| then |head| else j;
    assert out[star] == '*';
    assert out[j..j + n][star - j] == '*';
  }

  lemma ClearOfHead(t: string, i: nat, ms: seq<Match>, a: nat, n: nat)
    requires Ordered(t, i, ms) && ms != [] && a + n <= ms[0].shown
    ensures Clear(a, n, ms)
  {
    OrderedBounds(t, ms[0].end, ms[1..]);
    assert ms == [ms[0]] + ms[1..];
  }

  lemma ClearOfRest(ms: seq<Match>, a: nat, n: nat)
    requires ms != [] && ms[0].shown < a + n
    ensures Clear(a, n, ms) <==> ms[0].end <= a && Clear(a, n, ms[1..])
  {
    assert ms == [ms[0]] + ms[1..];
  }

  /** What is left of the window at `a` of the input, that is at `j` of the output: its
      own left neighbour, or the mask of a match that ends there. */
  ghost predicate LeftOf(t: string, i: nat, ms: seq<Match>, a: nat, n: nat, j: nat)
    requires Ordered(t, i, ms) && i <= a <= |t| && j <= |Splice(t, i, ms)|
  {
    && (j == 0 ==> a == i)
    && (0 < j && Splice(t, i, ms)[j - 1] != '*' ==>
          i < a && t[a - 1] == Splice(t, i, ms)[j - 1] && Clear(a - 1, n + 1, ms))
    && (0 < j && Splice(t, i, ms)[j - 1] == '*' ==>
          (i < a && t[a - 1] == '*') || exists m :: m in ms && m.end == a)
  }

  lemma LeftInHead(t: string, i: nat, ms: seq<Match>, j: nat, n: nat)
    requires Ordered(t, i, ms)
    requires i + j + n <= if ms == [] then |t| else ms[0].shown
    ensures j <= |Splice(t, i, ms)| && LeftOf(t, i, ms, i + j, n, j)
  {
    SpliceHead(t, i, ms, j, n);
    if 0 < j {
      SpliceHead(t, i, ms, j - 1, 1);
      assert Splice(t, i, ms)[j - 1] == Splice(t, i, ms)[j - 1..j][0] == t[i + j - 1..i + j][0];
      if ms != [] {
        ClearOfHead(t, i, ms, i + j - 1, n + 1);
      }
    }
  }

  lemma LeftInRest(t: string, i: nat, ms: seq<Match>, a: nat, n: nat, k: nat)
    requires Ordered(t, i, ms) && ms != [] && k <= |Splice(t, ms[0].end, ms[1..])|
    requires ms[0].end <= a && a + n <= |t| && 0 < n && LeftOf(t, ms[0].end, ms[1..], a, n, k)
    ensures var j := ms[0].shown - i + |MASK| + k;
            j <= |Splice(t, i, ms)| && LeftOf(t, i, ms, a, n, j)
  {
    var o := ms[0].shown - i + |MASK|;
    var head, rest := t[i..ms[0].shown], Splice(t, ms[0].end, ms[1..]);
    assert ms == [ms[0]] + ms[1..];
    if k == 0 {
      assert Splice(t, i, ms)[o - 1] == MASK[|MASK| - 1];
      assert ms[0] in ms;
    } else {
      SpliceRest(t, i, ms, k - 1, 1);
      assert Splice(t, i, ms)[o + k - 1] == Splice(t, i, ms)[o + (k - 1)..o + (k - 1) + 1][0] == rest[k - 1];
    }
  }

  /** A window of the output without a `*` is a contiguous piece of the input,
      clear of every match replaced. */
  lemma {:induction false} SpliceWindow(t: string, i: nat, ms: seq<Match>, j: nat, n: nat)
    returns (a: nat)
    requires Ordered(t, i, ms) && 0 < n && j + n <= |Splice(t, i, ms)|
    requires '*' !in Splice(t, i, ms)[j..j + n]
    ensures i <= a && a + n <= |t| && t[a..a + n] == Splice(t, i, ms)[j..j + n]
    ensures Clear(a, n, ms) && LeftOf(t, i, ms, a, n, j)
    decreases ms
  {
    hide Splice, LeftOf, Clear;
    if ms == [] {
      a := i + j;
      NothingLeft(t, i, j, n);
      SpliceHead(t, i, ms, j, n);
      LeftInHead(t, i, ms, j, n);
    } else if i + j + n <= ms[0].shown {
      a := i + j;
      SpliceHead(t, i, ms, j, n);
      LeftInHead(t, i, ms, j, n);
      ClearOfHead(t, i, ms, a, n);
    } else {
      if i + j < ms[0].shown + |MASK| {
        SpliceMask(t, i, ms, j, n);
      }
      var k := j - (ms[0].shown - i) - |MASK|;
      SpliceParts(t, i, ms);
      SpliceRest(t, i, ms, k, n);
      a := SpliceWindow(t, ms[0].end, ms[1..], k, n);
      ClearOfRest(ms, a, n);
      LeftInRest(t, i, ms, a, n, k);
    }
  }

  lemma NothingLeft(t: string, i: nat, j: nat, n: nat)
    requires i <= |t| && j + n <= |Splice(t, i, [])|
    ensures i + j + n <= |t| && Clear(i + j, n, [])
  {
  }

  lemma SpliceParts(t: string, i: nat, ms: seq<Match>)
    requires Ordered(t, i, ms) && ms != []
    ensures |Splice(t, i, ms)| == ms[0].shown - i + |MASK| + |Splice(t, ms[0].end, ms[1..])|
  {
  }

  /** The converse: a clear window of the input survives. */
  lemma {:induction false} WindowSurvives(t: string, i: nat, ms: seq<Match>, a: nat, n: nat)
    returns (j: nat)
    requires Ordered(t, i, ms) && i <= a && 0 < n && a + n <= |t| && Clear(a, n, ms)
    ensures j + n <= |Splice(t, i, ms)| && Splice(t, i, ms)[j..j + n] == t[a..a + n]
    ensures LeftOf(t, i, ms, a, n, j)
    decreases ms
  {
    hide Splice, LeftOf, Clear;
    if ms == [] || a + n <= ms[0].shown {
      j := a - i;
      SpliceHead(t, i, ms, j, n);
      LeftInHead(t, i, ms, j, n);
    } else {
      ClearOfRest(ms, a, n);
      var k := WindowSurvives(t, ms[0].end, ms[1..], a, n);
      SpliceParts(t, i, ms);
      SpliceRest(t, i, ms, k, n);
      LeftInRest(t, i, ms, a, n, k);
      j := ms[0].shown - i + |MASK| + k;
    }
  }

  lemma {:induction false} SpliceLength(t: string, i: nat, ms: seq<Match>)
    requires Ordered(t, i, ms)
    requires forall m | m in ms :: m.shown == m.end
    ensures |Splice(t, i, ms)| == |t| - i + |MASK| * |ms|
    decreases ms
  {
    if ms != [] {
      assert ms[0] in ms;
      SpliceLength(t, ms[0].end, ms[1..]);
    }
  }

  // ---- One pass ----

  predicate StarFree(p: Pattern) {
    '*' !in p.prefix && 0 < CoreLength(p)
  }

  lemma CoreIsStarFree(p: Pattern, w: string)
    requires StarFree(p) && IsCore(p, w)
    ensures '*' !in w
  {
  }

  /** `q` matches at `a`, clear of every match of `p` found. */
  ghost predicate KeptAt(p: Pattern, q: Pattern, t: string, a: nat)
    requires 0 < CoreLength(p)
  {
    MatchesAt(q, t, a) && Clear(a, CoreLength(q), FindAll(p, t, 0))
  }

  lemma PassWindow(p: Pattern, t: string, j: nat, n: nat) returns (a: nat)
    requires 0 < CoreLength(p) && 0 < n && j + n <= |Pass(p, t)|
    requires '*' !in Pass(p, t)[j..j + n]
    ensures a + n <= |t| && t[a..a + n] == Pass(p, t)[j..j + n] && Clear(a, n, FindAll(p, t, 0))
    ensures LeftOf(t, 0, FindAll(p, t, 0), a, n, j)
  {
    a := SpliceWindow(t, 0, FindAll(p, t, 0), j, n);
  }

  /** A match in the output of a pass is a match of the input, letter by letter. */
  lemma MatchComesFromInput(p: Pattern, q: Pattern, t: string, j: nat) returns (a: nat)
    requires StarFree(p) && StarFree(q) && MatchesAt(q, Pass(p, t), j)
    ensures KeptAt(p, q, t, a)
    ensures t[a..a + CoreLength(q)] == Pass(p, t)[j..j + CoreLength(q)]
  {
    CoreIsStarFree(q, Pass(p, t)[j..j + CoreLength(q)]);
    a := PassWindow(p, t, j, CoreLength(q));
  }

  lemma KeptMatchSurvives(p: Pattern, q: Pattern, t: string, a: nat)
    requires 0 < CoreLength(p) && 0 < CoreLength(q) && KeptAt(p, q, t, a)
    ensures HasMatch(q, Pass(p, t))
  {
    var j := WindowSurvives(t, 0, FindAll(p, t, 0), a, CoreLength(q));
    SameWindowMatches(q, t, a, Pass(p, t), j);
  }

  lemma SameWindowMatches(q: Pattern, t: string, a: nat, u: string, j: nat)
    requires MatchesAt(q, t, a) && j + CoreLength(q) <= |u|
    requires u[j..j + CoreLength(q)] == t[a..a + CoreLength(q)]
    ensures HasMatch(q, u)
  {
    assert MatchesAt(q, u, j);
  }

  /** What one pass leaves for any pattern to match, exactly. */
  lemma PassLeavesExactly(p: Pattern, q: Pattern, t: string)
    requires StarFree(p) && StarFree(q)
    ensures HasMatch(q, Pass(p, t)) <==> exists a: nat :: KeptAt(p, q, t, a)
  {
    if HasMatch(q, Pass(p, t)) {
      var j: nat :| MatchesAt(q, Pass(p, t), j);
      var a := MatchComesFromInput(p, q, t, j);
      assert KeptAt(p, q, t, a);
    }
    if a: nat :| KeptAt(p, q, t, a) {
      KeptMatchSurvives(p, q, t, a);
    }
  }

  /** A pass never creates a match, for its own or any other pattern. */
  lemma PassCreatesNoMatch(p: Pattern, q: Pattern, t: string)
    requires StarFree(p) && StarFree(q)
    ensures HasMatch(q, Pass(p, t)) ==> HasMatch(q, t)
  {
    PassLeavesExactly(p, q, t);
  }

  /** A match a pattern's own pass leaves is one it found and showed in full. */
  lemma OwnMatchIsShown(p: Pattern, t: string, a: nat) returns (m: Match)
    requires StarFree(p) && KeptAt(p, p, t, a)
    ensures m in FindAll(p, t, 0) && m.start <= a && a + CoreLength(p) <= m.shown
  {
    m := FindAllCovers(p, t, 0, a);
  }

  lemma ShownMatchIsKept(p: Pattern, t: string, m: Match)
    requires StarFree(p) && m in FindAll(p, t, 0) && m.start + CoreLength(p) <= m.shown
    ensures KeptAt(p, p, t, m.start)
  {
    OrderedBounds(t, 0, FindAll(p, t, 0));
  }

  /** A pass leaves a match of its own pattern exactly when one of the matches
      it found is shown in full. */
  lemma PassRemovesOwnExactly(p: Pattern, t: string)
    requires StarFree(p)
    ensures HasMatch(p, Pass(p, t)) <==>
            exists m :: m in FindAll(p, t, 0) && m.start + CoreLength(p) <= m.shown
  {
    PassLeavesExactly(p, p, t);
    if a: nat :| KeptAt(p, p, t, a) {
      var m := OwnMatchIsShown(p, t, a);
    }
    if m :| m in FindAll(p, t, 0) && m.start + CoreLength(p) <= m.shown {
      ShownMatchIsKept(p, t, m);
    }
  }

  lemma NoMatchNoChange(p: Pattern, t: string)
    requires 0 < CoreLength(p) && !HasMatch(p, t)
    ensures Pass(p, t) == t
  {
    assert FindFrom(p, t, 0).None?;
  }

  // ---- Any sequence of passes ----

  /** Patterns whose visible prefix is always shorter than a match: the first
      dash of every match is the one in the fixed prefix. */
  predicate DashPrefixed(p: Pattern) {
    '-' in p.prefix && 4 <= p.min
  }

  lemma DashPrefixHides(p: Pattern, t: string, s: nat)
    requires DashPrefixed(p) && MatchesAt(p, t, s)
    ensures VisibleLength(t[s..MatchEnd(p, t, s)]) < CoreLength(p)
  {
    var w, c := t[s..MatchEnd(p, t, s)], t[s..s + CoreLength(p)];
    var k :| 0 <= k < |p.prefix| && p.prefix[k] == '-';
    assert c[..|p.prefix|][k] == '-';
    assert w[k] == c[k] == '-';
  }

  lemma DashPassRemovesOwn(p: Pattern, t: string)
    requires StarFree(p) && DashPrefixed(p)
    ensures !HasMatch(p, Pass(p, t))
  {
    PassRemovesOwnExactly(p, t);
    forall m | m in FindAll(p, t, 0)
      ensures m.shown < m.start + CoreLength(p)
    {
      DashPrefixHides(p, t, m.start);
    }
  }

  predicate AllStarFree(ps: seq<(Pattern, string)>) {
    forall k :: 0 <= k < |ps| ==> StarFree(ps[k].0)
  }

  /** The text after the passes of `ps`, first to last. */
  function Passes(ps: seq<(Pattern, string)>, t: string): string
    requires AllStarFree(ps)
  {
    if ps == [] then t else Pass(ps[|ps| - 1].0, Passes(ps[..|ps| - 1], t))
  }

  /** After the passes no dash-prefixed pattern among them matches: its own pass
      removed every match and no later pass created one. */
  lemma {:induction false} NoMatchAfterPasses(ps: seq<(Pattern, string)>, t: string, k: nat)
    requires AllStarFree(ps) && k < |ps| && DashPrefixed(ps[k].0)
    ensures !HasMatch(ps[k].0, Passes(ps, t))
  {
    var before := ps[..|ps| - 1];
    if k < |before| {
      NoMatchAfterPasses(before, t, k);
      PassCreatesNoMatch(ps[|ps| - 1].0, ps[k].0, Passes(before, t));
    } else {
      DashPassRemovesOwn(ps[k].0, Passes(before, t));
    }
  }

  lemma {:induction false} NoKeysNoChange(ps: seq<(Pattern, string)>, t: string)
    requires AllStarFree(ps)
    requires forall k :: 0 <= k < |ps| ==> !HasMatch(ps[k].0, t)
    ensures Passes(ps, t) == t
  {
    if ps != [] {
      NoKeysNoChange(ps[..|ps| - 1], t);
      NoMatchNoChange(ps[|ps| - 1].0, t);
    }
  }

  // ---- Detection ----

  /** The texts of the matches `ms` of `t`, tagged with `provider`. */
  function Tagged(provider: string, t: string, ms: seq<Match>): (keys: seq<(string, string)>)
    requires forall m | m in ms :: m.start <= m.end <= |t|
  {
    seq(|ms|, k requires 0 <= k < |ms| => (provider, t[ms[k].start..ms[k].end]))
  }

  function KeysOf(p: Pattern, provider: string, message: string): (keys: seq<(string, string)>)
    requires StarFree(p)
  {
    Tagged(provider, message, FindAll(p, message, 0))
  }

  /** What the patterns detect, pattern by pattern. */
  function Detections(ps: seq<(Pattern, string)>, message: string): seq<(string, string)>
    requires AllStarFree(ps)
  {
    if ps == [] then [] else
      Detections(ps[..|ps| - 1], message)
      + KeysOf(ps[|ps| - 1].0, ps[|ps| - 1].1, message)
  }

  lemma InTagged(provider: string, t: string, ms: seq<Match>, d: (string, string)) returns (m: Match)
    requires forall m | m in ms :: m.start <= m.end <= |t|
    requires d in Tagged(provider, t, ms)
    ensures m in ms && d == (provider, t[m.start..m.end])
  {
    var keys := Tagged(provider, t, ms);
    var x :| 0 <= x < |keys| && d == keys[x];
    m := ms[x];
  }

  /** `w` is a key of `p` and stands in `t` at `i`. */
  ghost predicate KeyAt(p: Pattern, w: string, t: string, i: nat) {
    InLanguage(p, w) && i + |w| <= |t| && t[i..i + |w|] == w
  }

  lemma EndOfFound(p: Pattern, t: string, m: Match)
    requires StarFree(p) && m in FindAll(p, t, 0)
    ensures MatchesAt(p, t, m.start) && m.end == MatchEnd(p, t, m.start) <= |t|
  {
    hide MatchesAt, FindAll, Ordered;
  }

  lemma KeysOfAreKeys(p: Pattern, provider: string, message: string, d: (string, string))
    returns (i: nat)
    requires StarFree(p) && d in KeysOf(p, provider, message)
    ensures d.0 == provider && KeyAt(p, d.1, message, i)
  {
    hide InLanguage, MatchesAt, MatchFrom, Ordered, CoreLength, Tagged;
    var m := InTagged(provider, message, FindAll(p, message, 0), d);
    i := m.start;
    MatchIsInLanguage(p, message, i);
    EndOfFound(p, message, m);
  }

  /** Everything detected is a key of its provider standing in the message. */
  lemma {:induction false} DetectionsAreKeys(
    ps: seq<(Pattern, string)>, message: string, d: (string, string))
    returns (k: nat, i: nat)
    requires AllStarFree(ps) && d in Detections(ps, message)
    ensures k < |ps| && ps[k].1 == d.0 && KeyAt(ps[k].0, d.1, message, i)
  {
    var last := |ps| - 1;
    if d in KeysOf(ps[last].0, ps[last].1, message) {
      k := last;
      i := KeysOfAreKeys(ps[last].0, ps[last].1, message, d);
    } else {
      k, i := DetectionsAreKeys(ps[..last], message, d);
    }
  }

  /** Nothing is detected exactly when no pattern matches anywhere. */
  lemma {:induction false} DetectsNothingExactly(ps: seq<(Pattern, string)>, message: string)
    requires AllStarFree(ps)
    ensures Detections(ps, message) == [] <==>
            forall k :: 0 <= k < |ps| ==> !HasMatch(ps[k].0, message)
  {
    if ps != [] {
      var p, provider := ps[|ps| - 1].0, ps[|ps| - 1].1;
      DetectsNothingExactly(ps[..|ps| - 1], message);
      assert FindAll(p, message, 0) == [] <==> FindFrom(p, message, 0).None?;
      assert |KeysOf(p, provider, message)| == |FindAll(p, message, 0)|;
    }
  }

  // ---- The loops over a pattern table ----

  /** The inner loop of detection. */
  method PushMatches(before: seq<(string, string)>, provider: string, t: string, ms: seq<Match>)
    returns (detected: seq<(string, string)>)
    requires forall m | m in ms :: m.start <= m.end <= |t|
    ensures detected == before + Tagged(provider, t, ms)
  {
    detected := before;
    ghost var keys := Tagged(provider, t, ms);
    for k := 0 to |ms|
      invariant detected == before + keys[..k]
    {
      detected := detected + [(provider, t[ms[k].start..ms[k].end])];
    }
  }

  method DetectWith(ps: seq<(Pattern, string)>, message: string)
    returns (detected: seq<(string, string)>)
    requires AllStarFree(ps)
    ensures detected == Detections(ps, message)
  {
    detected := [];
    for n := 0 to |ps|
      invariant detected == Detections(ps[..n], message)
    {
      var (pattern, provider) := ps[n];
      detected := PushMatches(detected, provider, message, FindAll(pattern, message, 0));
      assert ps[..n + 1][..n] == ps[..n];
    }
    assert ps[..|ps|] == ps;
  }

  method RedactWith(ps: seq<(Pattern, string)>, text: string) returns (result: string)
    requires AllStarFree(ps)
    ensures result == Passes(ps, text)
  {
    result := text;
    for n := 0 to |ps|
      invariant result == Passes(ps[..n], text)
    {
      result := Pass(ps[n].0, result);
      assert ps[..n + 1][..n] == ps[..n];
    }
    assert ps[..|ps|] == ps;
  }

  // ---- The patterns of the source ----

  lemma SourcePatterns()
    ensures AllStarFree(KEY_PATTERNS)
    ensures forall k :: 0 <= k < |KEY_PATTERNS| ==>
              (DashPrefixed(KEY_PATTERNS[k].0) <==> KEY_PATTERNS[k].1 != "google")
  {
  }

  function Redacted(t: string): string {
    SourcePatterns();
    Passes(KEY_PATTERNS, t)
  }

  function Detected(message: string): seq<(string, string)> {
    SourcePatterns();
    Detections(KEY_PATTERNS, message)
  }

  method DetectApiKeys(message: string) returns (detected: seq<(string, string)>)
    ensures detected == Detected(message)
  {
    SourcePatterns();
    detected := DetectWith(KEY_PATTERNS, message);
  }

  method RedactSecrets(text: string) returns (result: string)
    ensures result == Redacted(text)
  {
    SourcePatterns();
    result := RedactWith(KEY_PATTERNS, text);
  }

  /** No key pattern but Google's matches anywhere in redacted text. */
  lemma RedactedHasNoDashedKey(t: string, k: nat)
    requires k < |KEY_PATTERNS| && KEY_PATTERNS[k].1 != "google"
    ensures !HasMatch(KEY_PATTERNS[k].0, Redacted(t))
  {
    SourcePatterns();
    NoMatchAfterPasses(KEY_PATTERNS, t, k);
  }

  /** Text in which nothing is detected is returned unchanged. */
  lemma UndetectedIsUnchanged(message: string)
    requires Detected(message) == []
    ensures Redacted(message) == message
  {
    SourcePatterns();
    DetectsNothingExactly(KEY_PATTERNS, message);
    NoKeysNoChange(KEY_PATTERNS, message);
  }

  lemma TextIsMatch(p: Pattern, t: string, i: nat, w: string)
    requires KeyAt(p, w, t, i)
    ensures HasMatch(p, t)
  {
    MatchIsGreedy(p, t, i, i + |w|);
  }

  /** No detected key of another provider than Google stands in the redaction. */
  lemma DetectedKeysAreRedacted(message: string, d: (string, string), i: nat)
    requires d in Detected(message) && d.0 != "google"
    requires i + |d.1| <= |Redacted(message)|
    ensures Redacted(message)[i..i + |d.1|] != d.1
  {
    SourcePatterns();
    var k, _ := DetectionsAreKeys(KEY_PATTERNS, message, d);
    RedactedHasNoDashedKey(message, k);
    if Redacted(message)[i..i + |d.1|] == d.1 {
      TextIsMatch(KEY_PATTERNS[k].0, Redacted(message), i, d.1);
    }
  }

  // ---- Google keys ----

  /** The text the Google pass reads, and the text it leaves. */
  function BeforeGoogle(t: string): string {
    SourcePatterns();
    Passes(KEY_PATTERNS[..4], t)
  }

  function AfterGoogle(t: string): string {
    Pass(GOOGLE, BeforeGoogle(t))
  }

  lemma LastTwoPasses(t: string)
    ensures Redacted(t) == Pass(TAVILY, AfterGoogle(t))
  {
    SourcePatterns();
    assert KEY_PATTERNS[..5][..4] == KEY_PATTERNS[..4];
    assert KEY_PATTERNS[..5][4].0 == GOOGLE && KEY_PATTERNS[5].0 == TAVILY;
    assert AfterGoogle(t) == Passes(KEY_PATTERNS[..5], t);
  }

  /** The Google pattern has no dash in its prefix: a key whose first dash is at
      offset 35 or later is shown in full, and this is the only way its own pass
      leaves a match. */
  lemma GooglePassExact(u: string)
    ensures HasMatch(GOOGLE, Pass(GOOGLE, u)) <==>
            exists m :: m in FindAll(GOOGLE, u, 0)
                        && FirstDash(u[m.start..m.end]).Some? && 35 <= FirstDash(u[m.start..m.end]).value
  {
    PassRemovesOwnExactly(GOOGLE, u);
    forall m | m in FindAll(GOOGLE, u, 0)
      ensures m.start + CoreLength(GOOGLE) <= m.shown <==>
              FirstDash(u[m.start..m.end]).Some? && 35 <= FirstDash(u[m.start..m.end]).value
    {
      assert |u[m.start..m.end]| == 39;
    }
  }

  /** `AIza`, 31 zeros, and a dash as 36th character, followed by three zeros. */
  function LateDashKey(): (t: string) {
    seq(39, i => if i == 0 then 'A' else if i == 1 then 'I' else if i == 2 then 'z'
                 else if i == 3 then 'a' else if i == 35 then '-' else '0')
  }

  lemma AbsentLetterNoMatch(p: Pattern, t: string)
    requires p.prefix != [] && p.prefix[0] !in t
    ensures !HasMatch(p, t)
  {
  }

  lemma LateDashKeyMatches()
    ensures MatchesAt(GOOGLE, LateDashKey(), 0) && |LateDashKey()| == CoreLength(GOOGLE)
    ensures FirstDash(LateDashKey()).Some? && 35 <= FirstDash(LateDashKey()).value
  {
    var t := LateDashKey();
    assert t[0..39] == t;
    assert t[..4] == "AIza";
    assert t[35] == '-';
  }

  lemma LateDashKeyIsGoogleOnly(p: Pattern)
    requires p.prefix != [] && p.prefix[0] in {'s', 'x', 'p', 't'}
    ensures !HasMatch(p, LateDashKey())
  {
    AbsentLetterNoMatch(p, LateDashKey());
  }

  /** A text that only the Google pattern matches goes through its pass alone. */
  lemma GoogleOnly(t: string)
    requires forall k :: 0 <= k < |KEY_PATTERNS| && k != 4 ==> !HasMatch(KEY_PATTERNS[k].0, t)
    ensures Redacted(t) == Pass(GOOGLE, t)
  {
    SourcePatterns();
    NoKeysNoChange(KEY_PATTERNS[..4], t);
    LastTwoPasses(t);
    assert KEY_PATTERNS[5].0 == TAVILY;
    PassCreatesNoMatch(GOOGLE, TAVILY, t);
    NoMatchNoChange(TAVILY, Pass(GOOGLE, t));
  }

  lemma LateDashIsShown(t: string)
    requires MatchesAt(GOOGLE, t, 0) && |t| == CoreLength(GOOGLE)
    requires FirstDash(t).Some? && 35 <= FirstDash(t).value
    ensures HasMatch(GOOGLE, t) && HasMatch(GOOGLE, Pass(GOOGLE, t))
  {
    var m := FindAllCovers(GOOGLE, t, 0, 0);
    assert m.start == 0 && m.end == |t|;
    assert t[m.start..m.end] == t;
    GooglePassExact(t);
  }

  /** The Google promise fails: this key comes out of the whole redaction in full. */
  lemma LateDashKeyStaysVisible()
    ensures HasMatch(GOOGLE, LateDashKey()) && HasMatch(GOOGLE, Redacted(LateDashKey()))
  {
    forall k | 0 <= k < |KEY_PATTERNS| && k != 4
      ensures !HasMatch(KEY_PATTERNS[k].0, LateDashKey())
    {
      LateDashKeyIsGoogleOnly(KEY_PATTERNS[k].0);
    }
    GoogleOnly(LateDashKey());
    LateDashKeyMatches();
    LateDashIsShown(LateDashKey());
  }

  /** In a message that no other pattern matches, a Google key is left exactly when one
      that is detected has its first dash at offset 35 or later. */
  lemma GoogleAloneExactly(t: string)
    requires forall k :: 0 <= k < |KEY_PATTERNS| && k != 4 ==> !HasMatch(KEY_PATTERNS[k].0, t)
    ensures HasMatch(GOOGLE, Redacted(t)) <==>
            exists m :: m in FindAll(GOOGLE, t, 0)
                        && FirstDash(t[m.start..m.end]).Some? && 35 <= FirstDash(t[m.start..m.end]).value
  {
    GoogleOnly(t);
    GooglePassExact(t);
  }

  /** When every Google key found has its first dash early or not at all, no
      pattern whatever matches in the redacted text. */
  lemma RedactedHasNoKey(t: string, k: nat)
    requires forall m | m in FindAll(GOOGLE, BeforeGoogle(t), 0) ::
               var d := FirstDash(BeforeGoogle(t)[m.start..m.end]);
               d.None? || d.value < 35
    requires k < |KEY_PATTERNS|
    ensures !HasMatch(KEY_PATTERNS[k].0, Redacted(t))
  {
    if KEY_PATTERNS[k].1 == "google" {
      LastTwoPasses(t);
      GooglePassExact(BeforeGoogle(t));
      PassCreatesNoMatch(TAVILY, GOOGLE, AfterGoogle(t));
    } else {
      RedactedHasNoDashedKey(t, k);
    }
  }

  lemma KeptIsShownInFull(p: Pattern, u: string, b: nat)
    requires StarFree(p) && !p.unbounded && KeptAt(p, p, u, b)
    ensures VisibleLength(u[b..b + CoreLength(p)]) == CoreLength(p)
  {
    hide MatchesAt, VisibleLength, Ordered, CoreLength;
    var m := OwnMatchIsShown(p, u, b);
    assert m.start == b && m.end == b + CoreLength(p);
  }

  /** What the passes of a fixed-length `p` and then of `q` leave of `p` is shown in full. */
  lemma LeftMatchIsShownInFull(p: Pattern, q: Pattern, u: string, j: nat)
    requires StarFree(p) && StarFree(q) && !p.unbounded
    requires MatchesAt(p, Pass(q, Pass(p, u)), j)
    ensures VisibleLength(Pass(q, Pass(p, u))[j..j + CoreLength(p)]) == CoreLength(p)
  {
    var a := MatchComesFromInput(q, p, Pass(p, u), j);
    var b := MatchComesFromInput(p, p, u, a);
    KeptIsShownInFull(p, u, b);
  }

  /** A Google match in redacted text is one the Google pass showed in full. */
  lemma RedactedGoogleIsShownInFull(t: string, j: nat)
    requires MatchesAt(GOOGLE, Redacted(t), j)
    ensures VisibleLength(Redacted(t)[j..j + CoreLength(GOOGLE)]) == CoreLength(GOOGLE)
  {
    LastTwoPasses(t);
    LeftMatchIsShownInFull(GOOGLE, TAVILY, BeforeGoogle(t), j);
  }

  /** Redacting twice is redacting once exactly when no Google key was left. */
  lemma RedactionIdempotentExactly(t: string)
    ensures Redacted(Redacted(t)) == Redacted(t) <==> !HasMatch(GOOGLE, Redacted(t))
  {
    var r := Redacted(t);
    SourcePatterns();
    forall k | 0 <= k < 4
      ensures !HasMatch(KEY_PATTERNS[..4][k].0, r)
    {
      RedactedHasNoDashedKey(t, k);
    }
    NoKeysNoChange(KEY_PATTERNS[..4], r);
    LastTwoPasses(r);
    var w := Pass(GOOGLE, r);
    RedactedHasNoDashedKey(t, 5);
    PassCreatesNoMatch(GOOGLE, TAVILY, r);
    NoMatchNoChange(TAVILY, w);
    assert Redacted(r) == w;
    if HasMatch(GOOGLE, r) {
      SecondGooglePassGrows(t);
    } else {
      NoMatchNoChange(GOOGLE, r);
    }
  }

  lemma SecondGooglePassGrows(t: string)
    requires HasMatch(GOOGLE, Redacted(t))
    ensures |Redacted(t)| < |Pass(GOOGLE, Redacted(t))|
  {
    var r := Redacted(t);
    var i: nat :| MatchesAt(GOOGLE, r, i);
    var _ := FindAllCovers(GOOGLE, r, 0, i);
    forall m | m in FindAll(GOOGLE, r, 0)
      ensures m.shown == m.end
    {
      RedactedGoogleIsShownInFull(t, m.start);
    }
    SpliceLength(r, 0, FindAll(GOOGLE, r, 0));
  }
}
