/** Which Google keys of a message come out of the redaction
    (crates/abigail-core/src/key_detection.rs), told from the message alone: from the
    key and the unbroken run of key characters before it. */
module LateKeys {
  import opened Wrappers
  import opened KeyDetection

  predicate IsKeyChar(c: char) {
    IsAlphanumeric(c) || c == '_' || c == '-'
  }

  ghost predicate AllKeyChars(w: string) {
    forall i :: 0 <= i < |w| ==> IsKeyChar(w[i])
  }

  const KEY_LENGTH := 39

  /** A Google key whose first dash comes late, so that it would be shown in full. */
  predicate IsLateKey(w: string) {
    && IsCore(GOOGLE, w)
    && FirstDash(w).Some? && 35 <= FirstDash(w).value
  }

  /** The patterns of the source: Google's, and those with a dash at the end of a prefix. */
  predicate Known(p: Pattern) {
    p == GOOGLE ||
    (&& 3 <= |p.prefix| <= 7 && p.prefix[|p.prefix| - 1] == '-' && p.min == 20 && p.unbounded
     && forall i :: 0 <= i < |p.prefix| ==> IsKeyChar(p.prefix[i]))
  }

  lemma SourcePatternsAreKnown(k: nat)
    requires k < |KEY_PATTERNS|
    ensures Known(KEY_PATTERNS[k].0)
  {
  }

  lemma KnownIsStarFree(p: Pattern)
    requires Known(p)
    ensures StarFree(p) && CoreLength(p) <= KEY_LENGTH
  {
  }

  // ---- One pattern over a run of key characters ----

  /** Where a run of key characters ending in a key is cut last before the key at `g`,
      scanning from `i` with the last cut at `c`; `None` when a match runs into the key. */
  function LastCut(p: Pattern, w: string, g: nat, i: nat, c: nat): (r: Option<nat>)
    requires Known(p) && c <= i
    ensures r.Some? ==> c <= r.value <= g
    decreases if i <= g then g - i + 1 else 0
  {
    if g < i then None
    else if i == g then Some(c)
    else if MatchesAt(p, w, i) then
      KnownIsStarFree(p);
      LastCut(p, w, g, MatchEnd(p, w, i), MatchEnd(p, w, i))
    else LastCut(p, w, g, i + 1, c)
  }

  /** What the pass of `p` leaves of a run of key characters that ends in a key, if it
      leaves the key. */
  function Left(p: Pattern, w: string): (r: Option<string>)
    requires Known(p) && KEY_LENGTH <= |w|
    ensures r.Some? ==> KEY_LENGTH <= |r.value|
  {
    match LastCut(p, w, |w| - KEY_LENGTH, 0, 0)
    case None => None
    case Some(c) => Some(w[c..])
  }

  predicate AllKnown(ps: seq<(Pattern, string)>) {
    forall k :: 0 <= k < |ps| ==> Known(ps[k].0)
  }

  /** The same for the passes of `ps`, first to last. */
  function LeftBy(ps: seq<(Pattern, string)>, w: string): (r: Option<string>)
    requires AllKnown(ps) && KEY_LENGTH <= |w|
    ensures r.Some? ==> KEY_LENGTH <= |r.value|
  {
    if ps == [] then Some(w)
    else
      match LeftBy(ps[..|ps| - 1], w)
      case None => None
      case Some(w1) => Left(ps[|ps| - 1].0, w1)
  }

  /** Where the key characters that end before `a` begin. */
  function RunStart(t: string, a: nat): (r: nat)
    requires a <= |t|
    ensures r <= a && forall i :: r <= i < a ==> IsKeyChar(t[i])
    ensures Barrier(t, r)
  {
    if 0 < a && IsKeyChar(t[a - 1]) then RunStart(t, a - 1) else a
  }

  /** No key character stands right before `x`. */
  predicate Barrier(t: string, x: nat)
    requires x <= |t|
  {
    x == 0 || !IsKeyChar(t[x - 1])
  }

  /** The key at `a`, with the run of key characters before it. */
  function RunTo(t: string, a: nat): (w: string)
    requires a + KEY_LENGTH <= |t|
    ensures KEY_LENGTH <= |w|
  {
    t[RunStart(t, a)..a + KEY_LENGTH]
  }

  // ---- A pass over a text with such a run ----

  /** `w` stands in `u` at `x`, a whole run of key characters up to the end of a late key. */
  ghost predicate StandsAt(u: string, x: nat, w: string) {
    && x + |w| <= |u| && u[x..x + |w|] == w && Barrier(u, x)
    && KEY_LENGTH <= |w| && AllKeyChars(w) && IsLateKey(w[|w| - KEY_LENGTH..])
  }

  lemma MatchIsKeyChars(p: Pattern, u: string, s: nat, k: nat)
    requires Known(p) && MatchesAt(p, u, s) && s <= k < MatchEnd(p, u, s)
    ensures IsKeyChar(u[k])
  {
    var c := u[s..s + CoreLength(p)];
    if k < s + |p.prefix| {
      assert c[..|p.prefix|][k - s] == u[k];
    } else if k < s + CoreLength(p) {
      assert c[k - s] == u[k];
    }
  }

  /** A match found does not reach across the start of the run. */
  lemma FoundStaysApart(p: Pattern, u: string, x: nat, m: Match)
    requires Known(p) && x <= |u| && Barrier(u, x)
    requires MatchesAt(p, u, m.start) && m.end == MatchEnd(p, u, m.start)
    ensures m.end <= x || x <= m.start
  {
    if m.start < x < m.end {
      MatchIsKeyChars(p, u, m.start, x - 1);
    }
  }

  lemma CoreInWindow(p: Pattern, u: string, x: nat, w: string, i: nat)
    requires Known(p) && x + |w| <= |u| && u[x..x + |w|] == w && i + CoreLength(p) <= |w|
    ensures MatchesAt(p, u, x + i) <==> MatchesAt(p, w, i)
  {
    SliceOfSlice(u, x, x + |w|, i, CoreLength(p));
  }

  lemma {:induction false} RunEndInWindow(p: Pattern, u: string, x: nat, w: string, i: nat)
    requires x + |w| <= |u| && u[x..x + |w|] == w && i <= |w|
    ensures RunEnd(p, w, i) < |w| ==> RunEnd(p, u, x + i) == x + RunEnd(p, w, i)
    ensures x + RunEnd(p, w, i) <= RunEnd(p, u, x + i)
    decreases |w| - i
  {
    if i < |w| {
      assert u[x + i] == w[i];
      if IsBody(p, w[i]) {
        RunEndInWindow(p, u, x, w, i + 1);
      }
    }
  }

  lemma EndInWindow(p: Pattern, u: string, x: nat, w: string, i: nat)
    requires Known(p) && x + |w| <= |u| && u[x..x + |w|] == w && MatchesAt(p, w, i) && MatchesAt(p, u, x + i)
    ensures MatchEnd(p, w, i) < |w| ==> MatchEnd(p, u, x + i) == x + MatchEnd(p, w, i)
    ensures x + MatchEnd(p, w, i) <= MatchEnd(p, u, x + i)
  {
    if p.unbounded {
      RunEndInWindow(p, u, x, w, i + CoreLength(p));
    }
  }

  /** Every match found is over by `lo` or starts at `hi` or later. */
  ghost predicate Between(ms: seq<Match>, lo: nat, hi: nat) {
    forall m :: m in ms ==> m.end <= lo || hi <= m.start
  }

  /** The scan is at `i`, with the last cut at `c`. */
  ghost predicate Scanned(p: Pattern, u: string, x: nat, i: nat, c: nat)
    requires Known(p)
  {
    KnownIsStarFree(p);
    var ms := FindAll(p, u, 0);
    c <= i && Between(ms, x + c, x + i) && (c == 0 || exists m :: m in ms && m.end == x + c)
  }

  /** A match at the scan's position is one that the pass finds. */
  lemma ScanFinds(p: Pattern, u: string, x: nat, i: nat, c: nat) returns (m: Match)
    requires Known(p) && Scanned(p, u, x, i, c) && MatchesAt(p, u, x + i)
    ensures StarFree(p) && m in FindAll(p, u, 0) && m.start == x + i && m.end == MatchEnd(p, u, x + i)
  {
    hide MatchesAt, IsCore, Known, FindAll, MatchFrom, Ordered, CoreLength;
    KnownIsStarFree(p);
    m := FindAllCovers(p, u, 0, x + i);
  }

  lemma ScanMoves(p: Pattern, u: string, x: nat, i: nat, c: nat)
    requires Known(p) && Scanned(p, u, x, i, c) && !MatchesAt(p, u, x + i)
    ensures Scanned(p, u, x, i + 1, c)
  {
    hide MatchesAt, IsCore, Known, FindAll, MatchFrom, Ordered, CoreLength;
    KnownIsStarFree(p);
  }

  lemma ScanJumps(p: Pattern, u: string, x: nat, i: nat, c: nat, m: Match)
    requires Known(p) && Scanned(p, u, x, i, c)
    requires StarFree(p) && m in FindAll(p, u, 0) && m.start == x + i && m.end >= x + i
    ensures Scanned(p, u, x, m.end - x, m.end - x)
  {
    hide MatchesAt, IsCore, Known, FindAll, MatchFrom, Ordered, CoreLength;
    OrderedBounds(u, 0, FindAll(p, u, 0));
  }

  /** A match that starts before the key and ends in or after it hides part of the key. */
  lemma RunsIntoKey(p: Pattern, u: string, a: nat, m: Match)
    requires Known(p) && StarFree(p) && m in FindAll(p, u, 0) && m.start < a < m.end && a + KEY_LENGTH <= |u|
    ensures !Clear(a, KEY_LENGTH, FindAll(p, u, 0))
  {
    hide MatchesAt, IsCore, Known, FindAll, MatchFrom, Ordered, CoreLength;
    if p == GOOGLE {
      GoogleLength(u, m.start);
    } else {
      var _ := DashIsInPrefix(p, u, m);
      PrefixIsShort(p);
    }
  }

  lemma GoogleLength(u: string, s: nat)
    requires MatchesAt(GOOGLE, u, s)
    ensures MatchEnd(GOOGLE, u, s) == s + KEY_LENGTH
  {
  }

  lemma PrefixIsShort(p: Pattern)
    requires Known(p)
    ensures 1 <= |p.prefix| <= 7
  {
  }

  lemma PrefixStands(p: Pattern, u: string, s: nat)
    requires MatchesAt(p, u, s)
    ensures forall k :: 0 <= k < |p.prefix| ==> u[s + k] == p.prefix[k]
  {
    var core := u[s..s + CoreLength(p)];
    assert forall k :: 0 <= k < |p.prefix| ==> core[k] == core[..|p.prefix|][k];
  }

  /** The first dash of a match is in its prefix, and so little of it is shown. */
  lemma DashIsInPrefix(p: Pattern, u: string, m: Match) returns (d: nat)
    requires Known(p) && p != GOOGLE && StarFree(p) && m in FindAll(p, u, 0)
    ensures d < |p.prefix| && m.start + d < |u| && u[m.start + d] == '-' && m.shown == m.start + d + 4
  {
    hide MatchesAt, IsCore, FindAll, Ordered;
    var w, n := u[m.start..m.end], |p.prefix|;
    PrefixStands(p, u, m.start);
    MatchIsLong(p, u, m);
    assert w[n - 1] == u[m.start + (n - 1)] == p.prefix[n - 1] == '-';
    d := FirstDash(w).value;
    assert w[d] == u[m.start + d];
  }

  lemma MatchIsLong(p: Pattern, u: string, m: Match)
    requires Known(p) && p != GOOGLE && StarFree(p) && m in FindAll(p, u, 0)
    ensures m.start + |p.prefix| + 20 <= m.end <= |u|
    ensures m == MatchFrom(u, m.start, m.end)
  {
    hide MatchesAt, IsCore, FindAll, Ordered, MatchFrom;
  }

  lemma NoEarlyDash(u: string, x: nat, w: string, k: nat)
    requires StandsAt(u, x, w)
    requires x + |w| - KEY_LENGTH <= k < x + |w| && u[k] == '-'
    ensures x + |w| - 4 <= k
  {
    var g := |w| - KEY_LENGTH;
    assert w[g..][k - x - g] == w[k - x] == u[k];
  }

  /** A match found that starts in the key shows all the rest of it. */
  lemma StartsInKey(p: Pattern, u: string, x: nat, w: string, c: nat, m: Match)
    requires Known(p) && StandsAt(u, x, w) && Scanned(p, u, x, |w| - KEY_LENGTH, c)
    requires StarFree(p) && m in FindAll(p, u, 0) && x + |w| - KEY_LENGTH <= m.start
    ensures x + |w| <= m.shown
  {
    hide MatchesAt, IsCore, Known, FindAll, MatchFrom, Ordered, CoreLength, Scanned, StandsAt;
    StandsParts(u, x, w);
    if p == GOOGLE {
      var own := OwnMatch(u, x, w, c);
      OrderedBounds(u, 0, FindAll(p, u, 0));
    } else {
      var d := DashIsInPrefix(p, u, m);
      if m.start + d < x + |w| {
        NoEarlyDash(u, x, w, m.start + d);
      }
    }
  }

  /** The Google pass finds the key itself, and shows it in full. */
  lemma OwnMatch(u: string, x: nat, w: string, c: nat) returns (own: Match)
    requires Known(GOOGLE) && StarFree(GOOGLE) && StandsAt(u, x, w) && Scanned(GOOGLE, u, x, |w| - KEY_LENGTH, c)
    ensures own in FindAll(GOOGLE, u, 0) && own.start == x + |w| - KEY_LENGTH && own.shown == own.end == x + |w|
  {
    hide FindAll, Ordered, Scanned, Known;
    var g := |w| - KEY_LENGTH;
    var key := w[g..];
    SliceOfSlice(u, x, x + |w|, g, KEY_LENGTH);
    assert u[x + g..x + g + KEY_LENGTH] == w[g..g + KEY_LENGTH] == key;
    own := ScanFinds(GOOGLE, u, x, g, c);
    GoogleLength(u, x + g);
  }

  /** Scanning the run tells what the pass does to it: either the key is cut, or all
      from the last cut on is kept. */
  lemma {:induction false} ScanIsExact(p: Pattern, u: string, x: nat, w: string, i: nat, c: nat)
    requires Known(p) && StarFree(p) && StandsAt(u, x, w)
    requires i <= |w| - KEY_LENGTH && Scanned(p, u, x, i, c)
    ensures match LastCut(p, w, |w| - KEY_LENGTH, i, c)
            case None => !Clear(x + |w| - KEY_LENGTH, KEY_LENGTH, FindAll(p, u, 0))
            case Some(c') => Scanned(p, u, x, |w| - KEY_LENGTH, c')
    decreases |w| - i
  {
    hide MatchesAt, IsCore, Known, FindAll, MatchFrom, Ordered, CoreLength, Scanned, Clear, StandsAt;
    KnownIsStarFree(p);
    StandsParts(u, x, w);
    var g := |w| - KEY_LENGTH;
    if i < g {
      CoreInWindow(p, u, x, w, i);
      if MatchesAt(p, w, i) {
        var m := ScanFinds(p, u, x, i, c);
        EndInWindow(p, u, x, w, i);
        if MatchEnd(p, w, i) <= g {
          ScanJumps(p, u, x, i, c, m);
          ScanIsExact(p, u, x, w, MatchEnd(p, w, i), MatchEnd(p, w, i));
        } else {
          RunsIntoKey(p, u, x + g, m);
        }
      } else {
        ScanMoves(p, u, x, i, c);
        ScanIsExact(p, u, x, w, i + 1, c);
      }
    }
  }

  lemma StandsParts(u: string, x: nat, w: string)
    requires StandsAt(u, x, w)
    ensures x + |w| <= |u| && u[x..x + |w|] == w && Barrier(u, x) && KEY_LENGTH <= |w|
  {
  }

  lemma ScanStarts(p: Pattern, u: string, x: nat)
    requires Known(p) && x <= |u| && Barrier(u, x)
    ensures Scanned(p, u, x, 0, 0)
  {
    KnownIsStarFree(p);
    forall m | m in FindAll(p, u, 0)
      ensures m.end <= x || x <= m.start
    {
      FoundStaysApart(p, u, x, m);
    }
  }

  lemma ScannedIsClear(p: Pattern, u: string, x: nat, w: string, c: nat)
    requires Known(p) && StarFree(p) && StandsAt(u, x, w) && Scanned(p, u, x, |w| - KEY_LENGTH, c)
    ensures Clear(x + c, |w| - c, FindAll(p, u, 0))
  {
    forall m | m in FindAll(p, u, 0)
      ensures x + |w| <= m.shown || m.end <= x + c
    {
      if x + |w| - KEY_LENGTH <= m.start {
        StartsInKey(p, u, x, w, c, m);
      }
    }
  }

  // ---- Through one pass, both ways ----

  lemma KeySuffix(w: string, c: nat)
    requires KEY_LENGTH <= |w| - c && AllKeyChars(w) && IsLateKey(w[|w| - KEY_LENGTH..])
    ensures AllKeyChars(w[c..]) && IsLateKey(w[c..][|w| - c - KEY_LENGTH..])
  {
    assert w[c..][|w| - c - KEY_LENGTH..] == w[|w| - KEY_LENGTH..];
  }

  /** What is left of a run stands in the text after the pass. */
  lemma LeftStands(p: Pattern, u: string, x: nat, w: string) returns (j: nat)
    requires Known(p) && StarFree(p) && StandsAt(u, x, w) && Left(p, w).Some?
    ensures StandsAt(Pass(p, u), j, Left(p, w).value)
  {
    hide MatchesAt, IsCore, Known, FindAll, MatchFrom, Ordered, CoreLength, Scanned, IsLateKey, Clear, LeftOf, LastCut, Splice, Barrier;
    ScanStarts(p, u, x);
    ScanIsExact(p, u, x, w, 0, 0);
    var c := LastCut(p, w, |w| - KEY_LENGTH, 0, 0).value;
    ScannedIsClear(p, u, x, w, c);
    j := WindowSurvives(u, 0, FindAll(p, u, 0), x + c, |w| - c);
    SliceOfSlice(u, x, x + |w|, c, |w| - c);
    assert w[c..] == w[c..c + (|w| - c)];
    KeySuffix(w, c);
    CutIsBarrier(p, u, x, c, |w| - c, j, |w| - KEY_LENGTH);
  }

  lemma CutIsBarrier(p: Pattern, u: string, x: nat, c: nat, n: nat, j: nat, g: nat)
    requires Known(p) && StarFree(p) && x + c + n <= |u| && Barrier(u, x) && Scanned(p, u, x, g, c) && 0 < n
    requires j <= |Pass(p, u)| && LeftOf(u, 0, FindAll(p, u, 0), x + c, n, j)
    ensures Barrier(Pass(p, u), j)
  {
    hide MatchesAt, IsCore, Known, FindAll, MatchFrom, Ordered, CoreLength;
    if 0 < c {
      var m :| m in FindAll(p, u, 0) && m.end == x + c;
      NotAcrossEnd(FindAll(p, u, 0), m, n);
    }
  }

  lemma NotAcrossEnd(ms: seq<Match>, m: Match, n: nat)
    requires m in ms && m.shown <= m.end && 0 < n && 0 < m.end
    ensures !Clear(m.end - 1, n + 1, ms)
  {
  }

  /** Conversely, such a run after the pass is left of one before it. */
  lemma StandsAfter(p: Pattern, u: string, j: nat, w': string) returns (x: nat, w: string)
    requires Known(p) && StarFree(p) && StandsAt(Pass(p, u), j, w')
    ensures StandsAt(u, x, w) && Left(p, w) == Some(w')
  {
    hide MatchesAt, IsCore, Known, FindAll, MatchFrom, Ordered, CoreLength, Scanned, IsLateKey, Clear, LeftOf, Splice, AllKeyChars;
    var ms, out, n := FindAll(p, u, 0), Pass(p, u), |w'|;
    NoStar(out, j, w');
    var b := PassWindow(p, u, j, n);
    x := RunStart(u, b);
    w := u[x..b + n];
    RunStandsAt(u, x, b, w');
    ScanStarts(p, u, x);
    ScanIsExact(p, u, x, w, 0, 0);
    KeyIsClear(b, n, ms);
    var c := LastCut(p, w, |w| - KEY_LENGTH, 0, 0).value;
    CutIsRunStart(p, u, x, b, n, c, j);
    assert w[c..] == u[b..b + n];
  }

  lemma NoStar(out: string, j: nat, w: string)
    requires StandsAt(out, j, w)
    ensures '*' !in out[j..j + |w|]
  {
  }

  lemma KeyIsClear(b: nat, n: nat, ms: seq<Match>)
    requires KEY_LENGTH <= n && Clear(b, n, ms)
    ensures Clear(b + n - KEY_LENGTH, KEY_LENGTH, ms)
  {
  }

  lemma RunStandsAt(u: string, x: nat, b: nat, w': string)
    requires b + |w'| <= |u| && u[b..b + |w'|] == w' && x <= b && Barrier(u, x)
    requires forall i :: x <= i < b ==> IsKeyChar(u[i])
    requires KEY_LENGTH <= |w'| && AllKeyChars(w') && IsLateKey(w'[|w'| - KEY_LENGTH..])
    ensures StandsAt(u, x, u[x..b + |w'|])
  {
    hide IsLateKey;
    var w := u[x..b + |w'|];
    assert w == u[x..b] + w';
    assert w[|w| - KEY_LENGTH..] == w'[|w'| - KEY_LENGTH..];
  }

  /** The last cut of the run is where it goes on in the text after the pass. */
  lemma CutIsRunStart(p: Pattern, u: string, x: nat, b: nat, n: nat, c: nat, j: nat)
    requires Known(p) && StarFree(p) && KEY_LENGTH <= n && x <= b && b + n <= |u|
    requires forall i :: x <= i < b ==> IsKeyChar(u[i])
    requires Scanned(p, u, x, b + n - x - KEY_LENGTH, c)
    requires Clear(b, n, FindAll(p, u, 0))
    requires j <= |Pass(p, u)| && LeftOf(u, 0, FindAll(p, u, 0), b, n, j) && Barrier(Pass(p, u), j)
    ensures c == b - x
  {
    var ms := FindAll(p, u, 0);
    if 0 < c {
      var m :| m in ms && m.end == x + c;
      assert m.end <= b;
    }
    if x < b {
      assert IsKeyChar(u[b - 1]);
      assert 0 < j && Pass(p, u)[j - 1] == '*';
      var m :| m in ms && m.end == b;
      assert m.start < m.end;
    }
  }

  // ---- Through all passes ----

  lemma KnownAreStarFree(ps: seq<(Pattern, string)>)
    requires AllKnown(ps)
    ensures AllStarFree(ps)
  {
    forall k | 0 <= k < |ps|
      ensures StarFree(ps[k].0)
    {
      KnownIsStarFree(ps[k].0);
    }
  }

  lemma {:induction false} LeftByStands(ps: seq<(Pattern, string)>, t: string, x: nat, w: string) returns (j: nat)
    requires AllKnown(ps) && AllStarFree(ps) && StandsAt(t, x, w) && LeftBy(ps, w).Some?
    ensures StandsAt(Passes(ps, t), j, LeftBy(ps, w).value)
  {
    hide StandsAt, Left, Known, Pass;
    if ps == [] {
      j := x;
    } else {
      var n := |ps| - 1;
      var x1 := LeftByStands(ps[..n], t, x, w);
      StandsParts(t, x, w);
      j := LeftStands(ps[n].0, Passes(ps[..n], t), x1, LeftBy(ps[..n], w).value);
    }
  }

  lemma {:induction false} StandsAfterAll(ps: seq<(Pattern, string)>, t: string, j: nat, w': string)
    returns (x: nat, w: string)
    requires AllKnown(ps) && AllStarFree(ps) && StandsAt(Passes(ps, t), j, w')
    ensures KEY_LENGTH <= |w| && StandsAt(t, x, w) && LeftBy(ps, w) == Some(w')
  {
    hide Left, Known, Pass, IsLateKey, Barrier, AllKeyChars;
    if ps == [] {
      x, w := j, w';
    } else {
      var n := |ps| - 1;
      var x1, w1 := StandsAfter(ps[n].0, Passes(ps[..n], t), j, w');
      x, w := StandsAfterAll(ps[..n], t, x1, w1);
    }
  }

  // ---- The redaction ----

  /** A key of the message that the redaction shows in full: its first dash is late, and
      no pattern, in its turn, matches in the run of key characters before it on into it. */
  predicate Leaks(t: string, a: nat) {
    SourceIsKnown();
    a + KEY_LENGTH <= |t| && IsLateKey(t[a..a + KEY_LENGTH]) && LeftBy(KEY_PATTERNS, RunTo(t, a)).Some?
  }

  lemma SourceIsKnown()
    ensures AllKnown(KEY_PATTERNS) && AllStarFree(KEY_PATTERNS)
  {
    forall k | 0 <= k < |KEY_PATTERNS|
      ensures Known(KEY_PATTERNS[k].0)
    {
      SourcePatternsAreKnown(k);
    }
    KnownAreStarFree(KEY_PATTERNS);
  }

  lemma KeyStands(t: string, a: nat)
    requires a + KEY_LENGTH <= |t| && IsLateKey(t[a..a + KEY_LENGTH])
    ensures StandsAt(t, RunStart(t, a), RunTo(t, a))
  {
    var key := t[a..a + KEY_LENGTH];
    KeyIsKeyChars(key);
    assert key[|key| - KEY_LENGTH..] == key;
    RunStandsAt(t, RunStart(t, a), a, key);
  }

  lemma KeyIsKeyChars(key: string)
    requires IsLateKey(key)
    ensures |key| == KEY_LENGTH && AllKeyChars(key)
  {
    forall i | 0 <= i < |key|
      ensures IsKeyChar(key[i])
    {
      assert i < 4 ==> key[i] == key[..4][i];
    }
  }

  lemma StandingKey(t: string, x: nat, w: string)
    requires StandsAt(t, x, w)
    ensures var a := x + |w| - KEY_LENGTH;
            t[a..a + KEY_LENGTH] == w[|w| - KEY_LENGTH..] && RunTo(t, a) == w
  {
    var a := x + |w| - KEY_LENGTH;
    SliceOfSlice(t, x, x + |w|, |w| - KEY_LENGTH, KEY_LENGTH);
    assert w[|w| - KEY_LENGTH..] == w[|w| - KEY_LENGTH..|w| - KEY_LENGTH + KEY_LENGTH];
    forall i | x <= i < a
      ensures IsKeyChar(t[i])
    {
      assert t[i] == w[i - x];
    }
    RunStartIs(t, x, a);
  }

  lemma {:induction false} RunStartIs(t: string, x: nat, a: nat)
    requires x <= a <= |t| && Barrier(t, x) && forall i :: x <= i < a ==> IsKeyChar(t[i])
    ensures RunStart(t, a) == x
    decreases a
  {
    if x < a {
      RunStartIs(t, x, a - 1);
    }
  }

  /** Redacted text holds a Google key exactly when some key of the message leaks. */
  lemma RedactedGoogleExactly(t: string)
    ensures HasMatch(GOOGLE, Redacted(t)) <==> exists a: nat :: Leaks(t, a)
  {
    hide Passes, LeftBy, StandsAt, RunTo, IsLateKey;
    SourceIsKnown();
    if HasMatch(GOOGLE, Redacted(t)) {
      var j: nat :| MatchesAt(GOOGLE, Redacted(t), j);
      LeftKeyIsLate(t, j);
      KeyStands(Redacted(t), j);
      var x, w := StandsAfterAll(KEY_PATTERNS, t, RunStart(Redacted(t), j), RunTo(Redacted(t), j));
      StandingKey(t, x, w);
      LateKeyOf(t, x, w);
      assert Leaks(t, x + |w| - KEY_LENGTH);
    }
    if a: nat :| Leaks(t, a) {
      LeakIsLeft(t, a);
    }
  }

  lemma LateKeyOf(t: string, x: nat, w: string)
    requires StandsAt(t, x, w)
    ensures IsLateKey(w[|w| - KEY_LENGTH..]) && x + |w| <= |t| && KEY_LENGTH <= |w|
  {
  }

  lemma LeftKeyIsLate(t: string, j: nat)
    requires MatchesAt(GOOGLE, Redacted(t), j)
    ensures IsLateKey(Redacted(t)[j..j + KEY_LENGTH])
  {
    hide Redacted;
    RedactedGoogleIsShownInFull(t, j);
  }

  lemma LeakIsLeft(t: string, a: nat)
    requires Leaks(t, a)
    ensures HasMatch(GOOGLE, Redacted(t))
  {
    hide Passes, LeftBy, StandsAt, RunTo, IsLateKey;
    SourceIsKnown();
    KeyStands(t, a);
    var j := LeftByStands(KEY_PATTERNS, t, RunStart(t, a), RunTo(t, a));
    var w := LeftBy(KEY_PATTERNS, RunTo(t, a)).value;
    StandingKey(Redacted(t), j, w);
    LateKeyOf(Redacted(t), j, w);
    LateKeyMatches(Redacted(t), j + |w| - KEY_LENGTH);
  }

  lemma LateKeyMatches(u: string, a: nat)
    requires a + KEY_LENGTH <= |u| && IsLateKey(u[a..a + KEY_LENGTH])
    ensures HasMatch(GOOGLE, u)
  {
    assert MatchesAt(GOOGLE, u, a);
  }

  /** Redacting twice is redacting once exactly when no key of the message leaks. */
  lemma IdempotentExactly(t: string)
    ensures Redacted(Redacted(t)) == Redacted(t) <==> !exists a: nat :: Leaks(t, a)
  {
    hide Redacted, Leaks;
    RedactionIdempotentExactly(t);
    RedactedGoogleExactly(t);
  }

  /** No key pattern whatever matches in redacted text, exactly when no key leaks. */
  lemma RedactedIsKeyFreeExactly(t: string)
    ensures (forall k :: 0 <= k < |KEY_PATTERNS| ==> !HasMatch(KEY_PATTERNS[k].0, Redacted(t)))
       <==> !exists a: nat :: Leaks(t, a)
  {
    hide Redacted, Leaks, HasMatch;
    RedactedGoogleExactly(t);
    assert KEY_PATTERNS[4] == (GOOGLE, "google");
    forall k | 0 <= k < |KEY_PATTERNS| && k != 4
      ensures !HasMatch(KEY_PATTERNS[k].0, Redacted(t))
    {
      NotGoogle(k);
      RedactedHasNoDashedKey(t, k);
    }
  }

  lemma NotGoogle(k: nat)
    requires k < |KEY_PATTERNS| && k != 4
    ensures KEY_PATTERNS[k].1 != "google"
  {
  }
}
