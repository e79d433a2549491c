/** What detection takes and redaction shows of a key, in the characters of the text
    (crates/abigail-core/src/key_detection.rs). */
module Masking {
  import opened Wrappers
  import opened KeyDetection

  /** `w` is the first text of the pattern in `pre + w + post`, and as long as it can be. */
  ghost predicate Leftmost(p: Pattern, pre: string, w: string, post: string) {
    var t := pre + w + post;
    && InLanguage(p, w)
    && (forall i, e :: 0 <= i < |pre| && i <= e <= |t| ==> !InLanguage(p, t[i..e]))
    && (forall e :: |pre + w| < e <= |t| ==> !InLanguage(p, t[|pre|..e]))
  }

  /** `w` is the only key in `pre + w + post`: every text of any pattern is a part of it,
      and of its own pattern, the `k`-th. */
  ghost predicate OnlyKey(k: nat, pre: string, w: string, post: string) {
    var t := pre + w + post;
    && k < |KEY_PATTERNS| && InLanguage(KEY_PATTERNS[k].0, w)
    && forall q, i, e :: 0 <= q < |KEY_PATTERNS| && 0 <= i <= e <= |t| && InLanguage(KEY_PATTERNS[q].0, t[i..e]) ==>
         q == k && |pre| <= i && e <= |pre + w|
  }

  ghost predicate FirstDashAt(w: string, d: nat) {
    d < |w| && w[d] == '-' && '-' !in w[..d]
  }

  /** The first `n` characters, or all of a shorter text. */
  function Start(w: string, n: nat): string {
    if |w| <= n then w else w[..n]
  }

  // ---- Matches in a text and in its rest ----

  lemma MatchesInRest(p: Pattern, t: string, a: nat, i: nat)
    requires a <= |t|
    ensures MatchesAt(p, t, a + i) <==> MatchesAt(p, t[a..], i)
  {
    if a + i + CoreLength(p) <= |t| {
      assert t[a..][i..i + CoreLength(p)] == t[a + i..a + i + CoreLength(p)];
    }
  }

  lemma {:induction false} RunEndInRest(p: Pattern, t: string, a: nat, i: nat)
    requires a + i <= |t|
    ensures RunEnd(p, t, a + i) == a + RunEnd(p, t[a..], i)
    decreases |t| - i
  {
    if a + i < |t| && IsBody(p, t[a + i]) {
      RunEndInRest(p, t, a, i + 1);
    }
  }

  lemma MatchEndInRest(p: Pattern, t: string, a: nat, i: nat)
    requires a <= |t| && MatchesAt(p, t, a + i)
    ensures MatchesAt(p, t[a..], i) && MatchEnd(p, t, a + i) == a + MatchEnd(p, t[a..], i)
  {
    MatchesInRest(p, t, a, i);
    RunEndInRest(p, t, a, i + CoreLength(p));
  }

  lemma {:induction false} FindInRest(p: Pattern, t: string, a: nat, i: nat)
    requires a + i <= |t|
    ensures FindFrom(p, t, a + i)
         == match FindFrom(p, t[a..], i) case Some(s) => Some(a + s) case None => None
    decreases |t| - i
  {
    hide MatchesAt;
    MatchesInRest(p, t, a, i);
    if !MatchesAt(p, t, a + i) && a + i < |t| {
      FindInRest(p, t, a, i + 1);
    }
  }

  lemma SpliceOneMore(p: Pattern, t: string, i: nat, s: nat)
    requires 0 < CoreLength(p) && i <= |t| && FindFrom(p, t, i) == Some(s)
    ensures var e := MatchEnd(p, t, s);
            Splice(t, i, FindAll(p, t, i))
            == t[i..s + VisibleLength(t[s..e])] + (MASK + Splice(t, e, FindAll(p, t, e)))
  {
    hide MatchesAt, FindFrom, MatchEnd, VisibleLength;
    var m := MatchFrom(t, s, MatchEnd(p, t, s));
    assert FindAll(p, t, i)[0] == m && FindAll(p, t, i)[1..] == FindAll(p, t, m.end);
  }

  lemma SpliceNone(p: Pattern, t: string, i: nat)
    requires 0 < CoreLength(p) && i <= |t| && FindFrom(p, t, i).None?
    ensures Splice(t, i, FindAll(p, t, i)) == t[i..]
  {
  }

  /** What becomes of the rest of a text does not depend on what is before it. */
  lemma {:induction false} SpliceInRest(p: Pattern, t: string, a: nat, i: nat)
    requires 0 < CoreLength(p) && a + i <= |t|
    ensures Splice(t, a + i, FindAll(p, t, a + i)) == Splice(t[a..], i, FindAll(p, t[a..], i))
    decreases |t| - i
  {
    hide MatchesAt, FindFrom, MatchEnd, VisibleLength, Splice, FindAll, Ordered;
    var u := t[a..];
    FindInRest(p, t, a, i);
    match FindFrom(p, u, i)
    case None =>
      SpliceNone(p, t, a + i);
      SpliceNone(p, u, i);
      assert t[a + i..] == u[i..];
    case Some(s) =>
      MatchEndInRest(p, t, a, s);
      var e := MatchEnd(p, u, s);
      SpliceInRest(p, t, a, e);
      assert t[a + s..a + e] == u[s..e];
      SpliceOneMore(p, t, a + i, a + s);
      SpliceOneMore(p, u, i, s);
      var v := s + VisibleLength(u[s..e]);
      assert t[a + i..a + v] == u[i..v];
  }

  // ---- One pass ----

  /** The matcher takes the leftmost text, whole. */
  lemma LeftmostIsFound(p: Pattern, pre: string, w: string, post: string)
    requires StarFree(p) && Leftmost(p, pre, w, post)
    ensures FindFrom(p, pre + w + post, 0) == Some(|pre|)
    ensures MatchesAt(p, pre + w + post, |pre|) && MatchEnd(p, pre + w + post, |pre|) == |pre + w|
  {
    hide MatchesAt, InLanguage, MatchEnd;
    var t := pre + w + post;
    assert t[|pre|..|pre + w|] == w;
    MatchIsGreedy(p, t, |pre|, |pre + w|);
    MatchIsInLanguage(p, t, |pre|);
    var s := FindFrom(p, t, 0).value;
    MatchIsInLanguage(p, t, s);
  }

  lemma DashIsIn(w: string, d: nat, f: nat)
    requires f < d <= |w| && w[f] == '-'
    ensures '-' in w[..d]
  {
    assert w[..d][f] == '-';
  }

  lemma VisibleIs(w: string)
    ensures '-' !in w ==> w[..VisibleLength(w)] == Start(w, 4)
    ensures forall d: nat :: FirstDashAt(w, d) ==> w[..VisibleLength(w)] == Start(w, d + 4)
  {
    forall d: nat | FirstDashAt(w, d)
      ensures FirstDash(w) == Some(d)
    {
      var f := FirstDash(w).value;
      if f < d {
        DashIsIn(w, d, f);
      }
    }
    assert w[..|w|] == w;
  }

  /** A pass replaces the first text of its pattern, whole, by four characters of it, or by
      those up to four from its first dash on, and the mask, and goes on with what is after
      it as with a text of its own. */
  lemma PassMasksFirst(p: Pattern, pre: string, w: string, post: string)
    requires StarFree(p) && Leftmost(p, pre, w, post)
    ensures '-' !in w ==> Pass(p, pre + w + post) == pre + Start(w, 4) + "***" + Pass(p, post)
    ensures forall d: nat :: FirstDashAt(w, d) ==>
              Pass(p, pre + w + post) == pre + Start(w, d + 4) + "***" + Pass(p, post)
  {
    hide MatchesAt, FindFrom, FindAll, MatchEnd, VisibleLength, Leftmost, Splice, Ordered, Start, FirstDashAt;
    var t, a := pre + w + post, |pre|;
    LeftmostIsFound(p, pre, w, post);
    SpliceOneMore(p, t, 0, a);
    assert t[a..|pre + w|] == w;
    VisibleIs(w);
    var v := VisibleLength(w);
    assert t[0..a + v] == pre + w[..v];
    assert t[|pre + w|..] == post;
    SpliceInRest(p, t, |pre + w|, 0);
    var rest := Splice(post, 0, FindAll(p, post, 0));
    assert (pre + w[..v]) + (MASK + rest) == pre + w[..v] + "***" + rest;
  }

  // ---- Detection ----

  lemma {:induction false} KeysInRest(p: Pattern, provider: string, t: string, a: nat, i: nat)
    requires StarFree(p) && a + i <= |t|
    ensures Tagged(provider, t, FindAll(p, t, a + i)) == Tagged(provider, t[a..], FindAll(p, t[a..], i))
    decreases |t| - i
  {
    hide MatchesAt, FindFrom, FindAll, MatchEnd, VisibleLength, Ordered, Tagged;
    var u := t[a..];
    FindInRest(p, t, a, i);
    if FindFrom(p, u, i).Some? {
      var s := FindFrom(p, u, i).value;
      MatchEndInRest(p, t, a, s);
      var e := MatchEnd(p, u, s);
      KeysInRest(p, provider, t, a, e);
      assert t[a + s..a + e] == u[s..e];
      TaggedOneMore(p, provider, t, a + i, a + s);
      TaggedOneMore(p, provider, u, i, s);
    } else {
      NothingTagged(p, provider, t, a + i);
      NothingTagged(p, provider, u, i);
    }
  }

  lemma NothingTagged(p: Pattern, provider: string, t: string, i: nat)
    requires StarFree(p) && i <= |t| && FindFrom(p, t, i).None?
    ensures Tagged(provider, t, FindAll(p, t, i)) == []
  {
  }

  lemma TaggedOneMore(p: Pattern, provider: string, t: string, i: nat, s: nat)
    requires StarFree(p) && i <= |t| && FindFrom(p, t, i) == Some(s)
    ensures var e := MatchEnd(p, t, s);
            Tagged(provider, t, FindAll(p, t, i)) == [(provider, t[s..e])] + Tagged(provider, t, FindAll(p, t, e))
  {
    hide MatchesAt, FindFrom, MatchEnd, VisibleLength, Ordered;
    var m := MatchFrom(t, s, MatchEnd(p, t, s));
    assert FindAll(p, t, i) == [m] + FindAll(p, t, m.end);
  }

  /** Detection with one pattern takes the first text of its language, whole, and goes on
      with what is after it. */
  lemma DetectsFirst(p: Pattern, provider: string, pre: string, w: string, post: string)
    requires StarFree(p) && Leftmost(p, pre, w, post)
    ensures KeysOf(p, provider, pre + w + post) == [(provider, w)] + KeysOf(p, provider, post)
  {
    hide MatchesAt, FindFrom, FindAll, MatchEnd, Leftmost, Ordered, Tagged;
    var t := pre + w + post;
    LeftmostIsFound(p, pre, w, post);
    TaggedOneMore(p, provider, t, 0, |pre|);
    assert t[|pre|..|pre + w|] == w;
    KeysInRest(p, provider, t, |pre + w|, 0);
    assert t[|pre + w|..] == post;
  }

  /** What is detected comes pattern by pattern, under the patterns' providers. */
  lemma DetectedInOrder(message: string)
    ensures Detected(message)
         == KeysOf(ANTHROPIC, "anthropic", message) + KeysOf(OPENAI, "openai", message) + KeysOf(XAI, "xai", message)
            + KeysOf(PERPLEXITY, "perplexity", message) + KeysOf(GOOGLE, "google", message)
            + KeysOf(TAVILY, "tavily", message)
  {
    hide KeysOf, Detections;
    SourcePatterns();
    NothingDetected(message);
    assert KEY_PATTERNS[..0] == [];
    OnePatternMore(0, message);
    OnePatternMore(1, message);
    OnePatternMore(2, message);
    OnePatternMore(3, message);
    OnePatternMore(4, message);
    OnePatternMore(5, message);
    assert KEY_PATTERNS[..6] == KEY_PATTERNS;
  }

  lemma NothingDetected(message: string)
    ensures Detections([], message) == []
  {
  }

  lemma OnePatternMore(n: nat, message: string)
    requires n < |KEY_PATTERNS| && AllStarFree(KEY_PATTERNS)
    ensures Detections(KEY_PATTERNS[..n + 1], message)
         == Detections(KEY_PATTERNS[..n], message) + KeysOf(KEY_PATTERNS[n].0, KEY_PATTERNS[n].1, message)
  {
    hide KeysOf;
    assert KEY_PATTERNS[..n + 1][..n] == KEY_PATTERNS[..n];
  }

  // ---- The whole redaction ----

  lemma NoTextNoMatch(q: Pattern, t: string)
    requires forall i, e :: 0 <= i <= e <= |t| ==> !InLanguage(q, t[i..e])
    ensures !HasMatch(q, t)
  {
    hide InLanguage;
    if i :| 0 <= i <= |t| && MatchesAt(q, t, i) {
      MatchIsInLanguage(q, t, i);
    }
  }

  lemma OnlyKeyIsLeftmost(k: nat, pre: string, w: string, post: string)
    requires OnlyKey(k, pre, w, post)
    ensures Leftmost(KEY_PATTERNS[k].0, pre, w, post)
    ensures forall q :: 0 <= q < |KEY_PATTERNS| && q != k ==> !HasMatch(KEY_PATTERNS[q].0, pre + w + post)
    ensures !HasMatch(KEY_PATTERNS[k].0, post)
  {
    hide InLanguage, HasMatch;
    var t := pre + w + post;
    forall q | 0 <= q < |KEY_PATTERNS| && q != k
      ensures !HasMatch(KEY_PATTERNS[q].0, t)
    {
      NoTextNoMatch(KEY_PATTERNS[q].0, t);
    }
    NoTextInRest(k, pre, w, post);
    NoTextNoMatch(KEY_PATTERNS[k].0, post);
  }

  lemma NoTextInRest(k: nat, pre: string, w: string, post: string)
    requires OnlyKey(k, pre, w, post)
    ensures forall i, e :: 0 <= i <= e <= |post| ==> !InLanguage(KEY_PATTERNS[k].0, post[i..e])
  {
    hide InLanguage;
    var t, a := pre + w + post, |pre + w|;
    forall i, e | 0 <= i <= e <= |post|
      ensures !InLanguage(KEY_PATTERNS[k].0, post[i..e])
    {
      assert t[a + i..a + e] == post[i..e];
      EmptyIsNoKey(k, post[i..e]);
    }
  }

  lemma EmptyIsNoKey(k: nat, w: string)
    requires k < |KEY_PATTERNS|
    ensures InLanguage(KEY_PATTERNS[k].0, w) ==> w != ""
  {
  }

  /** The passes leave a text alone up to and after the one pass that matches in it. */
  lemma OnePassMatters(ps: seq<(Pattern, string)>, k: nat, t: string)
    requires AllStarFree(ps) && k < |ps|
    requires forall q :: 0 <= q < |ps| && q != k ==> !HasMatch(ps[q].0, t)
    ensures Passes(ps, t) == Pass(ps[k].0, t)
  {
    hide HasMatch, Pass;
    var n := |ps| - 1;
    if k == n {
      NoKeysNoChange(ps[..n], t);
    } else {
      OnePassMatters(ps[..n], k, t);
      if HasMatch(ps[n].0, Pass(ps[k].0, t)) {
        PassCreatesNoMatch(ps[k].0, ps[n].0, t);
      }
      NoMatchNoChange(ps[n].0, Pass(ps[k].0, t));
    }
  }

  /** A message with one key comes back with that key cut down to its first four
      characters, or to those up to four from its first dash on, and the mask. */
  lemma OnlyKeyIsMasked(k: nat, pre: string, w: string, post: string)
    requires OnlyKey(k, pre, w, post)
    ensures '-' !in w ==> Redacted(pre + w + post) == pre + Start(w, 4) + "***" + post
    ensures forall d: nat :: FirstDashAt(w, d) ==>
              Redacted(pre + w + post) == pre + Start(w, d + 4) + "***" + post
  {
    assert k < |KEY_PATTERNS|;
    hide HasMatch, Pass, Passes, OnlyKey, Leftmost, Start, FirstDashAt;
    SourcePatterns();
    OnlyKeyIsLeftmost(k, pre, w, post);
    OnePassMatters(KEY_PATTERNS, k, pre + w + post);
    PassMasksFirst(KEY_PATTERNS[k].0, pre, w, post);
    NoMatchNoChange(KEY_PATTERNS[k].0, post);
  }
}
