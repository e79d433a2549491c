/** Line framing of a model-pull response stream (tauri-app/src/ollama_manager.rs,
    `pull_model_streaming`). */
module LineFraming {
  import opened Wrappers

  // ---- Lines of a text: the specification ----

  /** The Unicode White_Space property. */
  predicate IsWhitespace(c: char) {
    || '\U{0009}' <= c <= '\U{000D}' || c == ' ' || c == '\U{0085}' || c == '\U{00A0}'
    || c == '\U{1680}' || '\U{2000}' <= c <= '\U{200A}' || c == '\U{2028}' || c == '\U{2029}'
    || c == '\U{202F}' || c == '\U{205F}' || c == '\U{3000}'
  }

  function TrimStart(s: string): (r: string)
    ensures r != [] ==> !IsWhitespace(r[0])
  {
    if s != [] && IsWhitespace(s[0]) then TrimStart(s[1..]) else s
  }

  function TrimEnd(s: string): (r: string)
    ensures r != [] ==> !IsWhitespace(r[|r| - 1])
    ensures r <= s
  {
    if s != [] && IsWhitespace(s[|s| - 1]) then TrimEnd(s[..|s| - 1]) else s
  }

  function Trim(s: string): (r: string)
    ensures r != [] ==> !IsWhitespace(r[0]) && !IsWhitespace(r[|r| - 1])
  {
    TrimEnd(TrimStart(s))
  }

  function FindNewline(s: string): (r: Option<nat>)
    ensures r.Some? ==> r.value < |s| && s[r.value] == '\n' && '\n' !in s[..r.value]
    ensures r.None? ==> '\n' !in s
  {
    if s == [] then None
    else if s[0] == '\n' then Some(0)
    else
      assert s == [s[0]] + s[1..];
      match FindNewline(s[1..])
      case None => None
      case Some(i) =>
        assert s[..i + 1] == [s[0]] + s[1..][..i];
        Some(i + 1)
  }

  /** The pieces between newlines; the last one is unterminated. */
  function Split(s: string): (ps: seq<string>)
    ensures ps != []
  {
    match FindNewline(s)
    case None => [s]
    case Some(i) => [s[..i]] + Split(s[i + 1..])
  }

  function Join(ps: seq<string>): string
    requires ps != []
  {
    if |ps| == 1 then ps[0] else ps[0] + "\n" + Join(ps[1..])
  }

  /** The non-empty trimmed texts of `ps`, in order. */
  function NonEmptyLines(ps: seq<string>): seq<string> {
    if ps == [] then []
    else (if Trim(ps[0]) == "" then [] else [Trim(ps[0])]) + NonEmptyLines(ps[1..])
  }

  /** The lines of a whole stream, an unterminated last line included. */
  function FramedLines(s: string): seq<string> {
    NonEmptyLines(Split(s))
  }

  /** The lines of the stream that a newline has ended. */
  function EndedLines(s: string): seq<string> {
    NonEmptyLines(Split(s)[..|Split(s)| - 1])
  }

  function Unterminated(s: string): string {
    Split(s)[|Split(s)| - 1]
  }

  /** Splitting loses nothing and leaves no newline: it is the inverse of joining. */
  lemma {:induction false} JoinOfSplit(s: string)
    ensures Join(Split(s)) == s
    ensures forall p :: p in Split(s) ==> '\n' !in p
  {
    hide FindNewline;
    match FindNewline(s)
    case None =>
    case Some(i) =>
      var rest := Split(s[i + 1..]);
      JoinOfSplit(s[i + 1..]);
      assert ([s[..i]] + rest)[1..] == rest;
      assert s == s[..i] + "\n" + s[i + 1..];
  }

  lemma {:induction false} SplitOfJoin(ps: seq<string>)
    requires ps != [] && forall p :: p in ps ==> '\n' !in p
    ensures Split(Join(ps)) == ps
  {
    var s := Join(ps);
    if |ps| == 1 {
      assert ps[0] in ps;
    } else {
      FirstNewline(ps[0], Join(ps[1..]));
      SplitOfJoin(ps[1..]);
      assert s[|ps[0]| + 1..] == Join(ps[1..]) && s[..|ps[0]|] == ps[0];
    }
  }

  lemma FirstNewline(p: string, rest: string)
    requires '\n' !in p
    ensures FindNewline(p + "\n" + rest) == Some(|p|)
  {
    var s := p + "\n" + rest;
    assert s[|p|] == '\n';
    assert forall k :: 0 <= k < |p| ==> s[k] == p[k];
  }

  lemma SplitAtNewline(p: string, rest: string)
    requires '\n' !in p
    ensures Split(p + "\n" + rest) == [p] + Split(rest)
  {
    FirstNewline(p, rest);
    var s := p + "\n" + rest;
    assert s[|p| + 1..] == rest && s[..|p|] == p;
  }

  /** A stream read in two parts: the first part's last piece waits for the second. */
  lemma {:induction false} SplitOfConcat(a: string, b: string)
    ensures Split(a + b) == Split(a)[..|Split(a)| - 1] + Split(Unterminated(a) + b)
  {
    hide FindNewline;
    match FindNewline(a)
    case None =>
      assert Split(a) == [a];
    case Some(i) =>
      var p, rest := a[..i], a[i + 1..];
      assert a == p + "\n" + rest && a + b == p + "\n" + (rest + b);
      SplitAtNewline(p, rest);
      SplitAtNewline(p, rest + b);
      SplitOfConcat(rest, b);
  }

  lemma {:induction false} LinesOfConcat(a: seq<string>, b: seq<string>)
    ensures NonEmptyLines(a + b) == NonEmptyLines(a) + NonEmptyLines(b)
  {
    if a == [] {
      assert a + b == b;
    } else {
      assert (a + b)[1..] == a[1..] + b;
      LinesOfConcat(a[1..], b);
    }
  }

  lemma UnterminatedIsPiece(s: string)
    ensures '\n' !in Unterminated(s)
  {
    JoinOfSplit(s);
  }

  /** What has been emitted when a stream breaks off is a prefix of what any
      continuation of it would have emitted. */
  lemma EndedLinesAreFinal(a: string, b: string)
    ensures EndedLines(a) <= FramedLines(a + b)
    ensures EndedLines(a) <= EndedLines(a + b)
  {
    var first, rest := Split(a)[..|Split(a)| - 1], Split(Unterminated(a) + b);
    SplitOfConcat(a, b);
    LinesOfConcat(first, rest);
    var ended := rest[..|rest| - 1];
    assert Split(a + b)[..|Split(a + b)| - 1] == first + ended;
    LinesOfConcat(first, ended);
  }

  /** A newline separates: the lines before it and the lines after it. */
  lemma NewlineSeparates(a: string, b: string)
    ensures FramedLines(a + "\n" + b) == FramedLines(a) + FramedLines(b)
  {
    hide Split, NonEmptyLines;
    var first, last := Split(a)[..|Split(a)| - 1], Unterminated(a);
    assert a + "\n" + b == a + ("\n" + b);
    SplitOfConcat(a, "\n" + b);
    UnterminatedIsPiece(a);
    SplitAtNewline(last, b);
    assert last + ("\n" + b) == last + "\n" + b;
    assert first + ([last] + Split(b)) == Split(a) + Split(b);
    LinesOfConcat(Split(a), Split(b));
  }

  // ---- What the lines contain ----

  /** The characters that are not whitespace, in order. */
  function Visible(s: string): string {
    if s == [] then []
    else (if IsWhitespace(s[0]) then [] else [s[0]]) + Visible(s[1..])
  }

  function VisibleOfAll(ls: seq<string>): string {
    if ls == [] then [] else Visible(ls[0]) + VisibleOfAll(ls[1..])
  }

  lemma {:induction false} VisibleOfConcat(a: string, b: string)
    ensures Visible(a + b) == Visible(a) + Visible(b)
  {
    if a == [] {
      assert a + b == b;
    } else {
      assert (a + b)[1..] == a[1..] + b;
      VisibleOfConcat(a[1..], b);
    }
  }

  lemma {:induction false} VisibleOfTrimStart(s: string)
    ensures Visible(TrimStart(s)) == Visible(s)
  {
    if s != [] && IsWhitespace(s[0]) {
      VisibleOfTrimStart(s[1..]);
    }
  }

  lemma {:induction false} VisibleOfTrimEnd(s: string)
    ensures Visible(TrimEnd(s)) == Visible(s)
  {
    if s != [] && IsWhitespace(s[|s| - 1]) {
      VisibleOfTrimEnd(s[..|s| - 1]);
      assert s == s[..|s| - 1] + [s[|s| - 1]];
      VisibleOfConcat(s[..|s| - 1], [s[|s| - 1]]);
    }
  }

  lemma VisibleOfTrim(s: string)
    ensures Visible(Trim(s)) == Visible(s)
  {
    VisibleOfTrimStart(s);
    VisibleOfTrimEnd(TrimStart(s));
  }

  lemma VisibleOfLine(l: string, rest: seq<string>)
    ensures VisibleOfAll((if l == "" then [] else [l]) + rest) == Visible(l) + VisibleOfAll(rest)
  {
    if l == "" {
      assert [] + rest == rest;
    } else {
      assert ([l] + rest)[1..] == rest;
    }
  }

  lemma NewlineIsInvisible()
    ensures Visible("\n") == []
  {
  }

  lemma {:induction false} LinesKeepVisible(ps: seq<string>)
    requires ps != []
    ensures VisibleOfAll(NonEmptyLines(ps)) == Visible(Join(ps))
  {
    hide Trim, Visible;
    VisibleOfTrim(ps[0]);
    VisibleOfLine(Trim(ps[0]), NonEmptyLines(ps[1..]));
    if |ps| == 1 {
      assert NonEmptyLines(ps[1..]) == [];
    } else {
      LinesKeepVisible(ps[1..]);
      VisibleOfConcat(ps[0] + "\n", Join(ps[1..]));
      VisibleOfConcat(ps[0], "\n");
      NewlineIsInvisible();
    }
  }

  lemma {:induction false} VisibleIs(s: string, c: char)
    ensures multiset(Visible(s))[c] == if IsWhitespace(c) then 0 else multiset(s)[c]
  {
    if s != [] {
      VisibleIs(s[1..], c);
      assert s == [s[0]] + s[1..];
    }
  }

  /** Nothing but whitespace is lost, added or reordered. */
  lemma FramingKeepsVisible(s: string)
    ensures VisibleOfAll(FramedLines(s)) == Visible(s)
    ensures forall c :: multiset(VisibleOfAll(FramedLines(s)))[c] == if IsWhitespace(c) then 0 else multiset(s)[c]
  {
    hide Visible, Split, NonEmptyLines, IsWhitespace;
    JoinOfSplit(s);
    LinesKeepVisible(Split(s));
    forall c
      ensures multiset(Visible(s))[c] == if IsWhitespace(c) then 0 else multiset(s)[c]
    {
      VisibleIs(s, c);
    }
  }

  lemma {:induction false} TrimStartIsSuffix(s: string)
    ensures |TrimStart(s)| <= |s| && s[|s| - |TrimStart(s)|..] == TrimStart(s)
  {
    if s != [] && IsWhitespace(s[0]) {
      TrimStartIsSuffix(s[1..]);
    }
  }

  /** Trimming keeps a contiguous piece of the text. */
  lemma TrimIsPiece(s: string) returns (i: nat)
    ensures i + |Trim(s)| <= |s| && s[i..i + |Trim(s)|] == Trim(s)
  {
    TrimStartIsSuffix(s);
    i := |s| - |TrimStart(s)|;
    assert s[i..][..|Trim(s)|] == Trim(s);
  }

  /** Every line is a non-empty piece of text without surrounding whitespace and
      without a newline. */
  lemma {:induction false} LinesAreClean(ps: seq<string>, l: string)
    requires l in NonEmptyLines(ps) && forall p :: p in ps ==> '\n' !in p
    ensures l != [] && Trim(l) == l && '\n' !in l
    ensures !IsWhitespace(l[0]) && !IsWhitespace(l[|l| - 1])
  {
    if l == Trim(ps[0]) && l != [] {
      var i := TrimIsPiece(ps[0]);
      assert ps[0] in ps;
    } else {
      LinesAreClean(ps[1..], l);
    }
  }

  lemma FramedLinesAreClean(s: string, l: string)
    requires l in FramedLines(s)
    ensures l != [] && Trim(l) == l && '\n' !in l
  {
    JoinOfSplit(s);
    LinesAreClean(Split(s), l);
  }

  // ---- The streaming pull ----

  datatype OllamaModelProgress =
    OllamaModelProgress(model: string, completed: Option<nat>, total: Option<nat>, status: string)

  function Milestone(model: string, status: string): OllamaModelProgress {
    OllamaModelProgress(model, None, None, status)
  }

  function Concat(chunks: seq<string>): string {
    if chunks == [] then "" else Concat(chunks[..|chunks| - 1]) + chunks[|chunks| - 1]
  }

  /** The progress reported for each line; `render` stands for `emit_pull_line`. */
  function Rendered(render: string -> OllamaModelProgress, ls: seq<string>): seq<OllamaModelProgress> {
    seq(|ls|, i requires 0 <= i < |ls| => render(ls[i]))
  }

  /** `response` is the outcome of the request; the body then yields `chunks` and
      ends, or fails with `broken`. */
  method PullModelStreaming(model: string, response: Result<(), string>, chunks: seq<string>,
                            broken: Option<string>, render: string -> OllamaModelProgress)
    returns (progress: seq<OllamaModelProgress>, result: Result<(), string>)
    ensures response.Err? ==> progress == [Milestone(model, "starting")] && result == response
    ensures response.Ok? && broken.Some? ==>
              && progress == [Milestone(model, "starting")]
                             + Rendered(render, EndedLines(Concat(chunks)))
              && result == Err(broken.value)
    ensures response.Ok? && broken.None? ==>
              && progress == [Milestone(model, "starting")]
                             + Rendered(render, FramedLines(Concat(chunks)))
                             + [Milestone(model, "complete")]
              && result == Ok(())
  {
    progress := [Milestone(model, "starting")];
    if response.Err? {
      return progress, response;
    }
    hide *;  // the lemmas below say what the loop needs
    var buffer := "";
    NothingRead(render);
    for n := 0 to |chunks|
      invariant progress == [Milestone(model, "starting")]
                            + Rendered(render, EndedLines(Concat(chunks[..n])))
      invariant buffer == Unterminated(Concat(chunks[..n]))
    {
      ghost var before := Concat(chunks[..n]);
      ConcatOneMore(chunks, n);
      progress, buffer := DrainBuffer(progress, buffer + chunks[n], render);
      ChunkAdvances(render, before, chunks[n]);
    }
    assert chunks[..|chunks|] == chunks;
    if broken.Some? {
      return progress, Err(broken.value);
    }
    LastLine(Concat(chunks));
    if Trim(buffer) != "" {
      progress := progress + [render(Trim(buffer))];
      RenderedOneMore(render, EndedLines(Concat(chunks)), Trim(buffer));
    } else {
      assert EndedLines(Concat(chunks)) + [] == EndedLines(Concat(chunks));
    }
    progress := progress + [Milestone(model, "complete")];
    result := Ok(());
  }

  /** The inner loop: emit the ended lines of the buffer and cut them off. */
  method DrainBuffer(progress0: seq<OllamaModelProgress>, buffer0: string,
                     render: string -> OllamaModelProgress)
    returns (progress: seq<OllamaModelProgress>, buffer: string)
    ensures progress == progress0 + Rendered(render, EndedLines(buffer0))
    ensures buffer == Unterminated(buffer0)
  {
    hide *;  // the lemmas below say what the loop needs
    progress, buffer := progress0, buffer0;
    NothingRead(render);
    ghost var emitted := [];
    while FindNewline(buffer).Some?
      invariant progress == progress0 + Rendered(render, emitted)
      invariant EndedLines(buffer0) == emitted + EndedLines(buffer)
      invariant Unterminated(buffer0) == Unterminated(buffer)
      decreases |buffer|
    {
      var i := FindNewline(buffer).value;
      var line := Trim(buffer[..i]);
      OneLineOff(buffer, i);
      RenderedOneMore(render, emitted, line);
      ghost var rest := EndedLines(buffer[i + 1..]);
      assert emitted + ([line] + rest) == emitted + [line] + rest && [] + rest == rest;
      buffer := buffer[i + 1..];
      if line != "" {
        progress := progress + [render(line)];
        emitted := emitted + [line];
      }
    }
    NoLineLeft(buffer);
    assert emitted + [] == emitted;
  }

  lemma NothingRead(render: string -> OllamaModelProgress)
    ensures EndedLines("") == [] && Unterminated("") == "" && Concat([]) == ""
    ensures Rendered(render, []) == []
  {
  }

  lemma ConcatOneMore(chunks: seq<string>, n: nat)
    requires n < |chunks|
    ensures Concat(chunks[..n + 1]) == Concat(chunks[..n]) + chunks[n]
  {
    assert chunks[..n + 1][..n] == chunks[..n];
  }

  lemma NoLineLeft(buffer: string)
    requires FindNewline(buffer).None?
    ensures EndedLines(buffer) == [] && Unterminated(buffer) == buffer
  {
  }

  lemma RenderedOneMore(render: string -> OllamaModelProgress, ls: seq<string>, l: string)
    ensures Rendered(render, ls + [l]) == Rendered(render, ls) + [render(l)]
  {
  }

  lemma SplitAtFirst(buffer: string, i: nat)
    requires FindNewline(buffer) == Some(i)
    ensures Split(buffer) == [buffer[..i]] + Split(buffer[i + 1..])
  {
  }

  lemma OneLineOff(buffer: string, i: nat)
    requires FindNewline(buffer) == Some(i)
    ensures EndedLines(buffer)
         == (if Trim(buffer[..i]) == "" then [] else [Trim(buffer[..i])]) + EndedLines(buffer[i + 1..])
    ensures Unterminated(buffer) == Unterminated(buffer[i + 1..])
  {
    hide Trim, Split, FindNewline;
    var rest := Split(buffer[i + 1..]);
    SplitAtFirst(buffer, i);
    assert Split(buffer)[..|rest|] == [buffer[..i]] + rest[..|rest| - 1];
    LinesOfConcat([buffer[..i]], rest[..|rest| - 1]);
    assert NonEmptyLines([buffer[..i]][1..]) == [];
  }

  lemma ChunkAdvances(render: string -> OllamaModelProgress, before: string, chunk: string)
    ensures Rendered(render, EndedLines(before + chunk))
         == Rendered(render, EndedLines(before))
            + Rendered(render, EndedLines(Unterminated(before) + chunk))
    ensures Unterminated(before + chunk) == Unterminated(Unterminated(before) + chunk)
  {
    hide Split, NonEmptyLines;
    var first, rest := Split(before)[..|Split(before)| - 1], Split(Unterminated(before) + chunk);
    SplitOfConcat(before, chunk);
    assert (first + rest)[..|first + rest| - 1] == first + rest[..|rest| - 1];
    LinesOfConcat(first, rest[..|rest| - 1]);
  }

  /** An unterminated last line is framed too, unless it is blank. */
  lemma LastLine(s: string)
    ensures FramedLines(s)
         == EndedLines(s) + if Trim(Unterminated(s)) == "" then [] else [Trim(Unterminated(s))]
  {
    var n := |Split(s)| - 1;
    assert Split(s) == Split(s)[..n] + [Unterminated(s)];
    LinesOfConcat(Split(s)[..n], [Unterminated(s)]);
    assert NonEmptyLines([Unterminated(s)][1..]) == [];
  }
}
