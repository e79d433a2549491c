/** Filling of the soul template by successive text replacement
    (crates/abigail-core/src/templates.rs). */
module Templates {
  // ---- Text replacement ----

  /** `str::replace`: the leftmost non-overlapping occurrences of `from` become `to`. */
  function Replace(s: string, from: string, to: string): string
    requires from != []
  {
    if |s| < |from| then s
    else if s[..|from|] == from then to + Replace(s[|from|..], from, to)
    else [s[0]] + Replace(s[1..], from, to)
  }

  // ---- Templates as pieces ----

  datatype Field = Name | Purpose | Personality | MentorName

  datatype Piece = Lit(text: string) | Hole(field: Field)

  datatype Values = Values(name: string, purpose: string, personality: string, mentor: string) {
    function Of(f: Field): string {
      match f
      case Name => name
      case Purpose => purpose
      case Personality => personality
      case MentorName => mentor
    }
  }

  function Placeholder(f: Field): (s: string)
    ensures 6 <= |s| && s[0] == '{' && '{' !in s[1..]
  {
    match f
    case Name => "{name}"
    case Purpose => "{purpose}"
    case Personality => "{personality}"
    case MentorName => "{mentor_name}"
  }

  /** The text of a template. */
  function Raw(ps: seq<Piece>): string {
    if ps == [] then []
    else (match ps[0] case Lit(text) => text case Hole(f) => Placeholder(f)) + Raw(ps[1..])
  }

  /** Simultaneous substitution: every hole gets its value, and no value is looked into. */
  function Fill(ps: seq<Piece>, values: Values): string {
    if ps == [] then []
    else (match ps[0] case Lit(text) => text case Hole(f) => values.Of(f)) + Fill(ps[1..], values)
  }

  /** The template with `v` in the place of every hole for `f`. */
  function Substituted(ps: seq<Piece>, f: Field, v: seq<Piece>): seq<Piece> {
    if ps == [] then []
    else (if ps[0] == Hole(f) then v else [ps[0]]) + Substituted(ps[1..], f, v)
  }

  /** At `i`, `a` already differs from `from`, whatever comes after `a`. */
  predicate Breaks(a: string, from: string, i: nat) {
    exists k :: 0 <= k < |from| && i + k < |a| && a[i + k] != from[k]
  }

  predicate NoStart(a: string, from: string) {
    forall i :: 0 <= i < |a| ==> Breaks(a, from, i)
  }

  /** No placeholder starts in the text, complete or left open at its end. */
  predicate Inert(a: string) {
    forall f: Field :: NoStart(a, Placeholder(f))
  }

  /** Braces open nothing but placeholders. */
  predicate Clean(ps: seq<Piece>) {
    forall i :: 0 <= i < |ps| ==> CleanPiece(ps[i])
  }

  predicate CleanPiece(p: Piece) {
    p.Lit? ==> Inert(p.text)
  }

  /** In particular a text is inert when each of its braces is followed by a letter that
      starts no field's name. */
  lemma HarmlessBraces(a: string)
    requires forall i :: 0 <= i < |a| && a[i] == '{' ==> i + 1 < |a| && a[i + 1] !in {'n', 'p', 'm'}
    ensures Inert(a)
  {
    forall f: Field, i | 0 <= i < |a|
      ensures Breaks(a, Placeholder(f), i)
    {
      var from := Placeholder(f);
      assert from[1] in {'n', 'p', 'm'};
      if a[i] == '{' {
        assert a[i + 1] != from[1];
      } else {
        assert a[i + 0] != from[0];
      }
    }
  }

  /** `fill_soul_template` on the text of any template. */
  function FillSequentially(text: string, name: string, purpose: string, personality: string,
                            mentor: string): string
  {
    Replace(Replace(Replace(Replace(text, Placeholder(Name), name), Placeholder(Purpose), purpose),
                    Placeholder(Personality), personality), Placeholder(MentorName), mentor)
  }

  // ---- One replacement ----

  lemma ReplaceCopies(s: string, from: string, to: string)
    requires s != [] && from != [] && !(from <= s)
    ensures Replace(s, from, to) == [s[0]] + Replace(s[1..], from, to)
  {
    if |s| < |from| {
      ReplaceShort(s[1..], from, to);
    }
  }

  lemma BreaksAtStart(a: string, t: string, from: string)
    requires Breaks(a, from, 0)
    ensures !(from <= a + t)
  {
    var k :| 0 <= k < |from| && 0 + k < |a| && a[0 + k] != from[k];
    assert (a + t)[k] == a[k];
  }

  /** Text in which `from` does not start is copied. */
  lemma {:induction false} ReplaceSkips(a: string, t: string, from: string, to: string)
    requires from != [] && NoStart(a, from)
    ensures Replace(a + t, from, to) == a + Replace(t, from, to)
  {
    hide Replace, Breaks;
    if a == [] {
      assert a + t == t;
    } else {
      assert Breaks(a, from, 0);
      BreaksAtStart(a, t, from);
      ReplaceCopies(a + t, from, to);
      assert (a + t)[1..] == a[1..] + t;
      NoStartInRest(a, from);
      ReplaceSkips(a[1..], t, from, to);
      assert [a[0]] + (a[1..] + Replace(t, from, to)) == a + Replace(t, from, to);
    }
  }

  lemma NoStartInRest(a: string, from: string)
    requires a != [] && NoStart(a, from)
    ensures NoStart(a[1..], from)
  {
    forall i | 0 <= i < |a[1..]|
      ensures Breaks(a[1..], from, i)
    {
      assert Breaks(a, from, i + 1);
      var k :| 0 <= k < |from| && i + 1 + k < |a| && a[i + 1 + k] != from[k];
      assert a[1..][i + k] == a[i + 1 + k];
    }
  }

  lemma ReplaceShort(t: string, from: string, to: string)
    requires |t| < |from|
    ensures Replace(t, from, to) == t
  {
  }

  lemma PlaceholdersDiffer(f: Field, g: Field)
    requires f != g
    ensures Placeholder(f)[1] != Placeholder(g)[1] || Placeholder(f)[2] != Placeholder(g)[2]
  {
  }

  /** No placeholder starts in another one. */
  lemma PlaceholderIsInertFor(f: Field, g: Field)
    requires f != g
    ensures NoStart(Placeholder(g), Placeholder(f))
  {
    hide Placeholder;
    var from, head := Placeholder(f), Placeholder(g);
    PlaceholdersDiffer(f, g);
    forall i | 0 <= i < |head|
      ensures Breaks(head, from, i)
    {
      if i == 0 {
        assert head[0 + 1] != from[1] || head[0 + 2] != from[2];
      } else {
        assert head[i] == head[1..][i - 1] && head[1..][i - 1] in head[1..];
        assert head[i + 0] != from[0];
      }
    }
  }

  lemma ReplaceHits(f: Field, t: string, to: string)
    ensures Replace(Placeholder(f) + t, Placeholder(f), to) == to + Replace(t, Placeholder(f), to)
  {
  }

  lemma {:induction false} RawConcat(a: seq<Piece>, b: seq<Piece>)
    ensures Raw(a + b) == Raw(a) + Raw(b)
  {
    if a == [] {
      assert a + b == b;
    } else {
      assert (a + b)[0] == a[0] && (a + b)[1..] == a[1..] + b;
      RawConcat(a[1..], b);
    }
  }

  lemma RawOne(p: Piece)
    ensures Raw([p]) == match p case Lit(text) => text case Hole(f) => Placeholder(f)
  {
  }

  /** Replacing a placeholder in the text is substituting its holes, whatever the value. */
  lemma {:induction false} ReplaceIsSubstitution(ps: seq<Piece>, f: Field, v: seq<Piece>)
    requires Clean(ps)
    ensures Replace(Raw(ps), Placeholder(f), Raw(v)) == Raw(Substituted(ps, f, v))
  {
    hide Placeholder, NoStart;
    if ps != [] {
      ReplaceIsSubstitution(ps[1..], f, v);
      var t := Raw(ps[1..]);
      assert CleanPiece(ps[0]);
      match ps[0] {
        case Lit(text) => ReplaceSkips(text, t, Placeholder(f), Raw(v));
        case Hole(g) =>
          if g == f {
            ReplaceHits(f, t, Raw(v));
          } else {
            PlaceholderIsInertFor(f, g);
            ReplaceSkips(Placeholder(g), t, Placeholder(f), Raw(v));
          }
      }
      var head := if ps[0] == Hole(f) then v else [ps[0]];
      RawConcat(head, Substituted(ps[1..], f, v));
      RawOne(ps[0]);
    } else {
      ReplaceShort([], Placeholder(f), Raw(v));
    }
  }

  lemma {:induction false} SubstitutedIsClean(ps: seq<Piece>, f: Field, v: seq<Piece>)
    requires Clean(ps) && Clean(v)
    ensures Clean(Substituted(ps, f, v))
  {
    hide CleanPiece;
    if ps != [] {
      assert CleanPiece(ps[0]);
      SubstitutedIsClean(ps[1..], f, v);
    }
  }

  // ---- All four replacements ----

  /** The values, as pieces; the mentor's name is never looked into. */
  datatype Filling = Filling(name: seq<Piece>, purpose: seq<Piece>, personality: seq<Piece>, mentor: string) {
    function Of(f: Field): seq<Piece> {
      match f
      case Name => name
      case Purpose => purpose
      case Personality => personality
      case MentorName => [Lit(mentor)]
    }

    function Texts(): Values {
      Values(Raw(name), Raw(purpose), Raw(personality), mentor)
    }

    predicate IsClean() {
      Clean(name) && Clean(purpose) && Clean(personality)
    }
  }

  /** The fields in the order of their replacement. */
  const FIELDS: seq<Field> := [Name, Purpose, Personality, MentorName]

  function Rank(f: Field): (k: nat)
    ensures k < |FIELDS| && FIELDS[k] == f
  {
    match f
    case Name => 0
    case Purpose => 1
    case Personality => 2
    case MentorName => 3
  }

  /** The replacements from the `k`-th on. */
  function Nested(ps: seq<Piece>, v: Filling, k: nat): seq<Piece>
    requires k <= |FIELDS|
    decreases |FIELDS| - k
  {
    if k == |FIELDS| then ps else Nested(Substituted(ps, FIELDS[k], v.Of(FIELDS[k])), v, k + 1)
  }

  /** The filled text is nested substitution: a value's own placeholders for later
      fields are filled in as well. */
  lemma SequentialIsNested(ps: seq<Piece>, v: Filling)
    requires Clean(ps) && v.IsClean()
    ensures FillSequentially(Raw(ps), Raw(v.name), Raw(v.purpose), Raw(v.personality), v.mentor)
         == Raw(Nested(ps, v, 0))
  {
    hide Clean, Replace, Substituted, Placeholder;
    ReplaceIsSubstitution(ps, Name, v.name);
    SubstitutedIsClean(ps, Name, v.name);
    var p1 := Substituted(ps, Name, v.name);
    ReplaceIsSubstitution(p1, Purpose, v.purpose);
    SubstitutedIsClean(p1, Purpose, v.purpose);
    var p2 := Substituted(p1, Purpose, v.purpose);
    ReplaceIsSubstitution(p2, Personality, v.personality);
    SubstitutedIsClean(p2, Personality, v.personality);
    var p3 := Substituted(p2, Personality, v.personality);
    ReplaceIsSubstitution(p3, MentorName, [Lit(v.mentor)]);
    RawOne(Lit(v.mentor));
    assert Nested(ps, v, 0) == Nested(p1, v, 1) == Nested(p2, v, 2) == Nested(p3, v, 3)
        == Substituted(p3, MentorName, [Lit(v.mentor)]);
  }

  lemma {:induction false} SubstitutedConcat(a: seq<Piece>, b: seq<Piece>, f: Field, v: seq<Piece>)
    ensures Substituted(a + b, f, v) == Substituted(a, f, v) + Substituted(b, f, v)
  {
    if a == [] {
      assert a + b == b;
    } else {
      assert (a + b)[0] == a[0] && (a + b)[1..] == a[1..] + b;
      SubstitutedConcat(a[1..], b, f, v);
    }
  }

  lemma {:induction false} NestedConcat(a: seq<Piece>, b: seq<Piece>, v: Filling, k: nat)
    requires k <= |FIELDS|
    ensures Nested(a + b, v, k) == Nested(a, v, k) + Nested(b, v, k)
    decreases |FIELDS| - k
  {
    hide Substituted;
    if k < |FIELDS| {
      var f := FIELDS[k];
      SubstitutedConcat(a, b, f, v.Of(f));
      NestedConcat(Substituted(a, f, v.Of(f)), Substituted(b, f, v.Of(f)), v, k + 1);
    }
  }

  /** A hole for one of the fields from the `k`-th on. */
  ghost predicate HasHoleFrom(ps: seq<Piece>, k: nat) {
    exists g: Field :: k <= Rank(g) && Hole(g) in ps
  }

  lemma {:induction false} SubstitutedNone(ps: seq<Piece>, f: Field, v: seq<Piece>)
    requires Hole(f) !in ps
    ensures Substituted(ps, f, v) == ps
  {
    if ps != [] {
      SubstitutedNone(ps[1..], f, v);
    }
  }

  lemma {:induction false} NestedNone(ps: seq<Piece>, v: Filling, k: nat)
    requires k <= |FIELDS| && !HasHoleFrom(ps, k)
    ensures Nested(ps, v, k) == ps
    decreases |FIELDS| - k
  {
    hide Substituted, Rank;
    if k < |FIELDS| {
      RankOf(k);
      SubstitutedNone(ps, FIELDS[k], v.Of(FIELDS[k]));
      NestedNone(ps, v, k + 1);
    }
  }

  lemma RankOf(k: nat)
    requires k < |FIELDS|
    ensures Rank(FIELDS[k]) == k
  {
  }

  lemma SubstitutedOne(p: Piece, f: Field, v: seq<Piece>)
    ensures Substituted([p], f, v) == if p == Hole(f) then v else [p]
  {
    assert [p][1..] == [];
  }

  /** A hole becomes its value, and what the later replacements make of that. */
  lemma {:induction false} NestedHole(f: Field, v: Filling, k: nat)
    requires k <= Rank(f)
    ensures Nested([Hole(f)], v, k) == Nested(v.Of(f), v, Rank(f) + 1)
    decreases Rank(f) - k
  {
    hide Substituted;
    SubstitutedOne(Hole(f), FIELDS[k], v.Of(FIELDS[k]));
    if k < Rank(f) {
      RankOf(k);
      NestedHole(f, v, k + 1);
    }
  }

  /** The value of a field holds no placeholder for a later one. */
  ghost predicate Settled(f: Field, value: seq<Piece>) {
    !HasHoleFrom(value, Rank(f) + 1)
  }

  /** Filled one after another, every hole gets its own value as it is. */
  ghost predicate InPlace(ps: seq<Piece>, v: Filling) {
    FillSequentially(Raw(ps), Raw(v.name), Raw(v.purpose), Raw(v.personality), v.mentor)
    == Fill(ps, v.Texts())
  }

  lemma TextOf(v: Filling, f: Field)
    ensures Raw(v.Of(f)) == v.Texts().Of(f)
  {
    RawOne(Lit(v.mentor));
  }

  /** What a piece is filled with, one field after another and at once. */
  lemma PieceFilled(p: Piece, v: Filling)
    ensures p.Lit? ==> Raw(Nested([p], v, 0)) == p.text
    ensures p.Hole? && Settled(p.field, v.Of(p.field)) ==> Raw(Nested([p], v, 0)) == v.Texts().Of(p.field)
  {
    hide Nested, HasHoleFrom;
    match p
    case Lit(text) =>
      LiteralHasNoHole(p);
      NestedNone([p], v, 0);
      RawOne(p);
    case Hole(f) =>
      NestedHole(f, v, 0);
      TextOf(v, f);
      if Settled(f, v.Of(f)) {
        NestedNone(v.Of(f), v, Rank(f) + 1);
      }
  }

  lemma LiteralHasNoHole(p: Piece)
    requires p.Lit?
    ensures !HasHoleFrom([p], 0)
  {
  }

  lemma {:induction false} SettledIsFilled(ps: seq<Piece>, v: Filling)
    requires forall f: Field :: Hole(f) in ps ==> Settled(f, v.Of(f))
    ensures Raw(Nested(ps, v, 0)) == Fill(ps, v.Texts())
  {
    hide Nested, Settled;
    if ps == [] {
      EmptyIsFilled(v);
    } else {
      assert ps == [ps[0]] + ps[1..];
      SettledIsFilled(ps[1..], v);
      NestedConcat([ps[0]], ps[1..], v, 0);
      RawConcat(Nested([ps[0]], v, 0), Nested(ps[1..], v, 0));
      PieceFilled(ps[0], v);
    }
  }

  lemma EmptyIsFilled(v: Filling)
    ensures Nested([], v, 0) == []
  {
    NestedNone([], v, 0);
  }

  /** Every value whose field has a hole is settled. */
  ghost predicate AllSettled(ps: seq<Piece>, v: Filling) {
    forall f: Field :: Hole(f) in ps ==> Settled(f, v.Of(f))
  }

  lemma SettledIsInPlace(ps: seq<Piece>, v: Filling)
    requires Clean(ps) && v.IsClean() && AllSettled(ps, v)
    ensures InPlace(ps, v)
  {
    hide Nested, FillSequentially, Raw, Fill, Settled;
    SequentialIsNested(ps, v);
    SettledIsFilled(ps, v);
  }

  // ---- When it is not in place ----

  /** Longer than every placeholder. */
  function Long(): (s: string)
    ensures |s| == 14 && forall i :: 0 <= i < |s| ==> s[i] == 'x'
  {
    seq(14, i => 'x')
  }

  lemma LongIsLong(f: Field)
    ensures |Placeholder(f)| < |Long()| && Inert(Long())
  {
    HarmlessBraces(Long());
  }

  lemma {:induction false} SubstitutedGrows(ps: seq<Piece>, f: Field)
    ensures |Raw(ps)| <= |Raw(Substituted(ps, f, [Lit(Long())]))|
    ensures Hole(f) in ps ==> |Raw(ps)| < |Raw(Substituted(ps, f, [Lit(Long())]))|
    ensures forall g: Field :: g != f && Hole(g) in ps ==> Hole(g) in Substituted(ps, f, [Lit(Long())])
  {
    hide Placeholder, Long;
    if ps != [] {
      SubstitutedGrows(ps[1..], f);
      LongIsLong(f);
      var head := if ps[0] == Hole(f) then [Lit(Long())] else [ps[0]];
      RawConcat(head, Substituted(ps[1..], f, [Lit(Long())]));
      RawOne(head[0]);
      RawOne(ps[0]);
    }
  }

  /** With long values for the fields from the `k`-th on, their holes make the text longer. */
  lemma {:induction false} NestedGrows(ps: seq<Piece>, v: Filling, k: nat)
    requires k <= |FIELDS| && forall g: Field :: k <= Rank(g) ==> v.Of(g) == [Lit(Long())]
    ensures |Raw(ps)| <= |Raw(Nested(ps, v, k))|
    ensures HasHoleFrom(ps, k) ==> |Raw(ps)| < |Raw(Nested(ps, v, k))|
    decreases |FIELDS| - k
  {
    hide Substituted, Raw, Long(), Rank;
    if k < |FIELDS| {
      var f := FIELDS[k];
      RankOf(k);
      SubstitutedGrows(ps, f);
      NestedGrows(Substituted(ps, f, [Lit(Long())]), v, k + 1);
      if HasHoleFrom(ps, k) {
        var g: Field :| k <= Rank(g) && Hole(g) in ps;
        if g != f {
          assert k + 1 <= Rank(g) by { RankIsPlace(g, k); }
        }
      }
    }
  }

  lemma RankIsPlace(g: Field, k: nat)
    requires k < |FIELDS| && k <= Rank(g) && g != FIELDS[k]
    ensures k < Rank(g)
  {
  }

  /** The values before `f` settled, those after it long and plain. */
  ghost predicate LongAfter(ps: seq<Piece>, v: Filling, f: Field) {
    && (forall g: Field :: Rank(g) < Rank(f) && Hole(g) in ps ==> Settled(g, v.Of(g)))
    && (forall g: Field :: Rank(f) < Rank(g) ==> v.Of(g) == [Lit(Long())])
  }

  lemma LongIsSettled(g: Field)
    ensures Settled(g, [Lit(Long())])
  {
  }

  /** An unsettled value then fills its holes with more than itself. */
  lemma {:induction false} UnsettledGrows(ps: seq<Piece>, v: Filling, f: Field)
    requires LongAfter(ps, v, f) && !Settled(f, v.Of(f))
    ensures |Fill(ps, v.Texts())| <= |Raw(Nested(ps, v, 0))|
    ensures Hole(f) in ps ==> |Fill(ps, v.Texts())| < |Raw(Nested(ps, v, 0))|
  {
    hide Nested, Settled, Long;
    if ps == [] {
      EmptyIsFilled(v);
    } else {
      assert ps == [ps[0]] + ps[1..];
      UnsettledGrows(ps[1..], v, f);
      NestedConcat([ps[0]], ps[1..], v, 0);
      RawConcat(Nested([ps[0]], v, 0), Nested(ps[1..], v, 0));
      PieceFilled(ps[0], v);
      if ps[0].Hole? {
        HoleGrows(ps, v, f, ps[0].field);
      }
    }
  }

  lemma HoleGrows(ps: seq<Piece>, v: Filling, f: Field, g: Field)
    requires LongAfter(ps, v, f) && !Settled(f, v.Of(f)) && Hole(g) in ps
    ensures |v.Texts().Of(g)| <= |Raw(Nested([Hole(g)], v, 0))|
    ensures g == f ==> |v.Texts().Of(g)| < |Raw(Nested([Hole(g)], v, 0))|
  {
    hide Nested, HasHoleFrom, Long;
    PieceFilled(Hole(g), v);
    if g == f {
      NestedHole(f, v, 0);
      TextOf(v, f);
      NestedGrows(v.Of(f), v, Rank(f) + 1);
    } else if Rank(f) < Rank(g) {
      LongIsSettled(g);
    } else {
      assert Rank(g) < Rank(f) by { RanksDiffer(f, g); }
    }
  }

  lemma RanksDiffer(f: Field, g: Field)
    requires f != g
    ensures Rank(f) != Rank(g)
  {
  }

  lemma UnsettledIsNotInPlace(ps: seq<Piece>, v: Filling, f: Field)
    requires Clean(ps) && v.IsClean() && LongAfter(ps, v, f) && !Settled(f, v.Of(f)) && Hole(f) in ps
    ensures !InPlace(ps, v)
  {
    hide Nested, FillSequentially, Raw, Fill, Settled, LongAfter;
    SequentialIsNested(ps, v);
    UnsettledGrows(ps, v, f);
  }

  lemma InertIsClean(s: string)
    requires Inert(s)
    ensures Clean([Lit(s)]) && forall f: Field :: Settled(f, [Lit(s)])
  {
  }

  /** The fields after a value keep its place: with the values up to `f` given, every
      hole is filled in place for all plain values of the later fields. */
  ghost predicate InPlaceFor(ps: seq<Piece>, v: Filling, f: Field) {
    match f
    case Name => forall p, q, m :: Inert(p) && Inert(q) ==> InPlace(ps, Filling(v.name, [Lit(p)], [Lit(q)], m))
    case Purpose => forall q, m :: Inert(q) ==> InPlace(ps, Filling(v.name, v.purpose, [Lit(q)], m))
    case Personality => forall m :: InPlace(ps, Filling(v.name, v.purpose, v.personality, m))
    case MentorName => InPlace(ps, v)
  }

  ghost predicate AlwaysInPlace(ps: seq<Piece>, v: Filling) {
    forall f: Field :: InPlaceFor(ps, v, f)
  }

  /** For values made of inert text and placeholders: filling one field after another is
      simultaneous substitution, for all plain values of the later fields, exactly when
      no value holds a placeholder of a later field, unless its own field has no hole. */
  lemma InPlaceExactly(ps: seq<Piece>, v: Filling)
    requires Clean(ps) && v.IsClean()
    ensures AlwaysInPlace(ps, v) <==> AllSettled(ps, v)
  {
    hide Settled, InPlace, Clean, Long;
    if AllSettled(ps, v) {
      forall f: Field
        ensures InPlaceFor(ps, v, f)
      {
        SettledFor(ps, v, f);
      }
    } else {
      if Hole(Name) in ps && !Settled(Name, v.name) {
        UnsettledFails(ps, v, Name);
      } else if Hole(Purpose) in ps && !Settled(Purpose, v.purpose) {
        UnsettledFails(ps, v, Purpose);
      } else {
        assert Hole(Personality) in ps && !Settled(Personality, v.personality) by { MentorIsSettled(v); }
        UnsettledFails(ps, v, Personality);
      }
    }
  }

  lemma MentorIsSettled(v: Filling)
    ensures Settled(MentorName, v.Of(MentorName))
  {
  }

  /** The values up to `f`, and long ones after it. */
  function Lengthened(v: Filling, f: Field): Filling {
    match f
    case Name => Filling(v.name, [Lit(Long())], [Lit(Long())], Long())
    case Purpose => Filling(v.name, v.purpose, [Lit(Long())], Long())
    case Personality => Filling(v.name, v.purpose, v.personality, Long())
    case MentorName => v
  }

  lemma UnsettledFails(ps: seq<Piece>, v: Filling, f: Field)
    requires Clean(ps) && v.IsClean() && Hole(f) in ps && f != MentorName && !Settled(f, v.Of(f))
    requires forall g: Field :: Rank(g) < Rank(f) && Hole(g) in ps ==> Settled(g, v.Of(g))
    ensures !InPlaceFor(ps, v, f)
  {
    hide Settled, InPlace, Clean, Long(), Inert;
    LongIsLong(f);
    InertIsClean(Long());
    UnsettledIsNotInPlace(ps, Lengthened(v, f), f);
  }

  lemma SettledFor(ps: seq<Piece>, v: Filling, f: Field)
    requires Clean(ps) && v.IsClean() && AllSettled(ps, v)
    ensures InPlaceFor(ps, v, f)
  {
    hide Settled, InPlace, Clean, Inert;
    MentorIsSettled(v);
    match f
    case Name =>
      forall p, q, m | Inert(p) && Inert(q)
        ensures InPlace(ps, Filling(v.name, [Lit(p)], [Lit(q)], m))
      {
        InertIsClean(p);
        InertIsClean(q);
        var w := Filling(v.name, [Lit(p)], [Lit(q)], m);
        MentorIsSettled(w);
        SettledIsInPlace(ps, w);
      }
    case Purpose =>
      forall q, m | Inert(q)
        ensures InPlace(ps, Filling(v.name, v.purpose, [Lit(q)], m))
      {
        InertIsClean(q);
        var w := Filling(v.name, v.purpose, [Lit(q)], m);
        MentorIsSettled(w);
        SettledIsInPlace(ps, w);
      }
    case Personality =>
      forall m: string
        ensures InPlace(ps, Filling(v.name, v.purpose, v.personality, m))
      {
        var w := Filling(v.name, v.purpose, v.personality, m);
        MentorIsSettled(w);
        SettledIsInPlace(ps, w);
      }
    case MentorName => SettledIsInPlace(ps, v);
  }

  /** With inert values for the first three fields filling is simultaneous substitution;
      the mentor's name is free. */
  lemma SequentialIsSimultaneous(ps: seq<Piece>, name: string, purpose: string, personality: string,
                                 mentor: string)
    requires Clean(ps) && Inert(name) && Inert(purpose) && Inert(personality)
    ensures FillSequentially(Raw(ps), name, purpose, personality, mentor)
         == Fill(ps, Values(name, purpose, personality, mentor))
  {
    hide FillSequentially, Raw, Fill, Clean, Inert, Settled;
    var v := Filling([Lit(name)], [Lit(purpose)], [Lit(personality)], mentor);
    InertIsClean(name);
    InertIsClean(purpose);
    InertIsClean(personality);
    MentorIsSettled(v);
    SettledIsInPlace(ps, v);
    RawOne(Lit(name));
    RawOne(Lit(purpose));
    RawOne(Lit(personality));
  }

  /** The placeholders by their names: each of the four gets its own value. */
  lemma PlaceholdersByName(a: string, b: string, name: string, purpose: string, personality: string, mentor: string)
    requires Inert(a) && Inert(b) && Inert(name) && Inert(purpose) && Inert(personality)
    ensures FillSequentially(a + "{name}" + b, name, purpose, personality, mentor) == a + name + b
    ensures FillSequentially(a + "{purpose}" + b, name, purpose, personality, mentor) == a + purpose + b
    ensures FillSequentially(a + "{personality}" + b, name, purpose, personality, mentor) == a + personality + b
    ensures FillSequentially(a + "{mentor_name}" + b, name, purpose, personality, mentor) == a + mentor + b
  {
    hide FillSequentially, Inert;
    OneHole(a, Name, b, name, purpose, personality, mentor);
    OneHole(a, Purpose, b, name, purpose, personality, mentor);
    OneHole(a, Personality, b, name, purpose, personality, mentor);
    OneHole(a, MentorName, b, name, purpose, personality, mentor);
  }

  lemma OneHole(a: string, f: Field, b: string, name: string, purpose: string, personality: string, mentor: string)
    requires Inert(a) && Inert(b) && Inert(name) && Inert(purpose) && Inert(personality)
    ensures FillSequentially(a + Placeholder(f) + b, name, purpose, personality, mentor)
         == a + Values(name, purpose, personality, mentor).Of(f) + b
  {
    hide FillSequentially, Inert;
    var ps := [Lit(a), Hole(f), Lit(b)];
    PiecesInOrder(a, f, b, Values(name, purpose, personality, mentor));
    SequentialIsSimultaneous(ps, name, purpose, personality, mentor);
  }

  lemma PiecesInOrder(a: string, f: Field, b: string, values: Values)
    ensures Raw([Lit(a), Hole(f), Lit(b)]) == a + Placeholder(f) + b
    ensures Fill([Lit(a), Hole(f), Lit(b)], values) == a + values.Of(f) + b
  {
    var ps := [Lit(a), Hole(f), Lit(b)];
    assert ps[1..] == [Hole(f), Lit(b)] && ps[1..][1..] == [Lit(b)] && ps[1..][1..][1..] == [];
    assert Raw([Lit(b)]) == b && Fill([Lit(b)], values) == b;
  }

  // ---- The soul template ----

  /** The holes of the soul template, in order. */
  const SOUL_HOLES: seq<Field> :=
    [Name, Name, MentorName, MentorName, MentorName, Purpose, Personality, MentorName, MentorName, MentorName]

  /** Literals with the holes between them. */
  function Interleaved(lits: seq<string>, holes: seq<Field>): (ps: seq<Piece>)
    requires |lits| == |holes| + 1
    ensures (forall i :: 0 <= i < |lits| ==> Inert(lits[i])) ==> Clean(ps)
    ensures forall f: Field :: Hole(f) in ps <==> f in holes
    decreases |lits|
  {
    if holes == [] then [Lit(lits[0])]
    else [Lit(lits[0]), Hole(holes[0])] + Interleaved(lits[1..], holes[1..])
  }

  function Words(lits: seq<string>, words: seq<string>): string
    requires |lits| == |words| + 1
    decreases |lits|
  {
    if words == [] then lits[0] else lits[0] + words[0] + Words(lits[1..], words[1..])
  }

  lemma {:induction false} FillInterleaved(lits: seq<string>, holes: seq<Field>, values: Values)
    requires |lits| == |holes| + 1
    ensures Fill(Interleaved(lits, holes), values)
         == Words(lits, seq(|holes|, i requires 0 <= i < |holes| => values.Of(holes[i])))
    decreases |lits|
  {
    var ps := Interleaved(lits, holes);
    if holes == [] {
      assert ps[1..] == [];
    } else {
      FillInterleaved(lits[1..], holes[1..], values);
      var vs := seq(|holes|, i requires 0 <= i < |holes| => values.Of(holes[i]));
      var ws := seq(|holes[1..]|, i requires 0 <= i < |holes[1..]| => values.Of(holes[1..][i]));
      assert vs[1..] == ws;
      assert ps[1..][0] == Hole(holes[0]);
      assert ps[1..][1..] == Interleaved(lits[1..], holes[1..]);
    }
  }

  /** A soul document is its literals with each value in its own places, for inert
      literals and values and any mentor's name. */
  lemma SoulIsFilledInPlace(lits: seq<string>, name: string, purpose: string, personality: string,
                            mentor: string)
    requires |lits| == 11 && (forall i :: 0 <= i < |lits| ==> Inert(lits[i]))
    requires Inert(name) && Inert(purpose) && Inert(personality)
    ensures FillSequentially(Raw(Interleaved(lits, SOUL_HOLES)), name, purpose, personality, mentor)
         == Words(lits, [name, name, mentor, mentor, mentor, purpose, personality, mentor, mentor, mentor])
  {
    hide Clean, FillSequentially, Fill, Raw, Words, Interleaved, Inert;
    SequentialIsSimultaneous(Interleaved(lits, SOUL_HOLES), name, purpose, personality, mentor);
    var values := Values(name, purpose, personality, mentor);
    FillInterleaved(lits, SOUL_HOLES, values);
    assert seq(10, i requires 0 <= i < 10 => values.Of(SOUL_HOLES[i]))
        == [name, name, mentor, mentor, mentor, purpose, personality, mentor, mentor, mentor];
  }

  /** The soul template has a hole for every field: it is filled in place, for all plain
      values of the later fields, exactly when no value holds a later placeholder. */
  lemma SoulInPlaceExactly(lits: seq<string>, v: Filling)
    requires |lits| == 11 && (forall i :: 0 <= i < |lits| ==> Inert(lits[i])) && v.IsClean()
    ensures AlwaysInPlace(Interleaved(lits, SOUL_HOLES), v)
       <==> forall f: Field :: Settled(f, v.Of(f))
  {
    hide Clean, Interleaved, Inert, Settled, AlwaysInPlace;
    var ps := Interleaved(lits, SOUL_HOLES);
    InPlaceExactly(ps, v);
    assert AllSettled(ps, v) <==> forall f: Field :: Settled(f, v.Of(f)) by {
      forall f: Field
        ensures Hole(f) in ps
      {
        EveryFieldHasAHole(f);
      }
      SettledEverywhere(ps, v);
    }
  }

  lemma SettledEverywhere(ps: seq<Piece>, v: Filling)
    requires forall f: Field :: Hole(f) in ps
    ensures AllSettled(ps, v) <==> forall f: Field :: Settled(f, v.Of(f))
  {
    hide Settled;
    if AllSettled(ps, v) {
      forall f: Field
        ensures Settled(f, v.Of(f))
      {
        assert Hole(f) in ps;
      }
    }
  }

  lemma EveryFieldHasAHole(f: Field)
    ensures f in SOUL_HOLES
  {
    match f
    case Name => assert SOUL_HOLES[0] == f;
    case Purpose => assert SOUL_HOLES[5] == f;
    case Personality => assert SOUL_HOLES[6] == f;
    case MentorName => assert SOUL_HOLES[2] == f;
  }

  /** An entity named like the mentor's placeholder gets, in its soul, a long mentor's
      name instead of its own. */
  lemma SoulNameIsRescanned(lits: seq<string>)
    requires |lits| == 11 && forall i :: 0 <= i < |lits| ==> Inert(lits[i])
    ensures !InPlace(Interleaved(lits, SOUL_HOLES),
                     Filling([Hole(MentorName)], [Lit(Long())], [Lit(Long())], Long()))
  {
    hide Clean, Interleaved, Inert, Settled, InPlace, Long;
    var v := Filling([Hole(MentorName)], [Lit(Long())], [Lit(Long())], Long());
    LongIsLong(Name);
    InertIsClean(Long());
    EveryFieldHasAHole(Name);
    HolesAreClean([Hole(MentorName)]);
    assert !Settled(Name, v.name) by { MentorHoleIsLater(); }
    UnsettledIsNotInPlace(Interleaved(lits, SOUL_HOLES), v, Name);
  }

  lemma HolesAreClean(ps: seq<Piece>)
    requires forall p :: p in ps ==> p.Hole?
    ensures Clean(ps)
  {
    assert forall i :: 0 <= i < |ps| ==> ps[i] in ps;
  }

  lemma MentorHoleIsLater()
    ensures !Settled(Name, [Hole(MentorName)])
  {
    assert Rank(Name) + 1 <= Rank(MentorName);
  }
}
