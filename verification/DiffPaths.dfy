/** How the paths of a diff are printed, and which of them are printed alike. */
module DiffPaths {
  import opened CanonicalText
  import opened Diff

  // Each segment is put behind a dot, unless nothing has been printed yet.
  function Printed(texts: seq<string>): (t: string) {
    if texts == [] then ""
    else
      var front := Printed(texts[..|texts| - 1]);
      if front == "" then texts[|texts| - 1] else front + "." + texts[|texts| - 1]
  }

  function TextOf(s: Segment): (text: string) {
    match s
    case Key(key) => key
    case Index(index) => Digits(index)
  }

  function Texts(path: Path): (texts: seq<string>)
    ensures |texts| == |path| && forall i :: 0 <= i < |path| ==> texts[i] == TextOf(path[i])
  {
    seq(|path|, i requires 0 <= i < |path| => TextOf(path[i]))
  }

  // ---------------------------------------------------------------- which paths are printed alike

  // The text between its dots.
  function Split(text: string): (pieces: seq<string>)
    ensures pieces != []
  {
    if text == "" then [""] else Before(text[0], Split(text[1..]))
  }

  function Before(c: char, pieces: seq<string>): (more: seq<string>)
    requires pieces != []
    ensures more != []
  {
    if c == '.' then [""] + pieces else [[c] + pieces[0]] + pieces[1..]
  }

  lemma OneMoreLetter(c: char, p: seq<string>, q: seq<string>)
    requires p != []
    ensures Before(c, p + q) == Before(c, p) + q
  {
    assert (p + q)[0] == p[0] && (p + q)[1..] == p[1..] + q;
  }

  lemma LetterIsTold(c: char, p: seq<string>, d: char, q: seq<string>)
    requires p != [] && q != [] && Before(c, p) == Before(d, q)
    ensures c == d && p == q
  {
    var x, y := Before(c, p), Before(d, q);
    assert x[0] == (if c == '.' then "" else [c] + p[0]) && y[0] == (if d == '.' then "" else [d] + q[0]);
    assert x[1..] == (if c == '.' then p else p[1..]) && y[1..] == (if d == '.' then q else q[1..]);
    if c != '.' {
      assert x[0][0] == c && y[0][0] == d && x[0][1..] == p[0] && y[0][1..] == q[0];
      assert p == [p[0]] + p[1..] && q == [q[0]] + q[1..];
    }
  }

  lemma {:induction false} SplitOfConcat(s: string, t: string)
    ensures Split(s + "." + t) == Split(s) + Split(t)
  {
    var whole := s + "." + t;
    if s == "" {
      assert whole[1..] == t && whole[0] == '.';
    } else {
      assert whole[1..] == s[1..] + "." + t && whole[0] == s[0];
      SplitOfConcat(s[1..], t);
      OneMoreLetter(s[0], Split(s[1..]), Split(t));
    }
  }

  lemma {:induction false} SplitIsInjective(s: string, t: string)
    requires Split(s) == Split(t)
    ensures s == t
  {
    if s == "" || t == "" {
      EmptyIsTold(s);
      EmptyIsTold(t);
    } else {
      LetterIsTold(s[0], Split(s[1..]), t[0], Split(t[1..]));
      SplitIsInjective(s[1..], t[1..]);
      assert s == [s[0]] + s[1..] && t == [t[0]] + t[1..];
    }
  }

  lemma EmptyIsTold(s: string)
    ensures Split(s) == [""] <==> s == ""
  {
    if s != "" {
      var p := Split(s[1..]);
      assert s[0] == '.' ==> |Before(s[0], p)| == |p| + 1;
      assert s[0] != '.' ==> |Before(s[0], p)[0]| == 1 + |p[0]|;
    }
  }

  // What can be read from a printed path: its segments, split at their dots, without the empty ones at
  // the beginning.
  function Pieces(texts: seq<string>): (pieces: seq<string>) {
    if texts == [] then []
    else
      var front, last := Pieces(texts[..|texts| - 1]), texts[|texts| - 1];
      if front == [] && last == "" then [] else front + Split(last)
  }

  lemma {:induction false} PiecesOfPrinted(texts: seq<string>)
    ensures Pieces(texts) == if Printed(texts) == "" then [] else Split(Printed(texts))
  {
    if texts != [] {
      var front, last := texts[..|texts| - 1], texts[|texts| - 1];
      PiecesOfPrinted(front);
      SplitOfConcat(Printed(front), last);
    }
  }

  // Two paths are printed alike exactly when the same can be read from them.
  lemma PrintedAlike(p: seq<string>, q: seq<string>)
    ensures Printed(p) == Printed(q) <==> Pieces(p) == Pieces(q)
  {
    PiecesOfPrinted(p);
    PiecesOfPrinted(q);
    hide Printed, Pieces, Split;
    if Pieces(p) == Pieces(q) && Printed(p) != "" {
      SplitIsInjective(Printed(p), Printed(q));
    }
  }

  predicate Plain(text: string) {
    text != "" && '.' !in text
  }

  lemma {:induction false} SplitOfPlain(text: string)
    requires '.' !in text
    ensures Split(text) == [text]
  {
    if text != "" {
      SplitOfPlain(text[1..]);
      assert text == [text[0]] + text[1..];
    }
  }

  lemma {:induction false} PiecesOfPlain(texts: seq<string>)
    requires forall text <- texts :: Plain(text)
    ensures Pieces(texts) == texts
  {
    if texts != [] {
      var n := |texts| - 1;
      PiecesOfPlain(texts[..n]);
      assert Plain(texts[n]);
      SplitOfPlain(texts[n]);
      assert texts == texts[..n] + [texts[n]];
    }
  }

  // Segments that are not empty and hold no dot can be read back from a printed path.
  lemma PlainPathsAreReadable(p: seq<string>, q: seq<string>)
    requires (forall text <- p :: Plain(text)) && forall text <- q :: Plain(text)
    ensures Printed(p) == Printed(q) <==> p == q
  {
    PrintedAlike(p, q);
    PiecesOfPlain(p);
    PiecesOfPlain(q);
  }

  // ---------------------------------------------------------------- the paths of one report

  // Where a walk over both values can report something.
  ghost predicate Along(a: Value, b: Value, p: Path)
    decreases |p|
  {
    p == [] ||
    (SameType(a, b) &&
     if |p| == 1 then Has(a, p[0]) || Has(b, p[0])
     else Has(a, p[0]) && Has(b, p[0]) && Along(Child(a, p[0]), Child(b, p[0]), p[1..]))
  }

  lemma AlongChild(a: Value, b: Value, s: Segment, p: Path)
    requires SameType(a, b) && Has(a, s) && Has(b, s) && Along(Child(a, s), Child(b, s), p)
    ensures Along(a, b, [s] + p)
  {
    assert ([s] + p)[1..] == p;
  }

  lemma {:induction false} ReportedIsAlong(a: Value, b: Value, e: Edit)
    requires e in Edits(DiffOf(a, b))
    ensures Along(a, b, e.path)
    decreases a, 1, 0
  {
    if SameType(a, b) && Container(a) {
      hide Along, Nested;
      var own := Report(AllAdded(b, Only(b, a)), AllRemoved(a, Only(a, b)), []);
      var nested := Nested(a, b, Common(a, b));
      assert e in Edits(own) || e in Edits(nested);
      if e in Edits(nested) {
        NestedIsAlong(a, b, Common(a, b), e);
      } else {
        OwnIsAlong(a, b, e);
      }
    }
  }

  lemma OwnIsAlong(a: Value, b: Value, e: Edit)
    requires SameType(a, b)
    requires e in AllAdded(b, Only(b, a)) || e in AllRemoved(a, Only(a, b))
    ensures Along(a, b, e.path)
  {
    hide AllAdded, AllRemoved, Only;
    if e in AllAdded(b, Only(b, a)) {
      var i :| 0 <= i < |Only(b, a)| && AllAdded(b, Only(b, a))[i] == e;
      assert Only(b, a)[i] in Only(b, a);
    } else {
      var i :| 0 <= i < |Only(a, b)| && AllRemoved(a, Only(a, b))[i] == e;
      assert Only(a, b)[i] in Only(a, b);
    }
  }

  lemma {:induction false} NestedIsAlong(a: Value, b: Value, segments: seq<Segment>, e: Edit)
    requires SameType(a, b) && forall s <- segments :: Has(a, s) && Has(b, s)
    requires e in Edits(Nested(a, b, segments))
    ensures Along(a, b, e.path)
    decreases a, 0, |segments|
  {
    hide Along, DiffOf, Edits, Has;
    if segments == [] {
      assert false by { NoEdits(e); }
    } else {
      var s := segments[0];
      var r := DiffOf(Child(a, s), Child(b, s));
      JoinHolds(Under([s], r), Nested(a, b, segments[1..]), e);
      if e in Edits(Nested(a, b, segments[1..])) {
        NestedIsAlong(a, b, segments[1..], e);
      } else {
        var f := UnderHolds(s, r, e);
        ReportedIsAlong(Child(a, s), Child(b, s), f);
        AlongChild(a, b, s, f.path);
      }
    }
  }

  lemma NoEdits(e: Edit)
    ensures e !in Edits(Unchanged)
  {
  }

  lemma JoinHolds(r: Report, t: Report, e: Edit)
    ensures e in Edits(Join(r, t)) <==> e in Edits(r) || e in Edits(t)
  {
  }

  lemma UnderHolds(s: Segment, r: Report, e: Edit) returns (f: Edit)
    requires e in Edits(Under([s], r))
    ensures f in Edits(r) && e.path == [s] + f.path
  {
    var es := Edits(r);
    assert Edits(Under([s], r)) == At([s], es);
    var i :| 0 <= i < |es| && At([s], es)[i] == e;
    f := es[i];
  }

  // Along one walk an index is never taken for a key, since a value is a list or a dict.
  lemma {:induction false} AlongIsTold(a: Value, b: Value, p: Path, q: Path)
    requires Along(a, b, p) && Along(a, b, q) && Texts(p) == Texts(q)
    ensures p == q
    decreases |p|
  {
    if p != [] {
      assert TextOf(p[0]) == Texts(p)[0] && TextOf(q[0]) == Texts(q)[0];
      if p[0].Index? {
        DigitsAreInjective(p[0].index, q[0].index);
      }
      assert p == [p[0]] + p[1..] && q == [q[0]] + q[1..];
      if |p| > 1 {
        assert Texts(p[1..]) == Texts(p)[1..] && Texts(q[1..]) == Texts(q)[1..];
        AlongIsTold(Child(a, p[0]), Child(b, p[0]), p[1..], q[1..]);
      }
    }
  }

  ghost predicate PlainKeys(es: seq<Edit>) {
    forall e, s :: e in es && s in e.path && s.Key? ==> Plain(s.key)
  }

  lemma PlainTexts(path: Path)
    requires forall s <- path :: s.Key? ==> Plain(s.key)
    ensures forall text <- Texts(path) :: Plain(text)
  {
    forall text | text in Texts(path) ensures Plain(text) {
      var i :| 0 <= i < |path| && Texts(path)[i] == text;
      assert path[i] in path;
    }
  }

  // If no reported key is empty or holds a dot, no two edits of a report are printed under one path.
  lemma ReportIsReadable(a: Value, b: Value)
    requires PlainKeys(Edits(DiffOf(a, b)))
    ensures var es := Edits(DiffOf(a, b));
            forall i, j :: 0 <= i < j < |es| ==> Printed(Texts(es[i].path)) != Printed(Texts(es[j].path))
  {
    hide DiffOf, Printed, Texts, Along;
    var es := Edits(DiffOf(a, b));
    DiffIsPrefixFree(a, b);
    forall i, j | 0 <= i < j < |es| ensures Printed(Texts(es[i].path)) != Printed(Texts(es[j].path)) {
      var p, q := es[i].path, es[j].path;
      assert es[i] in es && es[j] in es && Apart(p, q);
      PlainTexts(p);
      PlainTexts(q);
      PlainPathsAreReadable(Texts(p), Texts(q));
      if Texts(p) == Texts(q) {
        ReportedIsAlong(a, b, es[i]);
        ReportedIsAlong(a, b, es[j]);
        AlongIsTold(a, b, p, q);
      }
    }
  }

  // With a dot in a key, or an empty key, two different paths are printed alike.
  lemma PrintedPathsCollide()
    ensures Printed(["a", "b"]) == Printed(["a.b"]) && Printed(["", "a"]) == Printed(["a"])
  {
    assert ["a", "b"][..1] == ["a"] && ["", "a"][..1] == [""];
    assert ["a"][..0] == [] && [""][..0] == [];
    assert Printed(["a"]) == "a" && Printed([""]) == "";
    assert "a" + "." + "b" == "a.b";
    assert ["a.b"][..0] == [];
  }

  // One report in which two edits are printed under one path.
  lemma ReportCollides()
    ensures var a, b := Dict(map["a" := Dict(map[])]), Dict(map["a" := Dict(map["b" := Nothing]), "a.b" := Nothing]);
            var e, f := Added([Key("a"), Key("b")], Nothing), Added([Key("a.b")], Nothing);
            && e in DiffOf(a, b).added && f in DiffOf(a, b).added
            && Printed(Texts(e.path)) == Printed(Texts(f.path))
  {
    hide DiffOf, Printed;
    var before, after := Dict(map[]), Dict(map["b" := Nothing]);
    var a, b := Dict(map["a" := before]), Dict(map["a" := after, "a.b" := Nothing]);
    assert |"a"| != |"a.b"|;
    AddedIsReported(a, b, "a.b");
    AddedIsReported(before, after, "b");
    NestedIsReported(a, b, "a", Added([Key("b")], Nothing));
    assert [Key("a")] + [Key("b")] == [Key("a"), Key("b")];
    PrintedPathsCollide();
    assert Texts([Key("a"), Key("b")]) == ["a", "b"] && Texts([Key("a.b")]) == ["a.b"];
  }

  lemma AdditionsOfDicts(a: Value, b: Value)
    requires a.Dict? && b.Dict?
    ensures DiffOf(a, b).added == AllAdded(b, Only(b, a)) + Nested(a, b, Common(a, b)).added
  {
    hide AllAdded, AllRemoved, Nested, Only, Common;
  }

  lemma AddedIsReported(a: Value, b: Value, key: string)
    requires a.Dict? && b.Dict? && key !in a.entries && key in b.entries
    ensures Added([Key(key)], b.entries[key]) in DiffOf(a, b).added
  {
    hide DiffOf, Nested, AllAdded, Only;
    AdditionsOfDicts(a, b);
    assert Key(key) in Only(b, a);
    var i :| 0 <= i < |Only(b, a)| && Only(b, a)[i] == Key(key);
    assert AllAdded(b, Only(b, a))[i] == Added([Key(key)], b.entries[key]);
  }

  lemma NestedIsReported(a: Value, b: Value, key: string, e: Edit)
    requires a.Dict? && b.Dict? && key in a.entries && key in b.entries
    requires e in DiffOf(a.entries[key], b.entries[key]).added
    ensures e.(path := [Key(key)] + e.path) in DiffOf(a, b).added
  {
    hide DiffOf, Nested, AllAdded, Common;
    AdditionsOfDicts(a, b);
    NestedHolds(a, b, Common(a, b), Key(key), e);
  }

  lemma {:induction false} NestedHolds(a: Value, b: Value, segments: seq<Segment>, s: Segment, e: Edit)
    requires s in segments && forall t <- segments :: Has(a, t) && Has(b, t)
    requires e in DiffOf(Child(a, s), Child(b, s)).added
    ensures e.(path := [s] + e.path) in Nested(a, b, segments).added
  {
    hide DiffOf;
    if s == segments[0] {
      var added := DiffOf(Child(a, s), Child(b, s)).added;
      var i :| 0 <= i < |added| && added[i] == e;
      assert At([s], added)[i] == e.(path := [s] + e.path);
    } else {
      NestedHolds(a, b, segments[1..], s, e);
    }
  }
}
