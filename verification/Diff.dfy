/**
 The structural diff of two snapshots: what it reports, that it is empty exactly for equal snapshots,
 and that it is a patch which turns the first snapshot into the second.

 A path is a sequence of segments; how it is printed is another module's matter.
 */
module Diff {
  import opened Wrappers
  import opened CanonicalText

  datatype Value =
    | Nothing
    | Flag(flag: bool)
    | Int(number: int)
    | Float(amount: real)
    | Str(text: string)
    | List(items: seq<Value>)
    | Dict(entries: map<string, Value>)

  predicate SameType(a: Value, b: Value) {
    a.Nothing? == b.Nothing? && a.Flag? == b.Flag? && a.Int? == b.Int? && a.Float? == b.Float? &&
    a.Str? == b.Str? && a.List? == b.List? && a.Dict? == b.Dict?
  }

  datatype Segment = Key(key: string) | Index(index: nat)

  type Path = seq<Segment>

  datatype Edit =
    | Added(path: Path, value: Value)
    | Removed(path: Path, value: Value)
    | Changed(path: Path, before: Value, after: Value)

  datatype Report = Report(added: seq<Edit>, removed: seq<Edit>, changed: seq<Edit>)

  const Unchanged: Report := Report([], [], [])

  // ---------------------------------------------------------------- values and their children

  predicate Has(v: Value, s: Segment) {
    (v.Dict? && s.Key? && s.key in v.entries) || (v.List? && s.Index? && s.index < |v.items|)
  }

  function Child(v: Value, s: Segment): (c: Value)
    requires Has(v, s)
    ensures c < v
  {
    if v.Dict? then v.entries[s.key] else v.items[s.index]
  }

  function WithChild(v: Value, s: Segment, c: Value): (w: Value)
    requires Has(v, s)
    ensures SameType(v, w) && forall t :: Has(w, t) <==> Has(v, t)
    ensures forall t :: Has(v, t) ==> Child(w, t) == if t == s then c else Child(v, t)
  {
    if v.Dict? then Dict(v.entries[s.key := c]) else List(v.items[s.index := c])
  }

  // ---------------------------------------------------------------- the diff

  function At(prefix: Path, es: seq<Edit>): (moved: seq<Edit>)
    ensures |moved| == |es|
    ensures forall i :: 0 <= i < |es| ==> moved[i] == es[i].(path := prefix + es[i].path)
  {
    seq(|es|, i requires 0 <= i < |es| => es[i].(path := prefix + es[i].path))
  }

  function Under(prefix: Path, r: Report): Report {
    Report(At(prefix, r.added), At(prefix, r.removed), At(prefix, r.changed))
  }

  function Join(r: Report, s: Report): Report {
    Report(r.added + s.added, r.removed + s.removed, r.changed + s.changed)
  }

  ghost function InOrder(keys: set<string>): (s: seq<string>)
    ensures forall k :: k in s <==> k in keys
  {
    Sorted(keys)
  }

  function Keys(keys: seq<string>): (segments: seq<Segment>)
    ensures |segments| == |keys| && forall i :: 0 <= i < |keys| ==> segments[i] == Key(keys[i])
    ensures forall s :: s in segments <==> s.Key? && s.key in keys
  {
    var segments := seq(|keys|, i requires 0 <= i < |keys| => Key(keys[i]));
    assert forall i :: 0 <= i < |keys| ==> segments[i] == Key(keys[i]);
    segments
  }

  function Indexes(lo: nat, hi: nat): (segments: seq<Segment>)
    requires lo <= hi
    ensures |segments| == hi - lo && forall i :: 0 <= i < |segments| ==> segments[i] == Index(lo + i)
  {
    seq(hi - lo, i requires 0 <= i < hi - lo => Index(lo + i))
  }

  function AllAdded(v: Value, segments: seq<Segment>): (es: seq<Edit>)
    requires forall s <- segments :: Has(v, s)
    ensures |es| == |segments|
    ensures forall i :: 0 <= i < |es| ==> es[i] == Added([segments[i]], Child(v, segments[i]))
  {
    seq(|segments|, i requires 0 <= i < |segments| => Added([segments[i]], Child(v, segments[i])))
  }

  function AllRemoved(v: Value, segments: seq<Segment>): (es: seq<Edit>)
    requires forall s <- segments :: Has(v, s)
    ensures |es| == |segments|
    ensures forall i :: 0 <= i < |es| ==> es[i] == Removed([segments[i]], Child(v, segments[i]))
  {
    seq(|segments|, i requires 0 <= i < |segments| => Removed([segments[i]], Child(v, segments[i])))
  }

  function Min(a: nat, b: nat): nat {
    if a < b then a else b
  }

  // The children that both values have, in the order they are compared.
  ghost function Common(a: Value, b: Value): (segments: seq<Segment>)
    requires SameType(a, b)
    ensures forall s :: s in segments <==> Has(a, s) && Has(b, s)
  {
    if a.Dict? then Keys(InOrder(a.entries.Keys * b.entries.Keys))
    else if a.List? then
      var segments := Indexes(0, Min(|a.items|, |b.items|));
      assert forall s :: Has(a, s) && Has(b, s) ==> segments[s.index] == s;
      segments
    else []
  }

  // The children of a that b lacks, in the order they are reported.
  ghost function Only(a: Value, b: Value): (segments: seq<Segment>)
    requires SameType(a, b)
    ensures forall s :: s in segments <==> Has(a, s) && !Has(b, s)
  {
    if a.Dict? then Keys(InOrder(a.entries.Keys - b.entries.Keys))
    else if a.List? then
      var from := Min(|a.items|, |b.items|);
      var segments := Indexes(from, |a.items|);
      assert forall s :: Has(a, s) && !Has(b, s) ==> segments[s.index - from] == s;
      segments
    else []
  }

  ghost function DiffOf(a: Value, b: Value): (r: Report)
    decreases a, 1, 0
  {
    if !SameType(a, b) then Report([], [], [Changed([], a, b)])
    else
      var own := Report(AllAdded(b, Only(b, a)), AllRemoved(a, Only(a, b)), []);
      if a.Dict? then Join(own, Nested(a, b, Common(a, b)))
      else if a.List? then Join(Nested(a, b, Common(a, b)), own)
      else if a != b then Report([], [], [Changed([], a, b)])
      else Unchanged
  }

  ghost function Nested(a: Value, b: Value, segments: seq<Segment>): (r: Report)
    requires forall s <- segments :: Has(a, s) && Has(b, s)
    decreases a, 0, |segments|
  {
    if segments == [] then Unchanged
    else
      Join(Under([segments[0]], DiffOf(Child(a, segments[0]), Child(b, segments[0]))),
           Nested(a, b, segments[1..]))
  }

  // ---------------------------------------------------------------- applying a diff

  // One edit, which fails unless the value is the one the edit speaks of.
  function Apply(e: Edit, v: Value): (w: Option<Value>)
    decreases |e.path|
  {
    if e.path == [] then
      if e.Changed? && v == e.before then Some(e.after) else None
    else if |e.path| == 1 && e.Added? then
      var s := e.path[0];
      if v.Dict? && s.Key? && s.key !in v.entries then Some(Dict(v.entries[s.key := e.value]))
      else if v.List? && s.Index? && s.index == |v.items| then Some(List(v.items + [e.value]))
      else None
    else if !Has(v, e.path[0]) then None
    else
      var s := e.path[0];
      if |e.path| == 1 && e.Removed? then
        if Child(v, s) != e.value then None
        else if v.Dict? then Some(Dict(v.entries - {s.key}))
        else if s.index == |v.items| - 1 then Some(List(v.items[..s.index]))
        else None
      else
        var c := Apply(e.(path := e.path[1..]), Child(v, s));
        if c.Some? then Some(WithChild(v, s, c.value)) else None
  }

  function ApplyAll(es: seq<Edit>, v: Value): (w: Option<Value>) {
    if es == [] then Some(v)
    else
      var w := Apply(es[0], v);
      if w.Some? then ApplyAll(es[1..], w.value) else None
  }

  function Reverse(es: seq<Edit>): (r: seq<Edit>)
    ensures |r| == |es| && forall i :: 0 <= i < |es| ==> r[i] == es[|es| - 1 - i]
  {
    if es == [] then [] else Reverse(es[1..]) + [es[0]]
  }

  // A report as a patch: the changes, then the removals from the last one back, then the additions.
  function Phase(r: Report, n: nat): seq<Edit> {
    if n == 0 then r.changed else if n == 1 then Reverse(r.removed) else r.added
  }

  function Patch(r: Report): seq<Edit> {
    Phase(r, 0) + Phase(r, 1) + Phase(r, 2)
  }

  lemma {:induction false} ApplyInTurn(es: seq<Edit>, fs: seq<Edit>, v: Value)
    ensures ApplyAll(es, v).Some? ==> ApplyAll(es + fs, v) == ApplyAll(fs, ApplyAll(es, v).value)
  {
    if es == [] {
      assert es + fs == fs;
    } else {
      assert (es + fs)[1..] == es[1..] + fs;
      if Apply(es[0], v).Some? {
        ApplyInTurn(es[1..], fs, Apply(es[0], v).value);
      }
    }
  }

  // Edits to a child are edits to that child alone.
  lemma {:induction false} ApplyBelow(s: Segment, es: seq<Edit>, v: Value)
    requires Has(v, s) && ApplyAll(es, Child(v, s)).Some?
    ensures ApplyAll(At([s], es), v) == Some(WithChild(v, s, ApplyAll(es, Child(v, s)).value))
    decreases |es|
  {
    if es == [] {
      assert At([s], es) == [];
      assert v == WithChild(v, s, Child(v, s)) by {
        if v.Dict? {
          assert v.entries == v.entries[s.key := v.entries[s.key]];
        }
      }
    } else {
      var e := At([s], es)[0];
      assert e.path[1..] == es[0].path;
      assert e.(path := e.path[1..]) == es[0];
      var c := Apply(es[0], Child(v, s)).value;
      var w := WithChild(v, s, c);
      assert Apply(e, v) == Some(w);
      assert At([s], es)[1..] == At([s], es[1..]);
      ApplyBelow(s, es[1..], w);
      var d := ApplyAll(es[1..], c).value;
      if v.Dict? {
        assert v.entries[s.key := c][s.key := d] == v.entries[s.key := d];
      } else {
        assert v.items[s.index := c][s.index := d] == v.items[s.index := d];
      }
    }
  }

  // ---------------------------------------------------------------- a diff is a patch

  ghost function Stage(a: Value, b: Value, n: nat): (v: Value)
  {
    if n == 0 then a
    else
      var w := ApplyAll(Phase(DiffOf(a, b), n - 1), Stage(a, b, n - 1));
      if w.Some? then w.value else a
  }

  ghost predicate Patches(a: Value, b: Value) {
    && (forall n :: 0 <= n < 3 ==> ApplyAll(Phase(DiffOf(a, b), n), Stage(a, b, n)).Some?)
    && Stage(a, b, 3) == b
  }

  lemma StageNext(a: Value, b: Value, n: nat)
    requires Patches(a, b) && n < 3
    ensures ApplyAll(Phase(DiffOf(a, b), n), Stage(a, b, n)) == Some(Stage(a, b, n + 1))
  {
    hide DiffOf, Phase, ApplyAll;
  }

  lemma ThreeStages(a: Value, b: Value, v: Value, w: Value)
    requires ApplyAll(Phase(DiffOf(a, b), 0), a) == Some(v)
    requires ApplyAll(Phase(DiffOf(a, b), 1), v) == Some(w)
    requires ApplyAll(Phase(DiffOf(a, b), 2), w) == Some(b)
    ensures Patches(a, b)
  {
    hide DiffOf, Phase, ApplyAll;
    assert Stage(a, b, 1) == v;
    assert Stage(a, b, 2) == w;
  }

  ghost predicate Unrepeated(segments: seq<Segment>) {
    forall i, j :: 0 <= i < j < |segments| ==> segments[i] != segments[j]
  }

  lemma AllButFirst(segments: seq<Segment>)
    requires segments != [] && Unrepeated(segments)
    ensures Unrepeated(segments[1..]) && segments[0] !in segments[1..]
    ensures forall s :: s in segments <==> s == segments[0] || s in segments[1..]
  {
    assert segments == [segments[0]] + segments[1..];
  }

  lemma AllButLast(segments: seq<Segment>)
    requires segments != [] && Unrepeated(segments)
    ensures var last, rest := segments[|segments| - 1], segments[..|segments| - 1];
            && Unrepeated(rest) && last !in rest
            && forall s :: s in segments <==> s == last || s in rest
  {
    assert segments == segments[..|segments| - 1] + [segments[|segments| - 1]];
  }

  ghost function Reordered(segments: seq<Segment>, n: nat): (r: seq<Segment>)
    ensures |r| == |segments| && forall s :: s in r <==> s in segments
    ensures Unrepeated(segments) ==> Unrepeated(r)
  {
    if n == 1 then Backwards(segments) else segments
  }

  ghost function Backwards(segments: seq<Segment>): (r: seq<Segment>)
    ensures |r| == |segments| && forall i :: 0 <= i < |r| ==> r[i] == segments[|r| - 1 - i]
    ensures forall s :: s in r <==> s in segments
    ensures Unrepeated(segments) ==> Unrepeated(r)
  {
    if segments == [] then []
    else
      var r := Backwards(segments[1..]) + [segments[0]];
      assert forall i :: 0 <= i < |r| ==> r[i] == segments[|r| - 1 - i];
      r
  }

  // The edits of a phase, child by child.
  ghost function PhaseOf(a: Value, b: Value, segments: seq<Segment>, n: nat): (es: seq<Edit>)
    requires forall s <- segments :: Has(a, s) && Has(b, s)
  {
    if segments == [] then []
    else
      At([segments[0]], Phase(DiffOf(Child(a, segments[0]), Child(b, segments[0])), n))
      + PhaseOf(a, b, segments[1..], n)
  }

  lemma {:induction false} PhaseOfConcat(a: Value, b: Value, p: seq<Segment>, q: seq<Segment>, n: nat)
    requires forall s <- p + q :: Has(a, s) && Has(b, s)
    ensures PhaseOf(a, b, p + q, n) == PhaseOf(a, b, p, n) + PhaseOf(a, b, q, n)
  {
    hide DiffOf, Has, Phase, At;
    if p == [] {
      assert p + q == q;
    } else {
      assert (p + q)[1..] == p[1..] + q;
      PhaseOfConcat(a, b, p[1..], q, n);
    }
  }

  lemma ReverseOfConcat(es: seq<Edit>, fs: seq<Edit>)
    ensures Reverse(es + fs) == Reverse(fs) + Reverse(es)
  {}

  lemma {:induction false} NestedByPhase(a: Value, b: Value, segments: seq<Segment>, n: nat)
    requires forall s <- segments :: Has(a, s) && Has(b, s)
    requires n < 3
    ensures Phase(Nested(a, b, segments), n) == PhaseOf(a, b, Reordered(segments, n), n)
    decreases |segments|
  {
    hide DiffOf, Has, Backwards;
    if segments != [] {
      var s := segments[0];
      var r := DiffOf(Child(a, s), Child(b, s));
      NestedByPhase(a, b, segments[1..], n);
      if n == 1 {
        var rest := Nested(a, b, segments[1..]).removed;
        ReverseOfConcat(At([s], r.removed), rest);
        assert Reverse(At([s], r.removed)) == At([s], Reverse(r.removed));
        PhaseOfOne(a, b, s, n);
        PhaseOfConcat(a, b, Backwards(segments[1..]), [s], n);
        BackwardsUnfolds(segments);
      }
    }
  }

  lemma BackwardsUnfolds(segments: seq<Segment>)
    requires segments != []
    ensures Backwards(segments) == Backwards(segments[1..]) + [segments[0]]
  {}

  lemma PhaseOfOne(a: Value, b: Value, s: Segment, n: nat)
    requires Has(a, s) && Has(b, s)
    ensures PhaseOf(a, b, [s], n) == At([s], Phase(DiffOf(Child(a, s), Child(b, s)), n))
  {
    hide DiffOf, Has, Phase;
    assert [s][1..] == [];
  }

  // A phase moves every one of the children on by a stage, and touches nothing else.
  lemma {:induction false} PhaseMovesChildren(a: Value, b: Value, segments: seq<Segment>, n: nat, v: Value)
    returns (w: Value)
    requires n < 3 && Unrepeated(segments)
    requires forall s <- segments :: Has(a, s) && Has(b, s) && Patches(Child(a, s), Child(b, s))
    requires forall s <- segments :: Has(v, s) && Child(v, s) == Stage(Child(a, s), Child(b, s), n)
    ensures ApplyAll(PhaseOf(a, b, segments, n), v) == Some(w)
    ensures SameType(v, w) && forall s :: Has(w, s) <==> Has(v, s)
    ensures forall s :: Has(v, s) ==>
              Child(w, s) == if s in segments then Stage(Child(a, s), Child(b, s), n + 1) else Child(v, s)
    decreases |segments|
  {
    hide Patches, Stage, DiffOf, Phase, Has, Child, Unrepeated;
    if segments == [] {
      w := v;
    } else {
      AllButFirst(segments);
      var s, rest := segments[0], segments[1..];
      var es := Phase(DiffOf(Child(a, s), Child(b, s)), n);
      var next := Stage(Child(a, s), Child(b, s), n + 1);
      StageNext(Child(a, s), Child(b, s), n);
      ApplyBelow(s, es, v);
      ApplyInTurn(At([s], es), PhaseOf(a, b, rest, n), v);
      w := PhaseMovesChildren(a, b, rest, n, WithChild(v, s, next));
    }
  }

  lemma {:induction false} SortedIsUnrepeated(keys: set<string>)
    ensures Unrepeated(Keys(InOrder(keys)))
    decreases |keys|
  {
    if keys != {} {
      var least := LeastKey(keys);
      SortedIsUnrepeated(keys - {least});
      var rest := InOrder(keys - {least});
      assert InOrder(keys) == [least] + rest;
      assert forall i :: 0 <= i < |rest| ==> rest[i] in keys - {least} && Keys(rest)[i] == Key(rest[i]);
    }
  }

  lemma SegmentsAreUnrepeated(a: Value, b: Value)
    requires SameType(a, b)
    ensures Unrepeated(Common(a, b)) && Unrepeated(Only(a, b))
  {
    if a.Dict? {
      SortedIsUnrepeated(a.entries.Keys * b.entries.Keys);
      SortedIsUnrepeated(a.entries.Keys - b.entries.Keys);
    }
  }

  predicate Container(v: Value) {
    v.Dict? || v.List?
  }

  lemma {:induction false} RemoveKeys(a: Value, segments: seq<Segment>, v: Value) returns (w: Value)
    requires a.Dict? && v.Dict? && Unrepeated(segments)
    requires forall s <- segments :: Has(a, s) && Has(v, s) && Child(v, s) == Child(a, s)
    ensures ApplyAll(Reverse(AllRemoved(a, segments)), v) == Some(w) && w.Dict?
    ensures forall s :: Has(w, s) <==> Has(v, s) && s !in segments
    ensures forall s :: Has(w, s) ==> Child(w, s) == Child(v, s)
    decreases |segments|
  {
    if segments == [] {
      w := v;
    } else {
      var last, rest := segments[|segments| - 1], segments[..|segments| - 1];
      AllButLast(segments);
      var next := Dict(v.entries - {last.key});
      assert Apply(Removed([last], Child(a, last)), v) == Some(next);
      LastSegmentFirst(a, segments);
      hide Apply, Reverse, Unrepeated;
      w := RemoveKeys(a, rest, next);
    }
  }

  lemma LastSegmentFirst(a: Value, segments: seq<Segment>)
    requires segments != [] && forall s <- segments :: Has(a, s)
    ensures var last, rest := segments[|segments| - 1], segments[..|segments| - 1];
            Reverse(AllRemoved(a, segments)) == [Removed([last], Child(a, last))] + Reverse(AllRemoved(a, rest))
  {
    hide Has;
    var last, rest := segments[|segments| - 1], segments[..|segments| - 1];
    assert AllRemoved(a, segments) == AllRemoved(a, rest) + [Removed([last], Child(a, last))];
    ReverseOfConcat(AllRemoved(a, rest), [Removed([last], Child(a, last))]);
  }

  lemma LastRemovedFirst(a: Value, from: nat, end: nat)
    requires a.List? && from < end <= |a.items|
    ensures Reverse(AllRemoved(a, Indexes(from, end))) ==
            [Removed([Index(end - 1)], a.items[end - 1])] + Reverse(AllRemoved(a, Indexes(from, end - 1)))
  {
    var rest := AllRemoved(a, Indexes(from, end - 1));
    assert AllRemoved(a, Indexes(from, end)) == rest + [Removed([Index(end - 1)], a.items[end - 1])];
  }

  lemma {:induction false} RemoveTail(a: Value, from: nat, end: nat, v: Value) returns (w: Value)
    requires a.List? && v.List? && from <= end == |v.items| <= |a.items|
    requires forall i :: from <= i < end ==> v.items[i] == a.items[i]
    ensures ApplyAll(Reverse(AllRemoved(a, Indexes(from, end))), v) == Some(w) && w == List(v.items[..from])
    decreases end
  {
    if from == end {
      w := v;
    } else {
      var last := Removed([Index(end - 1)], a.items[end - 1]);
      assert Child(a, Index(end - 1)) == a.items[end - 1];
      assert Apply(last, v) == Some(List(v.items[..end - 1]));
      LastRemovedFirst(a, from, end);
      hide Apply, Has, Reverse;
      w := RemoveTail(a, from, end - 1, List(v.items[..end - 1]));
    }
  }

  lemma {:induction false} RemoveOnly(a: Value, b: Value, v: Value) returns (w: Value)
    requires Container(a) && SameType(a, b) && SameType(a, v)
    requires forall s :: Has(v, s) <==> Has(a, s)
    requires forall s <- Only(a, b) :: Child(v, s) == Child(a, s)
    ensures ApplyAll(Reverse(AllRemoved(a, Only(a, b))), v) == Some(w) && SameType(a, w)
    ensures forall s :: Has(w, s) <==> Has(a, s) && Has(b, s)
    ensures forall s :: Has(w, s) ==> Child(w, s) == Child(v, s)
  {
    if a.Dict? {
      SegmentsAreUnrepeated(a, b);
      w := RemoveKeys(a, Only(a, b), v);
    } else {
      SameLength(a, v);
      var from := Min(|a.items|, |b.items|);
      forall i | from <= i < |a.items| ensures v.items[i] == a.items[i] {
        assert Index(i) in Only(a, b);
      }
      w := RemoveTail(a, from, |a.items|, v);
    }
  }

  lemma SameLength(a: Value, v: Value)
    requires a.List? && v.List? && forall s :: Has(v, s) <==> Has(a, s)
    ensures |a.items| == |v.items|
  {
    assert Has(a, Index(|v.items|)) <==> Has(v, Index(|v.items|));
    assert Has(a, Index(|a.items|)) <==> Has(v, Index(|a.items|));
  }

  lemma {:induction false} AddKeys(b: Value, segments: seq<Segment>, v: Value) returns (w: Value)
    requires b.Dict? && v.Dict? && Unrepeated(segments)
    requires forall s <- segments :: Has(b, s) && !Has(v, s)
    ensures ApplyAll(AllAdded(b, segments), v) == Some(w) && w.Dict?
    ensures forall s :: Has(w, s) <==> Has(v, s) || s in segments
    ensures forall s :: Has(w, s) ==> Child(w, s) == if s in segments then Child(b, s) else Child(v, s)
    decreases |segments|
  {
    if segments == [] {
      w := v;
    } else {
      var s := segments[0];
      AllButFirst(segments);
      var next := Dict(v.entries[s.key := Child(b, s)]);
      assert AllAdded(b, segments)[1..] == AllAdded(b, segments[1..]);
      w := AddKeys(b, segments[1..], next);
    }
  }

  lemma {:induction false} AddTail(b: Value, from: nat, v: Value) returns (w: Value)
    requires b.List? && v.List? && |v.items| == from <= |b.items|
    ensures ApplyAll(AllAdded(b, Indexes(from, |b.items|)), v) == Some(w) && w == List(v.items + b.items[from..])
    decreases |b.items| - from
  {
    if from == |b.items| {
      w := v;
    } else {
      assert AllAdded(b, Indexes(from, |b.items|))[1..] == AllAdded(b, Indexes(from + 1, |b.items|));
      w := AddTail(b, from + 1, List(v.items + [b.items[from]]));
      assert v.items + [b.items[from]] + b.items[from + 1..] == v.items + b.items[from..];
    }
  }

  lemma {:induction false} AddOnly(a: Value, b: Value, v: Value) returns (w: Value)
    requires Container(a) && SameType(a, b) && SameType(a, v)
    requires forall s :: Has(v, s) <==> Has(a, s) && Has(b, s)
    ensures ApplyAll(AllAdded(b, Only(b, a)), v) == Some(w) && SameType(b, w)
    ensures forall s :: Has(w, s) <==> Has(b, s)
    ensures forall s :: Has(w, s) ==> Child(w, s) == if Has(a, s) then Child(v, s) else Child(b, s)
  {
    if a.Dict? {
      SegmentsAreUnrepeated(b, a);
      w := AddKeys(b, Only(b, a), v);
    } else {
      var from := Min(|a.items|, |b.items|);
      SameLength(List(a.items[..from]), v);
      w := AddTail(b, from, v);
    }
  }

  lemma SameChildren(v: Value, w: Value)
    requires Container(v) && SameType(v, w)
    requires forall s :: Has(v, s) <==> Has(w, s)
    requires forall s :: Has(v, s) ==> Child(v, s) == Child(w, s)
    ensures v == w
  {
    if v.Dict? {
      assert forall k :: k in v.entries <==> Has(v, Key(k));
      assert forall k :: k in w.entries <==> Has(w, Key(k));
      assert forall k | k in v.entries :: v.entries[k] == Child(v, Key(k));
    } else {
      SameLength(v, w);
      assert forall i | 0 <= i < |v.items| :: Has(v, Index(i)) && v.items[i] == Child(v, Index(i));
    }
  }

  lemma ContainerPhases(a: Value, b: Value)
    requires SameType(a, b) && Container(a)
    ensures var own := Report(AllAdded(b, Only(b, a)), AllRemoved(a, Only(a, b)), []);
            var common := Common(a, b);
            && Phase(DiffOf(a, b), 0) == PhaseOf(a, b, common, 0)
            && Phase(DiffOf(a, b), 1) ==
               (if a.Dict? then PhaseOf(a, b, Backwards(common), 1) + Reverse(own.removed)
                else Reverse(own.removed) + PhaseOf(a, b, Backwards(common), 1))
            && Phase(DiffOf(a, b), 2) ==
               (if a.Dict? then own.added + PhaseOf(a, b, common, 2)
                else PhaseOf(a, b, common, 2) + own.added)
  {
    hide Nested, PhaseOf, AllAdded, AllRemoved, Common, Only, Backwards, Reverse, Has;
    NestedByPhase(a, b, Common(a, b), 0);
    NestedByPhase(a, b, Common(a, b), 1);
    NestedByPhase(a, b, Common(a, b), 2);
    var own := Report(AllAdded(b, Only(b, a)), AllRemoved(a, Only(a, b)), []);
    var nested := Nested(a, b, Common(a, b));
    ReverseOfConcat(own.removed, nested.removed);
    ReverseOfConcat(nested.removed, own.removed);
    assert [] + nested.changed == nested.changed && nested.changed + [] == nested.changed;
  }

  // The diff, applied to the first value, succeeds and yields the second.
  lemma {:induction false} DiffPatches(a: Value, b: Value)
    ensures Patches(a, b)
    decreases a
  {
    if SameType(a, b) && Container(a) {
      forall s | s in Common(a, b) ensures Patches(Child(a, s), Child(b, s)) {
        DiffPatches(Child(a, s), Child(b, s));
      }
      ContainerPatches(a, b);
    } else {
      LeafPatches(a, b);
    }
  }

  lemma LeafPatches(a: Value, b: Value)
    requires !SameType(a, b) || !Container(a)
    ensures Patches(a, b)
  {
    var r := DiffOf(a, b);
    assert Phase(r, 1) == [] && Phase(r, 2) == [];
    assert ApplyAll(Phase(r, 0), a) == Some(b);
    assert Stage(a, b, 1) == b;
    assert Stage(a, b, 2) == b;
  }

  lemma {:induction false} ContainerPatches(a: Value, b: Value)
    requires SameType(a, b) && Container(a)
    requires forall s <- Common(a, b) :: Patches(Child(a, s), Child(b, s))
    ensures Patches(a, b)
  {
    hide DiffOf, PhaseOf, AllAdded, AllRemoved, Common, Only, Backwards, Reverse, Has, Child, Apply, ApplyAll, Phase,
         Patches;
    ContainerPhases(a, b);
    SegmentsAreUnrepeated(a, b);
    var v := PhaseMovesChildren(a, b, Common(a, b), 0, a);
    var w := SecondPhase(a, b, v);
    var u := ThirdPhase(a, b, w);
    SameChildren(b, u);
    ThreeStages(a, b, v, w);
  }

  lemma {:induction false} SecondPhase(a: Value, b: Value, v: Value) returns (w: Value)
    requires SameType(a, b) && Container(a) && SameType(a, v)
    requires forall s <- Common(a, b) :: Patches(Child(a, s), Child(b, s))
    requires forall s :: Has(v, s) <==> Has(a, s)
    requires forall s :: Has(v, s) ==>
               Child(v, s) == if Has(b, s) then Stage(Child(a, s), Child(b, s), 1) else Child(a, s)
    ensures ApplyAll(Phase(DiffOf(a, b), 1), v) == Some(w) && SameType(a, w)
    ensures forall s :: Has(w, s) <==> Has(a, s) && Has(b, s)
    ensures forall s :: Has(w, s) ==> Child(w, s) == Stage(Child(a, s), Child(b, s), 2)
  {
    hide DiffOf, PhaseOf, AllAdded, AllRemoved, Common, Only, Backwards, Reverse, Has, Child, Apply, Phase, Stage, Patches;
    ContainerPhases(a, b);
    SegmentsAreUnrepeated(a, b);
    var common := Backwards(Common(a, b));
    if a.Dict? {
      var between := PhaseMovesChildren(a, b, common, 1, v);
      w := RemoveOnly(a, b, between);
      ApplyInTurn(PhaseOf(a, b, common, 1), Reverse(AllRemoved(a, Only(a, b))), v);
    } else {
      var between := RemoveOnly(a, b, v);
      w := PhaseMovesChildren(a, b, common, 1, between);
      ApplyInTurn(Reverse(AllRemoved(a, Only(a, b))), PhaseOf(a, b, common, 1), v);
    }
  }

  lemma {:induction false} ThirdPhase(a: Value, b: Value, v: Value) returns (w: Value)
    requires SameType(a, b) && Container(a) && SameType(a, v)
    requires forall s <- Common(a, b) :: Patches(Child(a, s), Child(b, s))
    requires forall s :: Has(v, s) <==> Has(a, s) && Has(b, s)
    requires forall s :: Has(v, s) ==> Child(v, s) == Stage(Child(a, s), Child(b, s), 2)
    ensures ApplyAll(Phase(DiffOf(a, b), 2), v) == Some(w) && SameType(b, w)
    ensures forall s :: Has(w, s) <==> Has(b, s)
    ensures forall s :: Has(w, s) ==> Child(w, s) == Child(b, s)
  {
    hide DiffOf, PhaseOf, AllAdded, AllRemoved, Common, Only, Backwards, Reverse, Has, Child, Apply, Phase, Stage;
    ContainerPhases(a, b);
    SegmentsAreUnrepeated(a, b);
    var common := Common(a, b);
    if a.Dict? {
      var between := AddOnly(a, b, v);
      w := PhaseMovesChildren(a, b, common, 2, between);
      ApplyInTurn(AllAdded(b, Only(b, a)), PhaseOf(a, b, common, 2), v);
    } else {
      var between := PhaseMovesChildren(a, b, common, 2, v);
      w := AddOnly(a, b, between);
      ApplyInTurn(PhaseOf(a, b, common, 2), AllAdded(b, Only(b, a)), v);
    }
  }

  lemma DiffIsAPatch(a: Value, b: Value)
    ensures ApplyAll(Patch(DiffOf(a, b)), a) == Some(b)
  {
    DiffPatches(a, b);
    var r := DiffOf(a, b);
    hide DiffOf, Phase, ApplyAll;
    assert Stage(a, b, 1) == ApplyAll(Phase(r, 0), a).value;
    assert Stage(a, b, 2) == ApplyAll(Phase(r, 1), Stage(a, b, 1)).value;
    assert Stage(a, b, 3) == ApplyAll(Phase(r, 2), Stage(a, b, 2)).value;
    ApplyInTurn(Phase(r, 0), Phase(r, 1), a);
    ApplyInTurn(Phase(r, 0) + Phase(r, 1), Phase(r, 2), a);
  }

  lemma {:induction false} DiffOfEqual(a: Value)
    ensures DiffOf(a, a) == Unchanged
    decreases a, 1, 0
  {
    if Container(a) {
      assert Only(a, a) == [] by { assert forall s :: s !in Only(a, a); }
      NestedOfEqual(a, Common(a, a));
    }
  }

  lemma {:induction false} NestedOfEqual(a: Value, segments: seq<Segment>)
    requires forall s <- segments :: Has(a, s)
    ensures Nested(a, a, segments) == Unchanged
    decreases a, 0, |segments|
  {
    if segments != [] {
      DiffOfEqual(Child(a, segments[0]));
      NestedOfEqual(a, segments[1..]);
    }
  }

  // Nothing is reported exactly when the values are equal, types included.
  lemma EmptyIffEqual(a: Value, b: Value)
    ensures DiffOf(a, b) == Unchanged <==> a == b
  {
    DiffOfEqual(a);
    DiffIsAPatch(a, b);
  }

  // ---------------------------------------------------------------- the paths of a diff

  ghost predicate Apart(p: Path, q: Path) {
    !(p <= q) && !(q <= p)
  }

  ghost predicate PrefixFree(es: seq<Edit>) {
    forall i, j :: 0 <= i < j < |es| ==> Apart(es[i].path, es[j].path)
  }

  ghost predicate AllApart(es: seq<Edit>, fs: seq<Edit>) {
    forall e, f :: e in es && f in fs ==> Apart(e.path, f.path)
  }

  function Edits(r: Report): seq<Edit> {
    r.added + r.removed + r.changed
  }

  lemma {:induction false} PrefixFreeConcat(es: seq<Edit>, fs: seq<Edit>)
    ensures PrefixFree(es + fs) <==> PrefixFree(es) && PrefixFree(fs) && AllApart(es, fs)
  {
    hide Apart;
    var both := es + fs;
    if PrefixFree(both) {
      forall e, f | e in es && f in fs ensures Apart(e.path, f.path) {
        var i :| 0 <= i < |es| && es[i] == e;
        var j :| 0 <= j < |fs| && fs[j] == f;
        assert both[i] == e && both[|es| + j] == f;
      }
      assert forall j :: 0 <= j < |fs| ==> both[|es| + j] == fs[j];
      assert forall i :: 0 <= i < |es| ==> both[i] == es[i];
    }
  }

  lemma {:induction false} JoinIsPrefixFree(r: Report, s: Report)
    requires PrefixFree(Edits(r)) && PrefixFree(Edits(s)) && AllApart(Edits(r), Edits(s))
    ensures PrefixFree(Edits(Join(r, s)))
  {
    var j := Join(r, s);
    ThreeParts(r);
    ThreeParts(s);
    PrefixFreeConcat(r.added, s.added);
    PrefixFreeConcat(r.removed, s.removed);
    PrefixFreeConcat(r.changed, s.changed);
    ApartEitherWay(Edits(r), Edits(s));
    hide PrefixFree, Apart;
    ThreeParts(j);
  }

  lemma ApartEitherWay(es: seq<Edit>, fs: seq<Edit>)
    requires AllApart(es, fs)
    ensures AllApart(fs, es)
  {}

  lemma ThreeParts(r: Report)
    ensures PrefixFree(Edits(r)) <==>
            && PrefixFree(r.added) && PrefixFree(r.removed) && PrefixFree(r.changed)
            && AllApart(r.added, r.removed) && AllApart(r.added, r.changed) && AllApart(r.removed, r.changed)
  {
    hide PrefixFree, Apart;
    PrefixFreeConcat(r.added, r.removed);
    PrefixFreeConcat(r.added + r.removed, r.changed);
  }

  // Every edit is at or below one of the segments.
  ghost predicate Below(es: seq<Edit>, segments: seq<Segment>) {
    forall e <- es :: e.path != [] && e.path[0] in segments
  }

  lemma DifferentHeads(es: seq<Edit>, p: seq<Segment>, fs: seq<Edit>, q: seq<Segment>)
    requires Below(es, p) && Below(fs, q) && forall s <- p :: s !in q
    ensures AllApart(es, fs)
  {
    forall e, f | e in es && f in fs ensures Apart(e.path, f.path) {
      assert e.path[0] != f.path[0];
    }
  }

  lemma {:induction false} UnderIsPrefixFree(s: Segment, r: Report)
    requires PrefixFree(Edits(r))
    ensures PrefixFree(Edits(Under([s], r))) && Below(Edits(Under([s], r)), [s])
  {
    var es, fs := Edits(r), Edits(Under([s], r));
    assert fs == At([s], es);
    forall i, j | 0 <= i < j < |fs| ensures Apart(fs[i].path, fs[j].path) {
      var p, q := es[i].path, es[j].path;
      assert Apart(p, q) && fs[i].path == [s] + p && fs[j].path == [s] + q;
      assert ([s] + p)[1..] == p && ([s] + q)[1..] == q;
    }
  }

  lemma SingleSegments(es: seq<Edit>, segments: seq<Segment>)
    requires |es| == |segments| && Unrepeated(segments)
    requires forall i :: 0 <= i < |es| ==> es[i].path == [segments[i]]
    ensures PrefixFree(es) && Below(es, segments)
  {
    forall e | e in es ensures e.path != [] && e.path[0] in segments {
      var i :| 0 <= i < |es| && es[i] == e;
    }
    forall i, j | 0 <= i < j < |es| ensures Apart(es[i].path, es[j].path) {
      assert es[i].path[0] != es[j].path[0];
    }
  }

  lemma OwnIsPrefixFree(a: Value, b: Value)
    requires SameType(a, b)
    ensures var own := Report(AllAdded(b, Only(b, a)), AllRemoved(a, Only(a, b)), []);
            PrefixFree(Edits(own)) && Below(Edits(own), Only(b, a) + Only(a, b))
  {
    SegmentsAreUnrepeated(a, b);
    SegmentsAreUnrepeated(b, a);
    var added, removed := AllAdded(b, Only(b, a)), AllRemoved(a, Only(a, b));
    SingleSegments(added, Only(b, a));
    SingleSegments(removed, Only(a, b));
    DifferentHeads(added, Only(b, a), removed, Only(a, b));
    hide PrefixFree, AllApart, Has, Only, AllAdded, AllRemoved;
    PrefixFreeConcat(added, removed);
    assert Edits(Report(added, removed, [])) == added + removed;
  }

  // No reported path is a prefix of another.
  lemma {:induction false} DiffIsPrefixFree(a: Value, b: Value)
    ensures PrefixFree(Edits(DiffOf(a, b)))
    decreases a, 1, 0
  {
    if SameType(a, b) && Container(a) {
      hide PrefixFree, AllApart, Below, Edits, AllAdded, AllRemoved, Nested;
      var common := Common(a, b);
      var own := Report(AllAdded(b, Only(b, a)), AllRemoved(a, Only(a, b)), []);
      OwnIsPrefixFree(a, b);
      SegmentsAreUnrepeated(a, b);
      NestedIsPrefixFree(a, b, common);
      var nested := Nested(a, b, common);
      DifferentHeads(Edits(own), Only(b, a) + Only(a, b), Edits(nested), common);
      ApartEitherWay(Edits(own), Edits(nested));
      JoinIsPrefixFree(own, nested);
      JoinIsPrefixFree(nested, own);
    }
  }

  lemma {:induction false} NestedIsPrefixFree(a: Value, b: Value, segments: seq<Segment>)
    requires forall s <- segments :: Has(a, s) && Has(b, s)
    requires Unrepeated(segments)
    ensures PrefixFree(Edits(Nested(a, b, segments))) && Below(Edits(Nested(a, b, segments)), segments)
    decreases a, 0, |segments|
  {
    if segments != [] {
      hide PrefixFree, AllApart, DiffOf;
      var s := segments[0];
      var r := DiffOf(Child(a, s), Child(b, s));
      DiffIsPrefixFree(Child(a, s), Child(b, s));
      NestedIsPrefixFree(a, b, segments[1..]);
      UnderIsPrefixFree(s, r);
      DifferentHeads(Edits(Under([s], r)), [s], Edits(Nested(a, b, segments[1..])), segments[1..]);
      JoinIsPrefixFree(Under([s], r), Nested(a, b, segments[1..]));
    }
  }

  // ---------------------------------------------------------------- the walk

  lemma UnderJoin(p: Path, r: Report, s: Report)
    ensures Under(p, Join(r, s)) == Join(Under(p, r), Under(p, s))
  {}

  lemma UnderUnder(p: Path, q: Path, r: Report)
    ensures Under(p, Under(q, r)) == Under(p + q, r)
  {
    assert forall e: Edit :: p + (q + e.path) == p + q + e.path;
  }

  lemma UnderNothing(r: Report)
    ensures Under([], r) == r && Join(Unchanged, r) == r && Join(r, Unchanged) == r
  {
    assert forall e: Edit :: [] + e.path == e.path;
  }

  lemma JoinInTurn(r: Report, p: Path, s: Report, t: Report)
    ensures Join(Join(r, Under(p, s)), Under(p, t)) == Join(r, Under(p, Join(s, t)))
  {
    UnderJoin(p, s, t);
    hide Under;
  }

  // What remains to be reported from the i-th item on.
  ghost function ItemsFrom(a: Value, b: Value, i: nat): (r: Report)
    requires a.List? && b.List?
    decreases Min(|a.items|, |b.items|) - i
  {
    if i < Min(|a.items|, |b.items|) then
      Join(Under([Index(i)], DiffOf(a.items[i], b.items[i])), ItemsFrom(a, b, i + 1))
    else
      Report(if i < |b.items| then AllAdded(b, Indexes(i, |b.items|)) else [],
             if i < |a.items| then AllRemoved(a, Indexes(i, |a.items|)) else [], [])
  }

  lemma {:induction false} ItemsAreNested(a: Value, b: Value, i: nat)
    requires a.List? && b.List? && i <= Min(|a.items|, |b.items|)
    ensures forall s <- Indexes(i, Min(|a.items|, |b.items|)) :: Has(a, s) && Has(b, s)
    ensures ItemsFrom(a, b, i) ==
            Join(Nested(a, b, Indexes(i, Min(|a.items|, |b.items|))),
                 Report(AllAdded(b, Only(b, a)), AllRemoved(a, Only(a, b)), []))
    decreases Min(|a.items|, |b.items|) - i
  {
    hide DiffOf, AllAdded, AllRemoved, Only;
    var shorter := Min(|a.items|, |b.items|);
    var segments := Indexes(i, shorter);
    var own := Report(AllAdded(b, Only(b, a)), AllRemoved(a, Only(a, b)), []);
    if i == shorter {
      TailIsOwn(a, b);
      UnderNothing(own);
    } else {
      assert segments[1..] == Indexes(i + 1, shorter);
      ItemsAreNested(a, b, i + 1);
      var first := Under([Index(i)], DiffOf(a.items[i], b.items[i]));
      assert Nested(a, b, segments) == Join(first, Nested(a, b, segments[1..]));
      JoinIsAssociative(first, Nested(a, b, segments[1..]), own);
    }
  }

  lemma ItemsAreTheDiff(a: Value, b: Value)
    requires a.List? && b.List?
    ensures ItemsFrom(a, b, 0) == DiffOf(a, b)
  {
    hide Nested, Only, AllAdded, AllRemoved, Join;
    ItemsAreNested(a, b, 0);
  }

  lemma JoinIsAssociative(r: Report, s: Report, t: Report)
    ensures Join(Join(r, s), t) == Join(r, Join(s, t))
  {}

  lemma TailIsOwn(a: Value, b: Value)
    requires a.List? && b.List?
    ensures ItemsFrom(a, b, Min(|a.items|, |b.items|)) ==
            Report(AllAdded(b, Only(b, a)), AllRemoved(a, Only(a, b)), [])
  {
    var i := Min(|a.items|, |b.items|);
    assert AllAdded(b, Only(b, a)) == if i < |b.items| then AllAdded(b, Indexes(i, |b.items|)) else [];
    assert AllRemoved(a, Only(a, b)) == if i < |a.items| then AllRemoved(a, Indexes(i, |a.items|)) else [];
  }

  lemma TailUnfolds(a: Value, b: Value, i: nat)
    requires a.List? && b.List? && Min(|a.items|, |b.items|) <= i
    ensures i < |b.items| ==>
              ItemsFrom(a, b, i) == Join(Report([Added([Index(i)], b.items[i])], [], []), ItemsFrom(a, b, i + 1))
    ensures i < |a.items| ==>
              ItemsFrom(a, b, i) == Join(Report([], [Removed([Index(i)], a.items[i])], []), ItemsFrom(a, b, i + 1))
  {
    if i < |b.items| {
      assert AllAdded(b, Indexes(i, |b.items|))[1..] == AllAdded(b, Indexes(i + 1, |b.items|));
    }
    if i < |a.items| {
      assert AllRemoved(a, Indexes(i, |a.items|))[1..] == AllRemoved(a, Indexes(i + 1, |a.items|));
    }
  }

  method LeastOf(keys: set<string>) returns (k: string)
    requires keys != {}
    ensures k == LeastKey(keys)
  {
    k :| k in keys;
    var rest := keys - {k};
    LessIsStrict(k, k);
    while rest != {}
      invariant rest <= keys && k in keys
      invariant forall other <- keys - rest :: !Less(other, k)
      decreases |rest|
    {
      var other :| other in rest;
      rest := rest - {other};
      LessIsStrict(other, k);
      if Less(other, k) {
        forall third | third in keys - rest ensures !Less(third, other) {
          LessIsStrict(third, other);
          if Less(third, other) {
            LessIsTransitive(third, other, k);
          }
        }
        k := other;
      }
    }
    LessIsStrict(k, LeastKey(keys));
  }

  method SortKeys(keys: set<string>) returns (sorted: seq<string>)
    ensures sorted == InOrder(keys)
  {
    sorted := [];
    var rest := keys;
    while rest != {}
      invariant sorted + InOrder(rest) == InOrder(keys)
      decreases |rest|
    {
      var k := LeastOf(rest);
      assert InOrder(rest) == [k] + InOrder(rest - {k});
      sorted := sorted + [k];
      rest := rest - {k};
    }
  }

  lemma OwnReported(start: Report, path: Path, own: Report)
    requires own.changed == []
    ensures Join(start, Under(path, own)) ==
            Report(start.added + At(path, own.added), start.removed + At(path, own.removed), start.changed)
  {}

  lemma NestedUnfolds(a: Value, b: Value, segments: seq<Segment>, now: Report, path: Path)
    requires segments != [] && forall s <- segments :: Has(a, s) && Has(b, s)
    ensures var own := DiffOf(Child(a, segments[0]), Child(b, segments[0]));
            Join(Join(now, Under(path + [segments[0]], own)), Under(path, Nested(a, b, segments[1..])))
            == Join(now, Under(path, Nested(a, b, segments)))
  {
    var own := DiffOf(Child(a, segments[0]), Child(b, segments[0]));
    hide Under, Join, DiffOf;
    UnderUnder(path, [segments[0]], own);
    JoinInTurn(now, path, Under([segments[0]], own), Nested(a, b, segments[1..]));
  }

  lemma NestedOfNone(a: Value, b: Value)
    ensures Nested(a, b, []) == Unchanged
  {}

  lemma NothingMore(r: Report, path: Path)
    ensures Join(r, Under(path, Unchanged)) == r
  {}

  // The report after the i-th item has been walked.
  ghost function AfterItem(a: Value, b: Value, i: nat, now: Report, path: Path): Report
    requires a.List? && b.List? && (i < |a.items| || i < |b.items|)
  {
    if i >= |a.items| then now.(added := now.added + [Added(path + [Index(i)], b.items[i])])
    else if i >= |b.items| then now.(removed := now.removed + [Removed(path + [Index(i)], a.items[i])])
    else Join(now, Under(path + [Index(i)], DiffOf(a.items[i], b.items[i])))
  }

  lemma ItemReported(a: Value, b: Value, i: nat, now: Report, path: Path)
    requires a.List? && b.List? && (i < |a.items| || i < |b.items|)
    ensures Join(AfterItem(a, b, i, now, path), Under(path, ItemsFrom(a, b, i + 1)))
            == Join(now, Under(path, ItemsFrom(a, b, i)))
  {
    hide DiffOf;
    if i >= Min(|a.items|, |b.items|) {
      TailUnfolds(a, b, i);
    }
    var own :=
      if i >= |a.items| then Report([Added([Index(i)], b.items[i])], [], [])
      else if i >= |b.items| then Report([], [Removed([Index(i)], a.items[i])], [])
      else Under([Index(i)], DiffOf(a.items[i], b.items[i]));
    assert AfterItem(a, b, i, now, path) == Join(now, Under(path, own)) by {
      if i < |a.items| && i < |b.items| {
        UnderUnder(path, [Index(i)], DiffOf(a.items[i], b.items[i]));
      }
    }
    assert ItemsFrom(a, b, i) == Join(own, ItemsFrom(a, b, i + 1));
    hide Under, Join, AfterItem, ItemsFrom;
    JoinInTurn(now, path, own, ItemsFrom(a, b, i + 1));
  }

  class SnapshotDiff {
    var added: seq<Edit>
    var removed: seq<Edit>
    var changed: seq<Edit>

    ghost function Reported(): Report
      reads this
    {
      Report(added, removed, changed)
    }

    constructor ()
      ensures Reported() == Unchanged
    {
      added, removed, changed := [], [], [];
    }

    method Walk(before: Value, after: Value, path: Path)
      modifies this
      ensures Reported() == Join(old(Reported()), Under(path, DiffOf(before, after)))
      decreases before, 1
    {
      assert path + [] == path;
      NothingMore(Reported(), path);
      if !SameType(before, after) {
        changed := changed + [Changed(path, before, after)];
      } else if before.Dict? {
        WalkEntries(before, after, path);
      } else if before.List? {
        WalkItems(before, after, path);
      } else if before != after {
        changed := changed + [Changed(path, before, after)];
      }
    }

    method ReportOwnKeys(before: Value, after: Value, path: Path)
      requires before.Dict? && after.Dict?
      modifies this
      ensures var own := Report(AllAdded(after, Only(after, before)), AllRemoved(before, Only(before, after)), []);
              Reported() == Join(old(Reported()), Under(path, own))
    {
      hide InOrder, Apply, Join, Under, At, AllAdded, AllRemoved;
      ghost var start := Reported();
      var keys := SortKeys(after.entries.Keys - before.entries.Keys);
      ghost var add := At(path, AllAdded(after, Keys(keys)));
      for i := 0 to |keys|
        invariant Reported() == start.(added := start.added + add[..i])
      {
        added := added + [Added(path + [Key(keys[i])], after.entries[keys[i]])];
        assert add[..i + 1] == add[..i] + [add[i]];
      }
      assert add[..|keys|] == add;
      var gone := SortKeys(before.entries.Keys - after.entries.Keys);
      ghost var remove := At(path, AllRemoved(before, Keys(gone)));
      for i := 0 to |gone|
        invariant Reported() == Report(start.added + add, start.removed + remove[..i], start.changed)
      {
        removed := removed + [Removed(path + [Key(gone[i])], before.entries[gone[i]])];
        assert remove[..i + 1] == remove[..i] + [remove[i]];
      }
      assert remove[..|gone|] == remove;
      OwnReported(start, path, Report(AllAdded(after, Keys(keys)), AllRemoved(before, Keys(gone)), []));
    }

    method WalkEntries(before: Value, after: Value, path: Path)
      requires before.Dict? && after.Dict?
      modifies this
      ensures Reported() == Join(old(Reported()), Under(path, DiffOf(before, after)))
      decreases before, 0
    {
      hide InOrder, Apply, Join, Nested, Under, Only;
      ghost var start := Reported();
      ghost var own := Report(AllAdded(after, Only(after, before)), AllRemoved(before, Only(before, after)), []);
      ReportOwnKeys(before, after, path);
      var both := SortKeys(before.entries.Keys * after.entries.Keys);
      ghost var whole := Nested(before, after, Keys(both));
      JoinInTurn(start, path, own, whole);
      assert Keys(both)[0..] == Keys(both);
      for i := 0 to |both|
        invariant Join(Reported(), Under(path, Nested(before, after, Keys(both)[i..])))
                  == Join(start, Under(path, Join(own, whole)))
      {
        ghost var rest := Keys(both)[i..];
        ghost var now := Reported();
        assert rest[0] == Key(both[i]) && rest[1..] == Keys(both)[i + 1..];
        Walk(before.entries[both[i]], after.entries[both[i]], path + [Key(both[i])]);
        NestedUnfolds(before, after, rest, now, path);
      }
      NestedOfNone(before, after);
      NothingMore(Reported(), path);
    }

    method WalkItems(before: Value, after: Value, path: Path)
      requires before.List? && after.List?
      modifies this
      ensures Reported() == Join(old(Reported()), Under(path, DiffOf(before, after)))
      decreases before, 0
    {
      hide Nested, Under, Join, Only, Common, Apply;
      ghost var start := Reported();
      ItemsAreTheDiff(before, after);
      var longer := if |before.items| < |after.items| then |after.items| else |before.items|;
      for i := 0 to longer
        invariant Join(Reported(), Under(path, ItemsFrom(before, after, i)))
                  == Join(start, Under(path, ItemsFrom(before, after, 0)))
      {
        ghost var now := Reported();
        var next := path + [Index(i)];
        if i >= |before.items| {
          added := added + [Added(next, after.items[i])];
        } else if i >= |after.items| {
          removed := removed + [Removed(next, before.items[i])];
        } else {
          Walk(before.items[i], after.items[i], next);
        }
        assert Reported() == AfterItem(before, after, i, now, path);
        ItemReported(before, after, i, now, path);
      }
      assert ItemsFrom(before, after, longer) == Unchanged;
      NothingMore(Reported(), path);
    }
  }

  method DiffSnapshots(a: Value, b: Value) returns (report: Report)
    ensures report == DiffOf(a, b)
  {
    var walk := new SnapshotDiff();
    walk.Walk(a, b, []);
    UnderNothing(DiffOf(a, b));
    report := Report(walk.added, walk.removed, walk.changed);
  }
}
