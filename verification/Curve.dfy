/**
 Automation curves: control points expanded into a dense staircase, thinned, checked again and written as
 steps that each reach the next one.

 Times and values are real numbers; floating-point rounding is not modelled.
 */
module Curve {
  import opened Wrappers

  datatype Point = Point(time: real, value: real)

  datatype Shape = Linear | Exp | Log | Hold

  // Points closer than this are one point.
  const GAP: real := 0.000001

  function Abs(x: real): real {
    if x < 0.0 then -x else x
  }

  function Ceiling(x: real): int {
    -((-x).Floor)
  }

  // ---------------------------------------------------------------- the expansion

  function Steps(a: Point, b: Point, resolution: real): (n: nat)
    requires resolution > 0.0
    ensures n >= 1
  {
    var n := Ceiling((b.time - a.time) / resolution);
    if n < 1 then 1 else n
  }

  function Weight(shape: Shape, p: real): real {
    match shape
    case Exp => p * p
    case Log => 1.0 - (1.0 - p) * (1.0 - p)
    case _ => p
  }

  // The curve between two control points.
  function Ideal(a: Point, b: Point, shape: Shape, p: real): real {
    if shape == Hold then a.value else a.value + (b.value - a.value) * Weight(shape, p)
  }

  // j parts of n of a span.
  function Share(j: nat, n: nat, span: real): real
    requires n >= 1
  {
    j as real / n as real * span
  }

  function StepAt(a: Point, b: Point, shape: Shape, n: nat, j: nat): Point
    requires n >= 1
  {
    Point(a.time + Share(j, n, b.time - a.time), Ideal(a, b, shape, j as real / n as real))
  }

  ghost function Ramp(a: Point, b: Point, shape: Shape, n: nat): (points: seq<Point>)
    requires n >= 1
    ensures |points| == n && forall j :: 0 <= j < n ==> points[j] == StepAt(a, b, shape, n, j)
  {
    seq(n, j requires 0 <= j < n => StepAt(a, b, shape, n, j))
  }

  // What a pair of neighbouring control points contributes.
  ghost function Pair(a: Point, b: Point, shape: Shape, resolution: real): seq<Point>
    requires resolution > 0.0
  {
    if b.time - a.time <= 0.0 then []
    else if shape == Hold then [a]
    else Ramp(a, b, shape, Steps(a, b, resolution))
  }

  ghost function Staircase(control: seq<Point>, shape: Shape, resolution: real): (points: seq<Point>)
    requires control != [] && resolution > 0.0
    ensures points != [] && points[|points| - 1] == control[|control| - 1]
  {
    if |control| == 1 then control
    else Pair(control[0], control[1], shape, resolution) + Staircase(control[1..], shape, resolution)
  }

  // A point that is not a gap away from the one before replaces it.
  ghost function Keep(thin: seq<Point>, point: Point): (kept: seq<Point>)
    ensures kept != [] && kept[|kept| - 1] == point && |kept| <= |thin| + 1
  {
    if thin != [] && Abs(point.time - thin[|thin| - 1].time) < GAP then thin[..|thin| - 1] + [point]
    else thin + [point]
  }

  ghost function Thinned(points: seq<Point>): (thin: seq<Point>)
    ensures points != [] ==> thin != [] && thin[|thin| - 1] == points[|points| - 1]
  {
    if points == [] then [] else Keep(Thinned(points[..|points| - 1]), points[|points| - 1])
  }

  lemma StaircaseUnfolds(control: seq<Point>, i: nat, shape: Shape, resolution: real)
    requires i < |control| && resolution > 0.0
    ensures i < |control| - 1 ==>
              Staircase(control[i..], shape, resolution) ==
              Pair(control[i], control[i + 1], shape, resolution) + Staircase(control[i + 1..], shape, resolution)
    ensures i == |control| - 1 ==> Staircase(control[i..], shape, resolution) == [control[i]]
  {
    hide Pair;
    if i < |control| - 1 {
      assert control[i..][1..] == control[i + 1..];
    }
  }

  // A ramp takes the fewest equal steps that are no longer than the resolution; what is held takes one.
  lemma PairSteps(a: Point, b: Point, shape: Shape, resolution: real)
    requires resolution > 0.0 && a.time < b.time
    ensures shape == Hold ==> Pair(a, b, shape, resolution) == [a]
    ensures shape != Hold ==>
              var n := |Pair(a, b, shape, resolution)| as real;
              n >= 1.0 && (n - 1.0) * resolution < b.time - a.time <= n * resolution
  {
    hide Steps;
    FewestSteps(a, b, resolution);
  }

  // The points of a ramp run along a line, a parabola from the start or a parabola into the end.
  lemma RampPoints(a: Point, b: Point, shape: Shape, resolution: real, i: nat)
    requires resolution > 0.0 && shape != Hold && i < |Pair(a, b, shape, resolution)|
    ensures var points := Pair(a, b, shape, resolution);
            var n, j, rise, gained := |points| as real, i as real, b.value - a.value, points[i].value - a.value;
            && (points[i].time - a.time) * n == (b.time - a.time) * j
            && (shape == Linear ==> gained * n == rise * j)
            && (shape == Exp ==> gained * (n * n) == rise * (j * j))
            && (shape == Log ==> gained * (n * n) == rise * (j * (2.0 * n - j)))
  {
    hide Steps, Ideal, Share;
    var n, j := Steps(a, b, resolution), i as real;
    ShareIs(i, n, b.time - a.time);
    IdealAt(a, b, shape, n as real, j, j / n as real);
  }

  lemma ShareIs(j: nat, n: nat, span: real)
    requires n >= 1
    ensures Share(j, n, span) * n as real == span * j as real
  {
    var p := j as real / n as real;
    assert p * n as real == j as real;
    Scaled(span, p, n as real, j as real);
  }

  lemma IdealAt(a: Point, b: Point, shape: Shape, n: real, j: real, p: real)
    requires n >= 1.0 && p == j / n
    ensures var rise, gained := b.value - a.value, Ideal(a, b, shape, p) - a.value;
            && (shape == Linear ==> gained * n == rise * j)
            && (shape == Exp ==> gained * (n * n) == rise * (j * j))
            && (shape == Log ==> gained * (n * n) == rise * (j * (2.0 * n - j)))
  {
    var rise := b.value - a.value;
    assert p * n == j;
    Scaled(rise, p, n, j);
    Squared(p, n, j);
    Scaled(rise, p * p, n * n, j * j);
    Squared(1.0 - p, n, n - j);
    Scaled(rise, 1.0 - (1.0 - p) * (1.0 - p), n * n, j * (2.0 * n - j));
  }

  lemma FewestSteps(a: Point, b: Point, resolution: real)
    requires a.time < b.time && resolution > 0.0
    ensures var n := Steps(a, b, resolution) as real;
            n >= 1.0 && (n - 1.0) * resolution < b.time - a.time <= n * resolution
  {
    var q, n := (b.time - a.time) / resolution, Steps(a, b, resolution) as real;
    assert q * resolution == b.time - a.time;
    Distribute(q, n - 1.0, resolution);
    Distribute(n, q, resolution);
  }

  lemma Distribute(x: real, y: real, s: real)
    requires s > 0.0
    ensures x > y ==> x * s > y * s
    ensures x >= y ==> x * s >= y * s
  {
    assert x * s - y * s == (x - y) * s;
  }

  lemma Squared(p: real, n: real, j: real)
    requires p * n == j
    ensures p * p * (n * n) == j * j
  {
    assert p * p * (n * n) == (p * n) * (p * n);
  }

  lemma Scaled(rise: real, w: real, n: real, x: real)
    requires w * n == x
    ensures rise * w * n == rise * x
  {}

  method ExpandPair(a: Point, b: Point, shape: Shape, resolution: real) returns (expanded: seq<Point>)
    requires resolution > 0.0
    ensures expanded == Pair(a, b, shape, resolution)
  {
    hide StepAt, Steps;
    expanded := [];
    if b.time - a.time <= 0.0 {
      return;
    }
    if shape == Hold {
      return [a];
    }
    var n := Steps(a, b, resolution);
    ghost var ramp := Ramp(a, b, shape, n);
    for j := 0 to n
      invariant expanded == ramp[..j]
    {
      expanded := expanded + [StepAt(a, b, shape, n, j)];
      assert ramp[..j + 1] == ramp[..j] + [ramp[j]];
    }
    assert ramp[..n] == ramp;
  }

  method ExpandCurve(control: seq<Point>, shape: Shape, resolution: real) returns (deduped: seq<Point>)
    requires control != [] && resolution > 0.0
    ensures deduped == Thinned(Staircase(control, shape, resolution))
  {
    hide Staircase, Pair, Thinned;
    var expanded: seq<Point> := [];
    assert control[0..] == control;
    for i := 0 to |control| - 1
      invariant expanded + Staircase(control[i..], shape, resolution) == Staircase(control, shape, resolution)
    {
      StaircaseUnfolds(control, i, shape, resolution);
      var pair := ExpandPair(control[i], control[i + 1], shape, resolution);
      expanded := expanded + pair;
    }
    StaircaseUnfolds(control, |control| - 1, shape, resolution);
    expanded := expanded + [control[|control| - 1]];
    deduped := Thin(expanded);
  }

  lemma NothingThinned()
    ensures Thinned([]) == []
  {}

  lemma ThinnedGrows(points: seq<Point>, point: Point)
    ensures Thinned(points + [point]) == Keep(Thinned(points), point)
  {
    hide Keep;
    assert (points + [point])[..|points|] == points;
  }

  method Thin(expanded: seq<Point>) returns (deduped: seq<Point>)
    ensures deduped == Thinned(expanded)
  {
    hide Thinned;
    deduped := [];
    NothingThinned();
    for i := 0 to |expanded|
      invariant deduped == Thinned(expanded[..i])
    {
      var point := expanded[i];
      assert expanded[..i + 1] == expanded[..i] + [point];
      ThinnedGrows(expanded[..i], point);
      if deduped != [] && Abs(point.time - deduped[|deduped| - 1].time) < GAP {
        deduped := deduped[|deduped| - 1 := point];
      } else {
        deduped := deduped + [point];
      }
    }
    assert expanded[..|expanded|] == expanded;
  }

  // ---------------------------------------------------------------- times

  ghost predicate Sorted(points: seq<Point>) {
    forall i, j :: 0 <= i < j < |points| ==> points[i].time <= points[j].time
  }

  ghost predicate Spaced(points: seq<Point>, gap: real) {
    forall i :: 0 <= i < |points| - 1 ==> Gap(points, i) >= gap
  }

  ghost predicate Increasing(points: seq<Point>) {
    forall i :: 0 <= i < |points| - 1 ==> Gap(points, i) > 0.0
  }

  lemma Shares(j: nat, n: nat, span: real)
    requires n >= 1 && span > 0.0
    ensures Share(0, n, span) == 0.0 && Share(n, n, span) == span && span / n as real > 0.0
    ensures Share(j + 1, n, span) == Share(j, n, span) + span / n as real
    ensures 0.0 <= Share(j, n, span) && (j < n ==> Share(j, n, span) < span)
  {
    var m := n as real;
    assert m / m == 1.0;
    assert (j + 1) as real / m == j as real / m + 1.0 / m;
    assert (j as real / m + 1.0 / m) * span == j as real / m * span + 1.0 / m * span;
    assert 1.0 / m * span == span / m;
    assert j as real / m >= 0.0;
    if j < n {
      assert j as real / m < m / m;
    }
  }

  lemma RampTimes(a: Point, b: Point, shape: Shape, n: nat, j: nat)
    requires a.time < b.time && j < n
    ensures a.time <= StepAt(a, b, shape, n, j).time < b.time
    ensures j == 0 ==> StepAt(a, b, shape, n, j).time == a.time
    ensures (if j + 1 < n then StepAt(a, b, shape, n, j + 1).time else b.time) - StepAt(a, b, shape, n, j).time
            == (b.time - a.time) / n as real > 0.0
  {
    hide Ideal, Share;
    Shares(j, n, b.time - a.time);
  }

  // How far apart the points of a pair are.
  ghost function Spacing(a: Point, b: Point, shape: Shape, resolution: real): real
    requires resolution > 0.0
  {
    if shape == Hold then b.time - a.time else (b.time - a.time) / Steps(a, b, resolution) as real
  }

  // The time up to which a point holds.
  ghost function Until(points: seq<Point>, i: nat, end: real): real {
    if i + 1 < |points| then points[i + 1].time else end
  }

  lemma PairTimes(a: Point, b: Point, shape: Shape, resolution: real)
    requires a.time <= b.time && resolution > 0.0
    ensures var points := Pair(a, b, shape, resolution);
            && (points == [] <==> a.time == b.time)
            && (points != [] ==> points[0].time == a.time && Spacing(a, b, shape, resolution) > 0.0)
            && (forall i :: 0 <= i < |points| ==> a.time <= points[i].time < b.time)
            && (forall i :: 0 <= i < |points| ==>
                  Until(points, i, b.time) - points[i].time == Spacing(a, b, shape, resolution))
  {
    if a.time < b.time && shape != Hold {
      hide StepAt, Steps;
      var n := Steps(a, b, resolution);
      var points := Ramp(a, b, shape, n);
      forall j | 0 <= j < |points|
        ensures a.time <= points[j].time < b.time
        ensures Until(points, j, b.time) - points[j].time == Spacing(a, b, shape, resolution) > 0.0
      {
        RampTimes(a, b, shape, n, j);
      }
      RampTimes(a, b, shape, n, 0);
      assert points[0] == StepAt(a, b, shape, n, 0);
    }
  }

  // Every ramp advances by at least the gap at each of its steps.
  ghost predicate Fine(control: seq<Point>, shape: Shape, resolution: real)
    requires resolution > 0.0
  {
    forall k :: 0 <= k < |control| - 1 && control[k].time < control[k + 1].time ==>
                  Spacing(control[k], control[k + 1], shape, resolution) >= GAP
  }

  lemma FineParts(control: seq<Point>, shape: Shape, resolution: real)
    requires |control| > 1 && resolution > 0.0
    ensures Fine(control, shape, resolution) <==>
            && (control[0].time < control[1].time ==> Spacing(control[0], control[1], shape, resolution) >= GAP)
            && Fine(control[1..], shape, resolution)
  {
    hide Spacing;
    var rest := control[1..];
    if Fine(rest, shape, resolution) {
      forall k | 1 <= k < |control| - 1 && control[k].time < control[k + 1].time
        ensures Spacing(control[k], control[k + 1], shape, resolution) >= GAP
      {
        assert rest[k - 1] == control[k] && rest[k] == control[k + 1];
      }
    }
  }

  lemma {:induction false} StaircaseTimes(control: seq<Point>, shape: Shape, resolution: real)
    requires control != [] && resolution > 0.0 && Sorted(control)
    ensures var points := Staircase(control, shape, resolution);
            && points[0].time == control[0].time
            && Increasing(points)
            && (Spaced(points, GAP) <==> Fine(control, shape, resolution))
    decreases |control|
  {
    if |control| > 1 {
      var pair := Pair(control[0], control[1], shape, resolution);
      var rest := Staircase(control[1..], shape, resolution);
      PairTimes(control[0], control[1], shape, resolution);
      StaircaseTimes(control[1..], shape, resolution);
      FineParts(control, shape, resolution);
      PairBeforeRest(pair, rest, control[1].time, Spacing(control[0], control[1], shape, resolution));
    }
  }

  // The time from one point to the next.
  function Gap(points: seq<Point>, i: nat): real
    requires i < |points| - 1
  {
    points[i + 1].time - points[i].time
  }

  // Points that stand evenly up to the time at which the rest begins.
  lemma GapsOfBoth(pair: seq<Point>, rest: seq<Point>, end: real, spacing: real)
    requires rest != [] && rest[0].time == end
    requires forall i :: 0 <= i < |pair| ==> Until(pair, i, end) - pair[i].time == spacing
    ensures forall i :: 0 <= i < |pair| ==> Gap(pair + rest, i) == spacing
    ensures forall i :: 0 <= i < |rest| - 1 ==> Gap(pair + rest, |pair| + i) == Gap(rest, i)
  {
    forall i | 0 <= i < |pair| ensures Gap(pair + rest, i) == spacing {
      assert (pair + rest)[i + 1].time == Until(pair, i, end);
    }
  }

  lemma PairBeforeRest(pair: seq<Point>, rest: seq<Point>, end: real, spacing: real)
    requires rest != [] && rest[0].time == end && Increasing(rest)
    requires pair != [] ==> spacing > 0.0
    requires forall i :: 0 <= i < |pair| ==> Until(pair, i, end) - pair[i].time == spacing
    ensures Increasing(pair + rest)
    ensures Spaced(pair + rest, GAP) <==> (pair != [] ==> spacing >= GAP) && Spaced(rest, GAP)
  {
    hide Until;
    var both := pair + rest;
    GapsOfBoth(pair, rest, end, spacing);
    forall i | 0 <= i < |both| - 1
      ensures Gap(both, i) == if i < |pair| then spacing else Gap(rest, i - |pair|)
    {
      assert i >= |pair| ==> Gap(both, |pair| + (i - |pair|)) == Gap(rest, i - |pair|);
    }
    assert pair != [] ==> Gap(both, 0) == spacing;
  }

  // ---------------------------------------------------------------- what thinning keeps

  lemma {:induction false} IncreasingIsSorted(points: seq<Point>)
    requires Increasing(points)
    ensures Sorted(points)
  {
    if |points| > 1 {
      var front := points[..|points| - 1];
      assert forall i :: 0 <= i < |front| - 1 ==> Gap(front, i) == Gap(points, i);
      IncreasingIsSorted(front);
      assert Gap(points, |front| - 1) > 0.0;
      assert forall i :: 0 <= i < |front| ==> points[i].time <= points[|front| - 1].time;
    }
  }

  lemma KeepIsSpaced(thin: seq<Point>, point: Point)
    requires Spaced(thin, GAP) && (thin != [] ==> thin[|thin| - 1].time <= point.time)
    ensures Spaced(Keep(thin, point), GAP)
    ensures |Keep(thin, point)| == |thin| + 1 <==> thin == [] || point.time - thin[|thin| - 1].time >= GAP
  {
    var kept := Keep(thin, point);
    forall i | 0 <= i < |kept| - 1 ensures Gap(kept, i) >= GAP {
      if i + 1 < |thin| {
        assert Gap(thin, i) >= GAP;
      }
    }
  }

  lemma SpacedGrows(points: seq<Point>, point: Point)
    ensures Spaced(points + [point], GAP) <==>
            Spaced(points, GAP) && (points == [] || point.time - points[|points| - 1].time >= GAP)
  {
    var grown := points + [point];
    assert forall i :: 0 <= i < |points| - 1 ==> Gap(grown, i) == Gap(points, i);
    assert points != [] ==> Gap(grown, |points| - 1) == point.time - points[|points| - 1].time;
  }

  // What is kept of a sorted list has the gap, and is the whole list exactly when that had it.
  lemma {:induction false} ThinnedIsSpaced(points: seq<Point>)
    requires Sorted(points)
    ensures Spaced(Thinned(points), GAP)
    ensures forall p <- Thinned(points) :: p in points
    ensures if Spaced(points, GAP) then Thinned(points) == points else |Thinned(points)| < |points|
  {
    hide Spaced, Keep;
    if points == [] {
      NothingThinned();
      SpacedEmpty();
    } else {
      var front, last := points[..|points| - 1], points[|points| - 1];
      ThinnedIsSpaced(front);
      assert points == front + [last];
      ThinnedGrows(front, last);
      KeepIsSpaced(Thinned(front), last);
      KeptIs(Thinned(front), last);
      SpacedGrows(front, last);
    }
  }

  lemma KeptIs(thin: seq<Point>, point: Point)
    ensures forall p <- Keep(thin, point) :: p == point || p in thin
    ensures |Keep(thin, point)| == |thin| + 1 ==> Keep(thin, point) == thin + [point]
  {}

  lemma SpacedEmpty()
    ensures Spaced([], GAP)
  {}

  // Points that follow each other at less than the gap all collapse into the last one.
  lemma {:induction false} CloseSetsCollapse(points: seq<Point>)
    requires points != [] && forall i :: 0 <= i < |points| - 1 ==> 0.0 <= Gap(points, i) < GAP
    ensures Thinned(points) == [points[|points| - 1]]
  {
    if |points| > 1 {
      var front := points[..|points| - 1];
      assert forall i :: 0 <= i < |front| - 1 ==> Gap(front, i) == Gap(points, i);
      CloseSetsCollapse(front);
      assert 0.0 <= Gap(points, |front| - 1) < GAP;
    }
  }

  // ---------------------------------------------------------------- values

  lemma WeightInUnit(shape: Shape, p: real)
    requires 0.0 <= p <= 1.0
    ensures 0.0 <= Weight(shape, p) <= 1.0
  {
    Square(p, p * p);
    Square(1.0 - p, (1.0 - p) * (1.0 - p));
  }

  lemma Square(x: real, xx: real)
    requires 0.0 <= x <= 1.0 && xx == x * x
    ensures 0.0 <= xx <= x
  {
    Order(x, 0.0, x, 0.0, xx);
    Order(x, x, 1.0, xx, x);
  }

  lemma Mixture(a: real, b: real, w: real, lo: real, hi: real)
    requires lo <= a <= hi && lo <= b <= hi && 0.0 <= w <= 1.0
    ensures lo <= a + (b - a) * w <= hi
  {
    var v := 1.0 - w;
    var p, q, r, s, t, u := a * v, b * w, lo * v, lo * w, hi * v, hi * w;
    Order(v, lo, a, r, p);
    Order(w, lo, b, s, q);
    Order(v, a, hi, p, t);
    Order(w, b, hi, q, u);
    assert r + s == lo && t + u == hi;
    assert a + (b - a) * w == p + q;
  }

  lemma Order(s: real, x: real, y: real, xs: real, ys: real)
    requires s >= 0.0 && x <= y && xs == x * s && ys == y * s
    ensures xs <= ys
  {}

  ghost predicate Within(p: Point, from: real, to': real, lo: real, hi: real) {
    from <= p.time <= to' && lo <= p.value <= hi
  }

  lemma PairInHull(a: Point, b: Point, shape: Shape, resolution: real, lo: real, hi: real)
    requires resolution > 0.0 && lo <= a.value <= hi && lo <= b.value <= hi
    ensures forall p <- Pair(a, b, shape, resolution) :: lo <= p.value <= hi
  {
    if a.time < b.time && shape != Hold {
      hide Steps, Share, Weight;
      var n := Steps(a, b, resolution);
      forall j | 0 <= j < n ensures lo <= StepAt(a, b, shape, n, j).value <= hi {
        Fractions(j, n);
        WeightInUnit(shape, j as real / n as real);
        Mixture(a.value, b.value, Weight(shape, j as real / n as real), lo, hi);
      }
    }
  }

  lemma Fractions(j: nat, n: nat)
    requires j < n
    ensures 0.0 <= j as real / n as real <= 1.0
    ensures (j + 1) as real / n as real == j as real / n as real + 1.0 / n as real <= 1.0
  {
    Quotient(j as real, n as real, j as real / n as real);
    Quotient((j + 1) as real, n as real, (j + 1) as real / n as real);
    assert (j + 1) as real / n as real == j as real / n as real + 1.0 / n as real;
  }

  lemma Quotient(x: real, m: real, q: real)
    requires m >= 1.0 && 0.0 <= x <= m && q == x / m
    ensures 0.0 <= q <= 1.0
  {}

  // No expanded value leaves the range of the control values, and no time their extent.
  lemma {:induction false} StaircaseInHull(control: seq<Point>, shape: Shape, resolution: real, lo: real, hi: real)
    requires control != [] && resolution > 0.0 && Sorted(control)
    requires forall p <- control :: lo <= p.value <= hi
    ensures forall p <- Staircase(control, shape, resolution) ::
              Within(p, control[0].time, control[|control| - 1].time, lo, hi)
    decreases |control|
  {
    if |control| > 1 {
      hide Pair;
      var a, b := control[0], control[1];
      PairTimes(a, b, shape, resolution);
      PairInHull(a, b, shape, resolution, lo, hi);
      StaircaseInHull(control[1..], shape, resolution, lo, hi);
    }
  }

  // ---------------------------------------------------------------- closeness to the ideal curve

  // How steep the weight can be.
  ghost function Steepness(shape: Shape): real {
    match shape
    case Hold => 0.0
    case Linear => 1.0
    case _ => 2.0
  }

  lemma WeightIsSteady(shape: Shape, q: real, p: real)
    requires shape != Hold && 0.0 <= q <= p <= 1.0
    ensures 0.0 <= Weight(shape, p) - Weight(shape, q) <= Steepness(shape) * (p - q)
  {
    SquaresDiffer(q, p, q * q, p * p);
    var p', q' := 1.0 - p, 1.0 - q;
    SquaresDiffer(p', q', p' * p', q' * q');
  }

  lemma SquaresDiffer(x: real, y: real, xx: real, yy: real)
    requires 0.0 <= x <= y <= 1.0 && xx == x * x && yy == y * y
    ensures 0.0 <= yy - xx <= 2.0 * (y - x)
  {
    var s, d := x + y, y - x;
    var sd := s * d;
    assert sd == yy - xx;
    Order(d, 0.0, s, 0.0, sd);
    Order(d, s, 2.0, sd, 2.0 * d);
  }

  // The value v is close to the ideal curve between a and b at the time t.
  ghost predicate Close(a: Point, b: Point, shape: Shape, n: nat, v: real, t: real)
    requires a.time < b.time && n >= 1
  {
    Abs(v - Ideal(a, b, shape, (t - a.time) / (b.time - a.time)))
    <= Steepness(shape) * Abs(b.value - a.value) / n as real
  }

  lemma Progress(t: real, span: real, j: nat, n: nat)
    requires span > 0.0 && j < n
    requires Share(j, n, span) <= t < Share(j + 1, n, span)
    ensures j as real / n as real <= t / span <= (j + 1) as real / n as real
  {
    var q, r := j as real / n as real, (j + 1) as real / n as real;
    assert q * span <= t <= r * span;
    assert q * span / span == q && r * span / span == r;
    assert q * span / span <= t / span <= r * span / span;
  }

  lemma Difference(c: real, d: real, s: real, m: real, cd: real, bound: real)
    requires m >= 1.0 && s >= 0.0 && 0.0 <= d <= s * (1.0 / m)
    requires cd == c * d && bound == s * Abs(c) / m
    ensures Abs(cd) <= bound
  {
    assert Abs(c * d) == Abs(c) * d;
    assert Abs(c) * d <= Abs(c) * (s * (1.0 / m));
    assert Abs(c) * (s * (1.0 / m)) == s * Abs(c) / m;
  }

  lemma WeightGap(shape: Shape, q: real, p: real, m: real)
    requires shape != Hold && m >= 1.0 && 0.0 <= q <= p <= 1.0 && p - q <= 1.0 / m
    ensures 0.0 <= Weight(shape, p) - Weight(shape, q) <= Steepness(shape) * (1.0 / m)
  {
    hide Weight, Steepness;
    WeightIsSteady(shape, q, p);
    SteepnessIsPositive(shape);
    Order(Steepness(shape), p - q, 1.0 / m, (p - q) * Steepness(shape), 1.0 / m * Steepness(shape));
  }

  lemma IdealIsSteady(a: Point, b: Point, shape: Shape, q: real, p: real, n: nat)
    requires shape != Hold && n >= 1 && 0.0 <= q <= p <= 1.0 && p - q <= 1.0 / n as real
    ensures Abs(Ideal(a, b, shape, q) - Ideal(a, b, shape, p)) <= Steepness(shape) * Abs(b.value - a.value) / n as real
  {
    hide Weight, Steepness, Abs;
    var s, m, c, w, x := Steepness(shape), n as real, b.value - a.value, Weight(shape, p), Weight(shape, q);
    WeightGap(shape, q, p, m);
    SteepnessIsPositive(shape);
    var d := w - x;
    var cw, cx, cd := c * w, c * x, c * d;
    assert cd == cw - cx;
    Difference(c, d, s, m, cd, s * Abs(c) / m);
    var i, j := Ideal(a, b, shape, q), Ideal(a, b, shape, p);
    assert i - j == -cd;
    EvenAbs(i - j, cd);
  }

  lemma EvenAbs(x: real, y: real)
    requires x == -y
    ensures Abs(x) == Abs(y)
  {}

  lemma SteepnessIsPositive(shape: Shape)
    ensures Steepness(shape) >= 0.0
  {}

  lemma StepIsClose(a: Point, b: Point, shape: Shape, n: nat, j: nat, t: real)
    requires a.time < b.time && j < n && shape != Hold
    requires StepAt(a, b, shape, n, j).time <= t
    requires t < if j + 1 < n then StepAt(a, b, shape, n, j + 1).time else b.time
    ensures Close(a, b, shape, n, StepAt(a, b, shape, n, j).value, t)
  {
    hide Share, Ideal, Steepness, Abs;
    var span := b.time - a.time;
    Shares(j, n, span);
    if j + 1 == n {
      Shares(n, n, span);
    }
    Progress(t - a.time, span, j, n);
    Fractions(j, n);
    IdealIsSteady(a, b, shape, j as real / n as real, (t - a.time) / span, n);
  }

  // At the time t the value v is close to the curve through the control points.
  ghost predicate Covered(control: seq<Point>, shape: Shape, resolution: real, v: real, t: real)
    requires resolution > 0.0
  {
    exists k :: 0 <= k < |control| - 1 && control[k].time <= t < control[k + 1].time &&
                Close(control[k], control[k + 1], shape, Steps(control[k], control[k + 1], resolution), v, t)
  }

  ghost predicate Follows(control: seq<Point>, shape: Shape, resolution: real, points: seq<Point>)
    requires resolution > 0.0
  {
    forall i, t :: 0 <= i < |points| - 1 && points[i].time <= t < points[i + 1].time ==>
                     Covered(control, shape, resolution, points[i].value, t)
  }

  lemma PairIsClose(a: Point, b: Point, shape: Shape, resolution: real, i: nat, t: real)
    requires resolution > 0.0 && a.time < b.time && i < |Pair(a, b, shape, resolution)|
    requires Pair(a, b, shape, resolution)[i].time <= t < Until(Pair(a, b, shape, resolution), i, b.time)
    ensures Close(a, b, shape, Steps(a, b, resolution), Pair(a, b, shape, resolution)[i].value, t)
  {
    hide StepAt, Steps;
    if shape != Hold {
      hide Close;
      StepIsClose(a, b, shape, Steps(a, b, resolution), i, t);
    }
  }

  // Each point of the staircase, held until the next one, stays close to the curve.
  lemma {:induction false} StaircaseFollows(control: seq<Point>, shape: Shape, resolution: real)
    requires control != [] && resolution > 0.0 && Sorted(control)
    ensures Follows(control, shape, resolution, Staircase(control, shape, resolution))
    decreases |control|
  {
    hide Pair, Follows;
    if |control| > 1 {
      StaircaseTimes(control[1..], shape, resolution);
      StaircaseFollows(control[1..], shape, resolution);
      PairFollows(control, shape, resolution, Staircase(control[1..], shape, resolution));
    } else {
      AlreadyFollows(control, shape, resolution);
    }
  }

  lemma AlreadyFollows(control: seq<Point>, shape: Shape, resolution: real)
    requires |control| == 1 && resolution > 0.0
    ensures Follows(control, shape, resolution, control)
  {}

  lemma PairFollows(control: seq<Point>, shape: Shape, resolution: real, rest: seq<Point>)
    requires |control| > 1 && resolution > 0.0 && Sorted(control)
    requires rest != [] && rest[0].time == control[1].time && Follows(control[1..], shape, resolution, rest)
    ensures Follows(control, shape, resolution, Pair(control[0], control[1], shape, resolution) + rest)
  {
    hide Pair, Close, Steps, Covered;
    var a, b := control[0], control[1];
    var pair := Pair(a, b, shape, resolution);
    var points := pair + rest;
    PairTimes(a, b, shape, resolution);
    forall i, t | 0 <= i < |points| - 1 && points[i].time <= t < points[i + 1].time
      ensures Covered(control, shape, resolution, points[i].value, t)
    {
      if i < |pair| {
        assert points[i + 1].time == Until(pair, i, b.time);
        PairIsCovered(control, shape, resolution, i, t);
      } else {
        var j := i - |pair|;
        assert points[i] == rest[j] && points[i + 1] == rest[j + 1];
        CoveredBefore(control, shape, resolution, rest[j].value, t);
      }
    }
  }

  lemma PairIsCovered(control: seq<Point>, shape: Shape, resolution: real, i: nat, t: real)
    requires |control| > 1 && resolution > 0.0 && control[0].time <= control[1].time
    requires i < |Pair(control[0], control[1], shape, resolution)|
    requires var pair := Pair(control[0], control[1], shape, resolution);
             pair[i].time <= t < Until(pair, i, control[1].time)
    ensures Covered(control, shape, resolution, Pair(control[0], control[1], shape, resolution)[i].value, t)
  {
    hide Pair, Close, Steps;
    var a, b := control[0], control[1];
    PairTimes(a, b, shape, resolution);
    PairIsClose(a, b, shape, resolution, i, t);
    assert control[0].time <= t < control[0 + 1].time;
  }

  lemma CoveredBefore(control: seq<Point>, shape: Shape, resolution: real, v: real, t: real)
    requires control != [] && resolution > 0.0 && Covered(control[1..], shape, resolution, v, t)
    ensures Covered(control, shape, resolution, v, t)
  {
    hide Close, Steps;
    var rest := control[1..];
    var k :| 0 <= k < |rest| - 1 && rest[k].time <= t < rest[k + 1].time &&
             Close(rest[k], rest[k + 1], shape, Steps(rest[k], rest[k + 1], resolution), v, t);
    assert control[k + 1] == rest[k] && control[k + 1 + 1] == rest[k + 1];
  }

  // What an expansion keeps: the exact last point, a gap between neighbours, the order of time, and the
  // range of the control values and times.
  lemma ExpansionIsSound(control: seq<Point>, shape: Shape, resolution: real, lo: real, hi: real)
    requires control != [] && resolution > 0.0 && Sorted(control)
    requires forall p <- control :: lo <= p.value <= hi
    ensures var points := Thinned(Staircase(control, shape, resolution));
            && points != [] && points[|points| - 1] == control[|control| - 1]
            && Spaced(points, GAP) && Sorted(points)
            && forall p <- points :: Within(p, control[0].time, control[|control| - 1].time, lo, hi)
  {
    var points := Staircase(control, shape, resolution);
    StaircaseTimes(control, shape, resolution);
    IncreasingIsSorted(points);
    ThinnedIsSpaced(points);
    IncreasingIsSorted(Thinned(points));
    StaircaseInHull(control, shape, resolution, lo, hi);
  }

  // Nothing is thinned out exactly when every ramp is fine; and then the staircase, step by step, stays
  // as close to the curve as one step of its ramp allows.
  lemma FineExpansionFollows(control: seq<Point>, shape: Shape, resolution: real)
    requires control != [] && resolution > 0.0 && Sorted(control)
    ensures var points := Staircase(control, shape, resolution);
            && (Thinned(points) == points <==> Fine(control, shape, resolution))
            && (Fine(control, shape, resolution) ==> Follows(control, shape, resolution, Thinned(points)))
  {
    StaircaseTimes(control, shape, resolution);
    IncreasingIsSorted(Staircase(control, shape, resolution));
    ThinnedIsSpaced(Staircase(control, shape, resolution));
    StaircaseFollows(control, shape, resolution);
  }

  // A ramp that is not fine is lost altogether: only its end is written.
  lemma CoarseRampCollapses(a: Point, b: Point, shape: Shape, resolution: real)
    requires resolution > 0.0 && a.time < b.time && Spacing(a, b, shape, resolution) < GAP
    ensures Thinned(Staircase([a, b], shape, resolution)) == [b]
  {
    hide Pair, Spacing;
    var pair := Pair(a, b, shape, resolution);
    PairTimes(a, b, shape, resolution);
    var points := Staircase([a, b], shape, resolution);
    assert [a, b][0..] == [a, b];
    StaircaseUnfolds([a, b], 0, shape, resolution);
    StaircaseUnfolds([a, b], 1, shape, resolution);
    GapsOfBoth(pair, [b], b.time, Spacing(a, b, shape, resolution));
    CloseSetsCollapse(points);
  }

  // ---------------------------------------------------------------- writing the curve

  datatype Step = Step(start: real, length: real, value: real)

  datatype Failure = BadInput | InvalidParams | LiveUnavailable

  datatype Outcome = Written(steps: seq<Step>) | Rejected(failure: Failure)

  // A stable sort by time.
  function SortByTime(points: seq<Point>): (sorted: seq<Point>)
    ensures |sorted| == |points| && Sorted(sorted)
    ensures forall q :: q in sorted <==> q in points
  {
    if points == [] then []
    else
      assert points == points[..|points| - 1] + [points[|points| - 1]];
      InsertByTime(SortByTime(points[..|points| - 1]), points[|points| - 1])
  }

  function InsertByTime(sorted: seq<Point>, p: Point): (grown: seq<Point>)
    requires Sorted(sorted)
    ensures |grown| == |sorted| + 1 && Sorted(grown)
    ensures forall q :: q in grown <==> q == p || q in sorted
  {
    if sorted == [] || p.time < sorted[0].time then [p] + sorted
    else
      assert sorted == [sorted[0]] + sorted[1..];
      var rest := InsertByTime(sorted[1..], p);
      assert forall q <- rest :: sorted[0].time <= q.time;
      [sorted[0]] + rest
  }

  lemma {:induction false} SortKeepsContents(points: seq<Point>)
    ensures multiset(SortByTime(points)) == multiset(points)
  {
    hide Sorted, InsertByTime;
    if points != [] {
      var front, last := points[..|points| - 1], points[|points| - 1];
      SortKeepsContents(front);
      InsertKeepsContents(SortByTime(front), last);
      assert points == front + [last];
    }
  }

  lemma {:induction false} InsertKeepsContents(sorted: seq<Point>, p: Point)
    requires Sorted(sorted)
    ensures multiset(InsertByTime(sorted, p)) == multiset(sorted) + multiset{p}
  {
    if sorted != [] && p.time >= sorted[0].time {
      InsertKeepsContents(sorted[1..], p);
      assert sorted == [sorted[0]] + sorted[1..];
    }
  }

  lemma {:induction false} InsertAtEnd(sorted: seq<Point>, p: Point)
    requires Sorted(sorted) && (sorted != [] ==> sorted[|sorted| - 1].time <= p.time)
    ensures InsertByTime(sorted, p) == sorted + [p]
  {
    if sorted != [] {
      assert sorted[0].time <= p.time;
      InsertAtEnd(sorted[1..], p);
    }
  }

  lemma {:induction false} SortedStays(points: seq<Point>)
    requires Sorted(points)
    ensures SortByTime(points) == points
  {
    if points != [] {
      var front, last := points[..|points| - 1], points[|points| - 1];
      SortedStays(front);
      InsertAtEnd(front, last);
    }
  }

  ghost function StepOf(points: seq<Point>, i: nat): Step
    requires i < |points|
  {
    Step(points[i].time, if i + 1 < |points| then points[i + 1].time - points[i].time else 0.0, points[i].value)
  }

  ghost function StepsOf(points: seq<Point>): (steps: seq<Step>)
    ensures |steps| == |points| && forall i :: 0 <= i < |steps| ==> steps[i] == StepOf(points, i)
  {
    seq(|points|, i requires 0 <= i < |points| => StepOf(points, i))
  }

  // What Live offers for the envelopes of a clip: the calls to get, create, clear and insert; whether
  // the first two give an envelope once it was cleared; and whether the clip shows it a tick later.
  datatype EnvelopeApi = EnvelopeApi(
    gets: bool, creates: bool, clears: bool, inserts: bool, found: bool, created: bool, shows: bool)
  {
    ghost predicate Clearable() {
      (gets || creates) && clears
    }

    ghost predicate Writable() {
      Clearable() && ((gets && found) || (creates && created)) && inserts
    }

    // What is there of an envelope when these steps were to replace what it held.
    ghost function Leaves(before: seq<Step>, steps: seq<Step>): (after: seq<Step>) {
      if Writable() then steps else if Clearable() then [] else before
    }
  }

  class Envelope {
    const api: EnvelopeApi
    var steps: seq<Step>

    constructor (api: EnvelopeApi)
      ensures this.api == api && steps == []
    {
      this.api, steps := api, [];
    }

    method Clear()
      modifies this
      ensures steps == []
    {
      steps := [];
    }

    method InsertStep(start: real, length: real, value: real)
      modifies this
      ensures steps == old(steps) + [Step(start, length, value)]
    {
      steps := steps + [Step(start, length, value)];
    }

    // Without `insert_step` nothing is written.
    method InsertSteps(points: seq<Point>) returns (failure: Option<Failure>)
      modifies this
      ensures failure == if api.inserts then None else Some(LiveUnavailable)
      ensures steps == if api.inserts then old(steps) + StepsOf(points) else old(steps)
    {
      if !api.inserts {
        return Some(LiveUnavailable);
      }
      for index := 0 to |points|
        invariant steps == old(steps) + StepsOf(points)[..index]
      {
        var point := points[index];
        var duration := if index + 1 < |points| then points[index + 1].time - point.time else 0.0;
        InsertStep(point.time, duration, point.value);
      }
      return None;
    }

    // The envelope is cleared before it is known to be there.
    method ClearAndGet() returns (failure: Option<Failure>)
      modifies this
      ensures failure.None? <==> api.Clearable() && ((api.gets && api.found) || (api.creates && api.created))
      ensures failure.Some? ==> failure.value == LiveUnavailable
      ensures steps == if api.Clearable() then [] else old(steps)
    {
      if (!api.gets && !api.creates) || !api.clears {
        return Some(LiveUnavailable);
      }
      Clear();
      var envelope := api.gets && api.found;
      if !envelope && api.creates {
        envelope := api.created;
      }
      return if envelope then None else Some(LiveUnavailable);
    }

    // Points are checked one by one, sorted, and replace what the envelope held.
    method CreateAutomation(raw: seq<Point>, minimum: real, maximum: real) returns (failure: Option<Failure>)
      modifies this
      ensures failure == var problem := Problem(raw, minimum, maximum);
                         if problem.Some? then problem
                         else if api.Writable() && api.shows then None
                         else Some(LiveUnavailable)
      ensures steps == if Problem(raw, minimum, maximum).Some? then old(steps)
                       else api.Leaves(old(steps), StepsOf(SortByTime(raw)))
    {
      if |raw| < 1 || |raw| > 500 {
        return Some(InvalidParams);
      }
      for i := 0 to |raw|
        invariant FirstProblem(raw[..i], minimum, maximum).None? && steps == old(steps)
      {
        assert raw[..i + 1][..i] == raw[..i];
        if FirstProblem(raw[..i + 1], minimum, maximum).Some? {
          FirstProblemStays(raw, i + 1, minimum, maximum);
        }
        if !(0.0 <= raw[i].time <= 100000.0 && -1000000.0 <= raw[i].value <= 1000000.0) {
          return Some(BadInput);
        }
        if raw[i].value < minimum || raw[i].value > maximum {
          return Some(InvalidParams);
        }
      }
      assert raw[..|raw|] == raw;
      failure := ClearAndGet();
      if failure.Some? {
        return;
      }
      failure := InsertSteps(SortByTime(raw));
      if failure.Some? {
        return;
      }
      return if api.shows then None else Some(LiveUnavailable);
    }

    method CreateCurve(raw: seq<Point>, shape: Shape, resolution: real, minimum: real, maximum: real)
      returns (outcome: Outcome)
      modifies this
      ensures !CurveRequest(raw, resolution) ==>
                outcome == Rejected(if 0.0 < resolution <= 16.0 && !(2 <= |raw| <= 200) then InvalidParams else BadInput)
      ensures CurveRequest(raw, resolution) ==>
                var points := Thinned(Staircase(SortByTime(raw), shape, resolution));
                outcome == if |points| > 500 then Rejected(BadInput)
                           else if exists p <- points :: !(minimum <= p.value <= maximum) then Rejected(InvalidParams)
                           else if api.Writable() && api.shows then Written(StepsOf(points))
                           else Rejected(LiveUnavailable)
      ensures CurveRequest(raw, resolution) && (forall p <- raw :: minimum <= p.value <= maximum) ==>
                outcome != Rejected(InvalidParams)
      ensures outcome.Rejected? && !outcome.failure.LiveUnavailable? ==> steps == old(steps)
      ensures outcome.Written? || outcome.failure.LiveUnavailable? ==>
                CurveRequest(raw, resolution)
                && steps == api.Leaves(old(steps), StepsOf(Thinned(Staircase(SortByTime(raw), shape, resolution))))
    {
      hide Staircase, Thinned, SortByTime, FirstProblem, Sorted, StepsOf;
      if resolution <= 0.0 || resolution > 16.0 {
        return Rejected(BadInput);
      }
      if |raw| < 2 || |raw| > 200 {
        return Rejected(InvalidParams);
      }
      for i := 0 to |raw|
        invariant steps == old(steps) && forall p <- raw[..i] :: Allowed(p, 100000.0)
      {
        if !(0.0 <= raw[i].time <= 100000.0 && -100000.0 <= raw[i].value <= 100000.0) {
          assert raw[i] in raw && !Allowed(raw[i], 100000.0);
          return Rejected(BadInput);
        }
      }
      assert raw[..|raw|] == raw;
      var expanded := ExpandCurve(SortByTime(raw), shape, resolution);
      RequestExpands(raw, shape, resolution, minimum, maximum);
      if |expanded| > 500 {
        return Rejected(BadInput);
      }
      SortedStays(expanded);
      OnlyRangeProblems(expanded, minimum, maximum);
      var failure := CreateAutomation(expanded, minimum, maximum);
      outcome := if failure.None? then Written(steps) else Rejected(failure.value);
    }
  }

  // What is wrong with a list of points to be written.
  ghost function Problem(points: seq<Point>, minimum: real, maximum: real): (failure: Option<Failure>) {
    if 1 <= |points| <= 500 then FirstProblem(points, minimum, maximum) else Some(InvalidParams)
  }

  // What is wrong with the first point that may not be written.
  ghost function FirstProblem(points: seq<Point>, minimum: real, maximum: real): (failure: Option<Failure>)
    ensures failure.None? <==>
            forall p <- points :: Allowed(p, 1000000.0) && minimum <= p.value <= maximum
  {
    if points == [] then None
    else
      assert points == points[..|points| - 1] + [points[|points| - 1]];
      var earlier, last := FirstProblem(points[..|points| - 1], minimum, maximum), points[|points| - 1];
      if earlier.Some? then earlier
      else if !Allowed(last, 1000000.0) then Some(BadInput)
      else if last.value < minimum || last.value > maximum then Some(InvalidParams)
      else None
  }

  lemma {:induction false} FirstProblemStays(points: seq<Point>, k: nat, minimum: real, maximum: real)
    requires k <= |points| && FirstProblem(points[..k], minimum, maximum).Some?
    ensures FirstProblem(points, minimum, maximum) == FirstProblem(points[..k], minimum, maximum)
  {
    if k == |points| {
      assert points[..k] == points;
    } else {
      assert points[..|points| - 1][..k] == points[..k];
      FirstProblemStays(points[..|points| - 1], k, minimum, maximum);
    }
  }

  lemma {:induction false} OnlyRangeProblems(points: seq<Point>, minimum: real, maximum: real)
    requires forall p <- points :: Allowed(p, 100000.0)
    ensures FirstProblem(points, minimum, maximum) ==
            if exists p <- points :: !(minimum <= p.value <= maximum) then Some(InvalidParams) else None
  {
    if points != [] {
      OnlyRangeProblems(points[..|points| - 1], minimum, maximum);
      assert points == points[..|points| - 1] + [points[|points| - 1]];
    }
  }

  ghost predicate Allowed(p: Point, bound: real) {
    0.0 <= p.time <= 100000.0 && -bound <= p.value <= bound
  }

  ghost predicate CurveRequest(raw: seq<Point>, resolution: real) {
    0.0 < resolution <= 16.0 && 2 <= |raw| <= 200 && forall p <- raw :: Allowed(p, 100000.0)
  }

  // A valid request expands to points that pass the second check, but for their number and, unless all
  // the control values were in it, the range of the parameter.
  lemma RequestExpands(raw: seq<Point>, shape: Shape, resolution: real, minimum: real, maximum: real)
    requires CurveRequest(raw, resolution)
    ensures var points := Thinned(Staircase(SortByTime(raw), shape, resolution));
            && points != [] && Sorted(points)
            && (forall p <- points :: Allowed(p, 100000.0))
            && ((forall p <- raw :: minimum <= p.value <= maximum) ==>
                  forall p <- points :: minimum <= p.value <= maximum)
  {
    hide Thinned, Staircase;
    var control := SortByTime(raw);
    ExpansionIsSound(control, shape, resolution, -100000.0, 100000.0);
    assert control[0] in raw && control[|control| - 1] in raw;
    if forall p <- raw :: minimum <= p.value <= maximum {
      ExpansionIsSound(control, shape, resolution, minimum, maximum);
    }
  }

  // The steps of a spaced list of points follow each other with no gap and no overlap, from the first
  // point to the last, which has no length.
  lemma StepsTile(points: seq<Point>)
    requires points != [] && Spaced(points, GAP)
    ensures var steps := StepsOf(points);
            && steps[0].start == points[0].time
            && (forall i :: 0 <= i < |steps| - 1 ==>
                  steps[i].length >= GAP && steps[i].start + steps[i].length == steps[i + 1].start)
            && steps[|steps| - 1] == Step(points[|points| - 1].time, 0.0, points[|points| - 1].value)
  {
    forall i | 0 <= i < |points| - 1 ensures StepOf(points, i).length == Gap(points, i) {}
  }
}
