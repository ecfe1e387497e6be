/**
 The timed fade and the deadline that client and server share.

 The clock is read at ticks: between two ticks it advances by at least `least` and at most `most`, and
 within a tick it stands still.  Rounding is not modelled.
 */
module Fade {
  import opened Wrappers

  datatype Shape = Smoothstep | Linear

  datatype Write = Write(at: real, value: real)

  function Shaped(shape: Shape, t: real): real {
    if shape == Smoothstep then t * t * (3.0 - 2.0 * t) else t
  }

  function Fraction(k: nat, n: nat): real
    requires n >= 1
  {
    k as real / n as real
  }

  function Mix(start: real, change: real, weight: real): real {
    start + change * weight
  }

  // The k-th of n values between start and target.
  function Value(start: real, target: real, shape: Shape, k: nat, n: nat): real
    requires n >= 1
  {
    Mix(start, target - start, Shaped(shape, Fraction(k, n)))
  }

  class Live {
    const least: real
    const most: real
    var now: real
    var writes: seq<Write>

    predicate Valid() {
      0.0 < least <= most
    }

    constructor (least: real, most: real, now: real)
      requires 0.0 < least <= most
      ensures Valid() && this.least == least && this.most == most && this.now == now && writes == []
    {
      this.least, this.most, this.now, writes := least, most, now, [];
    }

    // Give the turn back to Live until its next tick.
    method Tick()
      requires Valid()
      modifies this`now
      ensures old(now) + least <= now <= old(now) + most
    {
      var elapsed: real := *;
      now := now + if least <= elapsed <= most then elapsed else most;
    }

    method SetValue(value: real)
      modifies this`writes
      ensures writes == old(writes) + [Write(now, value)]
    {
      writes := writes + [Write(now, value)];
    }

    method WaitUntil(deadline: real)
      requires Valid()
      modifies this`now
      ensures deadline <= now && old(now) <= now
      ensures now == old(now) || now < deadline + most
    {
      while now < deadline
        invariant old(now) <= now
        invariant now == old(now) || now < deadline + most
        decreases ((deadline - now) / least).Floor
      {
        ghost var before := now;
        Tick();
        Closer(deadline - before, deadline - now, least);
      }
    }

    // Write k of a fade that began at `began`: its value, and when it can be.
    ghost predicate Timely(w: Write, k: nat, began: real, start: real, target: real, shape: Shape,
                           duration: real, steps: nat)
      requires steps >= 1
    {
      && w.value == Value(start, target, shape, k, steps)
      && Part(k, duration, steps) <= w.at - began <= Latest(k, duration, steps, most)
    }

    method FadeWriteValues(start: real, target: real, shape: Shape, duration: real, steps: nat)
      requires Valid() && duration >= 0.0 && steps >= 1
      modifies this
      ensures old(writes) <= writes && old(now) + duration <= now
      ensures duration == 0.0 ==>
                && writes == old(writes) + [Write(old(now), target)]
                && old(now) + least <= now <= old(now) + most
      ensures duration > 0.0 ==>
                && |writes| == |old(writes)| + steps && writes[|writes| - 1].at == now
                && forall j :: |old(writes)| <= j < |writes| ==>
                     Timely(writes[j], j - |old(writes)| + 1, old(now), start, target, shape, duration, steps)
    {
      hide Part, Latest, Value, Shaped, Mix, Timely;
      if duration == 0.0 {
        var t := 1.0;
        ShapedEnds(shape);
        MixRises(start, target - start, 1.0, 1.0);
        SetValue(Mix(start, target - start, Shaped(shape, t)));
        Tick();
      } else {
        WriteInSteps(start, target, shape, duration, steps);
      }
    }

    method WriteInSteps(start: real, target: real, shape: Shape, duration: real, steps: nat)
      requires Valid() && duration > 0.0 && steps >= 1
      modifies this
      ensures old(writes) <= writes && old(now) + duration <= now
      ensures |writes| == |old(writes)| + steps && writes[|writes| - 1].at == now
      ensures forall j :: |old(writes)| <= j < |writes| ==>
                Timely(writes[j], j - |old(writes)| + 1, old(now), start, target, shape, duration, steps)
    {
      hide Part, Latest, Value;
      var interval := duration / steps as real;
      ghost var before := |writes|;
      Parts(0, duration, steps);
      LatestIsLater(0, duration, steps, most);
      for step := 1 to steps + 1
        invariant old(writes) <= writes && |writes| == before + step - 1
        invariant step > 1 ==> writes[|writes| - 1].at == now
        invariant Part(step - 1, duration, steps) <= now - old(now) <= Latest(step - 1, duration, steps, most)
        invariant forall j :: before <= j < |writes| ==>
                    Timely(writes[j], j - before + 1, old(now), start, target, shape, duration, steps)
      {
        Parts(step - 1, duration, steps);
        LatestIsLater(step - 1, duration, steps, most);
        WaitUntil(now + interval);
        SetValue(Value(start, target, shape, step, steps));
      }
    }
  }

  lemma ShapedEnds(shape: Shape)
    ensures Shaped(shape, 1.0) == 1.0
  {}

  // k of n parts of a duration.
  function Part(k: nat, duration: real, n: nat): real
    requires n >= 1
  {
    k as real * (duration / n as real)
  }

  // When k of n parts are over at the latest, if each wait overshoots by less than `most`.
  function Latest(k: nat, duration: real, n: nat, most: real): real
    requires n >= 1
  {
    Part(k, duration, n) + k as real * most
  }

  lemma LatestIsLater(k: nat, duration: real, n: nat, most: real)
    requires n >= 1 && duration > 0.0
    ensures Latest(0, duration, n, most) == 0.0
    ensures Latest(k + 1, duration, n, most) == Latest(k, duration, n, most) + duration / n as real + most
    ensures Latest(n, duration, n, most) == duration + n as real * most
  {
    Parts(k, duration, n);
    hide Part;
    assert (k + 1) as real * most == k as real * most + most;
  }

  lemma Parts(k: nat, duration: real, n: nat)
    requires n >= 1 && duration > 0.0
    ensures Part(0, duration, n) == 0.0 && Part(n, duration, n) == duration
    ensures Part(k + 1, duration, n) == Part(k, duration, n) + duration / n as real
    ensures duration / n as real > 0.0
  {
    var i := duration / n as real;
    assert n as real * i == duration;
    assert (k + 1) as real * i == k as real * i + i;
  }

  lemma Closer(x: real, y: real, least: real)
    requires least > 0.0 && x > 0.0 && y <= x - least
    ensures (y / least).Floor < (x / least).Floor
    ensures (x / least).Floor >= 0
  {
    var p, q := x / least, y / least;
    assert p * least == x && q * least == y;
    Apart(p, q, least, p * least, q * least);
  }

  lemma Apart(p: real, q: real, least: real, x: real, y: real)
    requires least > 0.0 && x == p * least && y == q * least && x > 0.0 && y <= x - least
    ensures q <= p - 1.0 && p > 0.0
  {
    var r := p - q - 1.0;
    assert r * least == x - y - least;
  }

  // ---------------------------------------------------------------- the values of a fade

  lemma SmoothstepRises(t: real, u: real)
    requires 0.0 <= t <= u <= 1.0
    ensures 0.0 <= Shaped(Smoothstep, t) <= Shaped(Smoothstep, u) <= 1.0
  {
    Rises(0.0, t);
    Rises(t, u);
    Rises(u, 1.0);
  }

  lemma Rises(t: real, u: real)
    requires 0.0 <= t <= u <= 1.0
    ensures Shaped(Smoothstep, t) <= Shaped(Smoothstep, u)
  {
    var tt, tu, uu := t * t, t * u, u * u;
    Product(t, 1.0 - t, t - tt);
    Product(t, 1.0 - u, t - tu);
    Product(u, 1.0 - u, u - uu);
    var slope := 3.0 * (u + t) - 2.0 * (uu + tu + tt);
    assert slope >= u - t;
    Product(u - t, slope, (u - t) * slope);
    assert Shaped(Smoothstep, u) - Shaped(Smoothstep, t) == (u - t) * slope;
  }

  lemma Product(x: real, y: real, xy: real)
    requires x >= 0.0 && y >= 0.0 && xy == x * y
    ensures xy >= 0.0
  {}

  // The values run one way from the start to the target and end there exactly.
  lemma FadeIsMonotone(start: real, target: real, shape: Shape, j: nat, k: nat, n: nat)
    requires j <= k <= n && n >= 1
    ensures Value(start, target, shape, n, n) == target && Value(start, target, shape, 0, n) == start
    ensures start <= target ==>
              start <= Value(start, target, shape, j, n) <= Value(start, target, shape, k, n) <= target
    ensures target <= start ==>
              target <= Value(start, target, shape, k, n) <= Value(start, target, shape, j, n) <= start
  {
    hide Fraction, Mix, Shaped;
    var t, u := Fraction(j, n), Fraction(k, n);
    Fractions(j, k, n);
    ShapedRises(shape, t, u);
    MixRises(start, target - start, Shaped(shape, t), Shaped(shape, u));
  }

  // Linear writes rise by equal parts; smoothstep is the cubic that starts and ends flat.  Under both
  // shapes the second half of a fade mirrors the first.
  lemma FadeShapes(start: real, target: real, k: nat, n: nat)
    requires k <= n && n >= 1
    ensures var x, m := k as real, n as real;
            && (Value(start, target, Linear, k, n) - start) * m == (target - start) * x
            && (Value(start, target, Smoothstep, k, n) - start) * (m * m * m)
               == (target - start) * (x * x * (3.0 * m - 2.0 * x))
    ensures forall shape :: Value(start, target, shape, k, n) + Value(start, target, shape, n - k, n) == start + target
  {
    var x, m, c := k as real, n as real, target - start;
    var t, u := x / m, (n - k) as real / m;
    assert t * m == x;
    Cubic(t, m, x);
    Scaled(c, t, m, x);
    Scaled(c, t * t * (3.0 - 2.0 * t), m * m * m, x * x * (3.0 * m - 2.0 * x));
    assert u == 1.0 - t by { Complement(t, u, m, x); }
    forall shape ensures Value(start, target, shape, k, n) + Value(start, target, shape, n - k, n) == start + target {
      Mirrors(shape, t);
      Halves(c, Shaped(shape, t), Shaped(shape, u));
    }
  }

  lemma Complement(t: real, u: real, m: real, x: real)
    requires m > 0.0 && t == x / m && u == (m - x) / m
    ensures u == 1.0 - t
  {
    assert (m - x) / m == m / m - x / m;
  }

  lemma Cubic(t: real, m: real, x: real)
    requires t * m == x
    ensures t * t * (3.0 - 2.0 * t) * (m * m * m) == x * x * (3.0 * m - 2.0 * x)
  {
    assert x * x == (t * t) * (m * m);
    assert (3.0 - 2.0 * t) * m == 3.0 * m - 2.0 * x;
    assert t * t * (3.0 - 2.0 * t) * (m * m * m) == ((t * t) * (m * m)) * ((3.0 - 2.0 * t) * m);
  }

  lemma Scaled(c: real, w: real, m: real, x: real)
    requires w * m == x
    ensures c * w * m == c * x
  {}

  lemma Mirrors(shape: Shape, t: real)
    ensures Shaped(shape, t) + Shaped(shape, 1.0 - t) == 1.0
  {}

  lemma Halves(c: real, v: real, w: real)
    requires v + w == 1.0
    ensures c * v + c * w == c
  {
    assert c * (v + w) == c * v + c * w;
  }

  lemma MixRises(start: real, c: real, v: real, w: real)
    requires 0.0 <= v <= w <= 1.0
    ensures Mix(start, c, 0.0) == start && Mix(start, c, 1.0) == start + c
    ensures c >= 0.0 ==> start <= Mix(start, c, v) <= Mix(start, c, w) <= start + c
    ensures c <= 0.0 ==> start + c <= Mix(start, c, w) <= Mix(start, c, v) <= start
  {
    Between(start, c, v, w, c * v, c * w);
  }

  lemma ShapedRises(shape: Shape, t: real, u: real)
    requires 0.0 <= t <= u <= 1.0
    ensures Shaped(shape, 0.0) == 0.0 <= Shaped(shape, t) <= Shaped(shape, u) <= 1.0 == Shaped(shape, 1.0)
  {
    SmoothstepRises(t, u);
  }

  lemma Between(start: real, c: real, v: real, w: real, cv: real, cw: real)
    requires 0.0 <= v <= w <= 1.0 && cv == c * v && cw == c * w
    ensures c >= 0.0 ==> start <= start + cv <= start + cw <= start + c
    ensures c <= 0.0 ==> start + c <= start + cw <= start + cv <= start
  {
    if c >= 0.0 {
      Product(c, v, cv);
      Product(c, w - v, cw - cv);
      Product(c, 1.0 - w, c - cw);
    }
    if c <= 0.0 {
      Product(-c, v, -cv);
      Product(-c, w - v, cv - cw);
      Product(-c, 1.0 - w, cw - c);
    }
  }

  lemma Fractions(j: nat, k: nat, n: nat)
    requires j <= k <= n && n >= 1
    ensures 0.0 == Fraction(0, n) <= Fraction(j, n) <= Fraction(k, n) <= 1.0 == Fraction(n, n)
  {}

  // ---------------------------------------------------------------- the shared deadline

  const REQUEST_TIMEOUT: real := 20.0
  const PER_WORK_UNIT: real := 2.0

  // What the deadline of a request depends on; None stands for a value that is not given.
  datatype Request =
    | BulkCreateCuePoints(items: Option<nat>)
    | CreateClipAutomation(points: Option<nat>)
    | SetClipProperties(named: nat)
    | ClearClipNotes
    | LiveFade(duration: Option<real>, steps: Option<int>)
    | LoadDeviceToTrack
    | SearchBrowser
    | RunBatch(commands: seq<Request>)
    | Other

  function Max(a: int, b: int): int {
    if a > b then a else b
  }

  function Least(a: int, b: int): int {
    if a < b then a else b
  }

  function WorkUnits(r: Request): (units: int)
    decreases r
  {
    match r
    case BulkCreateCuePoints(items) => if items.Some? then Max(1, items.value) else 1
    case CreateClipAutomation(points) => if points.Some? then Least(10, 1 + points.value) else 1
    case SetClipProperties(named) => Max(1, named)
    case ClearClipNotes => 2
    case LiveFade(_, steps) => if steps.Some? then Least(60, steps.value + 1) else 41
    case RunBatch(commands) => Max(1, TotalUnits(commands))
    case _ => 1
  }

  function TotalUnits(commands: seq<Request>): int
    decreases commands
  {
    if commands == [] then 0
    else TotalUnits(commands[..|commands| - 1]) + WorkUnits(commands[|commands| - 1])
  }

  // What a command gets at least.
  function Override(r: Request): real {
    match r
    case LoadDeviceToTrack => 30.0
    case SearchBrowser => 30.0
    case CreateClipAutomation(_) => 20.0
    case LiveFade(_, _) => 60.0
    case _ => 0.0
  }

  function RequestTimeout(r: Request): real {
    var scaled := REQUEST_TIMEOUT + (WorkUnits(r) - 1) as real * PER_WORK_UNIT;
    var base := if scaled > Override(r) then scaled else Override(r);
    if r.LiveFade? && r.duration.Some? && r.duration.value > 0.0 && r.duration.value + REQUEST_TIMEOUT > base
    then r.duration.value + REQUEST_TIMEOUT
    else base
  }

  // The deadline of every command: two seconds for each unit of work after the first, and what some
  // commands get at least.
  lemma DeadlineOf(n: nat, k: int, d: real)
    ensures RequestTimeout(BulkCreateCuePoints(Some(n))) == (if n == 0 then 20.0 else 18.0 + 2.0 * n as real)
    ensures RequestTimeout(SetClipProperties(n)) == (if n == 0 then 20.0 else 18.0 + 2.0 * n as real)
    ensures RequestTimeout(CreateClipAutomation(Some(n))) == (if n >= 9 then 38.0 else 20.0 + 2.0 * n as real)
    // A fade gets the most of 60 seconds, what its steps are worth, and 20 more than its duration.
    ensures var deadline := RequestTimeout(LiveFade(Some(d), Some(k)));
            var worth := if k >= 59 then 138.0 else 20.0 + 2.0 * k as real;
            && deadline >= 60.0 && deadline >= worth && (d > 0.0 ==> deadline >= 20.0 + d)
            && deadline in {60.0, worth, 20.0 + d}
            && RequestTimeout(LiveFade(None, Some(k))) == (if worth > 60.0 then worth else 60.0)
    ensures RequestTimeout(LiveFade(None, None)) == 100.0
    ensures RequestTimeout(BulkCreateCuePoints(None)) == RequestTimeout(CreateClipAutomation(None)) == 20.0
    ensures RequestTimeout(LoadDeviceToTrack) == RequestTimeout(SearchBrowser) == 30.0
    ensures RequestTimeout(ClearClipNotes) == 22.0 && RequestTimeout(Other) == 20.0
  {
  }

  // Two batches in one get the deadlines of both, less the 18 seconds that a request gets for itself.
  lemma BatchDeadlineAdds(first: seq<Request>, second: seq<Request>)
    requires TotalUnits(first) >= 1 && TotalUnits(second) >= 1
    ensures RequestTimeout(RunBatch(first + second)) ==
            RequestTimeout(RunBatch(first)) + RequestTimeout(RunBatch(second)) - 18.0
  {
    UnitsAdd(first, second);
  }

  lemma {:induction false} UnitsAdd(first: seq<Request>, second: seq<Request>)
    ensures TotalUnits(first + second) == TotalUnits(first) + TotalUnits(second)
    decreases second
  {
    hide WorkUnits;
    if second == [] {
      assert first + second == first;
    } else {
      var front := second[..|second| - 1];
      assert (first + second)[..|first + second| - 1] == first + front;
      UnitsAdd(first, front);
    }
  }

  // The duration and the number of steps of a fade that is accepted, with their defaults.
  function Duration(fade: Request): real
    requires fade.LiveFade?
  {
    if fade.duration.Some? then fade.duration.value else 10.0
  }

  function StepCount(fade: Request): int
    requires fade.LiveFade?
  {
    if fade.steps.Some? then fade.steps.value else 40
  }

  ghost predicate Accepted(fade: Request) {
    fade.LiveFade? && 0.0 <= Duration(fade) <= 60.0 && StepCount(fade) >= 1
  }

  // A fade that has waited in the queue, and whose steps overshoot, by no more than 20 seconds in all is
  // over before its deadline, which runs from the time it was queued.
  method FadeInTime(live: Live, start: real, target: real, shape: Shape, fade: Request, queued: real)
    requires live.Valid() && Accepted(fade) && queued >= 0.0
    requires queued + StepCount(fade) as real * live.most <= REQUEST_TIMEOUT
    modifies live
    ensures queued + (live.now - old(live.now)) <= RequestTimeout(fade)
    ensures |live.writes| > |old(live.writes)| && live.writes[|live.writes| - 1].value == target
  {
    hide Value, RequestTimeout, Part, Latest;
    var duration, steps := Duration(fade), StepCount(fade);
    live.FadeWriteValues(start, target, shape, duration, steps);
    if duration > 0.0 {
      FadeIsMonotone(start, target, shape, 0, 0, steps);
      ghost var last := live.writes[|live.writes| - 1];
      assert live.Timely(last, steps, old(live.now), start, target, shape, duration, steps);
    }
    DeadlineCovers(fade, live.most, queued, steps as real * live.most, live.now - old(live.now));
  }

  lemma DeadlineCovers(fade: Request, most: real, queued: real, slack: real, elapsed: real)
    requires Accepted(fade) && most > 0.0 && queued >= 0.0
    requires slack == StepCount(fade) as real * most && queued + slack <= REQUEST_TIMEOUT
    requires if Duration(fade) > 0.0 then elapsed <= Latest(StepCount(fade), Duration(fade), StepCount(fade), most)
             else elapsed <= most
    ensures queued + elapsed <= RequestTimeout(fade)
  {
    hide RequestTimeout, Latest;
    TimeoutLeavesRoom(fade);
    if Duration(fade) > 0.0 {
      LatestIsLater(0, Duration(fade), StepCount(fade), most);
    }
    OneOfMany(StepCount(fade), most, slack);
  }

  lemma OneOfMany(n: int, x: real, nx: real)
    requires n >= 1 && x >= 0.0 && nx == n as real * x
    ensures x <= nx
  {}

  lemma TimeoutLeavesRoom(fade: Request)
    requires Accepted(fade)
    ensures RequestTimeout(fade) >= Duration(fade) + REQUEST_TIMEOUT
  {
    hide WorkUnits;
  }

  // How long a command lasts at least: a fade for its duration.
  ghost function Lasts(command: Request): real {
    if Accepted(command) then Duration(command) else 0.0
  }

  ghost function TotalLasts(commands: seq<Request>): real {
    if commands == [] then 0.0 else TotalLasts(commands[..|commands| - 1]) + Lasts(commands[|commands| - 1])
  }

  // The seconds that the fades of a batch last, less the two that each of its work units is given.
  ghost function Excess(commands: seq<Request>): real {
    if commands == [] then 0.0
    else
      Excess(commands[..|commands| - 1])
      + Lasts(commands[|commands| - 1]) - PER_WORK_UNIT * WorkUnits(commands[|commands| - 1]) as real
  }

  lemma {:induction false} ExcessIsDifference(commands: seq<Request>)
    ensures Excess(commands) == TotalLasts(commands) - PER_WORK_UNIT * TotalUnits(commands) as real
  {
    hide WorkUnits, Lasts;
    if commands != [] {
      ExcessIsDifference(commands[..|commands| - 1]);
    }
  }

  // Inside a batch fades get no margin for their durations: together they last longer than the deadline
  // of the batch exactly when they exceed the time for its work units by more than 18 seconds.
  lemma BatchedFadesOutliveDeadline(commands: seq<Request>)
    requires TotalUnits(commands) >= 1
    ensures RequestTimeout(RunBatch(commands)) < TotalLasts(commands) <==> Excess(commands) > 18.0
  {
    hide TotalUnits, Lasts, Excess, TotalLasts;
    ExcessIsDifference(commands);
    assert WorkUnits(RunBatch(commands)) == TotalUnits(commands);
  }

  // One fade alone in a batch: exactly when its duration exceeds 20 seconds and two for each step, of
  // which at most 59 count.
  lemma BatchedFadeOutlivesDeadline(fade: Request)
    requires Accepted(fade)
    ensures RequestTimeout(RunBatch([fade])) < Duration(fade) <==>
            Duration(fade) > 20.0 + 2.0 * Least(59, StepCount(fade)) as real
  {
    assert TotalUnits([fade]) == WorkUnits(fade) by { assert [fade][..0] == []; }
  }

  // A fade of a minute in one step, for which a batch allows 22 seconds.
  lemma MinuteFadeOutlivesBatch()
    ensures var fade := LiveFade(Some(60.0), Some(1));
            Accepted(fade) && RequestTimeout(RunBatch([fade])) == 22.0 && RequestTimeout(fade) == 80.0
  {
    var fade := LiveFade(Some(60.0), Some(1));
    assert TotalUnits([fade]) == WorkUnits(fade) by { assert [fade][..0] == []; }
  }

  // The fades of a batch, one after the other, take at least as long as their durations add up to.
  method FadesInBatch(live: Live, start: real, target: real, shape: Shape, fades: seq<Request>)
    requires live.Valid() && forall fade <- fades :: Accepted(fade)
    modifies live
    ensures live.now - old(live.now) >= TotalLasts(fades)
  {
    hide Value, Part, Latest, live.Timely;
    for i := 0 to |fades|
      invariant live.now - old(live.now) >= TotalLasts(fades[..i])
    {
      assert fades[..i + 1][..i] == fades[..i] && Accepted(fades[i]);
      live.FadeWriteValues(start, target, shape, Duration(fades[i]), StepCount(fades[i]));
    }
    assert fades[..|fades|] == fades;
  }
}
