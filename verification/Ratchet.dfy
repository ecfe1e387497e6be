/**
 The quality gate: measurements against limits and a baseline, the update that lowers the baseline, and
 the ratchet that compares two baselines.

 The order in which lines are printed is not modelled.
 */
module Ratchet {
  import opened Wrappers

  datatype Metric = Complexity | FunctionLines | FileLines | OtherMetric(name: string)

  const FUNCTION_METRICS: set<Metric> := {Complexity, FunctionLines}

  const LIMITS: map<Metric, int> := map[Complexity := 10, FunctionLines := 60, FileLines := 500]

  datatype Entry = Number(value: int) | Metrics(values: map<Metric, int>)

  datatype Section = Functions | Files

  datatype Baseline = Baseline(limits: map<Metric, int>, functions: map<string, Entry>, files: map<string, Entry>) {
    function Entries(section: Section): map<string, Entry> {
      if section == Functions then functions else files
    }
  }

  datatype Measured = Measured(functions: map<string, map<Metric, int>>, files: map<string, int>) {
    // Each function is measured by exactly the function metrics.
    predicate Valid() {
      forall key :: key in functions ==> functions[key].Keys == FUNCTION_METRICS
    }
  }

  datatype Violation = Violation(section: Section, key: string, metric: Metric, value: int, allowed: int)

  datatype Line =
    | LimitAboveRef(limit: Metric)
    | NewEntry(section: Section, key: string)
    | NewMetric(section: Section, key: string, metric: Metric)
    | AboveRef(section: Section, key: string, metric: Metric)

  // ---------------------------------------------------------------- measurements and baselines

  function Lookup(b: Baseline, section: Section, key: string): Option<Entry> {
    if key in b.Entries(section) then Some(b.Entries(section)[key]) else None
  }

  // The value that a baseline entry sets for a metric.
  function Stored(metric: Metric, entry: Option<Entry>): Option<int> {
    if entry.Some? && entry.value.Metrics? && metric in entry.value.values then Some(entry.value.values[metric])
    else if metric == FileLines && entry.Some? && entry.value.Number? then Some(entry.value.value)
    else None
  }

  function Allowed(b: Baseline, section: Section, key: string, metric: Metric): int
    requires metric in LIMITS
  {
    var stored := Stored(metric, Lookup(b, section, key));
    if stored.Some? then stored.value else LIMITS[metric]
  }

  // The value of a metric, where it is one that the section is measured by.
  function Value(m: Measured, section: Section, key: string, metric: Metric): (value: Option<int>)
    requires m.Valid()
    ensures value.Some? ==> metric in LIMITS && (section == Files <==> metric == FileLines)
  {
    if section == Functions && key in m.functions && metric in FUNCTION_METRICS then Some(m.functions[key][metric])
    else if section == Files && key in m.files && metric == FileLines then Some(m.files[key])
    else None
  }

  predicate IsViolation(m: Measured, b: Baseline, v: Violation)
    requires m.Valid()
  {
    && Value(m, v.section, v.key, v.metric) == Some(v.value)
    && v.allowed == Allowed(b, v.section, v.key, v.metric) < v.value
  }

  ghost predicate Clean(m: Measured, b: Baseline)
    requires m.Valid()
  {
    forall v :: !IsViolation(m, b, v)
  }

  lemma CleanIsAllowed(m: Measured, b: Baseline, section: Section, key: string, metric: Metric)
    requires m.Valid() && Clean(m, b) && Value(m, section, key, metric).Some?
    ensures Value(m, section, key, metric).value <= Allowed(b, section, key, metric)
  {
    hide Value, Allowed;
    var value, allowed := Value(m, section, key, metric).value, Allowed(b, section, key, metric);
    assert !IsViolation(m, b, Violation(section, key, metric, value, allowed));
  }

  method MetricViolations(m: Measured, b: Baseline, section: Section, key: string, metric: Metric)
    returns (found: seq<Violation>)
    requires m.Valid() && Value(m, section, key, metric).Some?
    ensures forall v :: v in found <==> IsViolation(m, b, v) && v.section == section && v.key == key && v.metric == metric
  {
    hide Value, Allowed;
    var value, allowed := Value(m, section, key, metric).value, Allowed(b, section, key, metric);
    if value > allowed {
      return [Violation(section, key, metric, value, allowed)];
    }
    return [];
  }

  method SectionViolations(m: Measured, b: Baseline, section: Section, keys: set<string>, metrics: seq<Metric>)
    returns (found: seq<Violation>)
    requires m.Valid()
    requires forall key, metric :: Value(m, section, key, metric).Some? <==> key in keys && metric in metrics
    ensures forall v :: v in found <==> IsViolation(m, b, v) && v.section == section
  {
    hide Value, Allowed;
    found := [];
    var rest := keys;
    while rest != {}
      invariant rest <= keys
      invariant forall v :: v in found <==> IsViolation(m, b, v) && v.section == section && v.key !in rest
      decreases |rest|
    {
      var key :| key in rest;
      rest := rest - {key};
      for i := 0 to |metrics|
        invariant forall v :: v in found <==>
                    && IsViolation(m, b, v) && v.section == section
                    && v.key !in rest && (v.key == key ==> v.metric in metrics[..i])
      {
        assert metrics[..i + 1] == metrics[..i] + [metrics[i]];
        var more := MetricViolations(m, b, section, key, metrics[i]);
        found := found + more;
      }
      assert metrics[..|metrics|] == metrics;
    }
  }

  method Violations(m: Measured, b: Baseline) returns (found: seq<Violation>)
    requires m.Valid()
    ensures forall v :: v in found <==> IsViolation(m, b, v)
    ensures found == [] <==> Clean(m, b)
  {
    var functions := SectionViolations(m, b, Functions, m.functions.Keys, [Complexity, FunctionLines]);
    var files := SectionViolations(m, b, Files, m.files.Keys, [FileLines]);
    found := functions + files;
    assert found != [] ==> found[0] in found;
  }

  // The baseline of a measurement: only what is above its limit.
  function Payload(m: Measured): Baseline
    requires m.Valid()
  {
    Baseline(
      LIMITS,
      map key | key in m.functions && (exists metric <- FUNCTION_METRICS :: m.functions[key][metric] > LIMITS[metric]) ::
        Metrics(map metric | metric in FUNCTION_METRICS && m.functions[key][metric] > LIMITS[metric] ::
                  m.functions[key][metric]),
      map path | path in m.files && m.files[path] > LIMITS[FileLines] :: Number(m.files[path]))
  }

  // The baseline is rewritten only when it allows everything that was measured.
  method Update(b: Baseline, m: Measured) returns (updated: Option<Baseline>)
    requires m.Valid()
    ensures updated == if Clean(m, b) then Some(Payload(m)) else None
  {
    var violations := Violations(m, b);
    if violations != [] {
      return None;
    }
    return Some(Payload(m));
  }

  // ---------------------------------------------------------------- the ratchet

  function MetricsOf(entry: Entry): map<Metric, int> {
    if entry.Metrics? then entry.values else map[FileLines := entry.value]
  }

  function RefLimit(ref: Baseline, metric: Metric): int {
    if metric in ref.limits then ref.limits[metric] else 0
  }

  // Whether the ratchet prints a line.
  predicate Complains(tree: Baseline, ref: Baseline, line: Line) {
    match line
    case LimitAboveRef(metric) => metric in tree.limits && tree.limits[metric] > RefLimit(ref, metric)
    case NewEntry(section, key) => key in tree.Entries(section) && key !in ref.Entries(section)
    case NewMetric(section, key, metric) =>
      key in tree.Entries(section) && key in ref.Entries(section) && metric in MetricsOf(tree.Entries(section)[key]) &&
      metric !in MetricsOf(ref.Entries(section)[key])
    case AboveRef(section, key, metric) =>
      key in tree.Entries(section) && key in ref.Entries(section) && metric in MetricsOf(tree.Entries(section)[key]) &&
      metric in MetricsOf(ref.Entries(section)[key]) &&
      MetricsOf(tree.Entries(section)[key])[metric] > MetricsOf(ref.Entries(section)[key])[metric]
  }

  ghost predicate Passes(tree: Baseline, ref: Baseline) {
    forall line :: !Complains(tree, ref, line)
  }

  // Whether a line is about the section and the keys.
  predicate About(line: Line, section: Section, keys: set<string>) {
    !line.LimitAboveRef? && line.section == section && line.key in keys
  }

  // Whether a line is about one metric of an entry that both baselines have.
  predicate AboutMetric(line: Line, section: Section, key: string) {
    About(line, section, {key}) && !line.NewEntry?
  }

  method MetricLines(tree: Baseline, ref: Baseline, section: Section, key: string, metric: Metric)
    returns (lines: seq<Line>)
    requires key in tree.Entries(section) && key in ref.Entries(section)
    requires metric in MetricsOf(tree.Entries(section)[key])
    ensures forall line :: line in lines <==>
              Complains(tree, ref, line) && AboutMetric(line, section, key) && line.metric == metric
  {
    hide MetricsOf;
    var entry, refEntry := MetricsOf(tree.Entries(section)[key]), MetricsOf(ref.Entries(section)[key]);
    if metric !in refEntry {
      return [NewMetric(section, key, metric)];
    } else if entry[metric] > refEntry[metric] {
      return [AboveRef(section, key, metric)];
    }
    return [];
  }

  lemma ComplaintsAreAboutMetrics(tree: Baseline, ref: Baseline, section: Section, key: string)
    requires key in tree.Entries(section) && key in ref.Entries(section)
    ensures forall line :: Complains(tree, ref, line) && About(line, section, {key}) ==>
              AboutMetric(line, section, key) && line.metric in MetricsOf(tree.Entries(section)[key])
  {}

  method EntryLines(tree: Baseline, ref: Baseline, section: Section, key: string) returns (lines: seq<Line>)
    requires key in tree.Entries(section)
    ensures forall line :: line in lines <==> Complains(tree, ref, line) && About(line, section, {key})
  {
    if key !in ref.Entries(section) {
      return [NewEntry(section, key)];
    }
    lines := [];
    var entry := MetricsOf(tree.Entries(section)[key]);
    ComplaintsAreAboutMetrics(tree, ref, section, key);
    hide Complains, MetricsOf;
    var metrics := entry.Keys;
    while metrics != {}
      invariant metrics <= entry.Keys
      invariant forall line :: line in lines <==>
                  Complains(tree, ref, line) && AboutMetric(line, section, key) && line.metric !in metrics
      decreases |metrics|
    {
      var metric :| metric in metrics;
      metrics := metrics - {metric};
      var more := MetricLines(tree, ref, section, key, metric);
      lines := lines + more;
    }
  }

  method SectionLines(tree: Baseline, ref: Baseline, section: Section) returns (lines: seq<Line>)
    ensures forall line :: line in lines <==> Complains(tree, ref, line) && About(line, section, tree.Entries(section).Keys)
  {
    lines := [];
    var keys := tree.Entries(section).Keys;
    while keys != {}
      invariant keys <= tree.Entries(section).Keys
      invariant forall line :: line in lines <==>
                  Complains(tree, ref, line) && About(line, section, tree.Entries(section).Keys - keys)
      decreases |keys|
    {
      var key :| key in keys;
      keys := keys - {key};
      var more := EntryLines(tree, ref, section, key);
      lines := lines + more;
    }
  }

  method RatchetLines(tree: Baseline, ref: Baseline) returns (lines: seq<Line>)
    ensures forall line :: line in lines <==> Complains(tree, ref, line)
    ensures lines == [] <==> Passes(tree, ref)
  {
    lines := [];
    var metrics := tree.limits.Keys;
    while metrics != {}
      invariant metrics <= tree.limits.Keys
      invariant forall line :: line in lines <==>
                  Complains(tree, ref, line) && line.LimitAboveRef? && line.limit !in metrics
      decreases |metrics|
    {
      var metric :| metric in metrics;
      metrics := metrics - {metric};
      if tree.limits[metric] > RefLimit(ref, metric) {
        lines := lines + [LimitAboveRef(metric)];
      }
    }
    var functions := SectionLines(tree, ref, Functions);
    var files := SectionLines(tree, ref, Files);
    lines := lines + functions + files;
    assert lines != [] ==> lines[0] in lines;
  }

  // ---------------------------------------------------------------- what the gate keeps

  lemma PayloadStores(m: Measured, section: Section, key: string, metric: Metric)
    requires m.Valid() && metric in LIMITS
    ensures var value := Value(m, section, key, metric);
            Stored(metric, Lookup(Payload(m), section, key)) ==
            if value.Some? && value.value > LIMITS[metric] then value else None
  {}

  // An update within the old baseline allows what was measured, and passes the ratchet against the old
  // baseline exactly when no limit is above the limit that the old one records.
  lemma UpdatePassesRatchet(m: Measured, b: Baseline)
    requires m.Valid() && Clean(m, b)
    ensures Clean(m, Payload(m))
    ensures Passes(Payload(m), b) <==> forall metric <- LIMITS :: LIMITS[metric] <= RefLimit(b, metric)
  {
    var tree := Payload(m);
    forall v ensures !IsViolation(m, tree, v) {
      if Value(m, v.section, v.key, v.metric).Some? {
        PayloadStores(m, v.section, v.key, v.metric);
      }
    }
    forall line | Complains(tree, b, line) ensures line.LimitAboveRef? {
      if !line.LimitAboveRef? {
        StoredIsAllowed(m, b, line.section, line.key);
      }
    }
    if Passes(tree, b) {
      forall metric | metric in LIMITS ensures LIMITS[metric] <= RefLimit(b, metric) {
        assert !Complains(tree, b, LimitAboveRef(metric));
      }
    }
  }

  // What an update stores, the old baseline stored, and no less of it.
  lemma StoredIsAllowed(m: Measured, b: Baseline, section: Section, key: string)
    requires m.Valid() && Clean(m, b) && key in Payload(m).Entries(section)
    ensures key in b.Entries(section)
    ensures var entry, old' := MetricsOf(Payload(m).Entries(section)[key]), MetricsOf(b.Entries(section)[key]);
            forall metric <- entry :: metric in old' && entry[metric] <= old'[metric]
  {
    var entry := MetricsOf(Payload(m).Entries(section)[key]);
    PayloadEntry(m, section, key);
    hide Payload, Value;
    forall metric | metric in entry
      ensures key in b.Entries(section) && metric in MetricsOf(b.Entries(section)[key]) &&
              entry[metric] <= MetricsOf(b.Entries(section)[key])[metric]
    {
      CleanIsAllowed(m, b, section, key, metric);
    }
  }

  lemma PayloadEntry(m: Measured, section: Section, key: string)
    requires m.Valid() && key in Payload(m).Entries(section)
    ensures var entry := MetricsOf(Payload(m).Entries(section)[key]);
            && (exists metric :: metric in entry)
            && forall metric <- entry ::
                 Value(m, section, key, metric) == Some(entry[metric]) && entry[metric] > LIMITS[metric]
  {
    if section == Functions {
      var metric :| metric in FUNCTION_METRICS && m.functions[key][metric] > LIMITS[metric];
      assert metric in MetricsOf(Payload(m).functions[key]);
    } else {
      assert FileLines in MetricsOf(Payload(m).files[key]);
    }
  }

  predicate Measures(section: Section, metric: Metric) {
    metric in LIMITS && (section == Files <==> metric == FileLines)
  }

  // The reference stores nothing below its limit that the tree does not store.
  ghost predicate NothingBelowLimits(tree: Baseline, ref: Baseline) {
    forall section, key, metric :: Measures(section, metric) && Allowed(ref, section, key, metric) < LIMITS[metric] ==>
                                     Stored(metric, Lookup(tree, section, key)).Some?
  }

  ghost predicate Carries(tree: Baseline, ref: Baseline) {
    forall m: Measured :: m.Valid() && Clean(m, tree) ==> Clean(m, ref)
  }

  lemma PassingIsLower(tree: Baseline, ref: Baseline, section: Section, key: string, metric: Metric)
    requires Passes(tree, ref) && Measures(section, metric) && Stored(metric, Lookup(tree, section, key)).Some?
    ensures Allowed(tree, section, key, metric) <= Allowed(ref, section, key, metric)
  {
    assert !Complains(tree, ref, NewEntry(section, key));
    assert !Complains(tree, ref, NewMetric(section, key, metric));
    assert !Complains(tree, ref, AboveRef(section, key, metric));
  }

  // When the ratchet passes, whatever is clean under the tree is clean under the reference, for every
  // measurement, exactly when the reference has nothing below a limit that the tree leaves out.
  lemma RatchetCarriesCleanliness(tree: Baseline, ref: Baseline)
    requires Passes(tree, ref)
    ensures Carries(tree, ref) <==> NothingBelowLimits(tree, ref)
  {
    if NothingBelowLimits(tree, ref) {
      forall m: Measured | m.Valid() && Clean(m, tree) ensures Clean(m, ref) {
        forall v ensures !IsViolation(m, ref, v) {
          if Value(m, v.section, v.key, v.metric).Some? {
            CleanIsAllowed(m, tree, v.section, v.key, v.metric);
            AllowsAsMuch(tree, ref, v.section, v.key, v.metric);
          }
        }
      }
    }
    if Carries(tree, ref) {
      forall section, key, metric | Measures(section, metric) && Allowed(ref, section, key, metric) < LIMITS[metric]
        ensures Stored(metric, Lookup(tree, section, key)).Some?
      {
        var m := AtTheEdge(tree, section, key);
        EdgeIsClean(tree, section, key);
        CleanIsAllowed(m, ref, section, key, metric);
      }
    }
  }

  lemma AllowsAsMuch(tree: Baseline, ref: Baseline, section: Section, key: string, metric: Metric)
    requires Passes(tree, ref) && NothingBelowLimits(tree, ref) && Measures(section, metric)
    ensures Allowed(tree, section, key, metric) <= Allowed(ref, section, key, metric)
  {
    if Stored(metric, Lookup(tree, section, key)).Some? {
      PassingIsLower(tree, ref, section, key, metric);
    }
  }

  lemma EdgeIsClean(tree: Baseline, section: Section, key: string)
    ensures Clean(AtTheEdge(tree, section, key), tree)
    ensures forall metric :: Measures(section, metric) ==>
              Value(AtTheEdge(tree, section, key), section, key, metric) == Some(Allowed(tree, section, key, metric))
  {
    hide Allowed;
  }

  // A measurement of one key that uses up all that the tree allows for it.
  function AtTheEdge(tree: Baseline, section: Section, key: string): (m: Measured)
    ensures m.Valid()
  {
    if section == Files then Measured(map[], map[key := Allowed(tree, Files, key, FileLines)])
    else
      Measured(map[key := map[Complexity := Allowed(tree, Functions, key, Complexity),
                              FunctionLines := Allowed(tree, Functions, key, FunctionLines)]], map[])
  }

  const NO_BASELINE: Baseline := Baseline(map[], map[], map[])

  // The first baseline written where there was none does not pass the ratchet against none.
  lemma FirstBaselineFailsRatchet(m: Measured)
    requires m.Valid() && Clean(m, NO_BASELINE)
    ensures !Passes(Payload(m), NO_BASELINE)
  {
    UpdatePassesRatchet(m, NO_BASELINE);
    assert FileLines in LIMITS && LIMITS[FileLines] > RefLimit(NO_BASELINE, FileLines);
  }

  // The reference allows f a complexity of 5 and the tree, storing nothing, the limit of 10.  The ratchet
  // passes, and f at 8 is clean under the tree but not under the reference.
  lemma PassingHidesAStricterReference()
    ensures var ref := Baseline(LIMITS, map["f" := Metrics(map[Complexity := 5])], map[]);
            var tree := Baseline(LIMITS, map[], map[]);
            var m := Measured(map["f" := map[Complexity := 8, FunctionLines := 20]], map[]);
            Passes(tree, ref) && m.Valid() && Clean(m, tree) && !Clean(m, ref)
  {
    var ref := Baseline(LIMITS, map["f" := Metrics(map[Complexity := 5])], map[]);
    var m := Measured(map["f" := map[Complexity := 8, FunctionLines := 20]], map[]);
    assert IsViolation(m, ref, Violation(Functions, "f", Complexity, 8, 5));
  }

  // ---------------------------------------------------------------- chains of updates

  // Each measurement was clean under the baseline that the one before it wrote.
  ghost predicate Chain(b: Baseline, ms: seq<Measured>)
    decreases |ms|
  {
    ms == [] || (ms[0].Valid() && Clean(ms[0], b) && Chain(Payload(ms[0]), ms[1..]))
  }

  function AtLeast(a: int, b: int): int {
    if a > b then a else b
  }

  // Over any chain of updates nothing ever exceeds both its limit and its original baseline.
  lemma {:induction false} ChainNeverGrows(
    b: Baseline, ms: seq<Measured>, i: nat, section: Section, key: string, metric: Metric)
    requires Chain(b, ms) && i < |ms|
    ensures ms[i].Valid()
    ensures Value(ms[i], section, key, metric).Some? ==>
              Value(ms[i], section, key, metric).value <= AtLeast(LIMITS[metric], Allowed(b, section, key, metric))
    decreases i
  {
    if i == 0 {
      if Value(ms[0], section, key, metric).Some? {
        CleanIsAllowed(ms[0], b, section, key, metric);
      }
    } else {
      var m := ms[0];
      ChainNeverGrows(Payload(m), ms[1..], i - 1, section, key, metric);
      if Value(ms[i], section, key, metric).Some? {
        PayloadStores(m, section, key, metric);
        if Value(m, section, key, metric).Some? {
          CleanIsAllowed(m, b, section, key, metric);
        }
      }
    }
  }
}
